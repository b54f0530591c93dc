/** Whole histories on the level book with cached best prices. */
module LevelRuns {
  import opened Orders
  import opened BookSpec
  import opened BookRuns
  import opened HeapRefinement
  import LevelBook
  import LevelQueues
  import SliceBook

  /** Ids whose orders a cancel took off the book. */
  ghost function Withdrawn(cs: seq<Command>): set<nat> {
    if cs == [] then {}
    else
      var before, c := cs[..|cs| - 1], cs[|cs| - 1];
      Withdrawn(before) + (if c.Cancel? && Step(Run(before), c).1 == Cancelled(true) then {c.id} else {})
  }

  /** No order is cancelled again after a cancel that took it off the book. */
  ghost predicate NoSecondCancel(cs: seq<Command>) {
    forall k :: 0 <= k < |cs| && cs[k].Cancel? ==> cs[k].id !in Withdrawn(cs[..k])
  }

  lemma {:induction false} WithdrawnMentioned(cs: seq<Command>, id: nat)
    requires OncePerId(cs) && id in Withdrawn(cs)
    ensures Mentions(cs, id)
  {
    var before, c := cs[..|cs| - 1], cs[|cs| - 1];
    assert OncePerId(before);
    if id in Withdrawn(before) {
      WithdrawnMentioned(before, id);
    } else {
      RunValid(before);
      CancelKeepsValid(Run(before), id);
      assert Run(before).Live(id);
    }
    var i :| 0 <= i < |before| && before[i].Submit? && before[i].order.id == id;
    assert cs[i] == before[i];
  }

  datatype Answer = Trades(trades: seq<Trade>) | Done(ok: bool)

  function AnswerOf(out: Outcome): Answer {
    match out
    case Submitted(trades, _) => Trades(trades)
    case Cancelled(ok) => Done(ok)
  }

  ghost function Expected(cs: seq<Command>, k: nat): Answer
    requires k < |cs|
  {
    AnswerOf(Step(Run(cs[..k]), cs[k]).1)
  }

  /** The index does not know the id of a fresh submit, so the submit lands where it should. */
  lemma FreshLands(book: LevelBook.LevelOrderBook, cs: seq<Command>, k: nat)
    requires OncePerId(cs) && k < |cs| && cs[k].Submit?
    requires book.Holds(Run(cs[..k])) && book.gone == Withdrawn(cs[..k])
    ensures var b, o := Run(cs[..k]), cs[k].order;
            LevelQueues.Landed(b, o, Withdrawn(cs[..k])) == SubmitOrder(b, o).0
  {
    hide LevelBook.LevelOrderBook.Valid, LevelBook.LevelOrderBook.Cached, Book.Sound, Book.Live, SubmitOrder;
    FreshSubmit(cs, k);
    NeverWithdrawn(cs, k);
    StaysDead(Run(cs[..k]), cs[k].order);
  }

  lemma NeverWithdrawn(cs: seq<Command>, k: nat)
    requires OncePerId(cs) && k < |cs| && cs[k].Submit?
    ensures cs[k].order.id !in Withdrawn(cs[..k])
  {
    assert OncePerId(cs[..k]);
    if cs[k].order.id in Withdrawn(cs[..k]) {
      WithdrawnMentioned(cs[..k], cs[k].order.id);
    }
  }

  lemma StaysDead(b: Book, o: Order)
    requires b.Sound() && !b.Live(o.id)
    ensures !LevelQueues.Matched(b, o).Live(o.id)
  {
    MatchedSide(o.side == BUY, o, b.Side(o.side == BUY));
    hide MatchQueue;
  }

  lemma OneMore(cs: seq<Command>, k: nat)
    requires k < |cs|
    ensures Run(cs[..k + 1]) == Step(Run(cs[..k]), cs[k]).0
    ensures Withdrawn(cs[..k + 1]) ==
            Withdrawn(cs[..k]) + (if cs[k].Cancel? && Step(Run(cs[..k]), cs[k]).1 == Cancelled(true) then {cs[k].id} else {})
  {
    assert cs[..k + 1][..k] == cs[..k];
  }

  lemma Nothing(cs: seq<Command>)
    ensures Run(cs[..0]) == EMPTY && Withdrawn(cs[..0]) == {}
  {
  }

  lemma StepIs(b: Book, c: Command)
    ensures Step(b, c) == if c.Submit? then SubmitOrder(b, c.order) else CancelOrder(b, c.id)
    ensures c.Submit? ==> Step(b, c).1.Submitted?
    ensures c.Cancel? ==> Step(b, c).1.Cancelled?
  {
  }

  lemma HoldsSound(book: LevelBook.LevelOrderBook, b: Book)
    requires book.Holds(b)
    ensures Positive(b.bids) && Positive(b.asks) && Sorted(false, b.bids) && Sorted(true, b.asks) && b.Sound()
  {
  }

  ghost predicate InStep(book: LevelBook.LevelOrderBook, reference: SliceBook.NaiveOrderBook, cs: seq<Command>, i: nat)
    reads book, book.asks, book.bids, book.Repr(), reference
    requires i <= |cs|
  {
    book.Holds(Run(cs[..i])) && book.gone == Withdrawn(cs[..i]) && reference.View() == Run(cs[..i])
  }

  method SubmitBoth(book: LevelBook.LevelOrderBook, reference: SliceBook.NaiveOrderBook, o: Order, ghost b: Book)
    returns (answer: Answer, agreed: bool)
    requires book.Holds(b) && reference.View() == b && reference !in book.Repr()
    modifies book.Repr(), reference
    ensures book.Holds(LevelQueues.Landed(b, o, old(book.gone))) && book.gone == old(book.gone)
    ensures agreed && answer == AnswerOf(SubmitOrder(b, o).1) && reference.View() == SubmitOrder(b, o).0
    ensures fresh(book.Repr() - old(book.Repr()))
  {
    hide LevelBook.LevelOrderBook.Holds, SubmitOrder, Step, LevelQueues.Landed, Sorted, Positive;
    HoldsSound(book, b);
    StepIs(b, Submit(o));
    var trades := book.SubmitLimit(o, b);
    var expected := reference.SubmitLimit(o);
    answer, agreed := Trades(trades), trades == expected;
  }

  method CancelBoth(book: LevelBook.LevelOrderBook, reference: SliceBook.NaiveOrderBook, id: nat, ghost b: Book)
    returns (answer: Answer, agreed: bool)
    requires book.Holds(b) && reference.View() == b && reference !in book.Repr()
    modifies book.Repr(), reference
    ensures agreed <==> id !in old(book.gone)
    ensures agreed ==> book.Holds(CancelOrder(b, id).0) && reference.View() == CancelOrder(b, id).0
    ensures agreed ==> book.gone == old(book.gone) + (if CancelOrder(b, id).1 == Cancelled(true) then {id} else {})
    ensures agreed ==> answer == AnswerOf(CancelOrder(b, id).1)
    ensures !agreed ==> answer == Done(true) && AnswerOf(CancelOrder(b, id).1) == Done(false)
    ensures book.Repr() <= old(book.Repr())
  {
    hide LevelBook.LevelOrderBook.Holds, CancelOrder, Sorted, Positive, Book.Live;
    HoldsSound(book, b);
    book.Known(b, id);
    var ok := book.Cancel(id, b);
    var expected := reference.Cancel(id);
    answer, agreed := Done(ok), ok == expected;
  }

  /** One command on both books. */
  method StepBoth(book: LevelBook.LevelOrderBook, reference: SliceBook.NaiveOrderBook, cs: seq<Command>, i: nat)
    returns (answer: Answer, agreed: bool)
    requires OncePerId(cs) && i < |cs| && InStep(book, reference, cs, i) && reference !in book.Repr()
    modifies book.Repr(), reference
    ensures fresh(book.Repr() - old(book.Repr()))
    ensures agreed <==> !(cs[i].Cancel? && cs[i].id in Withdrawn(cs[..i]))
    ensures agreed ==> InStep(book, reference, cs, i + 1) && answer == Expected(cs, i)
    ensures !agreed ==> answer == Done(true) && Expected(cs, i) == Done(false)
  {
    hide LevelBook.LevelOrderBook.Holds, Step, Run, Withdrawn, OncePerId;
    OneMore(cs, i);
    StepIs(Run(cs[..i]), cs[i]);
    assert Withdrawn(cs[..i]) + {} == Withdrawn(cs[..i]);
    match cs[i] {
      case Submit(o) =>
        FreshLands(book, cs, i);
        answer, agreed := SubmitBoth(book, reference, o, Run(cs[..i]));
      case Cancel(id) =>
        answer, agreed := CancelBoth(book, reference, id, Run(cs[..i]));
    }
  }

  method NewBooks(ghost cs: seq<Command>)
    returns (book: LevelBook.LevelOrderBook, reference: SliceBook.NaiveOrderBook)
    ensures fresh(book.Repr()) && fresh(reference) && reference !in book.Repr() && InStep(book, reference, cs, 0)
  {
    hide LevelBook.LevelOrderBook.Holds, Run, Withdrawn;
    book := new LevelBook.LevelOrderBook();
    reference := new SliceBook.NaiveOrderBook();
    Nothing(cs);
  }

  method RunFrom(book: LevelBook.LevelOrderBook, reference: SliceBook.NaiveOrderBook, cs: seq<Command>, i: nat)
    returns (answers: seq<Answer>, agreed: bool)
    requires OncePerId(cs) && i <= |cs| && InStep(book, reference, cs, i) && reference !in book.Repr()
    modifies book.Repr(), reference
    ensures agreed <==> forall k :: i <= k < |cs| && cs[k].Cancel? ==> cs[k].id !in Withdrawn(cs[..k])
    ensures i + |answers| <= |cs| && (agreed ==> i + |answers| == |cs|)
    ensures forall k :: 0 <= k < |answers| && (agreed || k < |answers| - 1) ==> answers[k] == Expected(cs, i + k)
    ensures !agreed ==> answers != [] && answers[|answers| - 1] == Done(true)
    ensures !agreed ==> Expected(cs, i + |answers| - 1) == Done(false)
    ensures agreed ==> InStep(book, reference, cs, |cs|)
    decreases |cs| - i
  {
    hide InStep, LevelBook.LevelOrderBook.Repr, Withdrawn, OncePerId, Expected;
    if i == |cs| {
      return [], true;
    }
    var answer;
    answer, agreed := StepBoth(book, reference, cs, i);
    answers := [];
    if agreed {
      answers, agreed := RunFrom(book, reference, cs, i + 1);
    }
    answers := [answer] + answers;
  }

  /** Runs the level book and the sorted-slice book side by side until an answer differs. That happens
      if and only if some order is cancelled a second time, and then at the first such command: the
      level book says yes and the slice book no. Otherwise every trade and every answer agree, and in the
      end the level book's lists, index and cached best prices stand for the slice book's queues. */
  method RunBoth(cs: seq<Command>)
    returns (answers: seq<Answer>, agreed: bool, book: LevelBook.LevelOrderBook, reference: SliceBook.NaiveOrderBook)
    requires OncePerId(cs)
    ensures agreed <==> NoSecondCancel(cs)
    ensures agreed ==> InStep(book, reference, cs, |cs|)
    ensures agreed ==> |answers| == |cs| && forall k :: 0 <= k < |cs| ==> answers[k] == Expected(cs, k)
    ensures !agreed ==>
              && 0 < |answers| <= |cs|
              && (forall k :: 0 <= k < |answers| - 1 ==> answers[k] == Expected(cs, k))
              && answers[|answers| - 1] == Done(true) && Expected(cs, |answers| - 1) == Done(false)
  {
    hide InStep, LevelBook.LevelOrderBook.Repr, Withdrawn, OncePerId, Expected;
    book, reference := NewBooks(cs);
    answers, agreed := RunFrom(book, reference, cs, 0);
  }
}

/** The engine running on the heap book writes the same event log, byte for byte, as the engine
    running on the sorted-slice book. */
module HeapEngine {
  import opened Basics
  import opened Bytes
  import opened Orders
  import opened Events
  import opened HeapModel
  import opened HeapRefinement
  import opened Wal
  import opened Engine
  import opened Recovery
  import opened Lives
  import Runs = BookRuns
  import Codecs

  function OrderOf(t: Ticket): Order {
    Order(t.order, t.side, t.price, t.qty, t.user)
  }

  ghost function Emission(t: Ticket, out: Runs.Outcome): seq<Emitted> {
    if out.Submitted? then SubmitEvents(t.req, OrderOf(t), out.trades, out.rest) else []
  }

  /** The heap book behind its adapter. */
  ghost function HeapOrderBook(): OrderBook<Buckets> {
    OrderBook(NOTHING,
              (b, t) => var (b', out) := SubmitBuckets(b, OrderOf(t)); (b', Emission(t, out)),
              (b, req, id) => var (b', out) := CancelBuckets(b, id);
                              (b', CancelEvents(req, id, out == Runs.Cancelled(true)), out == Runs.Cancelled(true)))
  }

  /** The sorted-slice book behind the same adapter. */
  ghost function SliceOrderBook(): OrderBook<Runs.Book> {
    OrderBook(Runs.EMPTY,
              (b, t) => var (b', out) := Runs.SubmitOrder(b, OrderOf(t)); (b', Emission(t, out)),
              (b, req, id) => var (b', out) := Runs.CancelOrder(b, id);
                              (b', CancelEvents(req, id, out == Runs.Cancelled(true)), out == Runs.Cancelled(true)))
  }

  /** A logged command as the book sees it. */
  function AsBookCommand(c: Codecs.Command): Runs.Command {
    if c.typ == Codecs.CMD_CANCEL then Runs.Cancel(c.cancel) else Runs.Submit(OrderOf(TicketOf(c)))
  }

  function AsBookCommands(cs: seq<Codecs.Command>): (r: seq<Runs.Command>)
    ensures |r| == |cs|
    ensures forall i :: 0 <= i < |cs| ==> r[i] == AsBookCommand(cs[i])
  {
    seq(|cs|, i requires 0 <= i < |cs| => AsBookCommand(cs[i]))
  }

  lemma InitCommands(cs: seq<Codecs.Command>)
    requires cs != []
    ensures var bs := AsBookCommands(cs);
            bs[..|bs| - 1] == AsBookCommands(Init(cs)) && bs[|bs| - 1] == AsBookCommand(Last(cs))
  {
  }

  /** One command: equal outcomes give equal events. */
  lemma SameEvents(b: Buckets, s: Runs.Book, c: Codecs.Command)
    requires c.typ == Codecs.CMD_SUBMIT || c.typ == Codecs.CMD_CANCEL
    requires StepBuckets(b, AsBookCommand(c)).1 == Runs.Step(s, AsBookCommand(c)).1
    ensures var h, r := Replayed(HeapOrderBook(), b, c), Replayed(SliceOrderBook(), s, c);
            && h.0 == StepBuckets(b, AsBookCommand(c)).0 && r.0 == Runs.Step(s, AsBookCommand(c)).0 && h.1 == r.1
    ensures Faithful(HeapOrderBook(), b, c) <==> Faithful(SliceOrderBook(), s, c)
  {
    hide SubmitBuckets, CancelBuckets, Runs.SubmitOrder, Runs.CancelOrder, SubmitEvents, CancelEvents;
  }

  lemma {:induction false} BooksAgree(cs: History)
    requires Loggable(cs) && Runs.OncePerId(AsBookCommands(cs)) && TrapFree(AsBookCommands(cs))
    ensures BookAfter(HeapOrderBook(), cs) == RunBuckets(AsBookCommands(cs))
    ensures BookAfter(SliceOrderBook(), cs) == Runs.Run(AsBookCommands(cs))
    ensures Holds(BookAfter(HeapOrderBook(), cs), BookAfter(SliceOrderBook(), cs))
    ensures EventLog(HeapOrderBook(), cs) == EventLog(SliceOrderBook(), cs)
    decreases |cs|
  {
    var bs := AsBookCommands(cs);
    if cs != [] {
      hide Replayed, Holds, StepBuckets, Runs.Step, EventLog, HeapOrderBook, SliceOrderBook;
      InitCommands(cs);
      PrefixHistory(cs);
      BooksAgree(Init(cs));
      StepAgrees(cs);
      EventLogStep(HeapOrderBook(), cs);
      EventLogStep(SliceOrderBook(), cs);
    }
    assert bs[..|bs|] == bs;
    RunRefines(bs, |bs|);
  }

  lemma PrefixHistory(cs: History)
    requires cs != [] && Loggable(cs) && Runs.OncePerId(AsBookCommands(cs)) && TrapFree(AsBookCommands(cs))
    ensures Loggable(Init(cs)) && Runs.OncePerId(AsBookCommands(Init(cs))) && TrapFree(AsBookCommands(Init(cs)))
  {
    InitCommands(cs);
    var bs, before := AsBookCommands(cs), AsBookCommands(Init(cs));
    hide Traps;
    assert forall k :: 0 <= k < |before| ==> before[..k] == bs[..k];
  }

  lemma StepAgrees(cs: History)
    requires cs != [] && Loggable(cs) && Runs.OncePerId(AsBookCommands(cs)) && TrapFree(AsBookCommands(cs))
    ensures var before, c := AsBookCommands(Init(cs)), Last(cs);
            var h := Replayed(HeapOrderBook(), RunBuckets(before), c);
            var r := Replayed(SliceOrderBook(), Runs.Run(before), c);
            && h.0 == RunBuckets(AsBookCommands(cs)) && r.0 == Runs.Run(AsBookCommands(cs)) && h.1 == r.1
            && (Faithful(HeapOrderBook(), RunBuckets(before), c) <==> Faithful(SliceOrderBook(), Runs.Run(before), c))
  {
    hide TrapFree, Runs.OncePerId, StepBuckets, Runs.Step, Replayed, Faithful, HeapOrderBook, SliceOrderBook;
    InitCommands(cs);
    var bs := AsBookCommands(cs);
    RunRefines(bs, |bs|);
    assert StepBuckets(RunBuckets(bs[..|bs| - 1]), bs[|bs| - 1]).1 == Runs.Step(Runs.Run(bs[..|bs| - 1]), bs[|bs| - 1]).1;
    SameEvents(RunBuckets(AsBookCommands(Init(cs))), Runs.Run(AsBookCommands(Init(cs))), Last(cs));
  }

  lemma {:induction false} SurvivorsLoggable<B>(crc: Checksum, ob: OrderBook<B>, log: History, xs: seq<Life>)
    requires Loggable(log) && Survivors(crc, ob, log, xs).Some?
    ensures Loggable(Survivors(crc, ob, log, xs).value)
    decreases |xs|
  {
    if xs != [] {
      hide Gentle, Loggable;
      Gently(crc, ob, log, xs[0]);
      SurvivorsFaithful(ob, log, xs[0]);
      FaithfulLoggable(ob, Surviving(log, xs[0]));
      SurvivorsLoggable(crc, ob, Surviving(log, xs[0]), xs[1..]);
    }
  }

  /** After any number of lives and gentle crashes, the engine on the heap book has on disk exactly
      what the reference engine would have written for the surviving commands, and holds its book. */
  lemma SurvivesAsReference(crc: Checksum, xs: seq<Life>)
    requires Survivors(crc, HeapOrderBook(), [], xs).Some?
    requires var all := AsBookCommands(Survivors(crc, HeapOrderBook(), [], xs).value);
             Runs.OncePerId(all) && TrapFree(all)
    ensures var all := Survivors(crc, HeapOrderBook(), [], xs).value;
            var end := Outlived(crc, HeapOrderBook(), Full(crc, HeapOrderBook(), []), xs);
            && end.Some? && end.value.lastSeq == |all|
            && end.value.disk == Disk(Frames(crc, CmdLog(all)), Frames(crc, EventLog(SliceOrderBook(), all)))
            && Holds(end.value.book, Runs.Run(AsBookCommands(all)))
  {
    hide Survivors, Outlived, BookAfter, EventLog, CmdLog, Frames, HeapOrderBook, SliceOrderBook, Holds, TrapFree;
    hide Runs.OncePerId;
    SurvivorsLoggable(crc, HeapOrderBook(), [], xs);
    ManyLives(crc, HeapOrderBook(), [], xs);
    BooksAgree(Survivors(crc, HeapOrderBook(), [], xs).value);
  }
}

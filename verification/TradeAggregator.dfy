/** The aggregators as they run, for many symbols (internal/quotes/kline/agg.go). */
module TradeAggregator {
  import opened Basics
  import opened Bytes
  import opened Candles
  import opened Watermark
  import opened Rollup
  import Decimals

  datatype Trade = Trade(symbol: string, price: string, size: string, ts: int)

  // ---- bars of one symbol ----------------------------------------------------------------------

  function Of(bars: seq<Bar>, s: string): seq<Bar>
    decreases |bars|
  {
    if bars == [] then [] else Of(Init(bars), s) + (if Last(bars).symbol == s then [Last(bars)] else [])
  }

  lemma OfOne(bars: seq<Bar>, b: Bar, s: string)
    ensures Of(bars + [b], s) == Of(bars, s) + (if b.symbol == s then [b] else [])
  {
    assert Init(bars + [b]) == bars;
  }

  lemma {:induction false} OfAppend(a: seq<Bar>, b: seq<Bar>, s: string)
    ensures Of(a + b, s) == Of(a, s) + Of(b, s)
    decreases |b|
  {
    if b == [] {
      assert a + b == a;
    } else {
      OfAppend(a, Init(b), s);
      assert a + b == (a + Init(b)) + [Last(b)];
      OfOne(a + Init(b), Last(b), s);
    }
  }

  ghost predicate AllOf(bars: seq<Bar>, s: string) {
    forall i :: 0 <= i < |bars| ==> bars[i].symbol == s
  }

  lemma {:induction false} OfAll(bars: seq<Bar>, s: string, r: string)
    requires AllOf(bars, s)
    ensures Of(bars, r) == if r == s then bars else []
    decreases |bars|
  {
    if bars != [] {
      OfAll(Init(bars), s, r);
      assert bars == Init(bars) + [Last(bars)];
    }
  }

  // ---- insertion sort ----------------------------------------------------------------------------

  ghost predicate Nondecreasing(s: seq<int>) {
    forall p, q :: 0 <= p < q < |s| ==> s[p] <= s[q]
  }

  ghost function Bag(s: seq<int>): multiset<int> {
    multiset(s)
  }

  lemma Shifted(s: seq<int>, t: seq<int>, j: nat, x: int)
    requires j + 1 < |s| && t == s[j + 1 := s[j]]
    ensures Bag(t[j := x]) == Bag(s[j + 1 := x])
  {
    var front, back := s[..j], s[j + 2..];
    assert s[j + 1 := x] == front + [s[j]] + [x] + back;
    assert t[j := x] == front + [x] + [s[j]] + back;
    Swapped(front, s[j], x, back);
  }

  lemma Swapped(front: seq<int>, y: int, x: int, back: seq<int>)
    ensures multiset(front + [y] + [x] + back) == multiset(front + [x] + [y] + back)
  {
    var f, b := multiset(front), multiset(back);
    assert multiset(front + [y] + [x] + back) == f + multiset{y} + multiset{x} + b;
    assert multiset(front + [x] + [y] + back) == f + multiset{x} + multiset{y} + b;
  }

  /** In place, as the aggregator sorts its few ready starts. */
  method InsertionSort(a: array<int>)
    modifies a
    ensures Nondecreasing(a[..]) && multiset(a[..]) == multiset(old(a[..]))
  {
    var i := 1;
    while i < a.Length
      invariant 1 <= i && (i <= a.Length || a.Length == 0)
      invariant multiset(a[..]) == multiset(old(a[..]))
      invariant i <= a.Length ==> Nondecreasing(a[..i])
    {
      InsertInto(a, i);
      i := i + 1;
    }
    assert a.Length > 0 ==> a[..i] == a[..];
  }

  /** The first i + 1 elements are in order but for the hole at j + 1, and x belongs at or before it. */
  ghost predicate Gap(s: seq<int>, i: nat, j: int, x: int) {
    && -1 <= j < i < |s|
    && (forall p, q :: 0 <= p < q <= i && p != j + 1 && q != j + 1 ==> s[p] <= s[q])
    && (forall p :: j + 1 < p <= i ==> s[p] > x)
  }

  lemma GapMoves(s: seq<int>, i: nat, j: int, x: int)
    requires Gap(s, i, j, x) && j >= 0 && s[j] > x
    ensures Gap(s[j + 1 := s[j]], i, j - 1, x)
  {
  }

  lemma GapCloses(s: seq<int>, i: nat, j: int, x: int)
    requires Gap(s, i, j, x) && (j >= 0 ==> s[j] <= x)
    ensures Nondecreasing(s[j + 1 := x][..i + 1])
  {
  }

  lemma GapOpens(s: seq<int>, i: nat)
    requires 1 <= i < |s| && Nondecreasing(s[..i])
    ensures Gap(s, i, i - 1, s[i]) && s[i := s[i]] == s
  {
    assert forall p :: 0 <= p < i ==> s[..i][p] == s[p];
  }

  method InsertInto(a: array<int>, i: nat)
    requires 1 <= i < a.Length && Nondecreasing(a[..i])
    modifies a
    ensures Nondecreasing(a[..i + 1]) && Bag(a[..]) == Bag(old(a[..]))
  {
    hide Gap, Nondecreasing, Bag;
    var x, j := a[i], i - 1;
    assert a[..][..i] == a[..i];
    GapOpens(a[..], i);
    while j >= 0 && a[j] > x
      invariant -1 <= j < i && Gap(a[..], i, j, x)
      invariant Bag(a[..][j + 1 := x]) == Bag(old(a[..]))
    {
      ghost var s := a[..];
      GapMoves(s, i, j, x);
      a[j + 1] := a[j];
      assert a[..] == s[j + 1 := s[j]];
      Shifted(s, a[..], j, x);
      j := j - 1;
    }
    ghost var s := a[..];
    GapCloses(s, i, j, x);
    a[j + 1] := x;
    assert a[..] == s[j + 1 := x];
    assert a[..][..i + 1] == a[..i + 1];
  }

  ghost predicate Distinct(s: seq<int>) {
    forall p, q :: 0 <= p < q < |s| ==> s[p] != s[q]
  }

  lemma {:induction false} OnceEach(s: seq<int>)
    requires Distinct(s)
    ensures forall x :: x in s ==> multiset(s)[x] == 1
    decreases |s|
  {
    if s != [] {
      OnceEach(Init(s));
      assert s == Init(s) + [Last(s)];
      assert Last(s) !in Init(s);
    }
  }

  lemma TwiceIfRepeated(s: seq<int>, p: nat, q: nat)
    requires p < q < |s| && s[p] == s[q]
    ensures multiset(s)[s[p]] >= 2
  {
    assert s == s[..q] + [s[q]] + s[q + 1..];
    assert s[..q][p] == s[p];
  }

  /** Sorting distinct keys gives the one increasing sequence of them. */
  lemma SortedKeys(t: seq<int>, s: seq<int>, ks: set<int>)
    requires Distinct(t) && (forall x :: x in t <==> x in ks)
    requires Nondecreasing(s) && multiset(s) == multiset(t)
    ensures s == Sorted(ks)
  {
    OnceEach(t);
    forall p, q | 0 <= p < q < |s|
      ensures s[p] < s[q]
    {
      assert s[p] in multiset(s);
      if s[p] == s[q] {
        TwiceIfRepeated(s, p, q);
      }
    }
    forall x
      ensures x in s <==> x in ks
    {
      assert x in s <==> x in multiset(s);
    }
    SortedUnique(s, ks);
  }

  // ---- TradeAgg ------------------------------------------------------------------------------------

  function StateOf(sym: map<string, SymState>, s: string): SymState {
    if s in sym then sym[s] else FRESH
  }

  ghost predicate Own(st: SymState, s: string) {
    forall k :: k in st.bars ==> st.bars[k].symbol == s && st.bars[k].count > 0
  }

  /** The trade as numbers, if both decimals parse. */
  function Parsed(t: Trade): Option<Tick> {
    var p, z := Decimals.ParsedFixed(t.price), Decimals.ParsedFixed(t.size);
    if p.Some? && z.Some? then Some(Tick(t.ts, p.value, z.value)) else None
  }

  /** The starts that may be emitted, sorted. With `all` the watermark does not matter. */
  method CollectSorted(st: SymState, watermark: int, all: bool) returns (order: seq<int>)
    ensures order == Sorted(if all then set s | s in st.bars && Pending(st, s) else Ready(st, watermark))
  {
    ghost var ks := if all then set s | s in st.bars && Pending(st, s) else Ready(st, watermark);
    var rest, found: seq<int> := st.bars.Keys, [];
    while rest != {}
      invariant rest <= st.bars.Keys && Distinct(found)
      invariant forall x :: x in found <==> x in ks && x !in rest
    {
      var start := AnyOf(rest);
      rest := rest - {start};
      if st.hasEmitted && start <= st.last {
        continue;
      }
      if all || st.bars[start].end <= watermark {
        found := found + [start];
      }
    }
    var a := new int[|found|](i requires 0 <= i < |found| => found[i]);
    assert a[..] == found;
    InsertionSort(a);
    SortedKeys(found, a[..], ks);
    order := a[..];
  }

  lemma SortedParts(ks: set<int>, i: nat)
    requires i < |Sorted(ks)|
    ensures Sorted(ks)[i] in ks && ks != {} && Sorted(ks)[i] !in Sorted(ks)[..i]
  {
    assert Sorted(ks)[i] in Sorted(ks);
  }

  lemma SortedLast(ks: set<int>)
    requires ks != {}
    ensures Sorted(ks) != [] && Last(Sorted(ks)) == Greatest(ks)
  {
  }

  /** Hands the bars on in order, deleting each and remembering the last start. */
  method EmitAll(st: SymState, order: seq<int>, ghost ks: set<int>) returns (st': SymState, bars: seq<Bar>)
    requires ks <= st.bars.Keys && order == Sorted(ks)
    ensures (st', bars) == Emitted(st, ks)
  {
    hide Sorted, Greatest, Emitted;
    st', bars := st, [];
    for i := 0 to |order|
      invariant st' == SymState(st.latest, st.bars - (set x | x in order[..i]), if i == 0 then st.last else order[i - 1],
                                st.hasEmitted || i > 0)
      invariant |bars| == i && forall j :: 0 <= j < i ==> order[j] in st.bars && bars[j] == st.bars[order[j]]
    {
      SortedParts(ks, i);
      var start := order[i];
      if start in st'.bars {
        bars := bars + [st'.bars[start]];
        st' := SymState(st'.latest, st'.bars - {start}, start, true);
      }
      assert order[..i + 1] == order[..i] + [start];
    }
    assert order[..|order|] == order;
    EmittedFrom(st, ks, st', bars);
  }

  lemma EmittedFrom(st: SymState, ks: set<int>, st': SymState, bars: seq<Bar>)
    requires ks <= st.bars.Keys
    requires var order := Sorted(ks);
             && st' == SymState(st.latest, st.bars - (set x | x in order), if order == [] then st.last else Last(order),
                                st.hasEmitted || order != [])
             && |bars| == |order| && forall j :: 0 <= j < |order| ==> order[j] in st.bars && bars[j] == st.bars[order[j]]
    ensures (st', bars) == Emitted(st, ks)
  {
    var order := Sorted(ks);
    assert (set x | x in order) == ks;
    assert bars == BarsAt(st.bars, order);
    if ks != {} {
      SortedLast(ks);
    } else {
      assert order == [];
      assert st.bars - ks == st.bars;
    }
  }

  class TradeAgg {
    const cfg: Config
    var sym: map<string, SymState>
    var lateDrops: nat

    ghost predicate Valid()
      reads this
    {
      cfg.interval > 0 && forall s :: s in sym ==> Own(sym[s], s)
    }

    constructor (cfg: Config)
      requires cfg.interval > 0
      ensures Valid() && this.cfg == cfg && sym == map[] && lateDrops == 0
    {
      this.cfg, sym, lateDrops := cfg, map[], 0;
    }

    /** Bars that end by the watermark, in order. */
    method EmitReady(s: string, watermark: int) returns (bars: seq<Bar>)
      requires s in sym
      modifies this`sym
      ensures Ready(old(sym[s]), watermark) <= old(sym[s]).bars.Keys
      ensures sym == old(sym)[s := Emitted(old(sym[s]), Ready(old(sym[s]), watermark)).0]
      ensures bars == Emitted(old(sym[s]), Ready(old(sym[s]), watermark)).1
    {
      hide Sorted, Emitted;
      var order := CollectSorted(sym[s], watermark, false);
      var st;
      st, bars := EmitAll(sym[s], order, Ready(sym[s], watermark));
      sym := sym[s := st];
    }

    /** A trade that does not parse changes nothing. Any other moves the watermark; it is counted
        unless it is late; and whatever is then safe is emitted. */
    method OfferTrade(t: Trade) returns (bars: seq<Bar>)
      requires Valid()
      modifies this
      ensures Valid() && AllOf(bars, t.symbol)
      ensures match Parsed(t)
              case None => sym == old(sym) && bars == [] && lateDrops == old(lateDrops)
              case Some(tick) =>
                var before := StateOf(old(sym), t.symbol);
                && sym == old(sym)[t.symbol := Offered(cfg, t.symbol, before, tick).0]
                && bars == Offered(cfg, t.symbol, before, tick).1
                && lateDrops == old(lateDrops) + (if IsLate(cfg, before, tick) then 1 else 0)
    {
      hide Emitted, Ready, BucketStart, Decimals.ParsedFixed, Join, Own, AllOf;
      var price, ok := Decimals.ParseFixed(t.price);
      if !ok {
        NoBars(t.symbol);
        return [];
      }
      var size;
      size, ok := Decimals.ParseFixed(t.size);
      if !ok {
        NoBars(t.symbol);
        return [];
      }
      bars := Count(t.symbol, t.ts, price, size);
    }

    method Count(s: string, ts: int, price: i64, size: i64) returns (bars: seq<Bar>)
      requires Valid()
      modifies this
      ensures Valid() && AllOf(bars, s)
      ensures var before, tick := StateOf(old(sym), s), Tick(ts, price, size);
              && sym == old(sym)[s := Offered(cfg, s, before, tick).0]
              && bars == Offered(cfg, s, before, tick).1
              && lateDrops == old(lateDrops) + (if IsLate(cfg, before, tick) then 1 else 0)
    {
      hide Emitted, Ready, BucketStart, Join, Own, AllOf;
      var st := StateOf(sym, s);
      ghost var taken := Taken(cfg, s, st, Tick(ts, price, size));
      TakenOwn(cfg, s, sym, Tick(ts, price, size));
      EmittedOwn(taken, Ready(taken, taken.latest - cfg.window), s);
      if ts > st.latest {
        st := st.(latest := ts);
      }
      var watermark := st.latest - cfg.window;
      if cfg.window > 0 && ts < watermark {
        lateDrops := lateDrops + 1;
        sym := sym[s := st];
        bars := EmitReady(s, watermark);
        return;
      }
      var bs := BucketStart(ts, cfg.interval, cfg.offset);
      var b := if bs in st.bars then AddTo(st.bars[bs], price, size)
               else Bar(s, bs, bs + cfg.interval, Candle(price, price, price, price, size), 1);
      st := st.(bars := st.bars[bs := b]);
      sym := sym[s := st];
      bars := EmitReady(s, watermark);
    }

    /** All symbols, in any order. */
    method Flush() returns (bars: seq<Bar>)
      requires Valid()
      modifies this`sym
      ensures Valid() && sym.Keys == old(sym).Keys
      ensures forall s :: s in sym ==> sym[s] == Flushed(old(sym)[s]).0
      ensures forall s :: Of(bars, s) == Flushed(StateOf(old(sym), s)).1
    {
      hide FlushedSoFar, Flushed, Of, AllOf, Own;
      bars := [];
      var rest := sym.Keys;
      FlushStarts(sym);
      ghost var before := sym;
      while rest != {}
        invariant rest <= before.Keys && before == old(sym) && FlushedSoFar(before, sym, rest, bars)
      {
        var s := AnyOf(rest);
        FlushMoves(before, sym, rest, bars, s);
        var st, more := FlushOne(sym[s], s);
        rest := rest - {s};
        sym := sym[s := st];
        bars := bars + more;
      }
      FlushEnds(before, sym, bars);
    }
  }

  /** All symbols but those in `rest` are flushed. */
  ghost predicate FlushedSoFar(before: map<string, SymState>, now: map<string, SymState>, rest: set<string>, bars: seq<Bar>) {
    FlushedStates(before, now, rest) && FlushedBars(before, rest, bars)
  }

  ghost predicate FlushedStates(before: map<string, SymState>, now: map<string, SymState>, rest: set<string>) {
    && now.Keys == before.Keys && (forall s :: s in now ==> Own(now[s], s))
    && (forall s :: s in now ==> now[s] == if s in rest then before[s] else Flushed(before[s]).0)
  }

  ghost predicate FlushedBars(before: map<string, SymState>, rest: set<string>, bars: seq<Bar>) {
    forall s :: Of(bars, s) == if s in before && s !in rest then Flushed(before[s]).1 else []
  }

  lemma FlushStarts(sym: map<string, SymState>)
    requires forall s :: s in sym ==> Own(sym[s], s)
    ensures FlushedSoFar(sym, sym, sym.Keys, [])
  {
    hide Flushed;
  }

  lemma StatesMove(before: map<string, SymState>, now: map<string, SymState>, rest: set<string>, s: string)
    requires s in rest && rest <= before.Keys && FlushedStates(before, now, rest)
    ensures s in now && now[s] == before[s] && Own(now[s], s)
    ensures FlushedStates(before, now[s := Flushed(now[s]).0], rest - {s})
  {
    FlushedOwn(now[s], s);
    hide Flushed, Own;
  }

  lemma BarsMove(before: map<string, SymState>, rest: set<string>, bars: seq<Bar>, s: string, more: seq<Bar>)
    requires s in rest && rest <= before.Keys && FlushedBars(before, rest, bars)
    requires more == Flushed(before[s]).1 && AllOf(more, s)
    ensures FlushedBars(before, rest - {s}, bars + more)
  {
    hide Flushed, Of, AllOf;
    forall r
      ensures Of(bars + more, r) == if r in before && r !in rest - {s} then Flushed(before[r]).1 else []
    {
      OfAppend(bars, more, r);
      OfAll(more, s, r);
      assert Of(bars, r) == if r in before && r !in rest then Flushed(before[r]).1 else [];
    }
  }

  lemma FlushMoves(before: map<string, SymState>, now: map<string, SymState>, rest: set<string>, bars: seq<Bar>, s: string)
    requires s in rest && rest <= before.Keys && FlushedSoFar(before, now, rest, bars)
    ensures s in now && Own(now[s], s)
    ensures AllOf(Flushed(now[s]).1, s) ==>
              FlushedSoFar(before, now[s := Flushed(now[s]).0], rest - {s}, bars + Flushed(now[s]).1)
  {
    hide Flushed, Own, AllOf, FlushedStates, FlushedBars;
    StatesMove(before, now, rest, s);
    if AllOf(Flushed(now[s]).1, s) {
      BarsMove(before, rest, bars, s, Flushed(now[s]).1);
    }
  }

  lemma FlushEnds(before: map<string, SymState>, now: map<string, SymState>, bars: seq<Bar>)
    requires FlushedSoFar(before, now, {}, bars)
    ensures now.Keys == before.Keys && forall s :: s in now ==> Own(now[s], s)
    ensures forall s :: s in now ==> now[s] == Flushed(before[s]).0
    ensures forall s :: Of(bars, s) == Flushed(StateOf(before, s)).1
  {
    NothingToFlush();
    hide Flushed, Of;
  }

  /** Writes out one symbol's pending bars in order. */
  method FlushOne(st: SymState, s: string) returns (st': SymState, bars: seq<Bar>)
    requires Own(st, s)
    ensures (st', bars) == Flushed(st) && AllOf(bars, s)
  {
    hide Sorted, Greatest;
    ghost var ks := set k | k in st.bars && Pending(st, k);
    var order := CollectSorted(st, 0, true);
    st', bars := st, [];
    for i := 0 to |order|
      invariant st' == SymState(st.latest, st.bars, if i == 0 then st.last else order[i - 1], st.hasEmitted || i > 0)
      invariant |bars| == i && forall j :: 0 <= j < i ==> order[j] in st.bars && bars[j] == st.bars[order[j]]
    {
      SortedParts(ks, i);
      var start := order[i];
      if start in st.bars && st.bars[start].count > 0 {
        bars := bars + [st.bars[start]];
        st' := SymState(st'.latest, st.bars, start, true);
      }
    }
    FlushedFrom(st, ks, st', bars);
    st' := st'.(bars := map[]);
  }

  lemma FlushedFrom(st: SymState, ks: set<int>, st': SymState, bars: seq<Bar>)
    requires ks == set k | k in st.bars && Pending(st, k)
    requires var order := Sorted(ks);
             && st' == SymState(st.latest, st.bars, if order == [] then st.last else Last(order),
                                st.hasEmitted || order != [])
             && |bars| == |order| && forall j :: 0 <= j < |order| ==> order[j] in st.bars && bars[j] == st.bars[order[j]]
    ensures (st'.(bars := map[]), bars) == Flushed(st)
  {
    var order := Sorted(ks);
    assert bars == BarsAt(st.bars, order);
    if ks != {} {
      SortedLast(ks);
    }
  }

  lemma NothingToFlush()
    ensures Flushed(FRESH).1 == []
  {
    var ks := set k | k in FRESH.bars && Pending(FRESH, k);
    assert ks == {} && Sorted(ks) == [];
  }

  lemma NoneOf()
    ensures forall s :: Of([], s) == []
  {
  }

  lemma FlushedOwn(st: SymState, s: string)
    ensures Own(Flushed(st).0, s)
  {
  }

  lemma NoBars(s: string)
    ensures AllOf([], s)
  {
  }

  lemma TakenOwn(cfg: Config, s: string, sym: map<string, SymState>, t: Tick)
    requires cfg.interval > 0 && forall r :: r in sym ==> Own(sym[r], r)
    ensures Own(Taken(cfg, s, StateOf(sym, s), t), s)
  {
    hide BucketStart, Join;
    assert Own(FRESH, s);
  }

  /** Merges one trade into a bar. */
  function AddTo(b: Bar, price: i64, size: i64): (r: Bar)
    ensures r == b.(candle := Join(b.candle, OfTick(Tick(0, price, size))), count := b.count + 1)
  {
    var high := if price > b.candle.high then price else b.candle.high;
    var low := if price < b.candle.low then price else b.candle.low;
    b.(candle := Candle(b.candle.open, high, low, price, Plus(b.candle.volume, size)), count := b.count + 1)
  }

  lemma EmittedOwn(st: SymState, ks: set<int>, s: string)
    requires Own(st, s)
    ensures ks <= st.bars.Keys ==> Own(Emitted(st, ks).0, s) && AllOf(Emitted(st, ks).1, s)
  {
    if ks <= st.bars.Keys && ks != {} {
      var order := Sorted(ks);
      assert forall i :: 0 <= i < |order| ==> order[i] in order;
    }
  }

  // ---- RollupAgg -----------------------------------------------------------------------------------

  function CurOf(cur: map<string, Bar>, s: string): Option<Bar> {
    if s in cur then Some(cur[s]) else None
  }

  class RollupAgg {
    const cfg: RollConfig
    var cur: map<string, Bar>
    var lastClose: map<string, i64>
    var hasClose: map<string, bool>

    ghost predicate Valid()
      reads this
    {
      cfg.interval > 0 && forall s :: s in cur ==> cur[s].symbol == s && cur[s].count > 0
    }

    constructor (cfg: RollConfig)
      requires cfg.interval > 0
      ensures Valid() && this.cfg == cfg && cur == map[]
    {
      this.cfg, cur, lastClose, hasClose := cfg, map[], map[], map[];
    }

    /** Merges a child into the current bar, or closes that bar, fills the gap and opens the next. */
    method OfferBar(child: Bar) returns (bars: seq<Bar>)
      requires Valid()
      modifies this
      ensures Valid() && AllOf(bars, child.symbol)
      ensures var (c, es) := RollOffer(cfg, CurOf(old(cur), child.symbol), child);
              && bars == es && c.Some? && cur == old(cur)[child.symbol := c.value]
              && (es != [] ==> lastClose == old(lastClose)[child.symbol := es[0].candle.close])
              && (es == [] ==> lastClose == old(lastClose))
    {
      hide BucketStart, Plus;
      var bs := BucketStart(child.start, cfg.interval, cfg.offset);
      var be := bs + cfg.interval;
      var s := child.symbol;
      if s !in cur {
        cur := cur[s := Bar(s, bs, be, child.candle, 1)];
        return [];
      }
      var cb := cur[s];
      if bs > cb.start {
        bars := [cb];
        lastClose := lastClose[s := cb.candle.close];
        hasClose := hasClose[s := true];
        if cfg.fill && hasClose[s] {
          var fillers := Fill(s, lastClose[s], cb.start + cfg.interval, bs);
          bars := bars + fillers;
        }
        cur := cur[s := Bar(s, bs, be, child.candle, 1)];
        return;
      }
      if bs < cb.start {
        assert cur == cur[s := cb];
        return [];
      }
      var high := if child.candle.high > cb.candle.high then child.candle.high else cb.candle.high;
      var low := if child.candle.low < cb.candle.low then child.candle.low else cb.candle.low;
      cb := cb.(candle := Candle(cb.candle.open, high, low, child.candle.close,
                                 Plus(cb.candle.volume, child.candle.volume)),
                count := cb.count + 1);
      cur := cur[s := cb];
      bars := [];
    }

    method Fill(s: string, close: i64, from: int, bs: int) returns (bars: seq<Bar>)
      requires cfg.interval > 0
      ensures bars == Fillers(cfg, s, close, from, bs) && AllOf(bars, s)
    {
      var next := from;
      bars := [];
      assert [] + Fillers(cfg, s, close, from, bs) == Fillers(cfg, s, close, from, bs);
      while next < bs
        invariant Fillers(cfg, s, close, from, bs) == bars + Fillers(cfg, s, close, next, bs) && AllOf(bars, s)
        decreases bs - next
      {
        var empty := Bar(s, next, next + cfg.interval, Flat(close), 0);
        Associative(bars, [empty], Fillers(cfg, s, close, next + cfg.interval, bs));
        bars := bars + [empty];
        next := next + cfg.interval;
      }
    }

    /** The current bar of every symbol; they stay current. */
    method Flush() returns (bars: seq<Bar>)
      requires Valid()
      modifies this`lastClose, this`hasClose
      ensures Valid() && forall s :: Of(bars, s) == Tail(CurOf(cur, s))
    {
      hide Of, AllOf;
      bars := [];
      var rest := cur.Keys;
      NoneOf();
      while rest != {}
        invariant rest <= cur.Keys && Valid()
        invariant forall s :: Of(bars, s) == if s in rest then [] else Tail(CurOf(cur, s))
      {
        var s := AnyOf(rest);
        var cb := cur[s];
        if cb.count > 0 {
          forall r
            ensures Of(bars + [cb], r) == Of(bars, r) + (if r == s then [cb] else [])
          {
            OfOne(bars, cb, r);
          }
          bars := bars + [cb];
          lastClose := lastClose[s := cb.candle.close];
          hasClose := hasClose[s := true];
        }
        rest := rest - {s};
      }
    }
  }

}

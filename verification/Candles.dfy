/** Time buckets and the algebra of candles (internal/quotes/kline/agg.go). */
module Candles {
  import opened Basics
  import opened Bytes

  // ---- buckets -------------------------------------------------------------------------------

  /** Division as Go does it, truncating toward zero. */
  function Quotient(x: int, i: int): int
    requires i > 0
  {
    if x >= 0 then x / i else -(-x / i)
  }

  function BucketStart(ts: int, interval: int, offset: int): int
    requires interval > 0
  {
    Quotient(ts + offset, interval) * interval - offset
  }

  lemma DivBounds(x: int, i: int)
    requires i > 0 && x >= 0
    ensures 0 <= x / i * i <= x < x / i * i + i
  {
  }

  /** A bucket ends after every time in it, also for negative times; and its start, moved by the offset, is
      a multiple of the interval. */
  lemma BucketBounds(t: int, i: int, off: int)
    requires i > 0
    ensures t < BucketStart(t, i, off) + i
    ensures t + off >= 0 ==> BucketStart(t, i, off) <= t
    ensures t + off < 0 ==> t <= BucketStart(t, i, off) < t + i
    ensures exists q :: BucketStart(t, i, off) + off == q * i
  {
    assert BucketStart(t, i, off) + off == Quotient(t + off, i) * i;
    if t + off >= 0 {
      DivBounds(t + off, i);
    } else {
      DivBounds(-(t + off), i);
      assert -(-(t + off) / i) * i == -((-(t + off) / i) * i);
    }
  }

  lemma QuotientMonotone(x: int, y: int, i: int)
    requires i > 0 && x <= y
    ensures Quotient(x, i) <= Quotient(y, i)
  {
    if x >= 0 {
      DivMonotone(x, y, i);
    } else if y < 0 {
      DivMonotone(-y, -x, i);
    } else {
      DivMonotone(0, y, i);
      DivMonotone(0, -x, i);
    }
  }

  lemma DivMonotone(x: int, y: int, i: int)
    requires i > 0 && 0 <= x <= y
    ensures 0 <= x / i <= y / i
  {
    DivBounds(x, i);
    DivBounds(y, i);
    Scale(y / i, x / i, i);
  }

  lemma Scale(p: int, q: int, i: int)
    requires i > 0
    ensures p <= q ==> p * i <= q * i
    ensures p < q ==> p * i + i <= q * i
  {
    if p < q {
      assert (q - p - 1) * i >= 0;
    }
  }

  lemma BucketMonotone(t: int, u: int, i: int, off: int)
    requires i > 0 && t <= u
    ensures BucketStart(t, i, off) <= BucketStart(u, i, off)
  {
    QuotientMonotone(t + off, u + off, i);
    Scale(Quotient(t + off, i), Quotient(u + off, i), i);
  }

  /** Different buckets are at least one interval apart, and whole intervals apart. */
  lemma BucketsApart(t: int, u: int, i: int, off: int) returns (k: int)
    requires i > 0 && BucketStart(t, i, off) < BucketStart(u, i, off)
    ensures k >= 1 && BucketStart(u, i, off) == BucketStart(t, i, off) + k * i
  {
    var p, q := Quotient(t + off, i), Quotient(u + off, i);
    k := q - p;
    assert k * i == q * i - p * i;
    if k < 1 {
      Scale(q, p, i);
    }
  }

  lemma DivUnique(x: int, i: int, q: int)
    requires i > 0 && q * i <= x < q * i + i
    ensures x / i == q
  {
    var r := x / i;
    assert r * i <= x < r * i + i;
    if r < q {
      Scale(r, q, i);
    } else if r > q {
      Scale(q, r, i);
    }
  }

  lemma Multiples(p: int, q: int, i: int, n: int)
    requires i > 0 && n > 0 && p * n <= q < p * n + n
    ensures n * i > 0 && p * (n * i) <= q * i && q * i + i <= p * (n * i) + n * i
  {
    Scale(0, n, i);
    Scale(p * n, q, i);
    Scale(q, p * n + n, i);
    assert p * n * i == p * (n * i);
    assert (p * n + n) * i == p * n * i + n * i;
  }

  /** Rounding down to i and then to n * i is rounding down to n * i. */
  lemma DivNests(x: int, i: int, n: int)
    requires x >= 0 && i > 0 && n > 0
    ensures n * i > 0 && (x / i * i) / (n * i) == x / (n * i)
    ensures x / i * i >= 0
  {
    var q := x / i;
    DivBounds(x, i);
    DivBounds(q, n);
    Multiples(q / n, q, i, n);
    SameQuotient(x, q * i, i, n * i, q / n);
  }

  lemma SameQuotient(x: int, y: int, i: int, big: int, p: int)
    requires i > 0 && big > 0 && p * big <= y <= x < y + i <= p * big + big
    ensures y / big == p == x / big
  {
    DivUnique(y, big, p);
    DivUnique(x, big, p);
  }

  /** Nested bucketing: the minute of a trade is the minute of its second, and so on up, for every
      time, every common offset and every interval that is a multiple. */
  lemma BucketsNest(t: int, i: int, n: int, off: int)
    requires i > 0 && n > 0
    ensures n * i > 0
    ensures BucketStart(BucketStart(t, i, off), n * i, off) == BucketStart(t, n * i, off)
  {
    var x := t + off;
    if x >= 0 {
      DivNests(x, i, n);
    } else {
      DivNests(-x, i, n);
      var y := -x / i * i;
      assert Quotient(x, i) * i == -y;
    }
  }

  // ---- candles -------------------------------------------------------------------------------

  /** int64 addition, with wrap-around. */
  function Plus(a: i64, b: i64): i64 {
    Signed((a + b) % TWO64)
  }

  lemma PlusAssociative(a: i64, b: i64, c: i64)
    ensures Plus(Plus(a, b), c) == Plus(a, Plus(b, c))
  {
    SignedModulo(a + b);
    SignedModulo(b + c);
    ModuloAdds(Plus(a, b), a + b, c);
    ModuloAdds(Plus(b, c), b + c, a);
  }

  lemma SignedModulo(x: int)
    ensures Signed(x % TWO64) % TWO64 == x % TWO64
  {
  }

  lemma ModuloAdds(x: int, y: int, z: int)
    requires x % TWO64 == y % TWO64
    ensures (x + z) % TWO64 == (y + z) % TWO64
  {
  }

  lemma PlusZero(a: i64)
    ensures Plus(0, a) == a == Plus(a, 0)
  {
  }

  datatype Tick = Tick(ts: int, price: i64, size: i64)

  datatype Candle = Candle(open: i64, high: i64, low: i64, close: i64, volume: i64)

  /** Two stretches of trading, one after the other. */
  function Join(a: Candle, b: Candle): Candle {
    Candle(a.open, Max(a.high, b.high), Min(a.low, b.low), b.close, Plus(a.volume, b.volume))
  }

  lemma JoinAssociative(a: Candle, b: Candle, c: Candle)
    ensures Join(Join(a, b), c) == Join(a, Join(b, c))
  {
    PlusAssociative(a.volume, b.volume, c.volume);
    hide Plus;
  }

  function OfTick(t: Tick): Candle {
    Candle(t.price, t.price, t.price, t.price, t.size)
  }

  /** The candle of some trades in their order: first, highest, lowest, last, total. */
  function Fold(ts: seq<Tick>): Candle
    decreases |ts|
  {
    if ts == [] then Candle(0, 0, 0, 0, 0)
    else if |ts| == 1 then OfTick(ts[0])
    else Join(Fold(ts[..|ts| - 1]), OfTick(ts[|ts| - 1]))
  }

  lemma {:induction false} FoldAppend(a: seq<Tick>, b: seq<Tick>)
    requires a != [] && b != []
    ensures Fold(a + b) == Join(Fold(a), Fold(b))
    decreases |b|
  {
    var ab := a + b;
    assert ab[|ab| - 1] == b[|b| - 1];
    if |b| == 1 {
      assert ab[..|ab| - 1] == a;
    } else {
      var b' := b[..|b| - 1];
      assert ab[..|ab| - 1] == a + b';
      FoldAppend(a, b');
      JoinAssociative(Fold(a), Fold(b'), OfTick(b[|b| - 1]));
    }
  }

  function Total(ts: seq<Tick>): i64
    decreases |ts|
  {
    if ts == [] then 0 else Plus(Total(ts[..|ts| - 1]), ts[|ts| - 1].size)
  }

  /** What the fold's fields mean, without the fold: first and last price, total size, and bounds
      on every price that are attained. */
  lemma {:induction false} FoldMeans(ts: seq<Tick>)
    requires ts != []
    ensures Fold(ts).open == ts[0].price && Fold(ts).close == ts[|ts| - 1].price && Fold(ts).volume == Total(ts)
    ensures forall i :: 0 <= i < |ts| ==> Fold(ts).low <= ts[i].price <= Fold(ts).high
    ensures exists i :: 0 <= i < |ts| && ts[i].price == Fold(ts).high
    ensures exists i :: 0 <= i < |ts| && ts[i].price == Fold(ts).low
    decreases |ts|
  {
    if |ts| == 1 {
      assert ts[..0] == [] && Total(ts) == Plus(0, ts[0].size);
      PlusZero(ts[0].size);
      assert ts[0].price == Fold(ts).high;
    } else {
      var init, last := ts[..|ts| - 1], ts[|ts| - 1];
      FoldMeans(init);
      var h :| 0 <= h < |init| && init[h].price == Fold(init).high;
      var l :| 0 <= l < |init| && init[l].price == Fold(init).low;
      assert Fold(ts) == Join(Fold(init), OfTick(last)) && Total(ts) == Plus(Total(init), last.size);
      hide Fold, Total, Plus;
      assert ts[h] == init[h] && ts[l] == init[l];
      assert ts[|ts| - 1].price == Fold(ts).high || ts[h].price == Fold(ts).high;
      assert ts[|ts| - 1].price == Fold(ts).low || ts[l].price == Fold(ts).low;
    }
  }

  // ---- picking out a bucket ----------------------------------------------------------------------

  /** The trades of one bucket, in their order. */
  function Select(ts: seq<Tick>, i: int, off: int, start: int): seq<Tick>
    requires i > 0
    decreases |ts|
  {
    if ts == [] then []
    else
      Select(ts[..|ts| - 1], i, off, start) +
      (if BucketStart(ts[|ts| - 1].ts, i, off) == start then [ts[|ts| - 1]] else [])
  }

  lemma {:induction false} SelectAppend(a: seq<Tick>, b: seq<Tick>, i: int, off: int, start: int)
    requires i > 0
    ensures Select(a + b, i, off, start) == Select(a, i, off, start) + Select(b, i, off, start)
    decreases |b|
  {
    hide BucketStart;
    if b == [] {
      assert a + b == a;
    } else {
      SelectAppend(a, b[..|b| - 1], i, off, start);
      assert (a + b)[..|a + b| - 1] == a + b[..|b| - 1];
    }
  }

  lemma {:induction false} SelectMembers(ts: seq<Tick>, i: int, off: int, start: int)
    requires i > 0
    ensures forall t :: t in Select(ts, i, off, start) <==> t in ts && BucketStart(t.ts, i, off) == start
    decreases |ts|
  {
    hide BucketStart;
    if ts != [] {
      SelectMembers(ts[..|ts| - 1], i, off, start);
      assert ts == ts[..|ts| - 1] + [ts[|ts| - 1]];
    }
  }

  /** All trades in one bucket, or none of them. */
  lemma {:induction false} SelectAll(ts: seq<Tick>, i: int, off: int, start: int)
    requires i > 0
    ensures (forall t :: t in ts ==> BucketStart(t.ts, i, off) == start) ==> Select(ts, i, off, start) == ts
    ensures (forall t :: t in ts ==> BucketStart(t.ts, i, off) != start) ==> Select(ts, i, off, start) == []
    decreases |ts|
  {
    hide BucketStart;
    if ts != [] {
      SelectAll(ts[..|ts| - 1], i, off, start);
      assert ts == ts[..|ts| - 1] + [ts[|ts| - 1]];
    }
  }
}

/** The buckets of a short interval inside those of a longer one (internal/quotes/kline/agg.go,
    bucketStartMs). */
module InnerBuckets {
  import opened Candles

  /** The first bucket of width g inside bucket b of width i; truncation toward zero puts the buckets of
      non-positive times to the left of their start. */
  function Opening(b: int, i: int, g: int, off: int): int {
    if b + off > 0 then b else b - (i - g)
  }

  ghost predicate Aligned(b: int, i: int, off: int)
    requires i > 0
  {
    BucketStart(b, i, off) == b
  }

  lemma QuotientOf(q: int, i: int)
    requires i > 0
    ensures Quotient(q * i, i) == q
  {
    if q >= 0 {
      Scale(0, q, i);
      DivUnique(q * i, i, q);
    } else {
      Scale(q, 0, i);
      assert -(q * i) == -q * i;
      DivUnique(-q * i, i, -q);
    }
  }

  lemma Units(b: int, i: int, off: int) returns (q: int)
    requires i > 0 && Aligned(b, i, off)
    ensures b + off == q * i
  {
    q := Quotient(b + off, i);
  }

  lemma UnitsAligned(q: int, i: int, off: int)
    requires i > 0
    ensures Aligned(q * i - off, i, off)
  {
    QuotientOf(q, i);
  }

  lemma StartAligned(t: int, i: int, off: int)
    requires i > 0
    ensures Aligned(BucketStart(t, i, off), i, off)
  {
    BucketsNest(t, i, 1, off);
    assert 1 * i == i;
  }

  lemma AlignedUp(b: int, i: int, n: int, off: int)
    requires i > 0 && n > 0 && n * i > 0 && Aligned(b, n * i, off)
    ensures Aligned(b, i, off) && Aligned(Opening(b, n * i, i, off), i, off)
  {
    var p := Units(b, n * i, off);
    assert p * (n * i) == p * n * i;
    UnitsAligned(p * n, i, off);
    assert p * n * i - n * i + i == (p * n - n + 1) * i;
    UnitsAligned(p * n - n + 1, i, off);
  }

  lemma OpeningInside(b: int, i: int, g: int, off: int)
    requires 0 < g <= i && Aligned(b, i, off)
    ensures BucketStart(Opening(b, i, g, off), i, off) == b
  {
    if b + off <= 0 {
      var q := Units(b, i, off);
      Scale(0, -q, i);
      Scale(-q, 0, i);
      assert -q * i == -(q * i);
      DivUnique(-q * i + (i - g), i, -q);
    }
  }

  /** A trade in the opening of a bucket is in the bucket. */
  lemma InOpening(t: int, b: int, i: int, g: int, d: int, off: int)
    requires g > 0 && d > 0 && i == d * g > 0 && Aligned(b, i, off)
    ensures BucketStart(t, g, off) == Opening(b, i, g, off) ==> BucketStart(t, i, off) == b
  {
    Scale(1, d, g);
    OpeningInside(b, i, g, off);
    BucketsNest(t, g, d, off);
  }

  lemma QuotientScales(q: int, i: int, n: int)
    requires i > 0 && n > 0 && n * i > 0
    ensures Quotient(q * i, n * i) == Quotient(q, n)
  {
    if q >= 0 {
      DivScales(q, i, n);
      Scale(0, q, i);
    } else {
      DivScales(-q, i, n);
      Scale(q + 1, 0, i);
      assert -(q * i) == -q * i;
    }
  }

  lemma DivScales(q: int, i: int, n: int)
    requires q >= 0 && i > 0 && n > 0 && n * i > 0
    ensures (q * i) / (n * i) == q / n
  {
    DivBounds(q, n);
    Multiples(q / n, q, i, n);
    DivUnique(q * i, n * i, q / n);
  }

  /** Counting in units of the inner width: one step further is in the same bucket or at the opening of
      the next one. */
  lemma UnitStep(q: int, n: int)
    requires n > 0
    ensures var p', p := Quotient(q - 1, n), Quotient(q, n);
            && p' <= p <= p' + 1
            && (p' < p ==> q == if p > 0 then p * n else p * n - n + 1)
  {
    var p', p := Quotient(q - 1, n), Quotient(q, n);
    if q > 0 {
      UnitStepUp(q, n);
    } else {
      UnitStepUp(1 - q, n);
      assert p == -(-q / n) && p' == -((1 - q) / n);
      assert -(p * n) == -p * n && -(p' * n) == -p' * n;
    }
  }

  lemma UnitStepUp(q: int, n: int)
    requires n > 0 && q > 0
    ensures var p', p := (q - 1) / n, q / n;
            0 <= p' <= p <= p' + 1 && (p' < p ==> q == p * n && p == p' + 1)
  {
    var p', p := (q - 1) / n, q / n;
    DivBounds(q - 1, n);
    DivBounds(q, n);
    if p < p' {
      Scale(p, p', n);
    } else if p > p' {
      Scale(p', p, n);
      if p > p' + 1 {
        Scale(p' + 1, p, n);
      }
    }
  }

  lemma UnitProducts(q: int, p': int, p: int, i: int, n: int, big: int)
    requires i > 0 && n > 0 && big == n * i > 0 && p' <= p <= p' + 1
    requires p' < p ==> q == if p > 0 then p * n else p * n - n + 1
    ensures p' == p ==> p' * big == p * big
    ensures p' < p ==> p * big == p' * big + big && q * i == if p * big > 0 then p * big else p * big - (big - i)
  {
    Scale(0, p, big);
    Scale(p, 0, big);
    if p' < p {
      assert (p' + 1) * big == p' * big + big;
      assert p * big == p * n * i;
      assert (p * n - n + 1) * i == p * n * i - n * i + i;
    }
  }

  /** From one inner bucket to the next: the outer bucket stays, or it is the next one and the inner
      bucket is its opening. */
  lemma ChildStep(s: int, i: int, n: int, big: int, off: int)
    requires i > 0 && n > 0 && big == n * i > 0 && Aligned(s, i, off)
    ensures var b', b := BucketStart(s - i, big, off), BucketStart(s, big, off);
            b' == b || (b == b' + big && s == Opening(b, big, i, off))
  {
    var q := Units(s, i, off);
    UnitBuckets(s, q, i, n, big, off);
    UnitStep(q, n);
    UnitProducts(q, Quotient(q - 1, n), Quotient(q, n), i, n, big);
    hide BucketStart, Quotient;
  }

  lemma UnitBuckets(s: int, q: int, i: int, n: int, big: int, off: int)
    requires i > 0 && n > 0 && big == n * i > 0 && s + off == q * i
    ensures BucketStart(s, big, off) == Quotient(q, n) * big - off
    ensures BucketStart(s - i, big, off) == Quotient(q - 1, n) * big - off
  {
    assert (q - 1) * i == q * i - i;
    QuotientScales(q, i, n);
    QuotientScales(q - 1, i, n);
  }

  /** The opening is the first inner bucket. */
  lemma OpeningFirst(t: int, i: int, n: int, big: int, off: int)
    requires i > 0 && n > 0 && big == n * i > 0 && Aligned(t, i, off)
    ensures Opening(BucketStart(t, big, off), big, i, off) <= t
  {
    var b := BucketStart(t, big, off);
    StartAligned(t, big, off);
    AlignedUp(b, i, n, off);
    BucketBounds(t, big, off);
    if b + off > 0 {
      SameSign(t, big, off);
    } else {
      hide BucketStart;
      NextAligned(t, Opening(b, big, i, off), i, off);
    }
  }

  lemma NextAligned(t: int, r: int, i: int, off: int)
    requires i > 0 && Aligned(t, i, off) && Aligned(r, i, off) && r < t + i
    ensures r <= t
  {
    var p := Units(t, i, off);
    var q := Units(r, i, off);
    hide BucketStart;
    if p < q {
      Scale(p, q, i);
    }
  }

  lemma SameSign(t: int, i: int, off: int)
    requires i > 0 && BucketStart(t, i, off) + off > 0
    ensures t + off >= 0
  {
    if t + off < 0 {
      DivBounds(-(t + off), i);
      var k := -(t + off) / i;
      Scale(0, k, i);
    }
  }

  lemma OpeningOfOpening(b: int, big: int, i: int, g: int, off: int)
    requires g <= i <= big
    ensures Opening(Opening(b, big, i, off), i, g, off) == Opening(b, big, g, off)
  {
  }
}

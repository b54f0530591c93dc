/** Which strings the decimal parsers accept and what number each stands for, digit by digit
    (internal/quotes/kline/agg.go, exec/networks/coinbase/adapter.go). */
module DecimalMeaning {
  import opened Basics
  import opened Bytes
  import opened Decimals

  /** Each digit counts by the power of ten of its place; the first one has place `top`. */
  ghost function Weighed(digits: string, top: int): int
    decreases |digits|
  {
    if digits == [] then 0
    else
      var k := top - |digits| + 1;
      Weighed(Init(digits), top) + (Last(digits) as int - 48) * (if k >= 0 then Pow10(k) else 0)
  }

  lemma {:induction false} NumberWeighs(s: string, k: nat)
    ensures Number(s) * Pow10(k) == Weighed(s, |s| - 1 + k)
    decreases |s|
  {
    if s != [] {
      NumberWeighs(Init(s), k + 1);
      assert Number(s) == Number(Init(s)) * 10 + DigitValue(Last(s));
      Carry(Number(Init(s)), DigitValue(Last(s)), Pow10(k));
    }
  }

  lemma Carry(n: int, d: int, p: int)
    ensures (n * 10 + d) * p == n * (10 * p) + d * p
  {
  }

  lemma {:induction false} WeighedAppend(a: string, b: string, top: int)
    ensures Weighed(a + b, top) == Weighed(a, top) + Weighed(b, top - |a|)
    decreases |b|
  {
    if b == [] {
      assert a + b == a;
    } else {
      WeighedAppend(a, Init(b), top);
      assert Init(a + b) == a + Init(b) && Last(a + b) == Last(b);
    }
  }

  /** The fixed-point number, told by the places of its digits: units have place 8. */
  lemma FixedWeighs(neg: bool, ip: string, fp: string)
    ensures var w := Weighed(ip + First8(fp), |ip| + 7); Fixed(neg, ip, fp) == Wrap(if neg then -w else w)
  {
    hide Number, Pow10, Weighed, Wrap;
    var f := First8(fp);
    NumberWeighs(ip, 8);
    Pow8();
    NumberWeighs(f, 8 - |f|);
    WeighedAppend(ip, f, |ip| + 7);
  }

  // ---- the accepted strings ------------------------------------------------------------------------

  ghost predicate Spaces(s: string) {
    forall i :: 0 <= i < |s| ==> IsSpace(s[i])
  }

  function Written(neg: bool, ip: string, dot: bool, fp: string): string {
    (if neg then "-" else "") + ip + (if dot then "." + fp else "")
  }

  /** An optional sign, digits, and perhaps a point and what follows it; not nothing at all. */
  ghost predicate Reads(t: string, neg: bool, ip: string, dot: bool, fp: string) {
    t == Written(neg, ip, dot, fp) && t != [] && AllDigits(ip) && AllDigits(First8(fp)) && (dot || fp == [])
  }

  lemma {:induction false} NoSpacesLeft(pre: string, t: string)
    requires Spaces(pre) && (t != [] ==> !IsSpace(t[0]))
    ensures TrimLeft(pre + t) == t
  {
    if pre == [] {
      assert pre + t == t;
    } else {
      assert (pre + t)[1..] == pre[1..] + t;
      NoSpacesLeft(pre[1..], t);
    }
  }

  lemma {:induction false} NoSpacesRight(t: string, post: string)
    requires Spaces(post) && (t != [] ==> !IsSpace(Last(t)))
    ensures TrimRight(t + post) == t
    decreases |post|
  {
    if post == [] {
      assert t + post == t;
    } else {
      assert (t + post)[..|t + post| - 1] == t + Init(post);
      NoSpacesRight(t, Init(post));
    }
  }

  lemma {:induction false} LeftSpaces(s: string) returns (pre: string)
    ensures Spaces(pre) && s == pre + TrimLeft(s) && (TrimLeft(s) != [] ==> !IsSpace(TrimLeft(s)[0]))
  {
    if s != [] && IsSpace(s[0]) {
      pre := LeftSpaces(s[1..]);
      pre := [s[0]] + pre;
    } else {
      pre := [];
    }
  }

  lemma {:induction false} RightSpaces(s: string) returns (post: string)
    ensures Spaces(post) && s == TrimRight(s) + post && (TrimRight(s) != [] ==> !IsSpace(Last(TrimRight(s))))
    decreases |s|
  {
    if s != [] && IsSpace(Last(s)) {
      post := RightSpaces(Init(s));
      post := post + [Last(s)];
    } else {
      post := [];
    }
  }

  /** Trimming takes all spaces off both ends and nothing else. */
  lemma TrimIs(s: string, t: string)
    ensures t == Trim(s) <==>
            && (t != [] ==> !IsSpace(t[0]) && !IsSpace(Last(t)))
            && exists pre, post :: Spaces(pre) && Spaces(post) && s == pre + t + post
  {
    var pre := LeftSpaces(s);
    var post := RightSpaces(TrimLeft(s));
    assert s == pre + Trim(s) + post;
    assert Trim(s) != [] ==> TrimLeft(s)[0] == Trim(s)[0];
    if (t != [] ==> !IsSpace(t[0]) && !IsSpace(Last(t)))
       && exists pre, post :: Spaces(pre) && Spaces(post) && s == pre + t + post {
      var p, q :| Spaces(p) && Spaces(q) && s == p + t + q;
      TrimmedOff(p, t, q);
    }
  }

  lemma TrimmedOff(pre: string, t: string, post: string)
    requires Spaces(pre) && Spaces(post) && (t != [] ==> !IsSpace(t[0]) && !IsSpace(Last(t)))
    ensures Trim(pre + t + post) == t
  {
    if t == [] {
      assert pre + t + post == (pre + post) + [];
      NoSpacesLeft(pre + post, []);
      assert TrimRight([]) == [];
    } else {
      assert pre + t + post == pre + (t + post);
      NoSpacesLeft(pre, t + post);
      NoSpacesRight(t, post);
    }
  }

  // ---- accepted exactly when it reads ------------------------------------------------------------------

  lemma WrittenParts(neg: bool, ip: string, dot: bool, fp: string)
    requires AllDigits(ip) && (dot || fp == []) && Written(neg, ip, dot, fp) != []
    ensures var t := Written(neg, ip, dot, fp); var u := Decimals.Unsigned(t);
            Negative(t) == neg && IntPart(u) == ip && FracPart(u) == fp
  {
    var t := Written(neg, ip, dot, fp);
    var u := ip + (if dot then "." + fp else "");
    assert t == if neg then "-" + u else u;
    if neg {
      assert t[1..] == u;
    } else {
      assert u[0] == if ip != [] then ip[0] else '.';
      assert ip != [] ==> IsDigit(ip[0]);
    }
    PointAt(u, ip, dot, fp);
  }

  lemma PointAt(u: string, ip: string, dot: bool, fp: string)
    requires AllDigits(ip) && (dot || fp == []) && u == ip + (if dot then "." + fp else "")
    ensures IntPart(u) == ip && FracPart(u) == fp
  {
    assert forall i :: 0 <= i < |ip| ==> u[i] == ip[i] && u[i] != '.';
    if dot {
      assert u[|ip|] == '.';
      assert DotAt(u) == |ip|;
      assert u[|ip| + 1..] == fp;
    } else {
      assert u == ip;
      assert DotAt(u) == |u|;
    }
  }

  lemma PartsWritten(t: string)
    ensures var u := Decimals.Unsigned(t); t == Written(Negative(t), IntPart(u), DotAt(u) < |u|, FracPart(u))
  {
    var u := Decimals.Unsigned(t);
    if DotAt(u) < |u| {
      assert u == u[..DotAt(u)] + "." + u[DotAt(u) + 1..];
    }
    assert Negative(t) ==> t == "-" + u;
  }

  /** The k-line parser accepts exactly the strings that read, between spaces, as an optional sign, digits and
      perhaps a point and more, of which the first eight must be digits; and the number is that of those
      digits, each by its place, in 64-bit arithmetic. */
  lemma FixedReads(s: string, neg: bool, ip: string, dot: bool, fp: string)
    ensures Reads(Trim(s), neg, ip, dot, fp) ==>
              var w := Weighed(ip + First8(fp), |ip| + 7); ParsedFixed(s) == Some(Wrap(if neg then -w else w))
    ensures ParsedFixed(s).Some? ==>
              var u := Decimals.Unsigned(Trim(s)); Reads(Trim(s), Negative(Trim(s)), IntPart(u), DotAt(u) < |u|, FracPart(u))
  {
    hide Trim, Fixed, Wrap, Weighed;
    PartsWritten(Trim(s));
    if Reads(Trim(s), neg, ip, dot, fp) {
      WrittenParts(neg, ip, dot, fp);
      FixedWeighs(neg, ip, fp);
    }
  }

  /** The venue parser likewise, without spaces and with digits only. */
  lemma ScaledReads(s: string, neg: bool, ip: string, dot: bool, fp: string)
    ensures Reads(s, neg, ip, dot, fp) && AllDigits(fp) ==>
              var w := Weighed(ip + First8(fp), |ip| + 7); ParsedScaled(s) == Some(Wrap(if neg then -w else w))
    ensures ParsedScaled(s).Some? ==>
              var u := Decimals.Unsigned(s);
              Reads(s, Negative(s), IntPart(u), DotAt(u) < |u|, FracPart(u)) && AllDigits(FracPart(u))
  {
    hide Fixed, Wrap, Weighed;
    PartsWritten(s);
    if Reads(s, neg, ip, dot, fp) {
      WrittenParts(neg, ip, dot, fp);
      FixedWeighs(neg, ip, fp);
    }
  }

  /** Printed are a sign if the number is negative, its whole part without leading zeros, a point and all
      eight decimals; only the smallest int64 comes out otherwise. */
  lemma Printed(v: i64)
    requires v != -0x8000_0000_0000_0000
    ensures var u := Decimals.Unsigned(FormatFixed(v)); var ip, fp := IntPart(u), FracPart(u);
            && Reads(FormatFixed(v), v < 0, ip, true, fp)
            && |fp| == 8 && ip != [] && (|ip| > 1 ==> ip[0] != '0')
            && Weighed(ip + fp, |ip| + 7) == if v < 0 then -v else v
  {
    hide Decimal, Padded, Number, Weighed, DotAt, FormatFixed, Pow10, Negative, Decimals.Unsigned, IntPart, FracPart;
    hide AllDigits;
    var a := if v < 0 then 0 - v else v;
    Formatted(v, a);
    var ip, fp := Decimal(a / SCALE), Padded(a % SCALE, 8);
    DecimalReads(a / SCALE);
    NoLeadingZero(a / SCALE);
    Pow8();
    PaddedReads(a % SCALE, 8);
    NumberWeighs(ip, 8);
    NumberWeighs(fp, 0);
    PowZero();
    WeighedAppend(ip, fp, |ip| + 7);
    assert fp[..8] == fp;
    assert FormatFixed(v) == Written(v < 0, ip, true, fp);
    WrittenParts(v < 0, ip, true, fp);
  }

  lemma PowZero()
    ensures Pow10(0) == 1
  {
  }

  lemma {:induction false} NoLeadingZero(n: nat)
    ensures Decimal(n) != [] && (|Decimal(n)| > 1 ==> Decimal(n)[0] != '0') && (n > 0 ==> Decimal(n)[0] != '0')
  {
    if n >= 10 {
      NoLeadingZero(n / 10);
    }
  }
}

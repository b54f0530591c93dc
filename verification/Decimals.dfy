/** The two decimal parsers and the formatter (internal/quotes/kline/agg.go,
    exec/networks/coinbase/adapter.go). */
module Decimals {
  import opened Basics
  import opened Bytes

  const SCALE := 100_000_000

  /** What int64 arithmetic leaves of a number. */
  function Wrap(x: int): i64 {
    Signed(x % TWO64)
  }

  lemma Shift(x: int, k: int)
    ensures (x + TWO64 * k) % TWO64 == x % TWO64
  {
  }

  lemma WrapOff(x: int) returns (k: int)
    ensures Wrap(x) == x + TWO64 * k
  {
    k := if x % TWO64 < 0x8000_0000_0000_0000 then -(x / TWO64) else -(x / TWO64) - 1;
  }

  /** Wrapping early or late is the same, for the steps the parsers take. */
  lemma WrapStep(x: int, a: int, d: int)
    ensures Wrap(Wrap(x) * a + d) == Wrap(x * a + d)
  {
    var k := WrapOff(x);
    assert Wrap(x) * a + d == x * a + d + TWO64 * (k * a) by {
      assert (x + TWO64 * k) * a == x * a + TWO64 * (k * a);
    }
    Shift(x * a + d, k * a);
  }

  lemma WrapNegated(x: int)
    ensures Wrap(0 - Wrap(x)) == Wrap(-x)
  {
    var k := WrapOff(x);
    Shift(-x, -k);
  }

  // ---- digits --------------------------------------------------------------------------------

  predicate IsDigit(c: char) {
    '0' <= c <= '9'
  }

  predicate AllDigits(s: string) {
    forall i :: 0 <= i < |s| ==> IsDigit(s[i])
  }

  function DigitValue(c: char): int {
    c as int - '0' as int
  }

  function DigitChar(d: nat): char
    requires d < 10
  {
    ('0' as int + d) as char
  }

  /** The number some digits denote. */
  function Number(s: string): int
    decreases |s|
  {
    if s == [] then 0 else Number(s[..|s| - 1]) * 10 + DigitValue(s[|s| - 1])
  }

  function Pow10(k: nat): int {
    if k == 0 then 1 else 10 * Pow10(k - 1)
  }

  lemma NumberMore(s: string, c: char)
    ensures Number(s + [c]) == Number(s) * 10 + DigitValue(c)
  {
    assert (s + [c])[..|s|] == s;
  }

  lemma {:induction false} NumberBounds(s: string)
    requires AllDigits(s)
    ensures 0 <= Number(s) < Pow10(|s|)
    decreases |s|
  {
    if s != [] {
      NumberBounds(s[..|s| - 1]);
    }
  }

  // ---- what the strings denote -----------------------------------------------------------------

  predicate IsSpace(c: char) {
    var r := c as int;
    9 <= r <= 13 || r == 0x20 || r == 0x85 || r == 0xA0 || r == 0x1680 || 0x2000 <= r <= 0x200A ||
    r == 0x2028 || r == 0x2029 || r == 0x202F || r == 0x205F || r == 0x3000
  }

  function TrimLeft(s: string): string {
    if s != [] && IsSpace(s[0]) then TrimLeft(s[1..]) else s
  }

  function TrimRight(s: string): string
    decreases |s|
  {
    if s != [] && IsSpace(s[|s| - 1]) then TrimRight(s[..|s| - 1]) else s
  }

  function Trim(s: string): string {
    TrimRight(TrimLeft(s))
  }

  function DotAt(s: string): (k: nat)
    ensures k <= |s| && (k < |s| ==> s[k] == '.') && forall i :: 0 <= i < k ==> s[i] != '.'
  {
    if s == [] || s[0] == '.' then 0 else 1 + DotAt(s[1..])
  }

  function IntPart(s: string): string {
    s[..DotAt(s)]
  }

  function FracPart(s: string): string {
    if DotAt(s) == |s| then [] else s[DotAt(s) + 1..]
  }

  function First8(s: string): string {
    if |s| <= 8 then s else s[..8]
  }

  /** The fixed-point number: eight decimals, further ones cut off, in 64-bit arithmetic. */
  function Fixed(neg: bool, ip: string, fp: string): i64 {
    var f := First8(fp);
    var v := Number(ip) * SCALE + Number(f) * Pow10(8 - |f|);
    Wrap(if neg then -v else v)
  }

  predicate Negative(s: string) {
    s != [] && s[0] == '-'
  }

  function Unsigned(s: string): string {
    if Negative(s) then s[1..] else s
  }

  function ParsedFixed(s: string): Option<i64> {
    var t := Trim(s);
    var u := Unsigned(t);
    if t != [] && AllDigits(IntPart(u)) && AllDigits(First8(FracPart(u)))
    then Some(Fixed(Negative(t), IntPart(u), FracPart(u))) else None
  }

  function ParsedScaled(s: string): Option<i64> {
    var u := Unsigned(s);
    if s != [] && AllDigits(IntPart(u)) && AllDigits(FracPart(u))
    then Some(Fixed(Negative(s), IntPart(u), FracPart(u))) else None
  }

  // ---- the loops -------------------------------------------------------------------------------

  /** Adds the missing zeros. */
  method Pad(fp: int, digits: nat) returns (r: int)
    requires digits <= 8
    ensures r == fp * Pow10(8 - digits)
  {
    r := fp;
    var d := digits;
    while d < 8
      invariant digits <= d <= 8 && r * Pow10(8 - d) == fp * Pow10(8 - digits)
    {
      assert Pow10(8 - d) == 10 * Pow10(8 - d - 1);
      r, d := r * 10, d + 1;
    }
  }

  lemma Finish(neg: bool, ip: string, fp: string, w: i64, f: int)
    requires w == Wrap(Number(ip)) && f == Number(First8(fp)) * Pow10(8 - |First8(fp)|)
    ensures var v := Wrap(w * SCALE + f); (if neg then Wrap(0 - v) else v) == Fixed(neg, ip, fp)
  {
    WrapStep(Number(ip), SCALE, f);
    WrapNegated(Number(ip) * SCALE + f);
  }

  lemma NoDigits(s: string)
    ensures s[..0] == [] && AllDigits(s[..0]) && Wrap(Number(s[..0])) == 0 == Number(s[..0])
  {
  }

  lemma DigitRead(s: string, i: nat)
    requires i < |s| && AllDigits(s[..i]) && IsDigit(s[i])
    ensures AllDigits(s[..i + 1]) && Number(s[..i + 1]) == Number(s[..i]) * 10 + DigitValue(s[i])
    ensures Wrap(Wrap(Number(s[..i])) * 10 + DigitValue(s[i])) == Wrap(Number(s[..i + 1]))
  {
    assert s[..i + 1] == s[..i] + [s[i]];
    NumberMore(s[..i], s[i]);
    WrapStep(Number(s[..i]), 10, DigitValue(s[i]));
  }

  method ParseFixed(s: string) returns (v: i64, ok: bool)
    ensures ok == ParsedFixed(s).Some?
    ensures ok ==> v == ParsedFixed(s).value
  {
    hide Wrap, Number, Fixed, Pow10, Trim, DotAt, IntPart, FracPart, IsDigit, DigitValue;
    var t := Trim(s);
    if t == [] {
      return 0, false;
    }
    var neg := false;
    var u := t;
    if t[0] == '-' {
      neg, u := true, t[1..];
    }
    var intPart, fracPart := IntPart(u), FracPart(u);
    NoDigits(intPart);
    NoDigits(fracPart);
    var ip: i64 := 0;
    for i := 0 to |intPart|
      invariant AllDigits(intPart[..i]) && ip == Wrap(Number(intPart[..i]))
    {
      if !IsDigit(intPart[i]) {
        return 0, false;
      }
      DigitRead(intPart, i);
      ip := Wrap(ip * 10 + DigitValue(intPart[i]));
    }
    assert intPart[..|intPart|] == intPart;
    var fp, digits := 0, 0;
    while digits < |fracPart| && digits < 8
      invariant digits <= |fracPart| && digits <= 8 && AllDigits(fracPart[..digits]) && fp == Number(fracPart[..digits])
    {
      if !IsDigit(fracPart[digits]) {
        assert First8(fracPart)[digits] == fracPart[digits];
        return 0, false;
      }
      DigitRead(fracPart, digits);
      fp, digits := fp * 10 + DigitValue(fracPart[digits]), digits + 1;
    }
    assert First8(fracPart) == fracPart[..digits];
    fp := Pad(fp, digits);
    Finish(neg, intPart, fracPart, ip, fp);
    v, ok := Wrap(ip * SCALE + fp), true;
    if neg {
      v := Wrap(0 - v);
    }
  }

  /** Where the one-loop parser stands after i characters of u. */
  ghost predicate Scanned(u: string, i: nat, dot: bool, ip: i64, fp: int, digits: nat) {
    var ints, fracs := IntPart(u), FracPart(u);
    if !dot then i <= |ints| && AllDigits(ints[..i]) && ip == Wrap(Number(ints[..i])) && fp == 0 && digits == 0
    else
      && |ints| < i <= |u| && AllDigits(ints) && ip == Wrap(Number(ints))
      && var n := i - |ints| - 1;
         AllDigits(fracs[..n]) && digits == (if n < 8 then n else 8) && fp == Number(fracs[..digits])
  }

  lemma ScanStarts(u: string)
    ensures Scanned(u, 0, false, 0, 0, 0)
  {
    NoDigits(IntPart(u));
  }

  lemma ScanDot(u: string, i: nat, dot: bool, ip: i64, fp: int, digits: nat)
    requires i < |u| && Scanned(u, i, dot, ip, fp, digits) && u[i] == '.'
    ensures dot ==> !AllDigits(FracPart(u))
    ensures !dot ==> Scanned(u, i + 1, true, ip, fp, digits)
  {
    hide Wrap, Number;
    if dot {
      assert FracPart(u)[i - |IntPart(u)| - 1] == '.';
    } else {
      assert IntPart(u)[..i] == IntPart(u);
      NoDigits(FracPart(u));
    }
  }

  lemma ScanOther(u: string, i: nat, dot: bool, ip: i64, fp: int, digits: nat)
    requires i < |u| && Scanned(u, i, dot, ip, fp, digits) && u[i] != '.' && !IsDigit(u[i])
    ensures !AllDigits(IntPart(u)) || !AllDigits(FracPart(u))
  {
    hide Wrap, Number;
    assert if dot then FracPart(u)[i - |IntPart(u)| - 1] == u[i] else IntPart(u)[i] == u[i];
  }

  lemma ScanDigit(u: string, i: nat, dot: bool, ip: i64, fp: int, digits: nat)
    requires i < |u| && Scanned(u, i, dot, ip, fp, digits) && u[i] != '.' && IsDigit(u[i])
    ensures var d := DigitValue(u[i]);
            if !dot then Scanned(u, i + 1, dot, Wrap(ip * 10 + d), fp, digits)
            else if digits < 8 then Scanned(u, i + 1, dot, ip, fp * 10 + d, digits + 1)
            else Scanned(u, i + 1, dot, ip, fp, digits)
  {
    hide Wrap, Number, DigitValue;
    if !dot {
      assert IntPart(u)[i] == u[i];
      DigitRead(IntPart(u), i);
    } else {
      var n := i - |IntPart(u)| - 1;
      assert FracPart(u)[n] == u[i];
      DigitRead(FracPart(u), n);
    }
  }

  lemma ScanEnds(u: string, dot: bool, ip: i64, fp: int, digits: nat)
    requires Scanned(u, |u|, dot, ip, fp, digits)
    ensures AllDigits(IntPart(u)) && AllDigits(FracPart(u)) && digits <= 8
    ensures ip == Wrap(Number(IntPart(u))) && digits == |First8(FracPart(u))| && fp == Number(First8(FracPart(u)))
  {
    hide Wrap;
    var ints, fracs := IntPart(u), FracPart(u);
    assert ints[..|ints|] == ints && fracs[..|fracs|] == fracs;
    assert First8(fracs) == fracs[..digits];
  }

  method ParseScaled(s: string) returns (v: i64, ok: bool)
    ensures ok == ParsedScaled(s).Some?
    ensures ok ==> v == ParsedScaled(s).value
  {
    hide Wrap, Number, Fixed, Pow10, DotAt, IntPart, FracPart, IsDigit, DigitValue, Scanned;
    if s == [] {
      return 0, false;
    }
    var neg := false;
    var u := s;
    if s[0] == '-' {
      neg, u := true, s[1..];
    }
    var ip: i64, fp, digits: nat, dot := 0, 0, 0, false;
    ScanStarts(u);
    for i := 0 to |u|
      invariant Scanned(u, i, dot, ip, fp, digits)
    {
      var ch := u[i];
      if ch == '.' {
        ScanDot(u, i, dot, ip, fp, digits);
        if dot {
          return 0, false;
        }
        dot := true;
        continue;
      }
      if !IsDigit(ch) {
        ScanOther(u, i, dot, ip, fp, digits);
        return 0, false;
      }
      ScanDigit(u, i, dot, ip, fp, digits);
      var d := DigitValue(ch);
      if !dot {
        ip := Wrap(ip * 10 + d);
      } else if digits < 8 {
        fp, digits := fp * 10 + d, digits + 1;
      }
    }
    ScanEnds(u, dot, ip, fp, digits);
    fp := Pad(fp, digits);
    Finish(neg, IntPart(u), FracPart(u), ip, fp);
    v, ok := Wrap(ip * SCALE + fp), true;
    if neg {
      v := Wrap(0 - v);
    }
  }

  // ---- the two parsers agree -------------------------------------------------------------------

  lemma NoSpaceNoTrim(s: string)
    requires s != [] ==> !IsSpace(s[0]) && !IsSpace(s[|s| - 1])
    ensures Trim(s) == s
  {
  }

  lemma PartsCover(u: string)
    requires u != []
    ensures u[|u| - 1] == '.' || u[|u| - 1] in IntPart(u) || u[|u| - 1] in FracPart(u)
    ensures u[0] == '.' || u[0] in IntPart(u)
  {
    var k := DotAt(u);
    if k == |u| {
      assert IntPart(u)[|u| - 1] == u[|u| - 1];
    } else if k < |u| - 1 {
      assert FracPart(u)[|u| - 2 - k] == u[|u| - 1];
    }
    if k > 0 {
      assert IntPart(u)[0] == u[0];
    }
  }

  /** The venue parser is the stricter one: it accepts exactly the strings that the k-line parser
      accepts without trimming anything and with nothing but digits after the point; and then both
      give the same number. */
  lemma ScaledWithinFixed(s: string)
    ensures ParsedScaled(s).Some? ==> ParsedFixed(s) == ParsedScaled(s)
    ensures ParsedScaled(s).Some? <==>
            ParsedFixed(s).Some? && Trim(s) == s && AllDigits(FracPart(Unsigned(s)))
  {
    if ParsedScaled(s).Some? {
      var u := Unsigned(s);
      if u != [] {
        PartsCover(u);
        assert forall c :: c in IntPart(u) ==> IsDigit(c);
        assert forall c :: c in FracPart(u) ==> IsDigit(c);
        assert s[|s| - 1] == u[|u| - 1];
      }
      NoSpaceNoTrim(s);
    }
  }

  // ---- formatting ------------------------------------------------------------------------------

  function Decimal(n: nat): string {
    if n < 10 then [DigitChar(n)] else Decimal(n / 10) + [DigitChar(n % 10)]
  }

  function Padded(n: nat, k: nat): (s: string)
    ensures |s| == k
    decreases k
  {
    if k == 0 then [] else Padded(n / 10, k - 1) + [DigitChar(n % 10)]
  }

  /** The smallest int64 stays negative when negated, so both its parts print with a sign. */
  function FormatFixed(v: i64): string {
    var neg := v < 0;
    var a := if neg then Wrap(0 - v) else v;
    var body := if a >= 0 then Decimal(a / SCALE) + "." + Padded(a % SCALE, 8)
                else "-" + Decimal(-a / SCALE) + "." + "-" + Decimal(-a % SCALE);
    if neg then "-" + body else body
  }

  lemma {:induction false} DecimalReads(n: nat)
    ensures AllDigits(Decimal(n)) && Decimal(n) != [] && Number(Decimal(n)) == n
  {
    if n < 10 {
      assert Decimal(n)[..0] == [];
    } else {
      DecimalReads(n / 10);
      NumberMore(Decimal(n / 10), DigitChar(n % 10));
    }
  }

  lemma {:induction false} PaddedReads(n: nat, k: nat)
    requires n < Pow10(k)
    ensures AllDigits(Padded(n, k)) && Number(Padded(n, k)) == n
    decreases k
  {
    if k > 0 {
      PaddedReads(n / 10, k - 1);
      NumberMore(Padded(n / 10, k - 1), DigitChar(n % 10));
    }
  }

  lemma {:induction false} DotAfterDigits(a: string, b: string)
    requires AllDigits(a)
    ensures DotAt(a + "." + b) == |a|
  {
    var s := a + "." + b;
    assert s[|a|] == '.';
    assert forall i :: 0 <= i < |a| ==> s[i] == a[i] && s[i] != '.';
  }

  lemma Pow8()
    ensures Pow10(8) == SCALE
  {
    assert Pow10(4) == 10000;
  }

  /** Parsing undoes formatting for every int64 but the smallest, and for that one it does not. */
  lemma FormatRoundTrip(v: i64)
    ensures ParsedFixed(FormatFixed(v)) == Some(v) <==> v != -0x8000_0000_0000_0000
  {
    if v == -0x8000_0000_0000_0000 {
      SmallestFails();
    } else {
      var a := if v < 0 then 0 - v else v;
      Formatted(v, a);
      BodyReads(v < 0, a);
    }
  }

  function Body(a: nat): string {
    Decimal(a / SCALE) + "." + Padded(a % SCALE, 8)
  }

  lemma Formatted(v: i64, a: nat)
    requires v != -0x8000_0000_0000_0000 && a == if v < 0 then 0 - v else v
    ensures FormatFixed(v) == if v < 0 then "-" + Body(a) else Body(a)
  {
    WrapSmall(0 - v);
    hide Decimal, Padded, Wrap;
  }

  lemma WrapSmall(x: i64)
    ensures Wrap(x) == x
  {
  }

  lemma BodyReads(neg: bool, a: nat)
    requires a < 0x8000_0000_0000_0000
    ensures ParsedFixed(if neg then "-" + Body(a) else Body(a)) == Some(if neg then 0 - a else a)
  {
    var ip, fp := Decimal(a / SCALE), Padded(a % SCALE, 8);
    DecimalReads(a / SCALE);
    Pow8();
    PaddedReads(a % SCALE, 8);
    DotAfterDigits(ip, fp);
    hide Decimal, Padded, Number, Trim, DotAt, Wrap;
    SignedShape(neg, ip, fp);
    FixedIs(neg, ip, fp, a);
  }

  /** A sign, digits, a point and eight digits come apart again. */
  lemma SignedShape(neg: bool, ip: string, fp: string)
    requires ip != [] && AllDigits(ip) && |fp| == 8 && AllDigits(fp) && DotAt(ip + "." + fp) == |ip|
    ensures var u := ip + "." + fp; var s := if neg then "-" + u else u;
            Trim(s) == s && Unsigned(s) == u && Negative(s) == neg && IntPart(u) == ip && FracPart(u) == fp
  {
    hide Trim, DotAt;
    var u := ip + "." + fp;
    var s := if neg then "-" + u else u;
    assert u[0] == ip[0] && u[|u| - 1] == fp[7];
    assert s[|s| - 1] == u[|u| - 1] && s[0] == if neg then '-' else ip[0];
    NoSpaceNoTrim(s);
    assert ("-" + u)[1..] == u;
  }

  lemma FixedIs(neg: bool, ip: string, fp: string, a: nat)
    requires a < 0x8000_0000_0000_0000 && |fp| == 8 && Number(ip) == a / SCALE && Number(fp) == a % SCALE
    ensures Fixed(neg, ip, fp) == if neg then 0 - a else a
  {
    assert First8(fp) == fp && Pow10(0) == 1;
    hide Number;
  }

  lemma SmallestFails()
    ensures ParsedFixed(FormatFixed(-0x8000_0000_0000_0000)).None?
  {
    var a := 0x8000_0000_0000_0000;
    var ip, fp := Decimal(a / SCALE), Decimal(a % SCALE);
    DecimalReads(a / SCALE);
    DecimalReads(a % SCALE);
    var body := "-" + ip + "." + "-" + fp;
    var s := FormatFixed(-a);
    assert Wrap(a) == -a;
    assert s == "-" + body;
    assert s[0] == '-' && s[|s| - 1] == fp[|fp| - 1];
    NoSpaceNoTrim(s);
    assert s[1..] == body && body[0] == '-';
    assert IntPart(body) == [] || IntPart(body)[0] == '-';
  }
}

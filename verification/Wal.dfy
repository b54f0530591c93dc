/** The framed log (pkg/wal/wal.go, reader.go): length, checksum, payload. A file is its bytes; the
    checksum is any function. */
module Wal {
  import opened Basics
  import opened Bytes

  type Checksum = seq<byte> -> u32

  const HEADER_SIZE := 8
  const DEFAULT_MAX_PAYLOAD := 4194304

  function Frame(crc: Checksum, p: seq<byte>): seq<byte> {
    LE(|p| % 0x1_0000_0000, 4) + LE(crc(p), 4) + p
  }

  function Frames(crc: Checksum, ps: seq<seq<byte>>): seq<byte> {
    if ps == [] then [] else Frame(crc, ps[0]) + Frames(crc, ps[1..])
  }

  /** What the reader meets at some point of a file. */
  datatype Item =
    | Record(payload: seq<byte>, rest: seq<byte>)
    | End          // nothing left
    | CutHeader    // fewer bytes than a header
    | HeaderOnly   // a whole header, not one byte of a non-empty payload
    | CutPayload   // part of the payload
    | TooLarge
    | BadSum

  function ReadFrame(crc: Checksum, max: nat, s: seq<byte>): Item {
    if s == [] then End
    else if |s| < HEADER_SIZE then CutHeader
    else
      var ln := FromLE(s[..4]);
      if ln > max then TooLarge
      else if ln > 0 && |s| == HEADER_SIZE then HeaderOnly
      else if |s| < HEADER_SIZE + ln then CutPayload
      else
        var p := s[HEADER_SIZE..HEADER_SIZE + ln];
        if crc(p) != FromLE(s[4..8]) then BadSum else Record(p, s[HEADER_SIZE + ln..])
  }

  /** All records from the start of s, and what stops the reading. */
  function Parse(crc: Checksum, max: nat, s: seq<byte>): (seq<seq<byte>>, Item)
    decreases |s|
  {
    match ReadFrame(crc, max, s)
    case Record(p, rest) =>
      var (ps, end) := Parse(crc, max, rest);
      ([p] + ps, end)
    case item => ([], item)
  }

  /** Truncation beyond the end is a no-op. */
  function TruncateTo(f: seq<byte>, off: nat): seq<byte> {
    if off >= |f| then f else f[..off]
  }

  // ---- cutting a log at any byte -----------------------------------------------------------

  ghost predicate Sized(max: nat, ps: seq<seq<byte>>) {
    max < 0x1_0000_0000 && forall i :: 0 <= i < |ps| ==> |ps[i]| <= max
  }

  /** Bytes taken by the frames of ps. */
  function Size(ps: seq<seq<byte>>): nat {
    if ps == [] then 0 else HEADER_SIZE + |ps[0]| + Size(ps[1..])
  }

  /** Number of frames that lie wholly within the first c bytes. */
  function Whole(ps: seq<seq<byte>>, c: nat): (k: nat)
    ensures k <= |ps|
  {
    if ps == [] || c < HEADER_SIZE + |ps[0]| then 0 else 1 + Whole(ps[1..], c - HEADER_SIZE - |ps[0]|)
  }

  /** What the cut leaves of the frame it falls into. */
  function Severed(ps: seq<seq<byte>>, c: nat): Item {
    if ps == [] then End
    else if c >= HEADER_SIZE + |ps[0]| then Severed(ps[1..], c - HEADER_SIZE - |ps[0]|)
    else if c == 0 then End
    else if c < HEADER_SIZE then CutHeader
    else if c == HEADER_SIZE then HeaderOnly
    else CutPayload
  }

  lemma {:induction false} FramesSize(crc: Checksum, ps: seq<seq<byte>>)
    ensures |Frames(crc, ps)| == Size(ps)
  {
    if ps != [] {
      FramesSize(crc, ps[1..]);
    }
  }

  lemma HeaderReads(crc: Checksum, p: seq<byte>, s: seq<byte>)
    requires |p| < 0x1_0000_0000 && |s| >= HEADER_SIZE && s[..HEADER_SIZE] == LE(|p|, 4) + LE(crc(p), 4)
    ensures FromLE(s[..4]) == |p| && FromLE(s[4..8]) == crc(p)
  {
    Spans();
    ReadBack(|p|, 4);
    ReadBack(crc(p), 4);
    assert s[..4] == s[..HEADER_SIZE][..4];
    assert s[4..8] == s[..HEADER_SIZE][4..];
  }

  lemma ReadWhole(crc: Checksum, max: nat, p: seq<byte>, t: seq<byte>)
    requires |p| <= max < 0x1_0000_0000
    ensures ReadFrame(crc, max, Frame(crc, p) + t) == Record(p, t)
  {
    var s := Frame(crc, p) + t;
    assert s[..HEADER_SIZE] == LE(|p|, 4) + LE(crc(p), 4);
    HeaderReads(crc, p, s);
    assert s[HEADER_SIZE..HEADER_SIZE + |p|] == p;
    assert s[HEADER_SIZE + |p|..] == t;
  }

  lemma ReadCut(crc: Checksum, max: nat, p: seq<byte>, c: nat)
    requires |p| <= max < 0x1_0000_0000 && c < HEADER_SIZE + |p|
    ensures ReadFrame(crc, max, Frame(crc, p)[..c]) == Severed([p], c)
  {
    var s := Frame(crc, p)[..c];
    if c >= HEADER_SIZE {
      assert s[..HEADER_SIZE] == LE(|p|, 4) + LE(crc(p), 4);
      HeaderReads(crc, p, s);
      hide LE, FromLE, Frame, ReadFrame;
      ReadShort(crc, max, s, |p|);
    }
  }

  lemma ReadShort(crc: Checksum, max: nat, s: seq<byte>, n: nat)
    requires HEADER_SIZE <= |s| < HEADER_SIZE + n && FromLE(s[..4]) == n <= max
    ensures ReadFrame(crc, max, s) == if |s| == HEADER_SIZE then HeaderOnly else CutPayload
  {
    hide FromLE;
  }

  lemma CutInFirst(crc: Checksum, max: nat, ps: seq<seq<byte>>, c: nat)
    requires ps != [] && Sized(max, ps) && c < HEADER_SIZE + |ps[0]|
    ensures |Frame(crc, ps[0])| == HEADER_SIZE + |ps[0]|
    ensures Parse(crc, max, Frames(crc, ps)[..c]) == ([], Severed(ps, c))
  {
    ReadCut(crc, max, ps[0], c);
    assert |Frame(crc, ps[0])| == HEADER_SIZE + |ps[0]|;
    hide Frame, ReadFrame;
    assert Frames(crc, ps)[..c] == Frame(crc, ps[0])[..c];
  }

  lemma ParseCons(crc: Checksum, max: nat, p: seq<byte>, t: seq<byte>)
    requires |p| <= max < 0x1_0000_0000
    ensures var (ps, end) := Parse(crc, max, t); Parse(crc, max, Frame(crc, p) + t) == ([p] + ps, end)
  {
    ReadWhole(crc, max, p, t);
    hide Frame, ReadFrame;
  }

  lemma CutAfterFirst(crc: Checksum, ps: seq<seq<byte>>, c: nat)
    requires ps != [] && HEADER_SIZE + |ps[0]| <= c <= Size(ps)
    ensures |Frames(crc, ps)| == Size(ps) && |Frames(crc, ps[1..])| == Size(ps[1..])
    ensures Frames(crc, ps)[..c] == Frame(crc, ps[0]) + Frames(crc, ps[1..])[..c - HEADER_SIZE - |ps[0]|]
  {
    FramesSize(crc, ps);
    FramesSize(crc, ps[1..]);
    assert |Frame(crc, ps[0])| == HEADER_SIZE + |ps[0]|;
    hide Frame;
  }

  lemma CutNothing(crc: Checksum, max: nat, ps: seq<seq<byte>>, c: nat)
    requires ps == [] && c <= Size(ps)
    ensures |Frames(crc, ps)| == Size(ps)
    ensures Parse(crc, max, Frames(crc, ps)[..c]) == (ps[..Whole(ps, c)], Severed(ps, c))
  {
  }

  /** Prefix law: whatever byte the log is cut at, the reader delivers exactly the payloads whose
      frames lie wholly within the cut, in order, and stops at what the cut severed. */
  lemma {:induction false} CutLaw(crc: Checksum, max: nat, ps: seq<seq<byte>>, c: nat)
    requires Sized(max, ps) && c <= Size(ps)
    ensures |Frames(crc, ps)| == Size(ps)
    ensures Parse(crc, max, Frames(crc, ps)[..c]) == (ps[..Whole(ps, c)], Severed(ps, c))
  {
    hide *;
    FramesSize(crc, ps);
    if ps == [] {
      CutNothing(crc, max, ps, c);
    } else if c < HEADER_SIZE + |ps[0]| {
      CutInFirst(crc, max, ps, c);
      WholeNone(ps, c);
    } else {
      CountsAfterFirst(ps, c);
      SizedTail(max, ps);
      var n := HEADER_SIZE + |ps[0]|;
      CutLaw(crc, max, ps[1..], c - n);
      CutAfterFirst(crc, ps, c);
      ParseCons(crc, max, ps[0], Frames(crc, ps[1..])[..c - n]);
    }
  }

  lemma WholeNone(ps: seq<seq<byte>>, c: nat)
    requires ps != [] && c < HEADER_SIZE + |ps[0]|
    ensures Whole(ps, c) == 0 && ps[..0] == []
  {
  }

  lemma SizedTail(max: nat, ps: seq<seq<byte>>)
    requires ps != [] && Sized(max, ps)
    ensures Sized(max, ps[1..]) && |ps[0]| <= max < 0x1_0000_0000
  {
  }

  lemma CountsAfterFirst(ps: seq<seq<byte>>, c: nat)
    requires ps != [] && HEADER_SIZE + |ps[0]| <= c <= Size(ps)
    ensures var d := c - HEADER_SIZE - |ps[0]|;
            && d <= Size(ps[1..]) && Severed(ps, c) == Severed(ps[1..], d)
            && ps[..Whole(ps, c)] == [ps[0]] + ps[1..][..Whole(ps[1..], d)]
  {
  }

  lemma {:induction false} FramesAppend(crc: Checksum, a: seq<seq<byte>>, b: seq<seq<byte>>)
    ensures Frames(crc, a + b) == Frames(crc, a) + Frames(crc, b)
    ensures Size(a + b) == Size(a) + Size(b)
  {
    if a == [] {
      assert a + b == b;
    } else {
      FramesFirst(crc, a);
      FramesFirst(crc, a + b);
      hide Frame, Frames, Size;
      assert (a + b)[1..] == a[1..] + b && (a + b)[0] == a[0];
      FramesAppend(crc, a[1..], b);
      Associative(Frame(crc, a[0]), Frames(crc, a[1..]), Frames(crc, b));
    }
  }

  lemma FramesFirst(crc: Checksum, ps: seq<seq<byte>>)
    requires ps != []
    ensures Frames(crc, ps) == Frame(crc, ps[0]) + Frames(crc, ps[1..]) && Size(ps) == HEADER_SIZE + |ps[0]| + Size(ps[1..])
  {
  }

  /** Every byte string is read as whole frames followed by what stopped the reading. */
  lemma {:induction false} ParseIsPrefix(crc: Checksum, max: nat, s: seq<byte>)
    requires max < 0x1_0000_0000
    ensures var (ps, end) := Parse(crc, max, s);
            && Sized(max, ps) && Size(ps) <= |s| && s[..Size(ps)] == Frames(crc, ps)
            && ReadFrame(crc, max, s[Size(ps)..]) == end && !end.Record?
    decreases |s|
  {
    match ReadFrame(crc, max, s) {
      case Record(p, rest) =>
        ParseIsPrefix(crc, max, rest);
        RecordIsFrame(crc, max, s);
        var ps := Parse(crc, max, rest).0;
        assert ([p] + ps)[1..] == ps;
        assert s[..Size([p] + ps)] == Frame(crc, p) + rest[..Size(ps)];
        assert s[Size([p] + ps)..] == rest[Size(ps)..];
      case _ =>
        assert s[0..] == s;
    }
  }

  lemma RecordIsFrame(crc: Checksum, max: nat, s: seq<byte>)
    requires max < 0x1_0000_0000 && ReadFrame(crc, max, s).Record?
    ensures var r := ReadFrame(crc, max, s); s == Frame(crc, r.payload) + r.rest && |r.payload| <= max
  {
    hide LE, FromLE, ReadFrame;
    RecordParts(crc, max, s);
    WriteBack(s[..4]);
    WriteBack(s[4..8]);
    FourParts(s, HEADER_SIZE + |ReadFrame(crc, max, s).payload|);
  }

  /** Where length, checksum and payload lie. */
  lemma FrameLayout(crc: Checksum, p: seq<byte>)
    requires |p| < 0x1_0000_0000
    ensures var f := Frame(crc, p); |f| == 8 + |p| && FromLE(f[..4]) == |p| && FromLE(f[4..8]) == crc(p) && f[8..] == p
  {
    assert Frame(crc, p)[..HEADER_SIZE] == LE(|p|, 4) + LE(crc(p), 4);
    HeaderReads(crc, p, Frame(crc, p));
  }

  /** A record is read exactly where a frame begins. */
  lemma ReadsIff(crc: Checksum, max: nat, s: seq<byte>)
    requires max < 0x1_0000_0000
    ensures ReadFrame(crc, max, s).Record? <==> exists p :: |p| <= max && Frame(crc, p) <= s
    ensures forall p :: |p| <= max && Frame(crc, p) <= s ==> ReadFrame(crc, max, s) == Record(p, s[|Frame(crc, p)|..])
  {
    hide Frame, ReadFrame;
    if ReadFrame(crc, max, s).Record? {
      RecordIsFrame(crc, max, s);
      assert Frame(crc, ReadFrame(crc, max, s).payload) <= s;
    }
    forall p | |p| <= max && Frame(crc, p) <= s
      ensures ReadFrame(crc, max, s) == Record(p, s[|Frame(crc, p)|..])
    {
      ReadWhole(crc, max, p, s[|Frame(crc, p)|..]);
      assert s == Frame(crc, p) + s[|Frame(crc, p)|..];
    }
  }

  lemma RecordParts(crc: Checksum, max: nat, s: seq<byte>)
    requires ReadFrame(crc, max, s).Record?
    ensures var p := ReadFrame(crc, max, s).payload;
            && HEADER_SIZE + |p| <= |s| && |p| == FromLE(s[..4]) <= max && crc(p) == FromLE(s[4..8])
            && p == s[HEADER_SIZE..HEADER_SIZE + |p|] && ReadFrame(crc, max, s).rest == s[HEADER_SIZE + |p|..]
  {
    hide FromLE;
  }

  lemma FourParts<T>(s: seq<T>, n: nat)
    requires 8 <= n <= |s|
    ensures s == s[..4] + s[4..8] + s[8..n] + s[n..]
  {
  }

  /** Resuming: after k whole records the reader stands at the end of their frames, and a reader
      opened there delivers exactly the rest and stops at the same thing. */
  lemma ResumeLaw(crc: Checksum, max: nat, ps: seq<seq<byte>>, c: nat, k: nat)
    requires Sized(max, ps) && c <= Size(ps) && k <= Whole(ps, c)
    ensures Size(ps[..k]) <= c && |Frames(crc, ps)| == Size(ps)
    ensures Parse(crc, max, Frames(crc, ps)[..c][Size(ps[..k])..]) == (ps[k..Whole(ps, c)], Severed(ps, c))
  {
    hide Frame, Frames, Size, Whole, Severed, Parse;
    var a, b := ps[..k], ps[k..];
    assert ps == a + b;
    FramesAppend(crc, a, b);
    FramesSize(crc, ps);
    FramesSize(crc, a);
    WholeSplit(a, b, c);
    CutLaw(crc, max, b, c - Size(a));
    assert Frames(crc, ps)[..c][Size(a)..] == Frames(crc, b)[..c - Size(a)];
    assert ps[k..Whole(ps, c)] == b[..Whole(b, c - Size(a))];
  }

  /** The first j frames lie within the cut exactly when the cut counts at least j whole frames. */
  lemma {:induction false} WholeIff(ps: seq<seq<byte>>, c: nat, j: nat)
    requires j <= |ps|
    ensures j <= Whole(ps, c) <==> Size(ps[..j]) <= c
  {
    if j > 0 {
      assert ps[..j][1..] == ps[1..][..j - 1];
      if c >= HEADER_SIZE + |ps[0]| {
        WholeIff(ps[1..], c - HEADER_SIZE - |ps[0]|, j - 1);
      }
    }
  }

  lemma FramesPrefix(crc: Checksum, ps: seq<seq<byte>>, j: nat)
    requires j <= |ps|
    ensures |Frames(crc, ps)| == Size(ps) && Size(ps[..j]) <= Size(ps)
    ensures Frames(crc, ps)[..Size(ps[..j])] == Frames(crc, ps[..j])
  {
    FramesAppend(crc, ps[..j], ps[j..]);
    FramesSize(crc, ps);
    FramesSize(crc, ps[..j]);
    assert ps == ps[..j] + ps[j..];
  }

  /** Truncating a cut log at a frame boundary within the cut leaves exactly the frames before it. */
  lemma TruncateAtRecord(crc: Checksum, ps: seq<seq<byte>>, c: nat, k: nat)
    requires c <= Size(ps) == |Frames(crc, ps)| && k <= Whole(ps, c)
    ensures TruncateTo(Frames(crc, ps)[..c], Size(ps[..Whole(ps, c)][..k])) == Frames(crc, ps[..k])
  {
    WholeIff(ps, c, k);
    FramesPrefix(crc, ps, k);
    FramesSize(crc, ps[..k]);
    assert ps[..Whole(ps, c)][..k] == ps[..k];
    hide Frames, Whole, Size;
  }

  lemma {:induction false} WholeSplit(a: seq<seq<byte>>, b: seq<seq<byte>>, c: nat)
    requires c <= Size(a + b) && |a| <= Whole(a + b, c)
    ensures Size(a + b) == Size(a) + Size(b) && Size(a) <= c
    ensures Whole(a + b, c) == |a| + Whole(b, c - Size(a)) && Severed(a + b, c) == Severed(b, c - Size(a))
  {
    if a == [] {
      assert a + b == b;
    } else {
      assert (a + b)[1..] == a[1..] + b;
      WholeSplit(a[1..], b, c - HEADER_SIZE - |a[0]|);
    }
  }

  /** The cut is at a record exactly when the whole frames fill it. */
  lemma {:induction false} EndIsWhole(ps: seq<seq<byte>>, c: nat)
    requires c <= Size(ps)
    ensures Severed(ps, c).End? <==> Size(ps[..Whole(ps, c)]) == c
  {
    if ps != [] && c >= HEADER_SIZE + |ps[0]| {
      EndIsWhole(ps[1..], c - HEADER_SIZE - |ps[0]|);
      assert ps[..Whole(ps, c)][1..] == ps[1..][..Whole(ps, c) - 1];
    }
  }

  /** Cutting a log within its second part. */
  lemma CutSecond(crc: Checksum, a: seq<seq<byte>>, b: seq<seq<byte>>, c: nat)
    requires c <= Size(b)
    ensures Size(a) + c <= Size(a + b)
    ensures Whole(a + b, Size(a) + c) == |a| + Whole(b, c) && Severed(a + b, Size(a) + c) == Severed(b, c)
    ensures TruncateTo(Frames(crc, a + b), Size(a) + c) == Frames(crc, a) + TruncateTo(Frames(crc, b), c)
  {
    hide Frames, Size, Whole, Severed;
    FramesAppend(crc, a, b);
    FramesSize(crc, a);
    FramesSize(crc, b);
    assert (a + b)[..|a|] == a;
    WholeIff(a + b, Size(a) + c, |a|);
    WholeSplit(a, b, Size(a) + c);
  }

  lemma FramesGrow(crc: Checksum, head: seq<byte>, a: seq<seq<byte>>, b: seq<seq<byte>>)
    requires a <= b
    ensures head + Frames(crc, a) <= head + Frames(crc, b) && |Frames(crc, a)| == Size(a)
  {
    FramesPrefix(crc, b, |a|);
    FramesSize(crc, a);
    assert b[..|a|] == a;
  }
}

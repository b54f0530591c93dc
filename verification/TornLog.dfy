/** Why a torn command log must not be appended to: the open path leaves the torn bytes in place,
    and they shift the framing of everything written after them. */
module TornLog {
  import opened Basics
  import opened Bytes
  import opened Wal
  import opened Codecs

  lemma CommandHeader(crc: Checksum, p: seq<byte>)
    requires |p| == CMD_RECORD_LEN
    ensures Frame(crc, p)[0] == 67 && Frame(crc, p)[1] == 0 && Frame(crc, p)[2] == 0 && Frame(crc, p)[3] == 0
  {
    assert LE(67, 4) == [67] + LE(0, 3);
    assert LE(0, 3) == [0] + LE(0, 2);
    assert LE(0, 2) == [0] + LE(0, 1);
    assert LE(0, 1) == [0];
  }

  lemma FourBytes(a: byte, b: byte, c: byte, d: byte)
    ensures FromLE([a, b, c, d]) == a + 256 * b + 0x1_0000 * c + 0x100_0000 * d
  {
    assert [a, b, c, d][1..] == [b, c, d];
    assert [b, c, d][1..] == [c, d];
    assert [c, d][1..] == [d];
    assert FromLE([d]) == d;
    assert FromLE([c, d]) == c + 256 * d;
    assert FromLE([b, c, d]) == b + 256 * c + 0x1_0000 * d;
  }

  /** What the reader makes of j torn bytes of one command frame followed by further frames. */
  lemma MisreadLength(crc: Checksum, q: seq<byte>, p: seq<byte>, t: seq<byte>, j: nat)
    requires |q| == |p| == CMD_RECORD_LEN && 1 <= j <= 3
    ensures var s := Frame(crc, q)[..j] + (Frame(crc, p) + t);
            FromLE(s[..4]) == if j == 1 then 17219 else if j == 2 then 4390979 else 1124073539
  {
    CommandHeader(crc, q);
    CommandHeader(crc, p);
    var s := Frame(crc, q)[..j] + (Frame(crc, p) + t);
    if j == 1 {
      assert s[..4] == [67, 67, 0, 0];
      FourBytes(67, 67, 0, 0);
    } else if j == 2 {
      assert s[..4] == [67, 0, 67, 0];
      FourBytes(67, 0, 67, 0);
    } else {
      assert s[..4] == [67, 0, 0, 67];
      FourBytes(67, 0, 0, 67);
    }
  }

  lemma {:induction false} ParseAfter(crc: Checksum, max: nat, ps: seq<seq<byte>>, s: seq<byte>)
    requires Sized(max, ps)
    ensures var (qs, end) := Parse(crc, max, s); Parse(crc, max, Frames(crc, ps) + s) == (ps + qs, end)
  {
    if ps == [] {
      assert [] + s == s;
      assert [] + Parse(crc, max, s).0 == Parse(crc, max, s).0;
    } else {
      ParseAfter(crc, max, ps[1..], s);
      var f, g, qs := Frame(crc, ps[0]), Frames(crc, ps[1..]), Parse(crc, max, s).0;
      assert Frames(crc, ps) == f + g;
      assert ps == [ps[0]] + ps[1..];
      hide *;
      Associative(f, g, s);
      ParseCons(crc, max, ps[0], g + s);
      Associative([ps[0]], ps[1..], qs);
    }
  }

  /** One torn byte: up to 17 kB of commands appended and synced after it are silently dropped by
      the next replay, which reports a truncated tail and carries on. */
  lemma OneTornByte(crc: Checksum, ps: seq<seq<byte>>, q: seq<byte>, p: seq<byte>, t: seq<byte>)
    requires Sized(DEFAULT_MAX_PAYLOAD, ps) && |q| == |p| == CMD_RECORD_LEN
    requires |Frame(crc, p) + t| < 17219 + 7
    ensures Parse(crc, DEFAULT_MAX_PAYLOAD, Frames(crc, ps) + (Frame(crc, q)[..1] + (Frame(crc, p) + t))) == (ps, CutPayload)
  {
    var s := Frame(crc, q)[..1] + (Frame(crc, p) + t);
    MisreadLength(crc, q, p, t, 1);
    assert ReadFrame(crc, DEFAULT_MAX_PAYLOAD, s) == CutPayload;
    ParseAfter(crc, DEFAULT_MAX_PAYLOAD, ps, s);
    assert ps + [] == ps;
  }

  /** Two or three torn bytes: whatever follows, the next replay stops with an error there. */
  lemma MoreTornBytes(crc: Checksum, ps: seq<seq<byte>>, q: seq<byte>, p: seq<byte>, t: seq<byte>, j: nat)
    requires Sized(DEFAULT_MAX_PAYLOAD, ps) && |q| == |p| == CMD_RECORD_LEN && (j == 2 || j == 3)
    ensures Parse(crc, DEFAULT_MAX_PAYLOAD, Frames(crc, ps) + (Frame(crc, q)[..j] + (Frame(crc, p) + t))) == (ps, TooLarge)
  {
    var s := Frame(crc, q)[..j] + (Frame(crc, p) + t);
    MisreadLength(crc, q, p, t, j);
    assert ReadFrame(crc, DEFAULT_MAX_PAYLOAD, s) == TooLarge;
    ParseAfter(crc, DEFAULT_MAX_PAYLOAD, ps, s);
    assert ps + [] == ps;
  }

  lemma LowByte(b: byte, rest: seq<byte>)
    ensures FromLE([b] + rest) >= b
  {
    assert ([b] + rest)[1..] == rest;
  }

  /** The reader's header where the torn bytes begin: a length that is not zero. */
  lemma TornHeader(crc: Checksum, q: seq<byte>, p: seq<byte>, t: seq<byte>, j: nat)
    requires |q| == |p| == CMD_RECORD_LEN && 1 <= j < HEADER_SIZE + CMD_RECORD_LEN
    ensures var s := Frame(crc, q)[..j] + (Frame(crc, p) + t);
            |s| > HEADER_SIZE + CMD_RECORD_LEN && FromLE(s[..4]) > 0
  {
    CommandHeader(crc, q);
    var s := Frame(crc, q)[..j] + (Frame(crc, p) + t);
    assert s[..4] == [s[0]] + s[1..4] && s[0] == 67;
    LowByte(67, s[1..4]);
  }

  lemma ReadTorn(crc: Checksum, s: seq<byte>)
    requires |s| > HEADER_SIZE && FromLE(s[..4]) > 0
    ensures var n, r := FromLE(s[..4]), ReadFrame(crc, DEFAULT_MAX_PAYLOAD, s);
            if n > DEFAULT_MAX_PAYLOAD then r == TooLarge
            else if |s| < HEADER_SIZE + n then r == CutPayload
            else if crc(s[HEADER_SIZE..HEADER_SIZE + n]) != FromLE(s[4..8]) then r == BadSum
            else r.Record?
  {
    hide FromLE;
  }

  /** Appending after a torn record, wherever it was torn: not one of the records written and synced
      afterwards is ever delivered, unless the checksum happens to fit the misread payload. */
  lemma AnyTornRecord(crc: Checksum, ps: seq<seq<byte>>, q: seq<byte>, p: seq<byte>, t: seq<byte>, j: nat)
    requires Sized(DEFAULT_MAX_PAYLOAD, ps) && |q| == |p| == CMD_RECORD_LEN && 1 <= j < HEADER_SIZE + CMD_RECORD_LEN
    ensures var s := Frame(crc, q)[..j] + (Frame(crc, p) + t);
            var n := FromLE(s[..4]);
            || (HEADER_SIZE + n <= |s| && crc(s[HEADER_SIZE..HEADER_SIZE + n]) == FromLE(s[4..8]))
            || (var (qs, end) := Parse(crc, DEFAULT_MAX_PAYLOAD, Frames(crc, ps) + s);
                qs == ps && (end.TooLarge? || end.CutPayload? || end.BadSum?))
  {
    var s := Frame(crc, q)[..j] + (Frame(crc, p) + t);
    hide Frame, Frames, FromLE, ReadFrame;
    TornHeader(crc, q, p, t, j);
    ReadTorn(crc, s);
    if !ReadFrame(crc, DEFAULT_MAX_PAYLOAD, s).Record? {
      assert Parse(crc, DEFAULT_MAX_PAYLOAD, s) == ([], ReadFrame(crc, DEFAULT_MAX_PAYLOAD, s));
      ParseAfter(crc, DEFAULT_MAX_PAYLOAD, ps, s);
      assert ps + [] == ps;
    }
  }
}

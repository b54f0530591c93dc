/** Binary records of the command log and of the event log (internal/engine/cmd_wal_codec.go,
    event_outbox_codec.go). */
module Codecs {
  import opened Bytes

  const CMD_SUBMIT := 1
  const CMD_CANCEL := 2

  const EV_ACCEPTED := 1
  const EV_REJECTED := 2
  const EV_ADDED := 3
  const EV_CANCELLED := 4
  const EV_TRADE := 5
  const EV_CMD_END := 250

  const CMD_RECORD_LEN := 67
  const EV_RECORD_LEN := 68

  datatype Command = Command(typ: byte, req: u64, clientTs: i64, order: u64, user: u64, side: byte,
                             price: i64, qty: i64, cancel: u64)

  datatype Event = Event(typ: byte, seqNo: u64, idx: u16, req: u64, order: u64, user: u64,
                         maker: u64, taker: u64, price: i64, qty: i64)

  datatype Error = BadRecordLen | BadVersion | BadType

  datatype Result<T> = Ok(value: T) | Err(error: Error)

  function CmdHead(seqNo: u64, c: Command): seq<byte> {
    [1, c.typ] + LE(seqNo, 8) + LE(c.req, 8) + LE(Unsigned(c.clientTs), 8)
  }

  function CmdMiddle(c: Command): seq<byte> {
    LE(c.order, 8) + LE(c.user, 8) + [c.side]
  }

  function CmdTail(c: Command): seq<byte> {
    LE(Unsigned(c.price), 8) + LE(Unsigned(c.qty), 8) + LE(if c.typ == CMD_CANCEL then c.cancel else 0, 8)
  }

  function EncodedCmd(seqNo: u64, c: Command): seq<byte> {
    CmdHead(seqNo, c) + CmdMiddle(c) + CmdTail(c)
  }

  function U64At(p: seq<byte>, off: nat): u64
    requires off + 8 <= |p|
  {
    WriteBack(p[off..off + 8]);
    Spans();
    FromLE(p[off..off + 8])
  }

  function I64At(p: seq<byte>, off: nat): i64
    requires off + 8 <= |p|
  {
    Signed(U64At(p, off))
  }

  function DecodedCmd(p: seq<byte>): Result<(u64, Command)> {
    if |p| != CMD_RECORD_LEN then Err(BadRecordLen)
    else if p[0] != 1 then Err(BadVersion)
    else if p[1] != CMD_SUBMIT && p[1] != CMD_CANCEL then Err(BadType)
    else Ok((U64At(p, 2), Command(p[1], U64At(p, 10), I64At(p, 18), U64At(p, 26), U64At(p, 34), p[42],
                                  I64At(p, 43), I64At(p, 51), U64At(p, 59))))
  }

  function EvHead(e: Event): seq<byte> {
    [1, e.typ] + LE(e.seqNo, 8) + LE(e.idx, 2) + LE(e.req, 8)
  }

  function EvMiddle(e: Event): seq<byte> {
    LE(e.order, 8) + LE(e.user, 8) + LE(e.maker, 8)
  }

  function EvTail(e: Event): seq<byte> {
    LE(e.taker, 8) + LE(Unsigned(e.price), 8) + LE(Unsigned(e.qty), 8)
  }

  function EncodedEv(e: Event): seq<byte> {
    EvHead(e) + EvMiddle(e) + EvTail(e)
  }

  function U16At(p: seq<byte>, off: nat): u16
    requires off + 2 <= |p|
  {
    WriteBack(p[off..off + 2]);
    Spans();
    FromLE(p[off..off + 2])
  }

  function DecodedEv(p: seq<byte>): Result<Event> {
    if |p| != EV_RECORD_LEN then Err(BadRecordLen)
    else if p[0] != 1 then Err(BadVersion)
    else Ok(Event(p[1], U64At(p, 2), U16At(p, 10), U64At(p, 12), U64At(p, 20), U64At(p, 28), U64At(p, 36),
                  U64At(p, 44), I64At(p, 52), I64At(p, 60)))
  }

  lemma ReadU64(p: seq<byte>, off: nat, x: u64)
    requires off + 8 <= |p| && p[off..off + 8] == LE(x, 8)
    ensures U64At(p, off) == x
  {
    Spans();
    ReadBack(x, 8);
  }

  lemma SignRoundTrip(x: i64)
    ensures Signed(Unsigned(x)) == x
  {
  }

  /** The command as it comes back from the log. */
  function Logged(c: Command): Command {
    if c.typ == CMD_CANCEL then c else c.(cancel := 0)
  }

  lemma SubSlice<T>(p: seq<T>, lo: nat, hi: nat, a: nat, b: nat)
    requires a <= b && lo + b <= hi <= |p|
    ensures p[lo..hi][a..b] == p[lo + a..lo + b]
  {
    var x, y := p[lo..hi][a..b], p[lo + a..lo + b];
    assert |x| == |y| && forall i :: 0 <= i < |x| ==> x[i] == y[i];
  }

  lemma ThreeParts<T>(a: seq<T>, b: seq<T>, c: seq<T>)
    ensures var s := a + b + c;
            s[0..|a|] == a && s[|a|..|a| + |b|] == b && s[|a| + |b|..|a| + |b| + |c|] == c
  {
  }

  lemma CmdHeadReads(p: seq<byte>, seqNo: u64, c: Command)
    requires |p| == CMD_RECORD_LEN && p[..26] == CmdHead(seqNo, c)
    ensures p[0] == 1 && p[1] == c.typ && U64At(p, 2) == seqNo && U64At(p, 10) == c.req && I64At(p, 18) == c.clientTs
  {
    hide LE, FromLE, Unsigned, Signed;
    var h := CmdHead(seqNo, c);
    assert h == [1, c.typ] + (LE(seqNo, 8) + LE(c.req, 8) + LE(Unsigned(c.clientTs), 8));
    assert p[0] == h[0] && p[1] == h[1];
    ThreeParts(LE(seqNo, 8), LE(c.req, 8), LE(Unsigned(c.clientTs), 8));
    assert p[2..26] == h[2..];
    SubSlice(p, 2, 26, 0, 8);
    SubSlice(p, 2, 26, 8, 16);
    SubSlice(p, 2, 26, 16, 24);
    ReadU64(p, 2, seqNo);
    ReadU64(p, 10, c.req);
    ReadU64(p, 18, Unsigned(c.clientTs));
    SignRoundTrip(c.clientTs);
  }

  lemma CmdMiddleReads(p: seq<byte>, c: Command)
    requires |p| == CMD_RECORD_LEN && p[26..43] == CmdMiddle(c)
    ensures U64At(p, 26) == c.order && U64At(p, 34) == c.user && p[42] == c.side
  {
    ThreeParts(LE(c.order, 8), LE(c.user, 8), [c.side]);
    hide LE, FromLE;
    SubSlice(p, 26, 43, 0, 8);
    SubSlice(p, 26, 43, 8, 16);
    assert p[42] == p[26..43][16];
    ReadU64(p, 26, c.order);
    ReadU64(p, 34, c.user);
  }

  lemma CmdTailReads(p: seq<byte>, c: Command)
    requires |p| == CMD_RECORD_LEN && p[43..] == CmdTail(c)
    ensures I64At(p, 43) == c.price && I64At(p, 51) == c.qty
    ensures U64At(p, 59) == if c.typ == CMD_CANCEL then c.cancel else 0
  {
    ThreeParts(LE(Unsigned(c.price), 8), LE(Unsigned(c.qty), 8), LE(if c.typ == CMD_CANCEL then c.cancel else 0, 8));
    hide LE, FromLE, Unsigned, Signed;
    assert p[43..67] == p[43..];
    SubSlice(p, 43, 67, 0, 8);
    SubSlice(p, 43, 67, 8, 16);
    SubSlice(p, 43, 67, 16, 24);
    ReadU64(p, 43, Unsigned(c.price));
    ReadU64(p, 51, Unsigned(c.qty));
    ReadU64(p, 59, if c.typ == CMD_CANCEL then c.cancel else 0);
    SignRoundTrip(c.price);
    SignRoundTrip(c.qty);
  }

  /** Decoding undoes encoding for every sequence number and every submit or cancel; any other
      type is refused. */
  lemma CmdRoundTrip(seqNo: u64, c: Command)
    ensures DecodedCmd(EncodedCmd(seqNo, c)) ==
            if c.typ == CMD_SUBMIT || c.typ == CMD_CANCEL then Ok((seqNo, Logged(c))) else Err(BadType)
  {
    var p := EncodedCmd(seqNo, c);
    assert p[..26] == CmdHead(seqNo, c);
    assert p[26..43] == CmdMiddle(c);
    assert p[43..] == CmdTail(c);
    CmdHeadReads(p, seqNo, c);
    CmdMiddleReads(p, c);
    CmdTailReads(p, c);
  }

  lemma EvHeadReads(p: seq<byte>, e: Event)
    requires |p| == EV_RECORD_LEN && p[..20] == EvHead(e)
    ensures p[0] == 1 && p[1] == e.typ && U64At(p, 2) == e.seqNo && U16At(p, 10) == e.idx && U64At(p, 12) == e.req
  {
    hide LE, FromLE;
    var h := EvHead(e);
    assert h == [1, e.typ] + (LE(e.seqNo, 8) + LE(e.idx, 2) + LE(e.req, 8));
    assert p[0] == h[0] && p[1] == h[1];
    ThreeParts(LE(e.seqNo, 8), LE(e.idx, 2), LE(e.req, 8));
    assert p[2..20] == h[2..];
    SubSlice(p, 2, 20, 0, 8);
    SubSlice(p, 2, 20, 8, 10);
    SubSlice(p, 2, 20, 10, 18);
    ReadU64(p, 2, e.seqNo);
    Spans();
    ReadBack(e.idx, 2);
    ReadU64(p, 12, e.req);
  }

  lemma EvMiddleReads(p: seq<byte>, e: Event)
    requires |p| == EV_RECORD_LEN && p[20..44] == EvMiddle(e)
    ensures U64At(p, 20) == e.order && U64At(p, 28) == e.user && U64At(p, 36) == e.maker
  {
    ThreeParts(LE(e.order, 8), LE(e.user, 8), LE(e.maker, 8));
    hide LE, FromLE;
    SubSlice(p, 20, 44, 0, 8);
    SubSlice(p, 20, 44, 8, 16);
    SubSlice(p, 20, 44, 16, 24);
    ReadU64(p, 20, e.order);
    ReadU64(p, 28, e.user);
    ReadU64(p, 36, e.maker);
  }

  lemma EvTailReads(p: seq<byte>, e: Event)
    requires |p| == EV_RECORD_LEN && p[44..] == EvTail(e)
    ensures U64At(p, 44) == e.taker && I64At(p, 52) == e.price && I64At(p, 60) == e.qty
  {
    ThreeParts(LE(e.taker, 8), LE(Unsigned(e.price), 8), LE(Unsigned(e.qty), 8));
    hide LE, FromLE, Unsigned, Signed;
    assert p[44..68] == p[44..];
    SubSlice(p, 44, 68, 0, 8);
    SubSlice(p, 44, 68, 8, 16);
    SubSlice(p, 44, 68, 16, 24);
    ReadU64(p, 44, e.taker);
    ReadU64(p, 52, Unsigned(e.price));
    ReadU64(p, 60, Unsigned(e.qty));
    SignRoundTrip(e.price);
    SignRoundTrip(e.qty);
  }

  /** Decoding undoes encoding for every event. */
  lemma EvRoundTrip(e: Event)
    ensures DecodedEv(EncodedEv(e)) == Ok(e)
  {
    var p := EncodedEv(e);
    assert p[..20] == EvHead(e);
    assert p[20..44] == EvMiddle(e);
    assert p[44..] == EvTail(e);
    EvHeadReads(p, e);
    EvMiddleReads(p, e);
    EvTailReads(p, e);
  }

  // ---- the bytes on disk -----------------------------------------------------------------------

  /** Where each field of a command lies. */
  lemma CmdLayout(seqNo: u64, c: Command)
    ensures var p := EncodedCmd(seqNo, c);
            && |p| == 67 && p[0] == 1 && p[1] == c.typ && p[42] == c.side
            && FromLE(p[2..10]) == seqNo && FromLE(p[10..18]) == c.req && FromLE(p[18..26]) == Unsigned(c.clientTs)
            && FromLE(p[26..34]) == c.order && FromLE(p[34..42]) == c.user
            && FromLE(p[43..51]) == Unsigned(c.price) && FromLE(p[51..59]) == Unsigned(c.qty)
            && FromLE(p[59..67]) == if c.typ == CMD_CANCEL then c.cancel else 0
  {
    var p := EncodedCmd(seqNo, c);
    assert p[..26] == CmdHead(seqNo, c);
    assert p[26..43] == CmdMiddle(c);
    assert p[43..] == CmdTail(c);
    CmdHeadReads(p, seqNo, c);
    CmdMiddleReads(p, c);
    CmdTailReads(p, c);
    hide FromLE, CmdHead, CmdMiddle, CmdTail;
    SignedBack(FromLE(p[18..26]), c.clientTs);
    SignedBack(FromLE(p[43..51]), c.price);
    SignedBack(FromLE(p[51..59]), c.qty);
  }

  lemma SignedBack(x: nat, y: i64)
    ensures x < TWO64 && Signed(x) == y ==> x == Unsigned(y)
  {
  }

  /** Where each field of an event lies. */
  lemma EvLayout(e: Event)
    ensures var p := EncodedEv(e);
            && |p| == 68 && p[0] == 1 && p[1] == e.typ
            && FromLE(p[2..10]) == e.seqNo && FromLE(p[10..12]) == e.idx && FromLE(p[12..20]) == e.req
            && FromLE(p[20..28]) == e.order && FromLE(p[28..36]) == e.user
            && FromLE(p[36..44]) == e.maker && FromLE(p[44..52]) == e.taker
            && FromLE(p[52..60]) == Unsigned(e.price) && FromLE(p[60..68]) == Unsigned(e.qty)
  {
    var p := EncodedEv(e);
    assert p[..20] == EvHead(e);
    assert p[20..44] == EvMiddle(e);
    assert p[44..] == EvTail(e);
    EvHeadReads(p, e);
    EvMiddleReads(p, e);
    EvTailReads(p, e);
    hide FromLE, EvHead, EvMiddle, EvTail;
    SignedBack(FromLE(p[52..60]), e.price);
    SignedBack(FromLE(p[60..68]), e.qty);
  }

  // ---- filling the reused buffer in place ----------------------------------------------------

  /** Writes b at offset off; what stands before it stays. */
  method Put(dst: array<byte>, off: nat, b: seq<byte>)
    requires off + |b| <= dst.Length
    modifies dst
    ensures dst[..off + |b|] == old(dst[..off]) + b
  {
    for i := 0 to |b|
      invariant dst[..off] == old(dst[..off]) && dst[off..off + i] == b[..i]
    {
      dst[off + i] := b[i];
    }
    assert dst[..off + |b|] == dst[..off] + dst[off..off + |b|];
  }

  /** Three fields one after the other. */
  method PutThree(dst: array<byte>, off: nat, a: seq<byte>, b: seq<byte>, c: seq<byte>)
    requires off + |a| + |b| + |c| <= dst.Length
    modifies dst
    ensures dst[..off + |a| + |b| + |c|] == old(dst[..off]) + (a + b + c)
  {
    Put(dst, off, a);
    Put(dst, off + |a|, b);
    Put(dst, off + |a| + |b|, c);
  }

  /** A buffer that is large enough is reused, any other is replaced. */
  method EncodeCmd(dst: array<byte>, seqNo: u64, c: Command) returns (out: array<byte>)
    modifies dst
    ensures out.Length >= CMD_RECORD_LEN && out[..CMD_RECORD_LEN] == EncodedCmd(seqNo, c)
    ensures if dst.Length < CMD_RECORD_LEN then fresh(out) else out == dst
  {
    hide LE, Unsigned;
    out := dst;
    if dst.Length < CMD_RECORD_LEN {
      out := new byte[CMD_RECORD_LEN](_ => 0);
    }
    Put(out, 0, [1, c.typ]);
    PutThree(out, 2, LE(seqNo, 8), LE(c.req, 8), LE(Unsigned(c.clientTs), 8));
    assert out[..26] == CmdHead(seqNo, c);
    PutThree(out, 26, LE(c.order, 8), LE(c.user, 8), [c.side]);
    assert out[..43] == CmdHead(seqNo, c) + CmdMiddle(c);
    PutThree(out, 43, LE(Unsigned(c.price), 8), LE(Unsigned(c.qty), 8),
             LE(if c.typ == CMD_CANCEL then c.cancel else 0, 8));
  }

  method EncodeEv(dst: array<byte>, e: Event) returns (out: array<byte>)
    modifies dst
    ensures out.Length >= EV_RECORD_LEN && out[..EV_RECORD_LEN] == EncodedEv(e)
    ensures if dst.Length < EV_RECORD_LEN then fresh(out) else out == dst
  {
    hide LE, Unsigned;
    out := dst;
    if dst.Length < EV_RECORD_LEN {
      out := new byte[EV_RECORD_LEN](_ => 0);
    }
    Put(out, 0, [1, e.typ]);
    PutThree(out, 2, LE(e.seqNo, 8), LE(e.idx, 2), LE(e.req, 8));
    assert out[..20] == EvHead(e);
    PutThree(out, 20, LE(e.order, 8), LE(e.user, 8), LE(e.maker, 8));
    assert out[..44] == EvHead(e) + EvMiddle(e);
    PutThree(out, 44, LE(e.taker, 8), LE(Unsigned(e.price), 8), LE(Unsigned(e.qty), 8));
  }
}

/** The event outbox and the recovery path, step by step (internal/engine/outbox.go, engine.go). */
module Journal {
  import opened Basics
  import opened Bytes
  import opened Codecs
  import opened Events
  import opened Wal
  import opened LogIO
  import opened Engine

  // ---- repair --------------------------------------------------------------------------------

  lemma {:induction false} BadRecordSpoilsScan(ps: seq<seq<byte>>, k: nat)
    requires k <= |ps| && LastEnd(ps[..k]).None?
    ensures LastEnd(ps).None?
    decreases |ps|
  {
    if k < |ps| {
      assert Init(ps)[..k] == ps[..k];
      BadRecordSpoilsScan(Init(ps), k);
    } else {
      assert ps[..k] == ps;
    }
  }

  lemma ScanOneMore(done: seq<seq<byte>>, p: seq<byte>)
    requires LastEnd(done).Some?
    ensures LastEnd(done + [p]) ==
            (match DecodedEv(p)
             case Err(_) => None
             case Ok(e) => if e.typ == EV_CMD_END then Some((|done| + 1, e.seqNo)) else LastEnd(done))
  {
    assert Init(done + [p]) == done && Last(done + [p]) == p;
  }

  lemma {:induction false} SizeOneMore(done: seq<seq<byte>>, p: seq<byte>)
    ensures Size(done + [p]) == Size(done) + HEADER_SIZE + |p|
  {
    if done != [] {
      SizeOneMore(done[1..], p);
      assert (done + [p])[1..] == done[1..] + [p];
    } else {
      assert [p][1..] == [];
    }
  }

  /** What the scanning loop has found so far: `done` are the records read. */
  ghost predicate Scanned(crc: Checksum, f: seq<byte>, done: seq<seq<byte>>, off: nat, k: nat, s: u64, cut: nat) {
    && off <= |f| && off == Size(done)
    && Parse(crc, DEFAULT_MAX_PAYLOAD, f).0 == done + Parse(crc, DEFAULT_MAX_PAYLOAD, f[off..]).0
    && Parse(crc, DEFAULT_MAX_PAYLOAD, f).1 == Parse(crc, DEFAULT_MAX_PAYLOAD, f[off..]).1
    && LastEnd(done) == Some((k, s)) && k <= |done| && cut == Size(done[..k])
  }

  lemma ScanStarts(crc: Checksum, f: seq<byte>)
    ensures Scanned(crc, f, [], 0, 0, 0, 0)
  {
    assert f[0..] == f;
  }

  lemma ScanMoves(crc: Checksum, f: seq<byte>, done: seq<seq<byte>>, off: nat, k: nat, s: u64, cut: nat)
    requires Scanned(crc, f, done, off, k, s, cut)
    requires ReadFrame(crc, DEFAULT_MAX_PAYLOAD, f[off..]).Record?
    ensures var p := ReadFrame(crc, DEFAULT_MAX_PAYLOAD, f[off..]).payload;
            var off' := off + HEADER_SIZE + |p|;
            if DecodedEv(p).Err? then LastEnd(Parse(crc, DEFAULT_MAX_PAYLOAD, f).0).None?
            else if DecodedEv(p).value.typ == EV_CMD_END then
              Scanned(crc, f, done + [p], off', |done| + 1, DecodedEv(p).value.seqNo, off')
            else Scanned(crc, f, done + [p], off', k, s, cut)
  {
    hide ReadFrame, Parse, DecodedEv, Size, LastEnd;
    ParseMore(crc, DEFAULT_MAX_PAYLOAD, done, f[off..]);
    var p := ReadFrame(crc, DEFAULT_MAX_PAYLOAD, f[off..]).payload;
    ScanOneMore(done, p);
    SizeOneMore(done, p);
    assert f[off..][HEADER_SIZE + |p|..] == f[off + HEADER_SIZE + |p|..];
    if DecodedEv(p).Err? {
      var ps := Parse(crc, DEFAULT_MAX_PAYLOAD, f).0;
      assert ps[..|done| + 1] == done + [p];
      BadRecordSpoilsScan(ps, |done| + 1);
    } else {
      assert (done + [p])[..k] == done[..k];
      assert (done + [p])[..|done| + 1] == done + [p];
    }
  }

  lemma ScanEnds(crc: Checksum, f: seq<byte>, done: seq<seq<byte>>, off: nat, k: nat, s: u64, cut: nat)
    requires Scanned(crc, f, done, off, k, s, cut)
    requires !ReadFrame(crc, DEFAULT_MAX_PAYLOAD, f[off..]).Record?
    ensures var end := ReadFrame(crc, DEFAULT_MAX_PAYLOAD, f[off..]);
            Repaired(crc, f) == if end.End? || end.HeaderOnly?
                                then Some((s, if cut == 0 then f else TruncateTo(f, cut))) else None
  {
    ParseMore(crc, DEFAULT_MAX_PAYLOAD, done, f[off..]);
    assert Parse(crc, DEFAULT_MAX_PAYLOAD, f).0 == done;
    SizePositive(done[..k]);
  }

  lemma SizePositive(ps: seq<seq<byte>>)
    ensures Size(ps) == 0 <==> ps == []
  {
  }

  /** Reads every record, remembers the last end marker, and cuts the file after it. A torn tail
      comes back from the reader as an error before any truncation. */
  method ScanAndRepair(crc: Checksum, file: LogFile) returns (ok: bool, lastSeq: u64)
    modifies file
    ensures ok <==> Repaired(crc, old(file.bytes)).Some?
    ensures ok ==> Repaired(crc, old(file.bytes)) == Some((lastSeq, file.bytes))
    ensures !ok ==> file.bytes == old(file.bytes)
  {
    hide Scanned, Repaired, DecodedEv;
    var r := new Reader(crc, file.bytes, 0);
    var lastOffset := 0;
    lastSeq := 0;
    ghost var done: seq<seq<byte>> := [];
    ghost var k: nat := 0;
    ScanStarts(crc, file.bytes);
    while true
      invariant file.bytes == old(file.bytes) == r.file && r.crc == crc && r.maxPayload == DEFAULT_MAX_PAYLOAD
      invariant r.off <= |r.file| && Scanned(crc, r.file, done, r.off, k, lastSeq, lastOffset)
      decreases |r.file| - r.off
    {
      ghost var off := r.off;
      var p, next, e := r.Next();
      if e != NoError {
        ScanEnds(crc, r.file, done, off, k, lastSeq, lastOffset);
        if e != EOF {
          return false, 0;
        }
        break;
      }
      ScanMoves(crc, r.file, done, off, k, lastSeq, lastOffset);
      var ev := DecodedEv(p);
      if ev.Err? {
        SpoiledRepair(crc, r.file);
        return false, 0;
      }
      if ev.value.typ == EV_CMD_END {
        lastSeq, lastOffset := ev.value.seqNo, next;
        k := |done| + 1;
      }
      done := done + [p];
    }
    if lastOffset > 0 && |file.bytes| > lastOffset {
      file.bytes := TruncateTo(file.bytes, lastOffset);
    }
    ok := true;
  }

  lemma SpoiledRepair(crc: Checksum, f: seq<byte>)
    requires LastEnd(Parse(crc, DEFAULT_MAX_PAYLOAD, f).0).None?
    ensures Repaired(crc, f).None?
  {
  }

  // ---- writing events ------------------------------------------------------------------------

  /** The event log's writer, with the record buffer it reuses. */
  class EventOutbox {
    const w: Writer
    const binBuf: array<byte>

    ghost predicate Valid()
      reads this, w, w.file
    {
      w.Valid() && binBuf.Length >= EV_RECORD_LEN
    }

    constructor (w: Writer)
      requires w.Valid()
      ensures Valid() && this.w == w && fresh(binBuf)
    {
      this.w := w;
      binBuf := new byte[EV_RECORD_LEN](_ => 0);
    }

    method Append(e: Event) returns (ok: bool)
      requires Valid()
      modifies w, w.file, binBuf
      ensures Valid() && w.intended == old(w.intended) + Frame(w.crc, EncodedEv(e))
      ensures old(w.file.bytes) <= w.file.bytes
      ensures ok == !w.failed && (old(w.failed) ==> w.failed) && (w.file.reliable ==> w.failed == old(w.failed))
    {
      hide Frame, EncodedEv;
      var buf := EncodeEv(binBuf, e);
      ok := w.Append(buf[..EV_RECORD_LEN]);
    }

    method AppendCmdEnd(seqNo: u64) returns (ok: bool)
      requires Valid()
      modifies w, w.file, binBuf
      ensures Valid() && w.intended == old(w.intended) + Frame(w.crc, EncodedEv(EndMarker(seqNo)))
      ensures old(w.file.bytes) <= w.file.bytes
      ensures ok == !w.failed && (old(w.failed) ==> w.failed) && (w.file.reliable ==> w.failed == old(w.failed))
    {
      hide Frame, EncodedEv;
      ok := Append(EndMarker(seqNo));
    }
  }

  lemma {:induction false} FramesOneMore(crc: Checksum, ps: seq<seq<byte>>, p: seq<byte>)
    ensures Frames(crc, ps + [p]) == Frames(crc, ps) + Frame(crc, p)
  {
    FramesAppend(crc, ps, [p]);
    assert [p][1..] == [];
    hide Frame;
    assert Frames(crc, [p]) == Frame(crc, p);
  }

  /** The emitter of one command: numbers the events in 16 bits and remembers the first error. */
  class OutboxEmitter {
    const out: EventOutbox
    const seqNo: u64
    var idx: u16
    var err: bool

    constructor (out: EventOutbox, seqNo: u64)
      ensures this.out == out && this.seqNo == seqNo && idx == 0 && !err
    {
      this.out, this.seqNo, idx, err := out, seqNo, 0, false;
    }

    method Emit(e: Emitted)
      requires out.Valid()
      modifies this, out.w, out.w.file, out.binBuf
      ensures out.Valid() && idx == (old(idx) + 1) % 0x1_0000
      ensures out.w.intended == old(out.w.intended) + Frame(out.w.crc, EncodedEv(Stamped(seqNo, old(idx), e)))
      ensures old(out.w.file.bytes) <= out.w.file.bytes && (old(out.w.failed) ==> out.w.failed)
      ensures err == (old(err) || out.w.failed) && (out.w.file.reliable ==> out.w.failed == old(out.w.failed))
    {
      hide Frame, EncodedEv;
      var i := idx;
      idx := (idx + 1) % 0x1_0000;
      var ok := out.Append(Stamped(seqNo, i, e));
      err := err || !ok;
    }
  }

  lemma StampWraps(seqNo: u64, i: nat, e: Emitted)
    ensures Stamped(seqNo, i % 0x1_0000, e) == Stamped(seqNo, i, e)
  {
  }

  lemma PayloadsOneMore(crc: Checksum, start: seq<byte>, seqNo: u64, es: seq<Emitted>, i: nat)
    requires i < |es|
    ensures start + Frames(crc, EventPayloads(seqNo, es[..i + 1])) ==
            start + Frames(crc, EventPayloads(seqNo, es[..i])) + Frame(crc, EncodedEv(Stamped(seqNo, i % 0x1_0000, es[i])))
  {
    StampWraps(seqNo, i, es[i]);
    var p := EncodedEv(Stamped(seqNo, i, es[i]));
    assert EventPayloads(seqNo, es[..i + 1]) == EventPayloads(seqNo, es[..i]) + [p];
    hide Frame, Frames, EncodedEv, EventPayloads, Stamped;
    FramesOneMore(crc, EventPayloads(seqNo, es[..i]), p);
    Associative(start, Frames(crc, EventPayloads(seqNo, es[..i])), Frame(crc, p));
  }

  /** All events of one command, through one emitter. */
  method EmitAll(out: EventOutbox, seqNo: u64, es: seq<Emitted>) returns (ok: bool)
    requires out.Valid()
    modifies out.w, out.w.file, out.binBuf
    ensures out.Valid() && out.w.intended == old(out.w.intended) + Frames(out.w.crc, EventPayloads(seqNo, es))
    ensures old(out.w.file.bytes) <= out.w.file.bytes && (old(out.w.failed) ==> out.w.failed)
    ensures if es == [] then ok && out.w.failed == old(out.w.failed) else ok == !out.w.failed
    ensures out.w.file.reliable ==> out.w.failed == old(out.w.failed)
  {
    hide Frame, Frames, EncodedEv, Stamped, EventPayloads;
    var em := new OutboxEmitter(out, seqNo);
    ghost var start := out.w.intended;
    NoPayloads(out.w.crc, seqNo, start);
    assert es[..0] == [];
    for i := 0 to |es|
      invariant em.out == out && em.seqNo == seqNo && out.Valid() && em.idx == i % 0x1_0000
      invariant out.w.intended == start + Frames(out.w.crc, EventPayloads(seqNo, es[..i]))
      invariant old(out.w.file.bytes) <= out.w.file.bytes && (old(out.w.failed) ==> out.w.failed)
      invariant out.w.file.reliable ==> out.w.failed == old(out.w.failed)
      invariant if i == 0 then !em.err && out.w.failed == old(out.w.failed) else em.err == out.w.failed
    {
      PayloadsOneMore(out.w.crc, start, seqNo, es, i);
      em.Emit(es[i]);
    }
    assert es[..|es|] == es;
    ok := !em.err;
  }

  lemma NoPayloads(crc: Checksum, seqNo: u64, start: seq<byte>)
    ensures start + Frames(crc, EventPayloads(seqNo, [])) == start
  {
  }
}

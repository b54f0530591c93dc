/** Bringing an engine back up from its two files, step by step (internal/engine/engine.go). */
module Startup {
  import opened Basics
  import opened Bytes
  import opened Codecs
  import opened Events
  import opened Wal
  import opened LogIO
  import opened Engine
  import opened Journal
  import opened Recovery

  lemma {:induction false} ReplayPrefix<B>(ob: OrderBook<B>, complete: u64, recs: seq<seq<byte>>, k: nat)
    requires k <= |recs| && Replay(ob, complete, recs).Some?
    ensures Replay(ob, complete, recs[..k]).Some?
    ensures Replay(ob, complete, recs[..k]).value.added <= Replay(ob, complete, recs).value.added
    decreases |recs|
  {
    if k < |recs| {
      assert Init(recs)[..k] == recs[..k];
      ReplayPrefix(ob, complete, Init(recs), k);
    } else {
      assert recs[..k] == recs;
    }
  }

  lemma ReplayOneMore<B>(ob: OrderBook<B>, complete: u64, done: seq<seq<byte>>, p: seq<byte>)
    requires Replay(ob, complete, done).Some?
    ensures var before := Replay(ob, complete, done).value;
            Replay(ob, complete, done + [p]) ==
            match DecodedCmd(p)
            case Err(_) => None
            case Ok((s, c)) =>
              var (b, es) := Replayed(ob, before.book, c);
              Some(Progress(b, if s > before.lastSeq then s else before.lastSeq,
                            before.added + (if s <= complete then [] else Records(s, es))))
  {
    assert Init(done + [p]) == done && Last(done + [p]) == p;
  }

  /** The replay has consumed the records `done` and stands at off with this progress. */
  ghost predicate Replaying<B>(crc: Checksum, ob: OrderBook<B>, complete: u64, f: seq<byte>, done: seq<seq<byte>>,
                               off: nat, at: Progress<B>) {
    && off <= |f|
    && Parse(crc, DEFAULT_MAX_PAYLOAD, f).0 == done + Parse(crc, DEFAULT_MAX_PAYLOAD, f[off..]).0
    && Parse(crc, DEFAULT_MAX_PAYLOAD, f).1 == Parse(crc, DEFAULT_MAX_PAYLOAD, f[off..]).1
    && Replay(ob, complete, done) == Some(at)
  }

  lemma ReplayStarts<B>(crc: Checksum, ob: OrderBook<B>, complete: u64, f: seq<byte>)
    ensures Replaying(crc, ob, complete, f, [], 0, Progress(ob.empty, 0, []))
  {
    assert f[0..] == f;
  }

  lemma ReplayMoves<B>(crc: Checksum, ob: OrderBook<B>, complete: u64, f: seq<byte>, done: seq<seq<byte>>, off: nat,
                       at: Progress<B>)
    requires Replaying(crc, ob, complete, f, done, off, at)
    requires ReadFrame(crc, DEFAULT_MAX_PAYLOAD, f[off..]).Record?
    ensures var p := ReadFrame(crc, DEFAULT_MAX_PAYLOAD, f[off..]).payload;
            match DecodedCmd(p)
            case Err(_) => Replay(ob, complete, Parse(crc, DEFAULT_MAX_PAYLOAD, f).0).None?
            case Ok((s, c)) =>
              var (b, es) := Replayed(ob, at.book, c);
              Replaying(crc, ob, complete, f, done + [p], off + HEADER_SIZE + |p|,
                        Progress(b, if s > at.lastSeq then s else at.lastSeq,
                                 at.added + (if s <= complete then [] else Records(s, es))))
  {
    ParseMore(crc, DEFAULT_MAX_PAYLOAD, done, f[off..]);
    var p := ReadFrame(crc, DEFAULT_MAX_PAYLOAD, f[off..]).payload;
    ReplayOneMore(ob, complete, done, p);
    hide ReadFrame, Parse, DecodedCmd, Replay, Replayed, Records;
    assert f[off..][HEADER_SIZE + |p|..] == f[off + HEADER_SIZE + |p|..];
    if DecodedCmd(p).Err? {
      var ps := Parse(crc, DEFAULT_MAX_PAYLOAD, f).0;
      assert ps[..|done| + 1] == done + [p];
      if Replay(ob, complete, ps).Some? {
        ReplayPrefix(ob, complete, ps, |done| + 1);
      }
    }
  }

  lemma ReplayEnds<B>(crc: Checksum, ob: OrderBook<B>, complete: u64, f: seq<byte>, done: seq<seq<byte>>, off: nat,
                      at: Progress<B>)
    requires Replaying(crc, ob, complete, f, done, off, at)
    requires !ReadFrame(crc, DEFAULT_MAX_PAYLOAD, f[off..]).Record?
    ensures Replay(ob, complete, Parse(crc, DEFAULT_MAX_PAYLOAD, f).0) == Some(at)
    ensures Parse(crc, DEFAULT_MAX_PAYLOAD, f).1 == ReadFrame(crc, DEFAULT_MAX_PAYLOAD, f[off..])
  {
    ParseMore(crc, DEFAULT_MAX_PAYLOAD, done, f[off..]);
  }

  /** What has been written back so far is a prefix of what a finished recovery writes. */
  lemma RefillIsPrefix<B>(crc: Checksum, ob: OrderBook<B>, d: Disk, complete: u64, ev: seq<byte>,
                          done: seq<seq<byte>>, off: nat, at: Progress<B>)
    requires Repaired(crc, d.ev) == Some((complete, ev)) && Replaying(crc, ob, complete, d.cmd, done, off, at)
    ensures Recovered(crc, ob, d).Some? ==> ev + Frames(crc, at.added) <= Recovered(crc, ob, d).value.disk.ev
  {
    hide Recovered, Repaired, ReadFrame, Parse, Replay, Frames;
    RecoveredSteps(crc, ob, d);
    var ps := Parse(crc, DEFAULT_MAX_PAYLOAD, d.cmd).0;
    assert ps[..|done|] == done;
    if Recovered(crc, ob, d).Some? {
      ReplayPrefix(ob, complete, ps, |done|);
      FramesGrow(crc, ev, at.added, Replay(ob, complete, ps).value.added);
    }
  }

  lemma Refill(crc: Checksum, start: seq<byte>, added: seq<seq<byte>>, s: u64, es: seq<Emitted>)
    ensures start + Frames(crc, added) + Frames(crc, EventPayloads(s, es)) + Frame(crc, EncodedEv(EndMarker(s))) ==
            start + Frames(crc, added + Records(s, es))
  {
    var body, end := EventPayloads(s, es), EncodedEv(EndMarker(s));
    assert Records(s, es) == body + [end];
    hide Records, EventPayloads, EncodedEv, Frame, Frames;
    FramesOneMore(crc, body, end);
    FramesAppend(crc, added, body + [end]);
    Regroup(start, Frames(crc, added), Frames(crc, body), Frame(crc, end));
  }

  lemma Regroup<T>(s: seq<T>, a: seq<T>, b: seq<T>, c: seq<T>)
    ensures s + a + b + c == s + (a + (b + c))
  {
  }

  datatype Outcome<B> =
    | Started(book: B, lastSeq: u64)
    | Corrupt   // the bytes on disk cannot be recovered from
    | IoError   // opening, writing or syncing failed

  /** Applies one replayed command, and writes its events back if the event log lacks them. */
  method Redo<B>(ob: OrderBook<B>, out: EventOutbox, complete: u64, s: u64, c: Command, book: B)
    returns (next: B, ghost es: seq<Emitted>, ok: bool)
    requires out.Valid() && !out.w.failed
    modifies out.w, out.w.file, out.binBuf
    ensures out.Valid() && old(out.w.file.bytes) <= out.w.file.bytes
    ensures (next, es) == Replayed(ob, book, c) && ok == !out.w.failed && (out.w.file.reliable ==> ok)
    ensures ok ==>
              out.w.intended == old(out.w.intended) +
                                (if s <= complete then []
                                 else Frames(out.w.crc, EventPayloads(s, es)) + Frame(out.w.crc, EncodedEv(EndMarker(s))))
    ensures out.w.intended <= old(out.w.intended) +
                              (if s <= complete then []
                               else Frames(out.w.crc, EventPayloads(s, es)) + Frame(out.w.crc, EncodedEv(EndMarker(s))))
  {
    hide Frames, Frame, EncodedEv, EventPayloads, Replayed;
    var (b, emitted) := Replayed(ob, book, c);
    next, es, ok := b, emitted, true;
    if s > complete {
      ok := EmitAll(out, s, emitted);
      if ok {
        ok := out.AppendCmdEnd(s);
      }
    }
  }

  method Reapply<B>(crc: Checksum, ob: OrderBook<B>, cmd: seq<byte>, out: EventOutbox, complete: u64, ghost d: Disk)
    returns (r: Outcome<B>)
    requires out.Valid() && !out.w.failed && out.w.crc == crc && cmd == d.cmd
    requires Repaired(crc, d.ev) == Some((complete, out.w.intended))
    modifies out.w, out.w.file, out.binBuf
    ensures out.Valid()
    ensures match r
            case Started(book, lastSeq) =>
              !out.w.failed && Recovered(crc, ob, d) == Some(Ready(book, lastSeq, Disk(cmd, out.w.intended)))
            case Corrupt => Recovered(crc, ob, d).None?
            case IoError => !out.w.file.reliable
    ensures Recovered(crc, ob, d).Some? ==> out.w.intended <= Recovered(crc, ob, d).value.disk.ev
  {
    hide Frames, Frame, EncodedEv, EventPayloads, Replayed, Parse, ReadFrame, Replay, Recovered, Repaired, Replaying;
    hide Records, DecodedCmd;
    var book, lastSeq, off := ob.empty, 0, 0;
    ghost var ev := out.w.intended;
    ghost var done: seq<seq<byte>> := [];
    ghost var added: seq<seq<byte>> := [];
    ReplayStarts(crc, ob, complete, cmd);
    RefillIsPrefix(crc, ob, d, complete, ev, done, off, Progress(book, lastSeq, added));
    NoFrames(crc, ev);
    while true
      invariant out.Valid() && !out.w.failed && off <= |cmd|
      invariant Replaying(crc, ob, complete, cmd, done, off, Progress(book, lastSeq, added))
      invariant out.w.intended == ev + Frames(crc, added)
      invariant Recovered(crc, ob, d).Some? ==> out.w.intended <= Recovered(crc, ob, d).value.disk.ev
      decreases |cmd| - off
    {
      var item := ReadFrame(crc, DEFAULT_MAX_PAYLOAD, cmd[off..]);
      if !item.Record? {
        Finish(crc, ob, d, complete, ev, done, off, Progress(book, lastSeq, added));
        return if item.End? || item.CutHeader? || item.CutPayload? then Started(book, lastSeq) else Corrupt;
      }
      ReplayMoves(crc, ob, complete, cmd, done, off, Progress(book, lastSeq, added));
      RecordFits(crc, cmd[off..]);
      var rec := DecodedCmd(item.payload);
      if rec.Err? {
        Spoiled(crc, ob, d, complete, ev);
        return Corrupt;
      }
      var (s, c) := rec.value;
      var next, es, ok := Redo(ob, out, complete, s, c, book);
      Refill(crc, ev, added, s, es);
      Associative(ev + Frames(crc, added), Frames(crc, EventPayloads(s, es)), Frame(crc, EncodedEv(EndMarker(s))));
      assert added + [] == added && out.w.intended + [] == out.w.intended;
      done, off := done + [item.payload], off + HEADER_SIZE + |item.payload|;
      book, lastSeq := next, if s > lastSeq then s else lastSeq;
      added := added + (if s <= complete then [] else Records(s, es));
      RefillIsPrefix(crc, ob, d, complete, ev, done, off, Progress(book, lastSeq, added));
      if !ok {
        return IoError;
      }
    }
  }

  lemma NoFrames(crc: Checksum, ev: seq<byte>)
    ensures ev + Frames(crc, []) == ev
  {
  }

  lemma RecordFits(crc: Checksum, s: seq<byte>)
    ensures var r := ReadFrame(crc, DEFAULT_MAX_PAYLOAD, s); r.Record? ==> HEADER_SIZE + |r.payload| <= |s|
  {
  }

  lemma Spoiled<B>(crc: Checksum, ob: OrderBook<B>, d: Disk, complete: u64, ev: seq<byte>)
    requires Repaired(crc, d.ev) == Some((complete, ev))
    requires Replay(ob, complete, Parse(crc, DEFAULT_MAX_PAYLOAD, d.cmd).0).None?
    ensures Recovered(crc, ob, d).None?
  {
  }

  lemma Finish<B>(crc: Checksum, ob: OrderBook<B>, d: Disk, complete: u64, ev: seq<byte>,
                  done: seq<seq<byte>>, off: nat, at: Progress<B>)
    requires Repaired(crc, d.ev) == Some((complete, ev)) && Replaying(crc, ob, complete, d.cmd, done, off, at)
    requires !ReadFrame(crc, DEFAULT_MAX_PAYLOAD, d.cmd[off..]).Record?
    ensures var end := ReadFrame(crc, DEFAULT_MAX_PAYLOAD, d.cmd[off..]);
            Recovered(crc, ob, d) == if end.End? || end.CutHeader? || end.CutPayload?
                                     then Some(Ready(at.book, at.lastSeq, Disk(d.cmd, ev + Frames(crc, at.added))))
                                     else None
  {
    ReplayEnds(crc, ob, complete, d.cmd, done, off, at);
  }

  lemma NotRepaired<B>(crc: Checksum, ob: OrderBook<B>, d: Disk)
    ensures Repaired(crc, d.ev).None? ==> Recovered(crc, ob, d).None?
  {
  }

  lemma RepairedIsPrefix<B>(crc: Checksum, ob: OrderBook<B>, d: Disk)
    ensures Recovered(crc, ob, d).Some? ==>
              Repaired(crc, d.ev).Some? && Repaired(crc, d.ev).value.1 <= Recovered(crc, ob, d).value.disk.ev
  {
  }

  /** Repair the event log, replay the command log, refill, flush. Success means exactly the state
      recovery is specified to reach, with the files on disk; and whenever recovery is possible but
      stops half-way on an I/O error, the event log holds a prefix of what a later attempt writes. */
  method Start<B>(crc: Checksum, ob: OrderBook<B>, cmdFile: LogFile, evFile: LogFile)
    returns (r: Outcome<B>, out: EventOutbox?)
    requires cmdFile != evFile
    modifies evFile
    ensures var d := Disk(cmdFile.bytes, old(evFile.bytes));
            && cmdFile.bytes == old(cmdFile.bytes)
            && (match r
                case Started(book, lastSeq) =>
                  && Recovered(crc, ob, d) == Some(Ready(book, lastSeq, Disk(cmdFile.bytes, evFile.bytes)))
                  && out != null && out.Valid() && out.w.file == evFile && out.w.crc == crc && !out.w.failed
                  && out.w.intended == evFile.bytes && fresh(out) && fresh(out.w) && fresh(out.binBuf)
                case Corrupt => Recovered(crc, ob, d).None?
                case IoError => !evFile.reliable)
            && (Recovered(crc, ob, d).Some? ==> evFile.bytes <= Recovered(crc, ob, d).value.disk.ev)
  {
    hide Recovered, Repaired, Frames;
    ghost var d := Disk(cmdFile.bytes, evFile.bytes);
    RepairedIsPrefix(crc, ob, d);
    NotRepaired(crc, ob, d);
    var ok, complete := ScanAndRepair(crc, evFile);
    if !ok {
      return Corrupt, null;
    }
    var openFails := evFile.Fails();
    if openFails {
      return IoError, null;
    }
    var w := new Writer(crc, evFile);
    out := new EventOutbox(w);
    r := Reapply(crc, ob, cmdFile.bytes, out, complete, d);
    var flushed := w.Flush();
    if r.Started? {
      var reopenFails := evFile.Fails();
      if !flushed || reopenFails {
        return IoError, null;
      }
    }
  }
}

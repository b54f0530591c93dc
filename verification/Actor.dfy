/** The single-writer actor (internal/engine/actor.go): log the batch, sync, apply it command by
    command, sync the events. */
module Actor {
  import opened Basics
  import opened Bytes
  import opened Codecs
  import opened Events
  import opened Wal
  import opened LogIO
  import opened Engine
  import opened Recovery
  import opened Lives
  import opened Journal

  class SymbolActor<B> {
    const ob: OrderBook<B>
    const wal: Writer
    const out: EventOutbox
    var book: B
    var seqNo: nat
    var running: bool

    ghost const start: Ready<B>       // what the actor was created from
    ghost var cmds: seq<Command>      // the commands it has numbered
    ghost var synced: nat             // how many of them are known to be on disk
    ghost var applied: nat            // how many of them the book has seen

    /** The write-ahead discipline. It speaks of the files only through what has certainly reached
        the command file and what was ever written to the event log, so it also holds while a write
        is under way. */
    ghost predicate WriteAhead()
      reads this, wal, wal.file, out, out.w, out.w.file
    {
      && wal.Valid() && out.Valid() && wal.crc == out.w.crc && wal != out.w && wal.file != out.w.file
      && start.lastSeq + |cmds| < TWO64 && seqNo == start.lastSeq + |cmds|
      && applied <= synced <= |cmds|
      && wal.intended == start.disk.cmd + Frames(wal.crc, CmdRecords(start.lastSeq, cmds))
      && start.disk.cmd + Frames(wal.crc, CmdRecords(start.lastSeq, cmds[..synced])) <= wal.file.bytes
      && start.disk.ev <= out.w.file.bytes
      && out.w.intended == start.disk.ev + Frames(wal.crc, EvRecords(ob, start.book, start.lastSeq, cmds[..applied]))
      && book == BookOn(ob, start.book, cmds[..applied])
    }

    /** Between batches: everything taken is applied and on disk. */
    ghost predicate Settled()
      reads this, wal, wal.file, out, out.w, out.w.file
    {
      && WriteAhead() && applied == synced == |cmds| && !wal.failed && !out.w.failed
      && wal.file.bytes == wal.intended && out.w.file.bytes == out.w.intended
    }

    constructor (ob: OrderBook<B>, wal: Writer, out: EventOutbox, book: B, lastSeq: u64)
      requires wal.Valid() && out.Valid() && wal.crc == out.w.crc && wal != out.w && wal.file != out.w.file
      requires wal.intended == wal.file.bytes && out.w.intended == out.w.file.bytes && !wal.failed && !out.w.failed
      ensures Settled() && running && this.ob == ob && this.wal == wal && this.out == out && cmds == []
      ensures start == Ready(book, lastSeq, Disk(wal.file.bytes, out.w.file.bytes))
    {
      this.ob, this.wal, this.out, this.book, this.seqNo, this.running := ob, wal, out, book, lastSeq, true;
      this.start := Ready(book, lastSeq, Disk(wal.file.bytes, out.w.file.bytes));
      this.cmds, this.synced, this.applied := [], 0, 0;
      new;
      NoRecords(wal.crc, ob, this.start);
    }

    /** Numbers one command and appends its record. */
    method LogOne(c: Command) returns (ok: bool)
      requires WriteAhead() && seqNo + 1 < TWO64
      modifies this`seqNo, this`cmds, wal, wal.file
      ensures WriteAhead() && cmds == old(cmds) + [c] && ok == !wal.failed
      ensures wal.file.reliable ==> wal.failed == old(wal.failed)
    {
      hide Frames, Frame, EncodedCmd, CmdRecords, EvRecords, BookOn;
      OneMoreCommand(wal.crc, start.disk.cmd, start.lastSeq, cmds, c);
      assert (cmds + [c])[..synced] == cmds[..synced] && (cmds + [c])[..applied] == cmds[..applied];
      seqNo := seqNo + 1;
      cmds := cmds + [c];
      var rec := new byte[CMD_RECORD_LEN](_ => 0);
      var payload := EncodeCmd(rec, seqNo, c);
      ok := wal.Append(payload[..CMD_RECORD_LEN]);
    }

    method SyncLog() returns (ok: bool)
      requires WriteAhead()
      modifies this`synced, wal, wal.file
      ensures WriteAhead() && (ok ==> synced == |cmds| && wal.file.bytes == wal.intended && !wal.failed)
      ensures wal.file.reliable && !old(wal.failed) ==> ok
    {
      hide Frames, CmdRecords, EvRecords, BookOn;
      ok := wal.Flush();
      if ok {
        synced := |cmds|;
        assert cmds[..synced] == cmds;
      }
    }

    /** Applies the next synced command and writes its events, then its end marker. A write error on
        an event goes unnoticed; one on the end marker stops the actor. A rejected command gets no
        end marker. */
    method ApplyOne(c: Command, s: u64) returns (ok: bool)
      requires WriteAhead() && applied < synced && c == cmds[applied] && s == start.lastSeq + applied + 1
      modifies this`book, this`applied, out.w, out.w.file, out.binBuf
      ensures WriteAhead() && applied == old(applied) + 1
      ensures out.w.file.reliable && !old(out.w.failed) ==> ok && !out.w.failed
    {
      hide Frames, Frame, EncodedEv, CmdRecords, EvRecords, BookOn, EventPayloads;
      OneMoreApplied(wal.crc, ob, start, cmds, applied);
      var es: seq<Emitted>;
      ok := true;
      var marks := true;
      if c.typ == CMD_SUBMIT {
        if c.order == 0 || c.qty <= 0 || c.price <= 0 || (c.side != 1 && c.side != 2) {
          es, marks := [Rejected(c.req, c.order, c.user)], false;
        } else {
          var (b, emitted) := ob.submit(book, TicketOf(c));
          book, es := b, emitted;
        }
      } else if c.typ == CMD_CANCEL {
        if c.cancel == 0 {
          es, marks := [Rejected(c.req, 0, 0)], false;
        } else {
          var (b, emitted, found) := ob.cancel(book, c.req, c.cancel);
          book, es := b, emitted;
          if !found {
            es := es + [Rejected(c.req, c.cancel, 0)];
          } else {
            assert es + [] == es;
          }
        }
      } else {
        es := [Rejected(c.req, c.order, c.user)];
      }
      assert (book, es, marks) == Live(ob, BookOn(ob, start.book, cmds[..applied]), c);
      var _ := EmitAll(out, s, es);
      if marks {
        ok := out.AppendCmdEnd(s);
      }
      applied := applied + 1;
    }

    method SyncEvents() returns (ok: bool)
      requires WriteAhead()
      modifies out.w, out.w.file
      ensures WriteAhead() && (ok ==> out.w.file.bytes == out.w.intended && !out.w.failed)
      ensures out.w.file.reliable && !old(out.w.failed) ==> ok
    {
      hide Frames, CmdRecords, EvRecords, BookOn;
      ok := out.w.Flush();
    }

    /** Closing flushes what is buffered, if it can. */
    method Close()
      requires WriteAhead()
      modifies this`running, this`synced, wal, wal.file, out.w, out.w.file
      ensures WriteAhead() && !running
      ensures wal.file.reliable && !old(wal.failed) ==> wal.file.bytes == wal.intended
      ensures out.w.file.reliable && !old(out.w.failed) ==> out.w.file.bytes == out.w.intended
    {
      Numbered();
      hide WriteAhead;
      var _ := SyncEvents();
      var _ := SyncLog();
      Stop();
    }

    method Stop()
      requires WriteAhead()
      modifies this`running
      ensures WriteAhead() && !running
    {
      running := false;
    }

    method LogBatch(batch: seq<Command>) returns (ok: bool, seqs: seq<u64>)
      requires WriteAhead() && seqNo + |batch| < TWO64
      modifies this`seqNo, this`cmds, wal, wal.file
      ensures WriteAhead() && (ok ==> cmds == old(cmds) + batch)
      ensures wal.file.reliable && !old(wal.failed) ==> ok && !wal.failed
      ensures ok ==> |seqs| == |batch| && forall i :: 0 <= i < |batch| ==> seqs[i] == start.lastSeq + |old(cmds)| + i + 1
      ensures old(cmds) <= cmds <= old(cmds) + batch
    {
      hide WriteAhead;
      assert batch[..0] == [] && cmds + [] == cmds;
      seqs := [];
      Numbered();
      for i := 0 to |batch|
        invariant WriteAhead() && cmds == old(cmds) + batch[..i] && |seqs| == i
        invariant wal.file.reliable && !old(wal.failed) ==> !wal.failed
        invariant forall j :: 0 <= j < i ==> seqs[j] == start.lastSeq + |old(cmds)| + j + 1
      {
        Numbered();
        ok := LogOne(batch[i]);
        Numbered();
        assert cmds == old(cmds) + batch[..i + 1];
        seqs := seqs + [seqNo];
        if !ok {
          return;
        }
      }
      assert batch[..|batch|] == batch;
      ok := true;
    }

    lemma Numbered()
      requires WriteAhead()
      ensures seqNo == start.lastSeq + |cmds| && applied <= synced <= |cmds|
      ensures wal != out.w && wal.file != out.w.file
    {
    }

    method ApplyBatch(batch: seq<Command>, seqs: seq<u64>) returns (ok: bool)
      requires WriteAhead() && synced == |cmds| == applied + |batch| && cmds[applied..] == batch
      requires |seqs| == |batch| && forall i :: 0 <= i < |batch| ==> seqs[i] == start.lastSeq + applied + i + 1
      modifies this`book, this`applied, out.w, out.w.file, out.binBuf
      ensures WriteAhead() && (ok ==> applied == |cmds|)
      ensures out.w.file.reliable && !old(out.w.failed) ==> ok && !out.w.failed
    {
      hide WriteAhead;
      for i := 0 to |batch|
        invariant WriteAhead() && applied == old(applied) + i
        invariant out.w.file.reliable && !old(out.w.failed) ==> !out.w.failed
      {
        ok := ApplyOne(batch[i], seqs[i]);
        if !ok {
          return;
        }
      }
      ok := true;
    }

    /** One batch. Whatever fails and wherever, the discipline holds; when nothing fails the batch is
        applied and both logs are on disk. */
    method RunBatch(batch: seq<Command>)
      requires Settled() && running && seqNo + |batch| < TWO64
      modifies this, wal, wal.file, out.w, out.w.file, out.binBuf
      ensures WriteAhead() && (running ==> Settled() && cmds == old(cmds) + batch)
      ensures wal.file.reliable && out.w.file.reliable ==> running
      ensures old(cmds) <= cmds <= old(cmds) + batch
    {
      AtRest();
      hide Settled, WriteAhead;
      var ok, seqs := LogBatch(batch);
      if ok {
        ok := SyncLog();
      }
      if !ok {
        Close();
        return;
      }
      Numbered();
      ok := ApplyBatch(batch, seqs);
      if ok {
        ok := SyncEvents();
      }
      if !ok {
        Close();
        return;
      }
      AtRest();
    }

    lemma AtRest()
      ensures Settled() <==> WriteAhead() && applied == synced == |cmds| && !wal.failed && !out.w.failed &&
                             wal.file.bytes == wal.intended && out.w.file.bytes == out.w.intended
    {
    }

    /** The loop over batches, until one of them fails. */
    method Run(batches: seq<seq<Command>>)
      requires Settled() && running && seqNo + |Joined(batches)| < TWO64
      modifies this, wal, wal.file, out.w, out.w.file, out.binBuf
      ensures WriteAhead() && (running ==> Settled() && cmds == old(cmds) + Joined(batches))
      ensures wal.file.reliable && out.w.file.reliable ==> running
      ensures old(cmds) <= cmds <= old(cmds) + Joined(batches)
    {
      AtRest();
      Numbered();
      hide Settled, WriteAhead;
      JoinedAll(batches);
      assert cmds + [] == cmds;
      for i := 0 to |batches|
        invariant running && Settled() && cmds == old(cmds) + Joined(batches[..i])
      {
        AtRest();
        Numbered();
        JoinedNext(batches, i);
        Associative(old(cmds), Joined(batches[..i]), batches[i]);
        RunBatch(batches[i]);
        if !running {
          return;
        }
      }
      AtRest();
    }
  }

  /** The commands of a sequence of batches. */
  ghost function Joined(batches: seq<seq<Command>>): seq<Command>
    decreases |batches|
  {
    if batches == [] then [] else Joined(Init(batches)) + Last(batches)
  }

  lemma {:induction false} JoinedPrefix(batches: seq<seq<Command>>, i: nat)
    requires i <= |batches|
    ensures Joined(batches[..i]) <= Joined(batches)
    decreases |batches|
  {
    if i == |batches| {
      assert batches[..i] == batches;
    } else {
      assert Init(batches)[..i] == batches[..i];
      JoinedPrefix(Init(batches), i);
    }
  }

  lemma JoinedNext(batches: seq<seq<Command>>, i: nat)
    requires i < |batches|
    ensures Joined(batches[..i + 1]) == Joined(batches[..i]) + batches[i]
    ensures Joined(batches[..i + 1]) <= Joined(batches)
  {
    assert Init(batches[..i + 1]) == batches[..i] && Last(batches[..i + 1]) == batches[i];
    JoinedLast(batches[..i + 1]);
    hide Joined;
    JoinedPrefix(batches, i + 1);
  }

  lemma JoinedLast(batches: seq<seq<Command>>)
    requires batches != []
    ensures Joined(batches) == Joined(Init(batches)) + Last(batches)
  {
  }

  lemma JoinedAll(batches: seq<seq<Command>>)
    ensures batches[..|batches|] == batches && Joined(batches[..0]) == []
  {
  }

  lemma NoRecords<B>(crc: Checksum, ob: OrderBook<B>, r: Ready<B>)
    requires r.lastSeq < TWO64
    ensures Frames(crc, CmdRecords(r.lastSeq, [])) == [] == Frames(crc, EvRecords(ob, r.book, r.lastSeq, []))
  {
    assert CmdRecords(r.lastSeq, []) == [];
  }

  lemma OneMoreCommand(crc: Checksum, head: seq<byte>, lastSeq: nat, cmds: seq<Command>, c: Command)
    requires lastSeq + |cmds| + 1 < TWO64
    ensures head + Frames(crc, CmdRecords(lastSeq, cmds + [c])) ==
            head + Frames(crc, CmdRecords(lastSeq, cmds)) + Frame(crc, EncodedCmd(lastSeq + |cmds| + 1, c))
  {
    var p := EncodedCmd(lastSeq + |cmds| + 1, c);
    assert CmdRecords(lastSeq, cmds + [c]) == CmdRecords(lastSeq, cmds) + [p];
    hide Frame, Frames, CmdRecords, EncodedCmd;
    FramesOneMore(crc, CmdRecords(lastSeq, cmds), p);
    Associative(head, Frames(crc, CmdRecords(lastSeq, cmds)), Frame(crc, p));
  }

  lemma OneMoreApplied<B>(crc: Checksum, ob: OrderBook<B>, r: Ready<B>, cmds: seq<Command>, k: nat)
    requires k < |cmds| && r.lastSeq + |cmds| < TWO64
    ensures var s: u64 := r.lastSeq + k + 1;
            var (b, es, ended) := Live(ob, BookOn(ob, r.book, cmds[..k]), cmds[k]);
            && BookOn(ob, r.book, cmds[..k + 1]) == b
            && r.disk.ev + Frames(crc, EvRecords(ob, r.book, r.lastSeq, cmds[..k + 1])) ==
               r.disk.ev + Frames(crc, EvRecords(ob, r.book, r.lastSeq, cmds[..k]))
               + Frames(crc, EventPayloads(s, es)) + (if ended then Frame(crc, EncodedEv(EndMarker(s))) else [])
  {
    hide Live, BookOn, EvRecords, LiveRecords, Frame, Frames, EncodedEv, EventPayloads, EndMarker;
    var pre := cmds[..k + 1];
    assert Init(pre) == cmds[..k] && Last(pre) == cmds[k];
    EvRecordsStep(ob, r.book, r.lastSeq, pre);
    var s: u64 := r.lastSeq + k + 1;
    var (b, es, ended) := Live(ob, BookOn(ob, r.book, cmds[..k]), cmds[k]);
    EventFrames(crc, r.disk.ev, EvRecords(ob, r.book, r.lastSeq, cmds[..k]), s, es, ended);
  }

  lemma EventFrames(crc: Checksum, head: seq<byte>, before: seq<seq<byte>>, s: u64, es: seq<Emitted>, ended: bool)
    ensures head + Frames(crc, before + LiveRecords(s, es, ended)) ==
            head + Frames(crc, before) + Frames(crc, EventPayloads(s, es))
            + (if ended then Frame(crc, EncodedEv(EndMarker(s))) else [])
  {
    var body := EventPayloads(s, es);
    FramesAppend(crc, before, LiveRecords(s, es, ended));
    Associative(head, Frames(crc, before), Frames(crc, LiveRecords(s, es, ended)));
    hide Frame, Frames, EncodedEv, EventPayloads;
    if ended {
      FramesOneMore(crc, body, EncodedEv(EndMarker(s)));
      Associative(head + Frames(crc, before), Frames(crc, body), Frame(crc, EncodedEv(EndMarker(s))));
    } else {
      assert head + Frames(crc, before) + Frames(crc, body) + [] == head + Frames(crc, before) + Frames(crc, body);
    }
  }
}

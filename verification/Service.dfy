/** One life of the engine, from its files back to its files: what the running code can leave on
    disk is what the crash theorems speak about. */
module Service {
  import opened Basics
  import opened Bytes
  import opened Codecs
  import opened Events
  import opened Wal
  import opened LogIO
  import opened Engine
  import opened Recovery
  import opened Lives
  import opened Journal
  import opened Startup
  import opened Actor

  /** What the files may hold while the write-ahead discipline is kept: at least the first `synced`
      command records, and event records only of commands among those. */
  ghost predicate Underway<B>(crc: Checksum, ob: OrderBook<B>, r: Ready<B>, cmds: seq<Command>, synced: nat, k: nat,
                              d: Disk) {
    && r.lastSeq + |cmds| < TWO64 && k <= synced <= |cmds|
    && d.cmd <= r.disk.cmd + Frames(crc, CmdRecords(r.lastSeq, cmds))
    && r.disk.cmd + Frames(crc, CmdRecords(r.lastSeq, cmds[..synced])) <= d.cmd
    && r.disk.ev <= d.ev
    && d.ev <= r.disk.ev + Frames(crc, EvRecords(ob, r.book, r.lastSeq, cmds[..k]))
  }

  lemma {:induction false} EvRecordsPrefix<B>(ob: OrderBook<B>, b: B, lastSeq: nat, cmds: seq<Command>, k: nat)
    requires k <= |cmds| && lastSeq + |cmds| < TWO64
    ensures EvRecords(ob, b, lastSeq, cmds[..k]) <= EvRecords(ob, b, lastSeq, cmds)
    decreases |cmds|
  {
    if k == |cmds| {
      assert cmds[..k] == cmds;
    } else {
      EvRecordsPrefix(ob, b, lastSeq, Init(cmds), k);
      assert Init(cmds)[..k] == cmds[..k];
      EvRecordsStep(ob, b, lastSeq, cmds);
    }
  }

  lemma PrefixOfFrames(crc: Checksum, head: seq<byte>, ps: seq<seq<byte>>, f: seq<byte>)
    requires head <= f <= head + Frames(crc, ps)
    ensures |Frames(crc, ps)| == Size(ps) && |f| - |head| <= Size(ps)
    ensures f == head + TruncateTo(Frames(crc, ps), |f| - |head|)
  {
    FramesSize(crc, ps);
  }

  /** Stopped at any point, the engine leaves the files of a possible life. */
  lemma CrashIsALife<B>(crc: Checksum, ob: OrderBook<B>, r: Ready<B>, cmds: seq<Command>, synced: nat, k: nat, d: Disk)
    returns (x: Life)
    requires Underway(crc, ob, r, cmds, synced, k, d)
    ensures x.cmds == cmds && Possible(ob, r, x) && d == CrashedDisk(crc, ob, r, x)
    ensures synced <= Whole(CmdRecords(r.lastSeq, cmds), x.c)
  {
    hide Frames, CmdRecords, EvRecords, Size, Whole, TruncateTo;
    var recs := CmdRecords(r.lastSeq, cmds);
    RecordsPrefix(r.lastSeq, cmds, synced);
    FramesGrow(crc, r.disk.cmd, CmdRecords(r.lastSeq, cmds[..synced]), recs);
    PrefixOfFrames(crc, r.disk.cmd, recs, d.cmd);
    var c := |d.cmd| - |r.disk.cmd|;
    WholeIff(recs, c, synced);
    assert recs[..synced] == CmdRecords(r.lastSeq, cmds[..synced]);
    var w := Whole(recs, c);
    assert cmds[..w][..k] == cmds[..k];
    EvRecordsPrefix(ob, r.book, r.lastSeq, cmds[..w], k);
    var evs := EvRecords(ob, r.book, r.lastSeq, cmds[..w]);
    FramesGrow(crc, r.disk.ev, EvRecords(ob, r.book, r.lastSeq, cmds[..k]), evs);
    PrefixOfFrames(crc, r.disk.ev, evs, d.ev);
    x := Life(cmds, c, |d.ev| - |r.disk.ev|);
  }

  lemma RecordsPrefix(lastSeq: nat, cmds: seq<Command>, k: nat)
    requires k <= |cmds| && lastSeq + |cmds| < TWO64
    ensures CmdRecords(lastSeq, cmds[..k]) <= CmdRecords(lastSeq, cmds)
    ensures CmdRecords(lastSeq, cmds)[..k] == CmdRecords(lastSeq, cmds[..k])
  {
    hide EncodedCmd;
  }

  lemma ActorUnderway<B>(a: SymbolActor<B>)
    requires a.WriteAhead()
    ensures Underway(a.wal.crc, a.ob, a.start, a.cmds, a.synced, a.applied, Disk(a.wal.file.bytes, a.out.w.file.bytes))
  {
    hide Frames, CmdRecords, EvRecords, BookOn;
  }

  /** The files once everything taken is applied and on disk. */
  ghost function Served<B>(crc: Checksum, ob: OrderBook<B>, r: Ready<B>, cmds: seq<Command>): Disk
    requires r.lastSeq + |cmds| < TWO64
  {
    Disk(r.disk.cmd + Frames(crc, CmdRecords(r.lastSeq, cmds)),
         r.disk.ev + Frames(crc, EvRecords(ob, r.book, r.lastSeq, cmds)))
  }

  /** Start from any files that recovery accepts, a torn command log among them, serve any batches, stop
      anywhere. When the start succeeds the files end as a possible life of the recovered engine left
      them; when nothing fails they hold everything; and when the start itself stops on an I/O error the
      event log holds a prefix of what it should. */
  method LiveOnce<B>(crc: Checksum, ob: OrderBook<B>, cmdFile: LogFile, evFile: LogFile, batches: seq<seq<Command>>,
                     ghost r0: Ready<B>)
    returns (r: Outcome<B>, healthy: bool, ghost x: Life)
    requires cmdFile != evFile && r0.lastSeq + |Joined(batches)| < TWO64
    requires Recovered(crc, ob, Disk(cmdFile.bytes, evFile.bytes)) == Some(r0)
    modifies cmdFile, evFile
    ensures !r.Corrupt?
    ensures r.IoError? ==> cmdFile.bytes == r0.disk.cmd && evFile.bytes <= r0.disk.ev
    ensures r.Started? ==>
              && r == Started(r0.book, r0.lastSeq)
              && Possible(ob, r0, x) && x.cmds <= Joined(batches)
              && Disk(cmdFile.bytes, evFile.bytes) == CrashedDisk(crc, ob, r0, x)
    ensures cmdFile.reliable && evFile.reliable ==> healthy
    ensures healthy ==> r.Started? && Disk(cmdFile.bytes, evFile.bytes) == Served(crc, ob, r0, Joined(batches))
  {
    hide Recovered, Frames, Possible, CrashedDisk, SymbolActor.WriteAhead, SymbolActor.Settled, Underway, Served;
    RecoveredKeeps(crc, ob, Disk(cmdFile.bytes, evFile.bytes));
    var out;
    r, out := Start(crc, ob, cmdFile, evFile);
    healthy, x := false, Life([], 0, 0);
    if r.Started? {
      var wal := new Writer(crc, cmdFile);
      var a := new SymbolActor(ob, wal, out, r.book, r.lastSeq);
      a.AtRest();
      a.Numbered();
      a.Run(batches);
      healthy := a.running;
      ActorUnderway(a);
      x := CrashIsALife(crc, ob, a.start, a.cmds, a.synced, a.applied, Disk(wal.file.bytes, out.w.file.bytes));
      a.AtRest();
      assert a.cmds <= Joined(batches) by {
        assert [] + Joined(batches) == Joined(batches);
      }
      if healthy {
        assert [] + Joined(batches) == Joined(batches);
        SettledFiles(a);
      }
    }
  }

  lemma SettledFiles<B>(a: SymbolActor<B>)
    requires a.Settled()
    ensures a.start.lastSeq + |a.cmds| < TWO64
    ensures Disk(a.wal.file.bytes, a.out.w.file.bytes) == Served(a.wal.crc, a.ob, a.start, a.cmds)
  {
    hide Frames, CmdRecords, EvRecords, BookOn;
    assert a.cmds[..|a.cmds|] == a.cmds;
  }

  /** Begun with whole files, a life of faithful commands in which nothing fails ends with whole files. */
  lemma ServedInFull<B>(crc: Checksum, ob: OrderBook<B>, log: History, cmds: seq<Command>)
    requires |log| + |cmds| < TWO64 && AllFaithful(ob, log + cmds)
    ensures Served(crc, ob, Full(crc, ob, log), cmds) == Full(crc, ob, log + cmds).disk
  {
    hide AllFaithful, Frames, CmdRecords, EvRecords, CmdLog, EventLog, BookAfter;
    CmdLogExtends(log, cmds);
    EventLogExtends(ob, log, cmds);
    FramesAppend(crc, CmdLog(log), CmdRecords(|log|, cmds));
    FramesAppend(crc, EventLog(ob, log), EvRecords(ob, BookAfter(ob, log), |log|, cmds));
  }
}

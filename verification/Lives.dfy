/** Any number of crashes: each life of the engine appends to the files the last recovery left and
    is cut off at arbitrary bytes. */
module Lives {
  import opened Basics
  import opened Bytes
  import opened Codecs
  import opened Events
  import opened Wal
  import opened Engine
  import opened Recovery

  /** Command records numbered on from seqNo. */
  function CmdRecords(seqNo: nat, cmds: seq<Command>): (ps: seq<seq<byte>>)
    requires seqNo + |cmds| < TWO64
    ensures |ps| == |cmds|
  {
    seq(|cmds|, i requires 0 <= i < |cmds| => EncodedCmd(seqNo + i + 1, cmds[i]))
  }

  ghost function BookOn<B>(ob: OrderBook<B>, b: B, cmds: seq<Command>): B
    decreases |cmds|
  {
    if cmds == [] then b else Live(ob, BookOn(ob, b, Init(cmds)), Last(cmds)).0
  }

  /** Event records the actor writes for further commands, from its book and number on. */
  ghost function EvRecords<B>(ob: OrderBook<B>, b: B, seqNo: nat, cmds: seq<Command>): seq<seq<byte>>
    requires seqNo + |cmds| < TWO64
    decreases |cmds|
  {
    if cmds == [] then []
    else
      var (b', es, ended) := Live(ob, BookOn(ob, b, Init(cmds)), Last(cmds));
      EvRecords(ob, b, seqNo, Init(cmds)) + LiveRecords(seqNo + |cmds|, es, ended)
  }

  /** One life: commands taken, and how many bytes of the new records of each log survive it. */
  datatype Life = Life(cmds: seq<Command>, c: nat, e: nat)

  ghost predicate Possible<B>(ob: OrderBook<B>, r: Ready<B>, x: Life) {
    && r.lastSeq + |x.cmds| < TWO64
    && x.c <= Size(CmdRecords(r.lastSeq, x.cmds))
    && x.e <= Size(EvRecords(ob, r.book, r.lastSeq, x.cmds[..Whole(CmdRecords(r.lastSeq, x.cmds), x.c)]))
  }

  /** The files after the crash. Event records are written only for commands that are durable. */
  ghost function CrashedDisk<B>(crc: Checksum, ob: OrderBook<B>, r: Ready<B>, x: Life): Disk
    requires r.lastSeq + |x.cmds| < TWO64
  {
    var recs := CmdRecords(r.lastSeq, x.cmds);
    var evs := EvRecords(ob, r.book, r.lastSeq, x.cmds[..Whole(recs, x.c)]);
    Disk(r.disk.cmd + TruncateTo(Frames(crc, recs), x.c), r.disk.ev + TruncateTo(Frames(crc, evs), x.e))
  }

  /** What recovery makes of a sequence of lives. */
  ghost function Outlived<B>(crc: Checksum, ob: OrderBook<B>, r: Ready<B>, xs: seq<Life>): Option<Ready<B>>
    decreases |xs|
  {
    if xs == [] then Some(r)
    else if !Possible(ob, r, xs[0]) then None
    else
      var next := Recovered(crc, ob, CrashedDisk(crc, ob, r, xs[0]));
      if next.None? then None else Outlived(crc, ob, next.value, xs[1..])
  }

  // ---- the logs compose ------------------------------------------------------------------------

  lemma CmdLogExtends(log: History, cmds: seq<Command>)
    requires |log| + |cmds| < TWO64
    ensures CmdLog(log + cmds) == CmdLog(log) + CmdRecords(|log|, cmds)
  {
  }

  lemma {:induction false} EventLogExtends<B>(ob: OrderBook<B>, log: History, cmds: seq<Command>)
    requires |log| + |cmds| < TWO64 && AllFaithful(ob, log + cmds)
    ensures BookOn(ob, BookAfter(ob, log), cmds) == BookAfter(ob, log + cmds)
    ensures EventLog(ob, log + cmds) == EventLog(ob, log) + EvRecords(ob, BookAfter(ob, log), |log|, cmds)
    decreases |cmds|
  {
    if cmds == [] {
      assert log + cmds == log;
    } else {
      var all := log + cmds;
      hide AllFaithful, Faithful, EventLog, BookAfter, EvRecords, BookOn, Live, Replayed, Records;
      assert Init(all) == log + Init(cmds) && Last(all) == Last(cmds);
      FaithfulInit(ob, all);
      BookStep(ob, all);
      EventLogExtends(ob, log, Init(cmds));
      ReplayIsLive(ob, BookAfter(ob, Init(all)), Last(all));
      EventLogStep(ob, all);
      ExtendsStep(ob, log, cmds, Replayed(ob, BookAfter(ob, Init(all)), Last(all)).1);
    }
  }

  lemma FaithfulInit<B>(ob: OrderBook<B>, cs: seq<Command>)
    requires cs != [] && AllFaithful(ob, cs)
    ensures AllFaithful(ob, Init(cs)) && Faithful(ob, BookAfter(ob, Init(cs)), Last(cs))
  {
    assert forall i :: 0 <= i < |cs| - 1 ==> Init(cs)[..i] == cs[..i];
    assert cs[..|cs| - 1] == Init(cs);
  }

  ghost predicate StepExtends<B>(ob: OrderBook<B>, log: History, cmds: seq<Command>)
    requires |log| + |cmds| < TWO64
  {
    && BookOn(ob, BookAfter(ob, log), cmds) == BookAfter(ob, log + cmds)
    && EventLog(ob, log + cmds) == EventLog(ob, log) + EvRecords(ob, BookAfter(ob, log), |log|, cmds)
  }

  lemma ExtendsStep<B>(ob: OrderBook<B>, log: History, cmds: seq<Command>, es: seq<Emitted>)
    requires cmds != [] && |log| + |cmds| < TWO64 && Init(log + cmds) == log + Init(cmds)
    requires StepExtends(ob, log, Init(cmds))
    requires Live(ob, BookAfter(ob, Init(log + cmds)), Last(cmds)) == (BookAfter(ob, log + cmds), es, true)
    requires EventLog(ob, log + cmds) == EventLog(ob, Init(log + cmds)) + Records(|log + cmds|, es)
    ensures StepExtends(ob, log, cmds)
  {
    hide Live, Replayed, Records, EventLog, BookAfter, EvRecords, BookOn;
    EvRecordsStep(ob, BookAfter(ob, log), |log|, cmds);
    Associative(EventLog(ob, log), EvRecords(ob, BookAfter(ob, log), |log|, Init(cmds)), Records(|log + cmds|, es));
  }

  lemma BookStep<B>(ob: OrderBook<B>, cs: History)
    requires cs != []
    ensures BookAfter(ob, cs) == Replayed(ob, BookAfter(ob, Init(cs)), Last(cs)).0
  {
  }

  lemma EvRecordsStep<B>(ob: OrderBook<B>, b: B, seqNo: nat, cmds: seq<Command>)
    requires cmds != [] && seqNo + |cmds| < TWO64
    ensures var (b', es, ended) := Live(ob, BookOn(ob, b, Init(cmds)), Last(cmds));
            && BookOn(ob, b, cmds) == b'
            && EvRecords(ob, b, seqNo, cmds) == EvRecords(ob, b, seqNo, Init(cmds)) + LiveRecords(seqNo + |cmds|, es, ended)
  {
  }

  // ---- life after life -------------------------------------------------------------------------

  /** Number of a life's commands whose records survive it. */
  function Kept(log: History, x: Life): (k: nat)
    requires |log| + |x.cmds| < TWO64
    ensures k <= |x.cmds|
  {
    Whole(CmdRecords(|log|, x.cmds), x.c)
  }

  /** The commands that outlive a further life. */
  function Surviving(log: History, x: Life): History
    requires |log| + |x.cmds| < TWO64
  {
    log + x.cmds[..Kept(log, x)]
  }

  lemma FaithfulPrefix<B>(ob: OrderBook<B>, cs: seq<Command>, k: nat)
    requires AllFaithful(ob, cs) && k <= |cs|
    ensures AllFaithful(ob, cs[..k])
  {
    assert forall i :: 0 <= i < k ==> cs[..k][..i] == cs[..i];
  }

  lemma CmdSide(crc: Checksum, log: History, x: Life)
    requires |log| + |x.cmds| < TWO64 && x.c <= Size(CmdRecords(|log|, x.cmds))
    ensures var all, c, recs := log + x.cmds, Size(CmdLog(log)) + x.c, CmdRecords(|log|, x.cmds);
            && c <= Size(CmdLog(all)) && Durable(all, c) == Surviving(log, x)
            && Severed(CmdLog(all), c) == Severed(recs, x.c)
            && TruncateTo(Frames(crc, CmdLog(all)), c) == Frames(crc, CmdLog(log)) + TruncateTo(Frames(crc, recs), x.c)
  {
    hide Frames, Size, Whole, Severed, CmdRecords;
    CmdLogExtends(log, x.cmds);
    CutSecond(crc, CmdLog(log), CmdRecords(|log|, x.cmds), x.c);
    assert (log + x.cmds)[..|log| + Kept(log, x)] == log + x.cmds[..Kept(log, x)];
  }

  lemma SurvivorsFaithful<B>(ob: OrderBook<B>, log: History, x: Life)
    requires |log| + |x.cmds| < TWO64 && AllFaithful(ob, log + x.cmds)
    ensures AllFaithful(ob, Surviving(log, x))
  {
    hide AllFaithful, Kept;
    FaithfulPrefix(ob, log + x.cmds, |log| + Kept(log, x));
    assert (log + x.cmds)[..|log| + Kept(log, x)] == Surviving(log, x);
  }

  lemma EvSide<B>(crc: Checksum, ob: OrderBook<B>, log: History, x: Life)
    requires |log| + |x.cmds| < TWO64 && AllFaithful(ob, log + x.cmds)
    requires x.e <= Size(EvRecords(ob, BookAfter(ob, log), |log|, x.cmds[..Kept(log, x)]))
    ensures var evs := EvRecords(ob, BookAfter(ob, log), |log|, x.cmds[..Kept(log, x)]);
            var whole, e := EventLog(ob, Surviving(log, x)), Size(EventLog(ob, log)) + x.e;
            && e <= Size(whole)
            && TruncateTo(Frames(crc, whole), e) == Frames(crc, EventLog(ob, log)) + TruncateTo(Frames(crc, evs), x.e)
  {
    hide AllFaithful, EventLog, EvRecords, Frames, Size, BookAfter, Kept;
    var k := Kept(log, x);
    SurvivorsFaithful(ob, log, x);
    EventLogExtends(ob, log, x.cmds[..k]);
    CutSecond(crc, EventLog(ob, log), EvRecords(ob, BookAfter(ob, log), |log|, x.cmds[..k]), x.e);
  }

  /** A life that started from the full logs of `log` leaves a cut of the full logs of everything
      it was given. */
  lemma LifeLeaves<B>(crc: Checksum, ob: OrderBook<B>, log: History, x: Life)
    requires Possible(ob, Full(crc, ob, log), x) && AllFaithful(ob, log + x.cmds)
    ensures var all := log + x.cmds;
            var c, e := Size(CmdLog(log)) + x.c, Size(EventLog(ob, log)) + x.e;
            && c <= Size(CmdLog(all)) && Durable(all, c) == Surviving(log, x)
            && Severed(CmdLog(all), c) == Severed(CmdRecords(|log|, x.cmds), x.c)
            && e <= Size(EventLog(ob, Surviving(log, x)))
            && CrashedDisk(crc, ob, Full(crc, ob, log), x) == Left(crc, ob, all, c, e)
  {
    hide CmdLog, EventLog, EvRecords, CmdRecords, Frames, Size, Whole, Severed, BookAfter, AllFaithful, Surviving, Durable;
    CmdSide(crc, log, x);
    EvSide(crc, ob, log, x);
  }

  /** Faithful commands, a command log cut at a record, and an event log whose cut can be mended. */
  ghost predicate Gentle<B>(crc: Checksum, ob: OrderBook<B>, log: History, x: Life) {
    && Possible(ob, Full(crc, ob, log), x) && AllFaithful(ob, log + x.cmds)
    && Severed(CmdRecords(|log|, x.cmds), x.c).End?
    && var evs := EventLog(ob, Surviving(log, x));
       var e := Size(EventLog(ob, log)) + x.e;
       && e <= Size(evs)
       && (Severed(evs, e).End? || Severed(evs, e).HeaderOnly?)
       && (e == 0 || Marked(ob, Surviving(log, x), e))
  }

  lemma FaithfulLoggable<B>(ob: OrderBook<B>, cs: seq<Command>)
    requires AllFaithful(ob, cs)
    ensures Loggable(cs)
  {
    forall i | 0 <= i < |cs|
      ensures cs[i].typ == CMD_SUBMIT || cs[i].typ == CMD_CANCEL
    {
      assert Faithful(ob, BookAfter(ob, cs[..i]), cs[i]);
    }
  }

  /** For any life of faithful commands: recovery stands exactly where it would with the surviving commands
      and whole files, nothing durable lost, doubled or reordered, if and only if the crash is gentle. */
  lemma OneLife<B>(crc: Checksum, ob: OrderBook<B>, log: History, x: Life)
    requires Possible(ob, Full(crc, ob, log), x) && AllFaithful(ob, log + x.cmds)
    ensures Recovered(crc, ob, CrashedDisk(crc, ob, Full(crc, ob, log), x)) == Some(Full(crc, ob, Surviving(log, x)))
            <==> Gentle(crc, ob, log, x)
  {
    hide *;
    var all := log + x.cmds;
    InRange(crc, ob, log, x);
    var c, e := Size(CmdLog(log)) + x.c, Size(EventLog(ob, log)) + x.e;
    FaithfulLoggable(ob, all);
    LifeLeaves(crc, ob, log, x);
    RecoveryIsExact(crc, ob, all, c, e);
    WholeFiles(crc, ob, all, c, e);
    GentleIs(crc, ob, log, x);
  }

  lemma InRange<B>(crc: Checksum, ob: OrderBook<B>, log: History, x: Life)
    requires Possible(ob, Full(crc, ob, log), x)
    ensures |log| + |x.cmds| < TWO64
  {
  }

  /** Recovery leaves the command file as it is, so with whole files it was cut at a record. */
  lemma WholeFiles<B>(crc: Checksum, ob: OrderBook<B>, cs: History, c: nat, e: nat)
    requires c <= Size(CmdLog(cs)) && e <= Size(EventLog(ob, Durable(cs, c)))
    ensures var d, live := Left(crc, ob, cs, c, e), Durable(cs, c);
            Recovered(crc, ob, d) == Some(Full(crc, ob, live)) <==>
            && Recovered(crc, ob, d) == Some(Full(crc, ob, live).(disk := Disk(d.cmd, Frames(crc, EventLog(ob, live)))))
            && Severed(CmdLog(cs), c).End?
  {
    var d, live := Left(crc, ob, cs, c, e), Durable(cs, c);
    hide Recovered, EventLog, CmdLog, Frames, Size, Whole, Severed, BookAfter;
    RecoveredKeeps(crc, ob, d);
    CutAtRecord(crc, cs, c);
  }

  lemma RecoveredKeeps<B>(crc: Checksum, ob: OrderBook<B>, d: Disk)
    ensures Recovered(crc, ob, d).Some? ==> Recovered(crc, ob, d).value.disk.cmd == d.cmd
  {
    hide Repaired, Parse, Replay, Frames;
  }

  lemma CutAtRecord(crc: Checksum, cs: History, c: nat)
    requires c <= Size(CmdLog(cs))
    ensures TruncateTo(Frames(crc, CmdLog(cs)), c) == Frames(crc, CmdLog(Durable(cs, c))) <==> Severed(CmdLog(cs), c).End?
  {
    FramesSize(crc, CmdLog(cs));
    FramesSize(crc, CmdLog(Durable(cs, c)));
    DurableLog(cs, c);
    EndIsWhole(CmdLog(cs), c);
    hide CmdLog, Frames, Size, Whole, Severed, Durable;
    if Severed(CmdLog(cs), c).End? {
      CleanCut(crc, cs, c);
    }
  }

  lemma GentleIs<B>(crc: Checksum, ob: OrderBook<B>, log: History, x: Life)
    requires Possible(ob, Full(crc, ob, log), x) && AllFaithful(ob, log + x.cmds)
    ensures var all := log + x.cmds;
            var c, e := Size(CmdLog(log)) + x.c, Size(EventLog(ob, log)) + x.e;
            && c <= Size(CmdLog(all)) && e <= Size(EventLog(ob, Durable(all, c)))
            && (Gentle(crc, ob, log, x) <==> Mends(ob, all, c, e) && Severed(CmdLog(all), c).End?)
  {
    hide CmdLog, EventLog, EvRecords, CmdRecords, Frames, Size, Whole, Severed, BookAfter, AllFaithful, Surviving, Durable;
    hide Marked, Possible;
    LifeLeaves(crc, ob, log, x);
  }

  /** The commands that outlive all lives, when each crash is gentle. */
  ghost function Survivors<B>(crc: Checksum, ob: OrderBook<B>, log: History, xs: seq<Life>): Option<History>
    decreases |xs|
  {
    if xs == [] then Some(log)
    else if Gentle(crc, ob, log, xs[0]) then Survivors(crc, ob, Surviving(log, xs[0]), xs[1..])
    else None
  }

  /** Over any number of lives and gentle crashes, with any commands and any cuts, the engine ends
      with the book, the numbering and both logs of exactly the surviving commands, and every
      command that was durable once stays so, in place. */
  lemma {:induction false} ManyLives<B>(crc: Checksum, ob: OrderBook<B>, log: History, xs: seq<Life>)
    requires Survivors(crc, ob, log, xs).Some?
    ensures var all := Survivors(crc, ob, log, xs).value;
            log <= all && Outlived(crc, ob, Full(crc, ob, log), xs) == Some(Full(crc, ob, all))
    decreases |xs|
  {
    if xs != [] {
      hide Gentle, Recovered, Full, CrashedDisk;
      Gently(crc, ob, log, xs[0]);
      OneLife(crc, ob, log, xs[0]);
      ManyLives(crc, ob, Surviving(log, xs[0]), xs[1..]);
    }
  }

  lemma Gently<B>(crc: Checksum, ob: OrderBook<B>, log: History, x: Life)
    requires Gentle(crc, ob, log, x)
    ensures |log| + |x.cmds| < TWO64 && Possible(ob, Full(crc, ob, log), x) && log <= Surviving(log, x)
    ensures AllFaithful(ob, log + x.cmds)
  {
  }
}

/** Crash recovery: what repair, replay and refill make of the logs, for every history, every
    batching and every byte at which a crash cut the two files. */
module Recovery {
  import opened Basics
  import opened Bytes
  import opened Codecs
  import opened Events
  import opened Wal
  import opened Engine

  /** Every command of the history is faithful where it runs. */
  ghost predicate AllFaithful<B>(ob: OrderBook<B>, cs: seq<Command>) {
    forall i :: 0 <= i < |cs| ==> Faithful(ob, BookAfter(ob, cs[..i]), cs[i])
  }

  lemma StampedDecodes(seqNo: u64, i: nat, e: Emitted)
    ensures DecodedEv(EncodedEv(Stamped(seqNo, i, e))) == Ok(Stamped(seqNo, i, e))
    ensures Stamped(seqNo, i, e).typ != EV_CMD_END
  {
    EvRoundTrip(Stamped(seqNo, i, e));
  }

  // ---- the event log -----------------------------------------------------------------------

  lemma LogGrows<B>(ob: OrderBook<B>, cs: History)
    requires cs != []
    ensures EventLog(ob, Init(cs)) <= EventLog(ob, cs)
    ensures |EventLog(ob, cs)| > |EventLog(ob, Init(cs))|
  {
  }

  /** The log of a prefix is a prefix of the log. */
  lemma {:induction false} LogPrefix<B>(ob: OrderBook<B>, cs: History, m: nat)
    requires m <= |cs|
    ensures EventLog(ob, cs[..m]) <= EventLog(ob, cs)
    decreases |cs|
  {
    if m == |cs| {
      assert cs[..m] == cs;
    } else {
      LogGrows(ob, cs);
      LogPrefix(ob, Init(cs), m);
      assert Init(cs)[..m] == cs[..m];
    }
  }

  lemma EventLogStep<B>(ob: OrderBook<B>, cs: History)
    requires cs != []
    ensures EventLog(ob, cs) == EventLog(ob, Init(cs)) + Records(|cs|, Replayed(ob, BookAfter(ob, Init(cs)), Last(cs)).1)
  {
  }

  lemma RecordsDecode(s: u64, es: seq<Emitted>, i: nat)
    requires i < |Records(s, es)|
    ensures var r := DecodedEv(Records(s, es)[i]);
            && r.Ok? && |Records(s, es)| == |es| + 1
            && (i == |es| ==> r.value == EndMarker(s)) && (i < |es| ==> r.value.typ != EV_CMD_END)
  {
    if i == |es| {
      EvRoundTrip(EndMarker(s));
    } else {
      StampedDecodes(s, i, es[i]);
    }
    hide DecodedEv, EncodedEv, Stamped;
  }

  /** The record at position w - 1 of the log, when it belongs to the last command. */
  lemma LastCommandRecord<B>(ob: OrderBook<B>, cs: History, w: nat)
    requires cs != [] && |EventLog(ob, Init(cs))| < w <= |EventLog(ob, cs)|
    ensures var r := DecodedEv(EventLog(ob, cs)[w - 1]);
            && r.Ok?
            && (w == |EventLog(ob, cs)| ==> r.value == EndMarker(|cs|))
            && (w < |EventLog(ob, cs)| ==> r.value.typ != EV_CMD_END)
  {
    hide EventLog, Records, Replayed, BookAfter, DecodedEv, EndMarker;
    EventLogStep(ob, cs);
    var es := Replayed(ob, BookAfter(ob, Init(cs)), Last(cs)).1;
    RecordsDecode(|cs|, es, w - 1 - |EventLog(ob, Init(cs))|);
  }

  ghost predicate CompleteUpTo<B>(ob: OrderBook<B>, cs: History, w: nat, m: nat) {
    && m <= |cs| && |EventLog(ob, cs[..m])| <= w
    && (m < |cs| ==> w < |EventLog(ob, cs[..m + 1])|)
  }

  lemma CompleteInInit<B>(ob: OrderBook<B>, cs: History, w: nat, m: nat)
    requires cs != [] && w <= |EventLog(ob, Init(cs))| && CompleteUpTo(ob, Init(cs), w, m)
    ensures CompleteUpTo(ob, cs, w, m)
  {
    LogGrows(ob, cs);
    assert Init(cs)[..m] == cs[..m];
    if m < |cs| - 1 {
      assert Init(cs)[..m + 1] == cs[..m + 1];
    } else {
      assert cs[..m + 1] == cs;
    }
  }

  lemma CompleteInLast<B>(ob: OrderBook<B>, cs: History, w: nat, m: nat)
    requires cs != [] && |EventLog(ob, Init(cs))| <= w < |EventLog(ob, cs)| && CompleteUpTo(ob, cs, w, m)
    ensures m == |cs| - 1
  {
    assert cs[..|cs|] == cs;
    if m < |cs| - 1 {
      assert cs[..m + 1] == Init(cs)[..m + 1];
      LogPrefix(ob, Init(cs), m + 1);
    }
  }

  lemma LastEndStep(ps: seq<seq<byte>>, w: nat)
    requires 0 < w <= |ps| && LastEnd(ps[..w - 1]).Some? && DecodedEv(ps[w - 1]).Ok?
    ensures var e := DecodedEv(ps[w - 1]).value;
            LastEnd(ps[..w]) == if e.typ == EV_CMD_END then Some((w, e.seqNo)) else LastEnd(ps[..w - 1])
  {
    assert Init(ps[..w]) == ps[..w - 1] && Last(ps[..w]) == ps[w - 1];
  }

  lemma NothingComplete<B>(ob: OrderBook<B>, cs: History)
    ensures CompleteUpTo(ob, cs, 0, 0) && EventLog(ob, cs[..0]) == []
    ensures LastEnd(EventLog(ob, cs)[..0]) == Some((0, 0))
  {
    if cs != [] {
      LogGrows(ob, cs[..1]);
    }
  }

  /** Scanning any number of whole records of the log finds the end of the last complete command. */
  lemma {:induction false} ScanFindsLastComplete<B>(ob: OrderBook<B>, cs: History, w: nat) returns (m: nat)
    requires w <= |EventLog(ob, cs)|
    ensures m <= |cs| && CompleteUpTo(ob, cs, w, m)
    ensures LastEnd(EventLog(ob, cs)[..w]) == Some((|EventLog(ob, cs[..m])|, m))
    decreases |cs|, w
  {
    hide EventLog, LastEnd, CompleteUpTo;
    if w == 0 {
      NothingComplete(ob, cs);
      m := 0;
    } else {
      NonEmpty(ob, cs);
      if w <= |EventLog(ob, Init(cs))| {
        m := ScanFindsLastComplete(ob, Init(cs), w);
        ScannedInInit(ob, cs, w, m);
      } else {
        m := ScanFindsLastComplete(ob, cs, w - 1);
        m := OneMoreRecord(ob, cs, w, m);
      }
    }
  }

  lemma NonEmpty<B>(ob: OrderBook<B>, cs: History)
    ensures EventLog(ob, cs) != [] ==> cs != []
  {
  }

  lemma ScannedInInit<B>(ob: OrderBook<B>, cs: History, w: nat, m: nat)
    requires cs != [] && w <= |EventLog(ob, Init(cs))| && m <= |cs| - 1 && CompleteUpTo(ob, Init(cs), w, m)
    requires LastEnd(EventLog(ob, Init(cs))[..w]) == Some((|EventLog(ob, Init(cs)[..m])|, m))
    ensures CompleteUpTo(ob, cs, w, m) && w <= |EventLog(ob, cs)|
    ensures LastEnd(EventLog(ob, cs)[..w]) == Some((|EventLog(ob, cs[..m])|, m))
  {
    hide EventLog, LastEnd, CompleteUpTo;
    LogGrows(ob, cs);
    assert EventLog(ob, cs)[..w] == EventLog(ob, Init(cs))[..w];
    CompleteInInit(ob, cs, w, m);
    assert Init(cs)[..m] == cs[..m];
  }

  lemma OneMoreRecord<B>(ob: OrderBook<B>, cs: History, w: nat, m: nat) returns (m': nat)
    requires cs != [] && |EventLog(ob, Init(cs))| < w <= |EventLog(ob, cs)|
    requires m <= |cs| && CompleteUpTo(ob, cs, w - 1, m)
    requires LastEnd(EventLog(ob, cs)[..w - 1]) == Some((|EventLog(ob, cs[..m])|, m))
    ensures m' <= |cs| && CompleteUpTo(ob, cs, w, m')
    ensures LastEnd(EventLog(ob, cs)[..w]) == Some((|EventLog(ob, cs[..m'])|, m'))
  {
    hide EventLog, LastEnd;
    CompleteInLast(ob, cs, w - 1, m);
    LastCommandRecord(ob, cs, w);
    LastEndStep(EventLog(ob, cs), w);
    assert cs[..|cs|] == cs;
    m' := if w == |EventLog(ob, cs)| then |cs| else m;
  }

  // ---- the command log ---------------------------------------------------------------------

  ghost predicate Loggable(cs: seq<Command>) {
    forall i :: 0 <= i < |cs| ==> cs[i].typ == CMD_SUBMIT || cs[i].typ == CMD_CANCEL
  }

  lemma InitLog(cs: History)
    requires cs != []
    ensures CmdLog(cs) != [] && Init(CmdLog(cs)) == CmdLog(Init(cs)) && Last(CmdLog(cs)) == EncodedCmd(|cs|, Last(cs))
  {
  }

  lemma LoggedReplays<B>(ob: OrderBook<B>, b: B, c: Command)
    ensures Replayed(ob, b, Logged(c)) == Replayed(ob, b, c)
  {
  }

  /** The records of the commands up to m, or all of them. */
  ghost function Kept<B>(ob: OrderBook<B>, cs: History, m: nat): seq<seq<byte>> {
    if m < |cs| then EventLog(ob, cs[..m]) else EventLog(ob, cs)
  }

  lemma KeptGrows<B>(ob: OrderBook<B>, cs: History, m: nat, added: seq<seq<byte>>)
    requires cs != [] && EventLog(ob, Init(cs)) == Kept(ob, Init(cs), m) + added
    ensures var recs := Records(|cs|, Replayed(ob, BookAfter(ob, Init(cs)), Last(cs)).1);
            EventLog(ob, cs) == Kept(ob, cs, m) + (added + (if |cs| <= m then [] else recs))
  {
    hide Replayed, Records, BookAfter, EventLog;
    var recs := Records(|cs|, Replayed(ob, BookAfter(ob, Init(cs)), Last(cs)).1);
    EventLogStep(ob, cs);
    if m < |cs| - 1 {
      assert Init(cs)[..m] == cs[..m];
      Associative(EventLog(ob, cs[..m]), added, recs);
    } else {
      assert |added| == 0;
      assert added == [] && added + recs == recs;
      if m == |cs| - 1 {
        assert cs[..m] == Init(cs);
      }
    }
  }

  lemma ReplayStep<B>(ob: OrderBook<B>, cs: History, m: u64)
    requires cs != [] && Loggable(cs)
    requires var r := Replay(ob, m, CmdLog(Init(cs)));
             r.Some? && r.value.book == BookAfter(ob, Init(cs)) && r.value.lastSeq == |cs| - 1
    ensures var r := Replay(ob, m, CmdLog(cs));
            var recs := Records(|cs|, Replayed(ob, BookAfter(ob, Init(cs)), Last(cs)).1);
            && r.Some? && r.value.book == BookAfter(ob, cs) && r.value.lastSeq == |cs|
            && r.value.added == Replay(ob, m, CmdLog(Init(cs))).value.added + (if |cs| <= m then [] else recs)
  {
    InitLog(cs);
    CmdRoundTrip(|cs|, Last(cs));
    LoggedReplays(ob, BookAfter(ob, Init(cs)), Last(cs));
    hide Replayed, EncodedCmd, DecodedCmd, CmdLog, Records;
  }

  /** Replaying the command log rebuilds the book, ends at number n and refills exactly the event
      records above the last complete command. */
  lemma {:induction false} ReplayOfLog<B>(ob: OrderBook<B>, cs: History, m: u64)
    requires Loggable(cs)
    ensures var r := Replay(ob, m, CmdLog(cs));
            && r.Some? && r.value.book == BookAfter(ob, cs) && r.value.lastSeq == |cs|
            && EventLog(ob, cs) == Kept(ob, cs, m) + r.value.added
    decreases |cs|
  {
    if cs != [] {
      hide Replay, BookAfter, EventLog, Kept;
      ReplayOfLog(ob, Init(cs), m);
      ReplayStep(ob, cs, m);
      KeptGrows(ob, cs, m, Replay(ob, m, CmdLog(Init(cs))).value.added);
    }
  }

  // ---- repair ------------------------------------------------------------------------------

  lemma {:induction false} LogsSized<B>(ob: OrderBook<B>, cs: History)
    ensures Sized(DEFAULT_MAX_PAYLOAD, CmdLog(cs)) && Sized(DEFAULT_MAX_PAYLOAD, EventLog(ob, cs))
    decreases |cs|
  {
    if cs != [] {
      LogsSized(ob, Init(cs));
    }
  }

  /** Some end marker lies wholly within the first e bytes of the event log. */
  ghost predicate Marked<B>(ob: OrderBook<B>, cs: History, e: nat) {
    cs != [] && Size(EventLog(ob, cs[..1])) <= e
  }

  /** Some command is complete exactly when the first one is. */
  lemma FirstCommand<B>(ob: OrderBook<B>, cs: History, w: nat, m: nat)
    requires cs != [] && m <= |cs| && CompleteUpTo(ob, cs, w, m)
    ensures m > 0 <==> |EventLog(ob, cs[..1])| <= w
  {
    hide EventLog;
    if m > 0 {
      assert cs[..m][..1] == cs[..1];
      LogPrefix(ob, cs[..m], 1);
    }
  }

  lemma MarkedIff<B>(ob: OrderBook<B>, cs: History, e: nat, m: nat)
    requires e <= Size(EventLog(ob, cs)) && m <= |cs| && CompleteUpTo(ob, cs, Whole(EventLog(ob, cs), e), m)
    ensures m > 0 <==> Marked(ob, cs, e)
  {
    if cs != [] {
      hide EventLog, Whole, Size, CompleteUpTo;
      var log, first := EventLog(ob, cs), EventLog(ob, cs[..1]);
      LogPrefix(ob, cs, 1);
      WholeIff(log, e, |first|);
      assert log[..|first|] == first;
      FirstCommand(ob, cs, Whole(log, e), m);
    }
  }

  /** Repair of any cut of the event log: a cut inside a header or a payload is refused; otherwise
      the file ends after the last complete command, unless there is none, and then it is left
      as the crash left it. */
  lemma RepairOfLog<B>(crc: Checksum, ob: OrderBook<B>, cs: History, e: nat) returns (m: nat)
    requires e <= Size(EventLog(ob, cs))
    ensures |Frames(crc, EventLog(ob, cs))| == Size(EventLog(ob, cs))
    ensures m <= |cs| && (m > 0 <==> Marked(ob, cs, e))
    ensures var d, tail := Frames(crc, EventLog(ob, cs))[..e], Severed(EventLog(ob, cs), e);
            Repaired(crc, d) == if tail.End? || tail.HeaderOnly?
                                then Some((m, if m == 0 then d else Frames(crc, EventLog(ob, cs[..m]))))
                                else None
  {
    var log := EventLog(ob, cs);
    LogsSized(ob, cs);
    CutLaw(crc, DEFAULT_MAX_PAYLOAD, log, e);
    m := ScanFindsLastComplete(ob, cs, Whole(log, e));
    MarkedIff(ob, cs, e, m);
    PrefixOnDisk(crc, ob, cs, e, m);
    hide EventLog, Frames, Whole, Severed, Parse, LastEnd, Size, CompleteUpTo, Marked;
    if m == 0 {
      NothingComplete(ob, cs);
    }
  }

  /** The records of the m complete commands are whole within the cut, and truncating there
      leaves exactly their frames. */
  lemma PrefixOnDisk<B>(crc: Checksum, ob: OrderBook<B>, cs: History, e: nat, m: nat)
    requires e <= Size(EventLog(ob, cs)) == |Frames(crc, EventLog(ob, cs))|
    requires m <= |cs| && |EventLog(ob, cs[..m])| <= Whole(EventLog(ob, cs), e)
    ensures var log, k := EventLog(ob, cs), |EventLog(ob, cs[..m])|;
            && k <= |log| && (m > 0 ==> k > 0)
            && TruncateTo(Frames(crc, log)[..e], Size(log[..Whole(log, e)][..k])) == Frames(crc, EventLog(ob, cs[..m]))
  {
    var log, k := EventLog(ob, cs), |EventLog(ob, cs[..m])|;
    LogPrefix(ob, cs, m);
    if m > 0 {
      LogGrows(ob, cs[..m]);
    }
    assert log[..k] == EventLog(ob, cs[..m]);
    hide EventLog, Frames, Whole, Size, TruncateTo;
    TruncateAtRecord(crc, log, e, k);
  }

  // ---- the recovery theorem ------------------------------------------------------------------

  /** What is on disk when a crash leaves c bytes of the command log and e bytes of the event log;
      events are only ever written for commands whose records are whole. */
  function Left<B>(crc: Checksum, ob: OrderBook<B>, cs: History, c: nat, e: nat): Disk {
    Disk(TruncateTo(Frames(crc, CmdLog(cs)), c), TruncateTo(Frames(crc, EventLog(ob, Durable(cs, c))), e))
  }

  /** The commands whose records survived whole. */
  function Durable(cs: History, c: nat): History {
    cs[..Whole(CmdLog(cs), c)]
  }

  /** The two logs of a history, whole. */
  function Full<B>(crc: Checksum, ob: OrderBook<B>, cs: History): Ready<B> {
    Ready(BookAfter(ob, cs), |cs|, Disk(Frames(crc, CmdLog(cs)), Frames(crc, EventLog(ob, cs))))
  }

  /** The tails recovery can mend: the command log does not end in a bare header; the event log
      ends at a record or in a bare header, and holds an end marker unless it is empty. */
  ghost predicate Mends<B>(ob: OrderBook<B>, cs: History, c: nat, e: nat) {
    var tail := Severed(EventLog(ob, Durable(cs, c)), e);
    && !Severed(CmdLog(cs), c).HeaderOnly?
    && (tail.End? || tail.HeaderOnly?)
    && (e == 0 || Marked(ob, Durable(cs, c), e))
  }

  lemma SeveredKinds(ps: seq<seq<byte>>, c: nat)
    requires c <= Size(ps)
    ensures var t := Severed(ps, c); t.End? || t.CutHeader? || t.HeaderOnly? || t.CutPayload?
  {
  }

  lemma ReplayOfDisk<B>(crc: Checksum, ob: OrderBook<B>, cs: History, c: nat, m: u64)
    requires Loggable(cs) && c <= Size(CmdLog(cs))
    ensures |Frames(crc, CmdLog(cs))| == Size(CmdLog(cs))
    ensures var live := Durable(cs, c);
            var r := Replay(ob, m, CmdLog(live));
            && Parse(crc, DEFAULT_MAX_PAYLOAD, Frames(crc, CmdLog(cs))[..c]) == (CmdLog(live), Severed(CmdLog(cs), c))
            && r.Some? && r.value.book == BookAfter(ob, live) && r.value.lastSeq == |live|
            && EventLog(ob, live) == Kept(ob, live, m) + r.value.added
  {
    LogsSized(ob, cs);
    DurableLog(cs, c);
    hide Frames, Size, Severed, Whole, Parse, Replay, Kept, EventLog, BookAfter, CmdLog, Durable, Loggable, Sized;
    CutLaw(crc, DEFAULT_MAX_PAYLOAD, CmdLog(cs), c);
    ReplayOfLog(ob, Durable(cs, c), m);
  }

  lemma DurableLog(cs: History, c: nat)
    ensures CmdLog(cs)[..Whole(CmdLog(cs), c)] == CmdLog(Durable(cs, c))
    ensures Loggable(cs) ==> Loggable(Durable(cs, c))
  {
    hide Whole, EncodedCmd;
  }

  /** For every history, every order book and every pair of cuts: recovery rebuilds the book of
      the durable commands, leaves the event log equal to events(1), end(1), ..., events(n), end(n)
      and resumes at number n, if and only if the tails are ones it can mend. */
  lemma RecoveryIsExact<B>(crc: Checksum, ob: OrderBook<B>, cs: History, c: nat, e: nat)
    requires Loggable(cs) && c <= Size(CmdLog(cs)) && e <= Size(EventLog(ob, Durable(cs, c)))
    ensures var d := Left(crc, ob, cs, c, e);
            Recovered(crc, ob, d)
            == Some(Full(crc, ob, Durable(cs, c)).(disk := Disk(d.cmd, Frames(crc, EventLog(ob, Durable(cs, c))))))
            <==> Mends(ob, cs, c, e)
  {
    hide Recovered, EventLog, CmdLog, Frames, Size, Whole, Replay, Parse, Repaired, Marked, Kept, BookAfter, Loggable;
    var live := Durable(cs, c);
    var d := Left(crc, ob, cs, c, e);
    LoggableDurable(cs, c);
    FramesSize(crc, CmdLog(cs));
    FramesSize(crc, EventLog(ob, live));
    CutIsTruncation(Frames(crc, CmdLog(cs)), c);
    CutIsTruncation(Frames(crc, EventLog(ob, live)), e);
    var m := RepairOfLog(crc, ob, live, e);
    ReplayOfDisk(crc, ob, cs, c, m);
    SeveredKinds(CmdLog(cs), c);
    Refilled(crc, ob, live, e, m);
    RecoveredSteps(crc, ob, d);
    hide Severed, Durable;
  }

  lemma LoggableDurable(cs: History, c: nat)
    requires Loggable(cs)
    ensures Loggable(Durable(cs, c)) && |Durable(cs, c)| <= |cs|
  {
  }

  lemma CutIsTruncation<T>(f: seq<T>, c: nat)
    requires c <= |f|
    ensures f[..c] == if c >= |f| then f else f[..c]
  {
  }

  lemma RecoveredSteps<B>(crc: Checksum, ob: OrderBook<B>, d: Disk)
    ensures var repair := Repaired(crc, d.ev);
            var (recs, end) := Parse(crc, DEFAULT_MAX_PAYLOAD, d.cmd);
            Recovered(crc, ob, d) ==
            if repair.None? then None
            else
              var run := Replay(ob, repair.value.0, recs);
              if run.None? || !(end.End? || end.CutHeader? || end.CutPayload?) then None
              else Some(Ready(run.value.book, run.value.lastSeq,
                              Disk(d.cmd, repair.value.1 + Frames(crc, run.value.added))))
  {
  }

  lemma Refilled<B>(crc: Checksum, ob: OrderBook<B>, cs: History, e: nat, m: nat)
    requires Loggable(cs) && m <= |cs| && e <= Size(EventLog(ob, cs)) == |Frames(crc, EventLog(ob, cs))|
    ensures Replay(ob, m, CmdLog(cs)).Some?
    ensures var log := EventLog(ob, cs);
            var ev := if m == 0 then Frames(crc, log)[..e] else Frames(crc, EventLog(ob, cs[..m]));
            ev + Frames(crc, Replay(ob, m, CmdLog(cs)).value.added) == Frames(crc, log) <==> m > 0 || e == 0
  {
    hide EventLog, CmdLog, Size, Replay, Kept, Loggable, CompleteUpTo, LastEnd, Frames;
    ReplayOfLog(ob, cs, m);
    var log, added := EventLog(ob, cs), Replay(ob, m, CmdLog(cs)).value.added;
    var kept := EventLog(ob, cs[..m]);
    KeptIs(ob, cs, m);
    NothingComplete(ob, cs);
    FramesAppend(crc, kept, added);
    if m == 0 {
      assert kept + added == added;
      LeftoverShows(Frames(crc, log), e);
    }
  }

  lemma KeptIs<B>(ob: OrderBook<B>, cs: History, m: nat)
    requires m <= |cs|
    ensures Kept(ob, cs, m) == EventLog(ob, cs[..m])
  {
    assert m == |cs| ==> cs[..m] == cs;
    hide EventLog;
  }

  lemma LeftoverShows<T>(f: seq<T>, e: nat)
    requires e <= |f|
    ensures f[..e] + f == f <==> e == 0
  {
    if e == 0 {
      assert f[..0] + f == f;
    } else {
      assert |f[..e] + f| == e + |f|;
    }
  }

  lemma CleanCut(crc: Checksum, cs: History, c: nat)
    requires c <= Size(CmdLog(cs)) && Size(CmdLog(cs)[..Whole(CmdLog(cs), c)]) == c
    ensures TruncateTo(Frames(crc, CmdLog(cs)), c) == Frames(crc, CmdLog(Durable(cs, c)))
  {
    FramesPrefix(crc, CmdLog(cs), Whole(CmdLog(cs), c));
    assert CmdLog(cs)[..Whole(CmdLog(cs), c)] == CmdLog(Durable(cs, c));
  }

  /** When the command log was cut at a record, recovery stands with whole files. */
  lemma RecoveryOfCleanCut<B>(crc: Checksum, ob: OrderBook<B>, cs: History, c: nat, e: nat)
    requires Loggable(cs) && c <= Size(CmdLog(cs)) && e <= Size(EventLog(ob, Durable(cs, c)))
    requires Mends(ob, cs, c, e) && Severed(CmdLog(cs), c).End?
    ensures Recovered(crc, ob, Left(crc, ob, cs, c, e)) == Some(Full(crc, ob, Durable(cs, c)))
  {
    hide Mends, Recovered, CmdLog, EventLog, Frames, Size, Whole, Severed, BookAfter, Loggable, Durable;
    RecoveryIsExact(crc, ob, cs, c, e);
    EndIsWhole(CmdLog(cs), c);
    CleanCut(crc, cs, c);
  }

  // ---- repair on any bytes -------------------------------------------------------------------

  lemma {:induction false} LastEndStays(ps: seq<seq<byte>>)
    requires LastEnd(ps).Some?
    ensures var (k, s) := LastEnd(ps).value;
            LastEnd(ps[..k]) == Some((k, s)) && (k == 0 ==> s == 0)
    decreases |ps|
  {
    if ps != [] {
      LastEndStays(Init(ps));
      var (k, s) := LastEnd(ps).value;
      if k == |ps| {
        assert ps[..k] == ps;
      } else {
        assert ps[..k] == Init(ps)[..k];
      }
    }
  }

  ghost predicate AllEvents(ps: seq<seq<byte>>) {
    forall i :: 0 <= i < |ps| ==> DecodedEv(ps[i]).Ok?
  }

  ghost predicate NoMarker(ps: seq<seq<byte>>) {
    forall i :: 0 <= i < |ps| ==> DecodedEv(ps[i]).Ok? && DecodedEv(ps[i]).value.typ != EV_CMD_END
  }

  ghost predicate MarkerOf(p: seq<byte>, s: nat) {
    DecodedEv(p).Ok? && DecodedEv(p).value.typ == EV_CMD_END && DecodedEv(p).value.seqNo == s
  }

  lemma {:induction false} LastEndMeans(ps: seq<seq<byte>>)
    ensures LastEnd(ps).Some? <==> AllEvents(ps)
    ensures LastEnd(ps).Some? ==>
              var (k, s) := LastEnd(ps).value;
              && NoMarker(ps[k..]) && (k == 0 ==> s == 0)
              && (k > 0 ==> MarkerOf(ps[k - 1], s))
    decreases |ps|
  {
    hide DecodedEv;
    if ps != [] {
      LastEndMeans(Init(ps));
      assert ps == Init(ps) + [Last(ps)];
      if LastEnd(ps).Some? {
        var k := LastEnd(ps).value.0;
        if k < |ps| {
          assert ps[k..] == Init(ps)[k..] + [Last(ps)];
        }
      }
    }
  }

  /** Repair of any bytes whatsoever: accepted exactly when every whole record is an event and nothing or a
      bare header follows; then the file ends with its last end marker, whose number is the answer, and
      if there is no end marker the file stays and the answer is zero. */
  lemma RepairMeans(crc: Checksum, ev: seq<byte>)
    ensures var (ps, end) := Parse(crc, DEFAULT_MAX_PAYLOAD, ev);
            && (Repaired(crc, ev).Some? <==> AllEvents(ps) && (end.End? || end.HeaderOnly?))
            && (Repaired(crc, ev).Some? ==>
                  var (s, f) := Repaired(crc, ev).value;
                  if NoMarker(ps) then s == 0 && f == ev
                  else exists k :: 0 < k <= |ps| && f == Frames(crc, ps[..k]) && MarkerOf(ps[k - 1], s) && NoMarker(ps[k..]))
  {
    var (ps, end) := Parse(crc, DEFAULT_MAX_PAYLOAD, ev);
    LastEndMeans(ps);
    ParseIsPrefix(crc, DEFAULT_MAX_PAYLOAD, ev);
    if Repaired(crc, ev).Some? {
      var k := LastEnd(ps).value.0;
      KeptPart(crc, ev, ps, k);
      assert ps[0..] == ps;
    }
    hide DecodedEv, Frames, Size, Parse, LastEnd, ReadFrame, TruncateTo;
  }

  ghost predicate AllCommands(recs: seq<seq<byte>>) {
    forall i :: 0 <= i < |recs| ==> DecodedCmd(recs[i]).Ok?
  }

  /** The commands of the records. */
  ghost function Commands(recs: seq<seq<byte>>): (cs: seq<Command>)
    requires AllCommands(recs)
    ensures |cs| == |recs|
  {
    seq(|recs|, i requires 0 <= i < |recs| => DecodedCmd(recs[i]).value.1)
  }

  /** Replay of any records: accepted exactly when each is a command; the book is that of the commands in
      order, and the number the greatest among theirs. */
  lemma {:induction false} ReplayMeans<B>(ob: OrderBook<B>, complete: u64, recs: seq<seq<byte>>)
    ensures Replay(ob, complete, recs).Some? <==> AllCommands(recs)
    ensures Replay(ob, complete, recs).Some? ==>
              var at := Replay(ob, complete, recs).value;
              && at.book == BookAfter(ob, Commands(recs))
              && (forall i :: 0 <= i < |recs| ==> DecodedCmd(recs[i]).value.0 <= at.lastSeq)
              && (at.lastSeq == 0 || exists i :: 0 <= i < |recs| && DecodedCmd(recs[i]).value.0 == at.lastSeq)
    decreases |recs|
  {
    hide DecodedCmd, Replayed, Records;
    if recs != [] {
      var before := Init(recs);
      ReplayMeans(ob, complete, before);
      assert recs == before + [Last(recs)];
      assert forall i :: 0 <= i < |before| ==> before[i] == recs[i];
      if AllCommands(recs) {
        assert Init(Commands(recs)) == Commands(before) && Last(Commands(recs)) == DecodedCmd(Last(recs)).value.1;
      }
    }
  }

  /** What recovery accepts, of all bytes there are. */
  lemma RecoverableIff<B>(crc: Checksum, ob: OrderBook<B>, d: Disk)
    ensures var (evs, evEnd) := Parse(crc, DEFAULT_MAX_PAYLOAD, d.ev);
            var (recs, end) := Parse(crc, DEFAULT_MAX_PAYLOAD, d.cmd);
            Recovered(crc, ob, d).Some? <==>
            && AllEvents(evs) && (evEnd.End? || evEnd.HeaderOnly?)
            && AllCommands(recs) && (end.End? || end.CutHeader? || end.CutPayload?)
  {
    hide Repaired, Replay, Parse, Frames, Recovered, AllEvents, AllCommands, NoMarker, BookAfter, DecodedEv, DecodedCmd;
    RecoveredSteps(crc, ob, d);
    RepairMeans(crc, d.ev);
    if Repaired(crc, d.ev).Some? {
      ReplayMeans(ob, Repaired(crc, d.ev).value.0, Parse(crc, DEFAULT_MAX_PAYLOAD, d.cmd).0);
    }
  }

  /** Repairing a repaired file changes nothing and finds the same last complete command, whatever
      bytes the file held. */
  lemma RepairIsIdempotent(crc: Checksum, ev: seq<byte>)
    requires Repaired(crc, ev).Some?
    ensures var (s, ev') := Repaired(crc, ev).value; Repaired(crc, ev') == Some((s, ev'))
  {
    var (ps, end) := Parse(crc, DEFAULT_MAX_PAYLOAD, ev);
    ParseIsPrefix(crc, DEFAULT_MAX_PAYLOAD, ev);
    LastEndStays(ps);
    var (k, s) := LastEnd(ps).value;
    if k > 0 {
      var kept := ps[..k];
      KeptPart(crc, ev, ps, k);
      hide Frames, Size, Parse, LastEnd, Sized, TruncateTo, ReadFrame;
      WholeLog(crc, kept);
      assert kept[..k] == kept;
      FramesSize(crc, kept);
      WholeTruncated(crc, kept);
    }
  }

  lemma KeptPart(crc: Checksum, ev: seq<byte>, ps: seq<seq<byte>>, k: nat)
    requires k <= |ps| && Sized(DEFAULT_MAX_PAYLOAD, ps) && Size(ps) <= |ev| && ev[..Size(ps)] == Frames(crc, ps)
    ensures Sized(DEFAULT_MAX_PAYLOAD, ps[..k]) && TruncateTo(ev, Size(ps[..k])) == Frames(crc, ps[..k])
  {
    FramesPrefix(crc, ps, k);
    FramesSize(crc, ps[..k]);
    hide Frames, Size;
    assert ev[..Size(ps)][..Size(ps[..k])] == ev[..Size(ps[..k])];
  }

  lemma WholeTruncated(crc: Checksum, ps: seq<seq<byte>>)
    requires |Frames(crc, ps)| == Size(ps)
    ensures TruncateTo(Frames(crc, ps), Size(ps)) == Frames(crc, ps)
  {
  }

  lemma WholeLog(crc: Checksum, ps: seq<seq<byte>>)
    requires Sized(DEFAULT_MAX_PAYLOAD, ps)
    ensures |Frames(crc, ps)| == Size(ps) && Parse(crc, DEFAULT_MAX_PAYLOAD, Frames(crc, ps)) == (ps, End)
  {
    CutLaw(crc, DEFAULT_MAX_PAYLOAD, ps, Size(ps));
    WholeIff(ps, Size(ps), |ps|);
    assert ps[..|ps|] == ps;
    assert Frames(crc, ps)[..Size(ps)] == Frames(crc, ps);
    SeveredAtEnd(ps);
  }

  lemma {:induction false} SeveredAtEnd(ps: seq<seq<byte>>)
    ensures Severed(ps, Size(ps)) == End
  {
    if ps != [] {
      SeveredAtEnd(ps[1..]);
    }
  }

  // ---- what the running actor writes -----------------------------------------------------------

  ghost function LiveBook<B>(ob: OrderBook<B>, cs: seq<Command>): B
    decreases |cs|
  {
    if cs == [] then ob.empty else Live(ob, LiveBook(ob, Init(cs)), Last(cs)).0
  }

  ghost function LiveRecords(seqNo: u64, es: seq<Emitted>, ended: bool): seq<seq<byte>> {
    if ended then Records(seqNo, es) else EventPayloads(seqNo, es)
  }

  /** The event records the actor writes for a history. */
  ghost function LiveLog<B>(ob: OrderBook<B>, cs: History): seq<seq<byte>>
    decreases |cs|
  {
    if cs == [] then []
    else
      var (b, es, ended) := Live(ob, LiveBook(ob, Init(cs)), Last(cs));
      LiveLog(ob, Init(cs)) + LiveRecords(|cs|, es, ended)
  }

  /** Event records all numbered from lo to hi. */
  ghost predicate Numbered(ps: seq<seq<byte>>, lo: int, hi: int) {
    forall i :: 0 <= i < |ps| ==> DecodedEv(ps[i]).Ok? && lo <= DecodedEv(ps[i]).value.seqNo <= hi
  }

  lemma RecordsNumbered(s: u64, es: seq<Emitted>)
    ensures Numbered(Records(s, es), s, s) && Numbered(EventPayloads(s, es), s, s)
  {
    hide DecodedEv, EncodedEv;
    var ps, rs := EventPayloads(s, es), Records(s, es);
    forall i | 0 <= i < |es|
      ensures DecodedEv(ps[i]).Ok? && DecodedEv(ps[i]).value.seqNo == s
    {
      StampedDecodes(s, i, es[i]);
    }
    hide Stamped;
    EvRoundTrip(EndMarker(s));
    assert forall i :: 0 <= i < |rs| ==> rs[i] == if i < |ps| then ps[i] else EncodedEv(EndMarker(s));
  }

  lemma NumberedAppend(a: seq<seq<byte>>, b: seq<seq<byte>>, n: int)
    requires Numbered(a, 1, n - 1) && Numbered(b, n, n) && n >= 1
    ensures Numbered(a + b, 1, n)
  {
    hide DecodedEv;
  }

  lemma {:induction false} LogsNumbered<B>(ob: OrderBook<B>, cs: History)
    ensures Numbered(EventLog(ob, cs), 1, |cs|) && Numbered(LiveLog(ob, cs), 1, |cs|)
    decreases |cs|
  {
    hide Numbered, Records, Live, Replayed, EventPayloads, BookAfter, LiveBook;
    if cs == [] {
      NumberedNothing();
    } else {
      LogsNumbered(ob, Init(cs));
      var live := Live(ob, LiveBook(ob, Init(cs)), Last(cs));
      var es := Replayed(ob, BookAfter(ob, Init(cs)), Last(cs)).1;
      RecordsNumbered(|cs|, live.1);
      RecordsNumbered(|cs|, es);
      NumberedAppend(EventLog(ob, Init(cs)), Records(|cs|, es), |cs|);
      NumberedAppend(LiveLog(ob, Init(cs)), LiveRecords(|cs|, live.1, live.2), |cs|);
    }
  }

  lemma NumberedNothing()
    ensures Numbered([], 1, 0)
  {
  }

  lemma NotLonger(a: seq<seq<byte>>, b: seq<seq<byte>>, a': seq<seq<byte>>, b': seq<seq<byte>>, n: int)
    requires a + b == a' + b' && Numbered(a', 1, n - 1) && Numbered(b, n, n)
    ensures |a'| <= |a|
  {
    hide DecodedEv;
    var s := a + b;
    assert |a| < |s| ==> s[|a|] == b[0] && DecodedEv(s[|a|]).value.seqNo == n;
  }

  /** Numbers tell where the records of the last command begin. */
  lemma SplitByNumber(a: seq<seq<byte>>, b: seq<seq<byte>>, a': seq<seq<byte>>, b': seq<seq<byte>>, n: int)
    requires a + b == a' + b' && Numbered(a, 1, n - 1) && Numbered(a', 1, n - 1) && Numbered(b, n, n) && Numbered(b', n, n)
    ensures a == a' && b == b'
  {
    hide DecodedEv;
    NotLonger(a, b, a', b', n);
    NotLonger(a', b', a, b, n);
    assert a == (a + b)[..|a|] && a' == (a' + b')[..|a|];
    assert b == (a + b)[|a|..] && b' == (a' + b')[|a|..];
  }

  /** A single event without an end marker is no complete command. */
  lemma UnendedDiffers(n: u64, e: Emitted, es: seq<Emitted>)
    ensures EventPayloads(n, [e]) != Records(n, es)
  {
    var live, logged := EventPayloads(n, [e]), Records(n, es);
    StampedDecodes(n, 0, e);
    EvRoundTrip(EndMarker(n));
    hide DecodedEv, EncodedEv, Stamped;
    assert live[0] == EncodedEv(Stamped(n, 0, e));
    assert logged[|logged| - 1] == EncodedEv(EndMarker(n));
  }

  /** The records of one command live and on replay are the same only when it is faithful. */
  lemma SameRecords<B>(ob: OrderBook<B>, b: B, c: Command, n: u64)
    requires var (b', es, ended) := Live(ob, b, c); LiveRecords(n, es, ended) == Records(n, Replayed(ob, b, c).1)
    ensures Faithful(ob, b, c)
  {
    var (b', es, ended) := Live(ob, b, c);
    var es' := Replayed(ob, b, c).1;
    if !ended {
      UnendedDiffers(n, es[0], es');
    }
    hide EncodedEv, Stamped, EventPayloads;
    assert ended ==> |Records(n, es)| == |es| + 1 && |Records(n, es')| == |es'| + 1;
  }

  lemma LogStep<B>(ob: OrderBook<B>, cs: History)
    requires cs != [] && LiveLog(ob, cs) == EventLog(ob, cs)
    ensures LiveLog(ob, Init(cs)) == EventLog(ob, Init(cs))
    ensures var (b', es, ended) := Live(ob, LiveBook(ob, Init(cs)), Last(cs));
            LiveRecords(|cs|, es, ended) == Records(|cs|, Replayed(ob, BookAfter(ob, Init(cs)), Last(cs)).1)
  {
    LogsNumbered(ob, Init(cs));
    var live := Live(ob, LiveBook(ob, Init(cs)), Last(cs));
    var es := Replayed(ob, BookAfter(ob, Init(cs)), Last(cs)).1;
    RecordsNumbered(|cs|, live.1);
    RecordsNumbered(|cs|, es);
    hide Numbered, Records, Live, Replayed, EventPayloads;
    SplitByNumber(LiveLog(ob, Init(cs)), LiveRecords(|cs|, live.1, live.2),
                  EventLog(ob, Init(cs)), Records(|cs|, es), |cs|);
  }

  lemma {:induction false} SameLogFaithful<B>(ob: OrderBook<B>, cs: History)
    requires LiveLog(ob, cs) == EventLog(ob, cs)
    ensures AllFaithful(ob, cs)
    decreases |cs|
  {
    if cs != [] {
      hide Live, Replayed, LiveRecords, Records, Faithful, LiveLog, EventLog, AllFaithful, BookAfter;
      LogStep(ob, cs);
      SameLogFaithful(ob, Init(cs));
      FaithfulIsLogged(ob, Init(cs));
      SameRecords(ob, BookAfter(ob, Init(cs)), Last(cs), |cs|);
      FaithfulMore(ob, cs);
    }
  }

  lemma FaithfulMore<B>(ob: OrderBook<B>, cs: History)
    requires cs != [] && AllFaithful(ob, Init(cs)) && Faithful(ob, BookAfter(ob, Init(cs)), Last(cs))
    ensures AllFaithful(ob, cs)
  {
    hide Faithful, BookAfter;
    forall i | 0 <= i < |cs|
      ensures Faithful(ob, BookAfter(ob, cs[..i]), cs[i])
    {
      if i < |cs| - 1 {
        assert Init(cs)[..i] == cs[..i];
        assert Faithful(ob, BookAfter(ob, Init(cs)[..i]), Init(cs)[i]);
      } else {
        assert cs[..i] == Init(cs);
      }
    }
  }

  lemma {:induction false} FaithfulIsLogged<B>(ob: OrderBook<B>, cs: History)
    requires AllFaithful(ob, cs)
    ensures LiveBook(ob, cs) == BookAfter(ob, cs) && LiveLog(ob, cs) == EventLog(ob, cs) && Loggable(cs)
    decreases |cs|
  {
    if cs != [] {
      assert forall i :: 0 <= i < |cs| - 1 ==> Init(cs)[..i] == cs[..i];
      FaithfulIsLogged(ob, Init(cs));
      assert cs[..|cs| - 1] == Init(cs);
      ReplayIsLive(ob, BookAfter(ob, Init(cs)), Last(cs));
    }
  }

  /** The running actor writes the very log that recovery restores if and only if every command of the
      history is faithful where it runs, whatever the book; and then it holds the very book. */
  lemma LiveIsLogged<B>(ob: OrderBook<B>, cs: History)
    ensures LiveLog(ob, cs) == EventLog(ob, cs) <==> AllFaithful(ob, cs)
    ensures AllFaithful(ob, cs) ==> LiveBook(ob, cs) == BookAfter(ob, cs) && Loggable(cs)
  {
    hide *;
    if LiveLog(ob, cs) == EventLog(ob, cs) {
      SameLogFaithful(ob, cs);
    }
    if AllFaithful(ob, cs) {
      FaithfulIsLogged(ob, cs);
    }
  }

  /** After a refused submit the log has no end marker for it, so replay cannot restore what the
      actor wrote: the records differ, whatever the book does. */
  lemma RefusedSubmitDiffers<B>(ob: OrderBook<B>, c: Command)
    requires c.typ == CMD_SUBMIT && !WellFormedSubmit(c)
    ensures LiveLog(ob, [c]) != EventLog(ob, [c])
  {
    assert Init([c]) == [];
    var es := Replayed(ob, ob.empty, c).1;
    UnendedDiffers(1, Rejected(c.req, c.order, c.user), es);
    hide Records, EventPayloads;
    assert [] + Records(1, es) == Records(1, es);
    var refusal := [Rejected(c.req, c.order, c.user)];
    assert [] + LiveRecords(1, refusal, false) == EventPayloads(1, refusal);
  }
}

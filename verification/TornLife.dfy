/** What becomes of the commands an engine takes on a torn command log: recovery accepts such a log and
    the engine appends to it. */
module TornLife {
  import opened Basics
  import opened Bytes
  import opened Codecs
  import opened Events
  import opened Wal
  import opened TornLog
  import opened Engine
  import opened Recovery
  import opened Lives
  import opened Service

  /** The engine recovered from whole event records and a command log that ends after j bytes of a further
      record's frame. */
  ghost function TornReady<B>(crc: Checksum, ob: OrderBook<B>, log: History, q: seq<byte>, j: nat): Ready<B>
    requires j <= |Frame(crc, q)|
  {
    var full := Full(crc, ob, log);
    full.(disk := Disk(full.disk.cmd + Frame(crc, q)[..j], full.disk.ev))
  }

  /** The header the reader sees at the tear promises a payload that is there and has that checksum. */
  ghost predicate Collides(crc: Checksum, s: seq<byte>)
    requires |s| > HEADER_SIZE
  {
    var n := FromLE(s[..4]);
    HEADER_SIZE + n <= |s| && crc(s[HEADER_SIZE..HEADER_SIZE + n]) == FromLE(s[4..8])
  }

  // ---- the engine goes on ----------------------------------------------------------------------------

  /** The cut falls inside the record after the whole ones. */
  ghost predicate TornHere(crc: Checksum, ps: seq<seq<byte>>, c: nat, tail: Item) {
    && Whole(ps, c) < |ps| && c <= |Frames(crc, ps)| == Size(ps)
    && var k := Whole(ps, c);
       && Size(ps[..k]) < c < Size(ps[..k]) + HEADER_SIZE + |ps[k]| == Size(ps[..k]) + |Frame(crc, ps[k])|
       && (tail.HeaderOnly? <==> c == Size(ps[..k]) + HEADER_SIZE)
       && Frames(crc, ps)[..c] == Frames(crc, ps[..k]) + Frame(crc, ps[k])[..c - Size(ps[..k])]
  }

  lemma {:induction false} TornAt(crc: Checksum, ps: seq<seq<byte>>, c: nat)
    requires c <= Size(ps) && !Severed(ps, c).End?
    ensures TornHere(crc, ps, c, Severed(ps, c))
  {
    if ps != [] && c < HEADER_SIZE + |ps[0]| {
      TornInFirst(crc, ps, c);
    } else {
      TornLater(ps, c);
      TornAt(crc, ps[1..], c - HEADER_SIZE - |ps[0]|);
      TornStep(crc, ps, c);
    }
  }

  lemma TornInFirst(crc: Checksum, ps: seq<seq<byte>>, c: nat)
    requires c <= Size(ps) && !Severed(ps, c).End? && ps != [] && c < HEADER_SIZE + |ps[0]|
    ensures Whole(ps, c) == 0 && |Frames(crc, ps)| == Size(ps) && Size(ps[..0]) == 0 < c
    ensures Severed(ps, c).HeaderOnly? <==> c == HEADER_SIZE
    ensures |Frame(crc, ps[0])| == HEADER_SIZE + |ps[0]|
    ensures Frames(crc, ps)[..c] == Frames(crc, ps[..0]) + Frame(crc, ps[0])[..c]
  {
    FramesSize(crc, ps);
    assert Frames(crc, ps) == Frame(crc, ps[0]) + Frames(crc, ps[1..]);
    assert |Frame(crc, ps[0])| == HEADER_SIZE + |ps[0]|;
    hide Frame;
  }

  lemma TornLater(ps: seq<seq<byte>>, c: nat)
    requires c <= Size(ps) && !Severed(ps, c).End? && (ps != [] ==> c >= HEADER_SIZE + |ps[0]|)
    ensures ps != [] && HEADER_SIZE + |ps[0]| <= c
    ensures c - HEADER_SIZE - |ps[0]| <= Size(ps[1..])
    ensures Severed(ps[1..], c - HEADER_SIZE - |ps[0]|) == Severed(ps, c)
    ensures Whole(ps, c) == 1 + Whole(ps[1..], c - HEADER_SIZE - |ps[0]|)
  {
  }

  lemma TornStep(crc: Checksum, ps: seq<seq<byte>>, c: nat)
    requires ps != [] && HEADER_SIZE + |ps[0]| <= c <= Size(ps)
    requires var d := c - HEADER_SIZE - |ps[0]|;
             Whole(ps, c) == 1 + Whole(ps[1..], d) && TornHere(crc, ps[1..], d, Severed(ps, c))
    ensures TornHere(crc, ps, c, Severed(ps, c))
  {
    hide Frame, Frames, Size, Severed, Whole;
    CutAfterFirst(crc, ps, c);
    var k := Whole(ps, c);
    assert ps[..k][1..] == ps[1..][..k - 1] && ps[..k][0] == ps[0] && ps[1..][k - 1] == ps[k];
    FramesFirst(crc, ps[..k]);
    Associative(Frame(crc, ps[0]), Frames(crc, ps[1..][..k - 1]), Frame(crc, ps[k])[..c - Size(ps[..k])]);
  }

  /** A crash that tears the command log inside a record, and that recovery can mend all the same, leaves
      such an engine: the torn bytes stay in place. */
  lemma TornIsAccepted<B>(crc: Checksum, ob: OrderBook<B>, cs: History, c: nat, e: nat)
    requires Loggable(cs) && c <= Size(CmdLog(cs)) && e <= Size(EventLog(ob, Durable(cs, c)))
    requires !Severed(CmdLog(cs), c).End? && Mends(ob, cs, c, e)
    ensures var live := Durable(cs, c);
            && |live| < |cs| && Size(CmdLog(live)) < c < Size(CmdLog(live)) + HEADER_SIZE + CMD_RECORD_LEN
            && Recovered(crc, ob, Left(crc, ob, cs, c, e))
               == Some(TornReady(crc, ob, live, CmdLog(cs)[|live|], c - Size(CmdLog(live))))
  {
    hide Mends, Recovered, EventLog, Frames, Frame, Size, Whole, Severed, BookAfter, Loggable;
    RecoveryIsExact(crc, ob, cs, c, e);
    DurableLog(cs, c);
    TornAt(crc, CmdLog(cs), c);
    CutIsTruncation(Frames(crc, CmdLog(cs)), c);
  }

  // ---- what comes back -------------------------------------------------------------------------------

  /** A command file that holds whole records, a torn one and at least one record behind it. */
  ghost predicate Behind(crc: Checksum, log: History, q: seq<byte>, j: nat, f: seq<byte>) {
    && |q| == CMD_RECORD_LEN && 1 <= j < HEADER_SIZE + CMD_RECORD_LEN
    && exists p :: |p| == CMD_RECORD_LEN && Frames(crc, CmdLog(log)) + Frame(crc, q)[..j] + Frame(crc, p) <= f
  }

  lemma ParseBehind<B>(crc: Checksum, ob: OrderBook<B>, log: History, q: seq<byte>, j: nat, f: seq<byte>)
    requires Behind(crc, log, q, j, f)
    ensures Size(CmdLog(log)) + HEADER_SIZE < |f|
    ensures var s := f[Size(CmdLog(log))..];
            !Collides(crc, s) ==>
              Parse(crc, DEFAULT_MAX_PAYLOAD, f) == (CmdLog(log), if FromLE(s[..4]) > DEFAULT_MAX_PAYLOAD then TooLarge
                                                                  else if |s| < HEADER_SIZE + FromLE(s[..4]) then CutPayload
                                                                  else BadSum)
  {
    var ps := CmdLog(log);
    var p :| |p| == CMD_RECORD_LEN && Frames(crc, ps) + Frame(crc, q)[..j] + Frame(crc, p) <= f;
    FramesSize(crc, ps);
    LogsSized(ob, log);
    hide CmdLog, Frame, Frames, FromLE, ReadFrame, Parse, Size, Sized;
    var t := Parts(Frames(crc, ps), Frame(crc, q)[..j], Frame(crc, p), f);
    var s := f[Size(ps)..];
    TornHeader(crc, q, p, t, j);
    ReadTorn(crc, s);
    if !Collides(crc, s) {
      StopsThere(crc, ps, s);
    }
  }

  lemma Parts<T>(a: seq<T>, b: seq<T>, p: seq<T>, f: seq<T>) returns (t: seq<T>)
    requires a + b + p <= f
    ensures |a| <= |f| && f == a + f[|a|..] && f[|a|..] == b + (p + t)
  {
    t := f[|a + b + p|..];
  }

  lemma StopsThere(crc: Checksum, ps: seq<seq<byte>>, s: seq<byte>)
    requires Sized(DEFAULT_MAX_PAYLOAD, ps) && !ReadFrame(crc, DEFAULT_MAX_PAYLOAD, s).Record?
    ensures Parse(crc, DEFAULT_MAX_PAYLOAD, Frames(crc, ps) + s) == (ps, ReadFrame(crc, DEFAULT_MAX_PAYLOAD, s))
  {
    hide ReadFrame, Frames;
    ParseAfter(crc, DEFAULT_MAX_PAYLOAD, ps, s);
    assert ps + [] == ps;
  }

  /** Whatever the files hold besides: barring a collision, recovery succeeds exactly when the event log can
      be repaired and the misread length reaches beyond the end of the file, within the limit; and then
      it stands where it stood before the tear. */
  lemma RecoveryBehind<B>(crc: Checksum, ob: OrderBook<B>, log: History, q: seq<byte>, j: nat, d: Disk)
    requires Loggable(log) && Behind(crc, log, q, j, d.cmd)
    ensures Size(CmdLog(log)) + HEADER_SIZE < |d.cmd|
    ensures var s, r := d.cmd[Size(CmdLog(log))..], Recovered(crc, ob, d);
            !Collides(crc, s) ==>
              && (r.Some? <==> Repaired(crc, d.ev).Some? && |s| - HEADER_SIZE < FromLE(s[..4]) <= DEFAULT_MAX_PAYLOAD)
              && (r.Some? ==> r.value.book == BookAfter(ob, log) && r.value.lastSeq == |log| && r.value.disk.cmd == d.cmd)
  {
    hide Behind, Recovered, Repaired, Replay, CmdLog, EventLog, Parse, Frames, Size, BookAfter, FromLE, Loggable;
    hide Recovery.Kept;
    ParseBehind(crc, ob, log, q, j, d.cmd);
    RecoveredSteps(crc, ob, d);
    if Repaired(crc, d.ev).Some? {
      ReplayOfLog(ob, log, Repaired(crc, d.ev).value.0);
    }
  }

  lemma FirstSurvives(crc: Checksum, ps: seq<seq<byte>>, c: nat)
    requires 1 <= Whole(ps, c)
    ensures ps != [] && Frame(crc, ps[0]) <= TruncateTo(Frames(crc, ps), c)
  {
    assert |Frame(crc, ps[0])| == HEADER_SIZE + |ps[0]|;
    hide Frame;
  }

  lemma LifeIsBehind<B>(crc: Checksum, ob: OrderBook<B>, log: History, q: seq<byte>, j: nat, x: Life)
    requires |q| == CMD_RECORD_LEN && 1 <= j < HEADER_SIZE + CMD_RECORD_LEN
    requires Possible(ob, TornReady(crc, ob, log, q, j), x) && 1 <= Whole(CmdRecords(|log|, x.cmds), x.c)
    ensures Behind(crc, log, q, j, CrashedDisk(crc, ob, TornReady(crc, ob, log, q, j), x).cmd)
  {
    var recs := CmdRecords(|log|, x.cmds);
    hide Frame, Frames, CmdLog, CmdRecords, EventLog, EvRecords, BookAfter, Whole, TruncateTo, Size, Behind;
    FirstSurvives(crc, recs, x.c);
    FirstLength(|log|, x.cmds);
    BehindAny(crc, log, q, j, recs[0], TruncateTo(Frames(crc, recs), x.c));
  }

  /** An engine that went on behind a torn record, with any commands and any crash, at least one of its
      command records being whole on disk: barring a collision, the next start either refuses the files or
      has forgotten every command of that life. */
  lemma TornLifeIsLost<B>(crc: Checksum, ob: OrderBook<B>, log: History, q: seq<byte>, j: nat, x: Life)
    requires Loggable(log) && |q| == CMD_RECORD_LEN && 1 <= j < HEADER_SIZE + CMD_RECORD_LEN
    requires Possible(ob, TornReady(crc, ob, log, q, j), x) && 1 <= Whole(CmdRecords(|log|, x.cmds), x.c)
    ensures var d := CrashedDisk(crc, ob, TornReady(crc, ob, log, q, j), x);
            && Size(CmdLog(log)) + HEADER_SIZE < |d.cmd|
            && var s, r := d.cmd[Size(CmdLog(log))..], Recovered(crc, ob, d);
               !Collides(crc, s) ==>
                 && (r.Some? <==> Repaired(crc, d.ev).Some? && |s| - HEADER_SIZE < FromLE(s[..4]) <= DEFAULT_MAX_PAYLOAD)
                 && (r.Some? ==> r.value.book == BookAfter(ob, log) && r.value.lastSeq == |log| && r.value.disk.cmd == d.cmd)
  {
    LifeIsBehind(crc, ob, log, q, j, x);
    hide *;
    RecoveryBehind(crc, ob, log, q, j, CrashedDisk(crc, ob, TornReady(crc, ob, log, q, j), x));
  }

  // ---- and what is published all the same ------------------------------------------------------------

  lemma WholeEventLog<B>(crc: Checksum, ob: OrderBook<B>, all: History)
    ensures Repaired(crc, Frames(crc, EventLog(ob, all))) == Some((|all|, Frames(crc, EventLog(ob, all))))
  {
    var evs := EventLog(ob, all);
    LogsSized(ob, all);
    hide EventLog, Frames, Size, Parse, LastEnd, Sized;
    WholeLog(crc, evs);
    var m := ScanFindsLastComplete(ob, all, |evs|);
    if m < |all| {
      LogPrefix(ob, all, m + 1);
    }
    assert all[..|all|] == all && evs[..|evs|] == evs;
  }

  lemma NothingToRefill<B>(ob: OrderBook<B>, log: History, complete: nat)
    requires Loggable(log) && |log| <= complete < TWO64
    ensures Replay(ob, complete, CmdLog(log)).Some? && Replay(ob, complete, CmdLog(log)).value.added == []
  {
    hide Loggable, EventLog, CmdLog, Replay, BookAfter;
    ReplayOfLog(ob, log, complete);
    var added := Replay(ob, complete, CmdLog(log)).value.added;
    assert |EventLog(ob, log)| == |EventLog(ob, log)| + |added|;
  }

  /** When such a life of faithful commands goes through without any failure, the next start, if it is not
      refused, has the event log of all commands beside the book and the numbering without that life's:
      its events have been, or will be, published, and its numbers are given out again. */
  lemma EventsWithoutCommands<B>(crc: Checksum, ob: OrderBook<B>, log: History, q: seq<byte>, j: nat, cmds: seq<Command>)
    requires |q| == CMD_RECORD_LEN && 1 <= j < HEADER_SIZE + CMD_RECORD_LEN
    requires cmds != [] && |log| + |cmds| < TWO64 && AllFaithful(ob, log + cmds)
    ensures var d := Served(crc, ob, TornReady(crc, ob, log, q, j), cmds);
            && Size(CmdLog(log)) + HEADER_SIZE < |d.cmd|
            && var s := d.cmd[Size(CmdLog(log))..];
               !Collides(crc, s) ==>
                 Recovered(crc, ob, d) ==
                 if |s| - HEADER_SIZE < FromLE(s[..4]) <= DEFAULT_MAX_PAYLOAD
                 then Some(Ready(BookAfter(ob, log), |log|, Disk(d.cmd, Frames(crc, EventLog(ob, log + cmds)))))
                 else None
  {
    var all := log + cmds;
    var d := Served(crc, ob, TornReady(crc, ob, log, q, j), cmds);
    hide *;
    ServedFits(crc, ob, log, q, j, cmds);
    ServedIsBehind(crc, ob, log, q, j, cmds);
    FaithfulLoggable(ob, all);
    LoggablePrefix(log, cmds);
    RecoveredAhead(crc, ob, log, q, j, d, all);
  }

  lemma ServedFits<B>(crc: Checksum, ob: OrderBook<B>, log: History, q: seq<byte>, j: nat, cmds: seq<Command>)
    requires |log| + |cmds| < TWO64 && j <= |Frame(crc, q)|
    ensures TornReady(crc, ob, log, q, j).lastSeq == |log|
  {
  }

  lemma RecoveredAhead<B>(crc: Checksum, ob: OrderBook<B>, log: History, q: seq<byte>, j: nat, d: Disk, all: History)
    requires Loggable(log) && log <= all && Behind(crc, log, q, j, d.cmd) && d.ev == Frames(crc, EventLog(ob, all))
    ensures Size(CmdLog(log)) + HEADER_SIZE < |d.cmd|
    ensures var s := d.cmd[Size(CmdLog(log))..];
            !Collides(crc, s) ==>
              Recovered(crc, ob, d) ==
              if |s| - HEADER_SIZE < FromLE(s[..4]) <= DEFAULT_MAX_PAYLOAD
              then Some(Ready(BookAfter(ob, log), |log|, Disk(d.cmd, Frames(crc, EventLog(ob, all))))) else None
  {
    hide *;
    RecoveryBehind(crc, ob, log, q, j, d);
    WholeEventLog(crc, ob, all);
    NothingToRefill(ob, log, |all|);
    ParseBehind(crc, ob, log, q, j, d.cmd);
    RecoveredSteps(crc, ob, d);
    NoneAdded(crc, Frames(crc, EventLog(ob, all)));
  }

  lemma LoggablePrefix(log: History, cmds: seq<Command>)
    requires Loggable(log + cmds)
    ensures Loggable(log)
  {
    assert forall i :: 0 <= i < |log| ==> (log + cmds)[i] == log[i];
  }

  lemma NoneAdded(crc: Checksum, ev: seq<byte>)
    ensures ev + Frames(crc, []) == ev
  {
  }

  lemma ServedIsBehind<B>(crc: Checksum, ob: OrderBook<B>, log: History, q: seq<byte>, j: nat, cmds: seq<Command>)
    requires |q| == CMD_RECORD_LEN && 1 <= j < HEADER_SIZE + CMD_RECORD_LEN
    requires cmds != [] && |log| + |cmds| < TWO64 && AllFaithful(ob, log + cmds)
    ensures var d := Served(crc, ob, TornReady(crc, ob, log, q, j), cmds);
            Behind(crc, log, q, j, d.cmd) && d.ev == Frames(crc, EventLog(ob, log + cmds))
  {
    var recs := CmdRecords(|log|, cmds);
    hide AllFaithful, Frame, CmdLog, CmdRecords, EventLog, EvRecords, BookAfter, Frames, Behind;
    FramesFirst(crc, recs);
    FirstLength(|log|, cmds);
    BehindAny(crc, log, q, j, recs[0], Frames(crc, recs));
    EventLogExtends(ob, log, cmds);
    FramesAppend(crc, EventLog(ob, log), EvRecords(ob, BookAfter(ob, log), |log|, cmds));
  }

  lemma BehindAny(crc: Checksum, log: History, q: seq<byte>, j: nat, p: seq<byte>, more: seq<byte>)
    requires |q| == |p| == CMD_RECORD_LEN && 1 <= j < HEADER_SIZE + CMD_RECORD_LEN && Frame(crc, p) <= more
    ensures Behind(crc, log, q, j, Frames(crc, CmdLog(log)) + Frame(crc, q)[..j] + more)
  {
    hide Frames, CmdLog;
    assert |Frame(crc, q)| == HEADER_SIZE + |q|;
    hide Frame;
  }

  lemma FirstLength(seqNo: nat, cmds: seq<Command>)
    requires cmds != [] && seqNo + |cmds| < TWO64
    ensures CmdRecords(seqNo, cmds) != [] && |CmdRecords(seqNo, cmds)[0]| == CMD_RECORD_LEN
  {
  }
}

/** The publisher over many lives of the engine: nothing it ever publishes is taken back by a gentle crash. */
module Delivery {
  import opened Basics
  import opened Bytes
  import opened Codecs
  import opened Wal
  import opened Engine
  import opened Recovery
  import opened Lives
  import opened Service
  import opened Publisher

  /** What the event file can hold during a life: events only of commands whose records survive it. */
  ghost predicate Visible<B>(crc: Checksum, ob: OrderBook<B>, log: History, x: Life, f: seq<byte>)
    requires |log| + |x.cmds| < TWO64
  {
    f <= Full(crc, ob, log).disk.ev +
         Frames(crc, EvRecords(ob, BookAfter(ob, log), |log|, x.cmds[..Lives.Kept(log, x)]))
  }

  /** While the write-ahead discipline is kept the file is never anything else. */
  lemma DisciplineShows<B>(crc: Checksum, ob: OrderBook<B>, log: History, x: Life, taken: seq<Command>, synced: nat,
                           k: nat, d: Disk)
    requires |log| + |x.cmds| < TWO64 && taken <= x.cmds && synced <= Lives.Kept(log, x)
    requires Underway(crc, ob, Full(crc, ob, log), taken, synced, k, d)
    ensures Visible(crc, ob, log, x, d.ev)
  {
    hide Frames, EvRecords, EventLog, CmdLog, BookAfter, Lives.Kept;
    var kept := x.cmds[..Lives.Kept(log, x)];
    assert kept[..k] == taken[..k];
    EvRecordsPrefix(ob, BookAfter(ob, log), |log|, kept, k);
    FramesGrow(crc, Full(crc, ob, log).disk.ev, EvRecords(ob, BookAfter(ob, log), |log|, kept[..k]),
               EvRecords(ob, BookAfter(ob, log), |log|, kept));
  }

  lemma VisibleStays<B>(crc: Checksum, ob: OrderBook<B>, log: History, x: Life, f: seq<byte>)
    requires |log| + |x.cmds| < TWO64 && AllFaithful(ob, log + x.cmds) && Visible(crc, ob, log, x, f)
    ensures f <= Frames(crc, EventLog(ob, Surviving(log, x)))
  {
    hide AllFaithful, EventLog, EvRecords, Frames, CmdLog, BookAfter, Lives.Kept;
    SurvivorsFaithful(ob, log, x);
    EventLogExtends(ob, log, x.cmds[..Lives.Kept(log, x)]);
    FramesAppend(crc, EventLog(ob, log), EvRecords(ob, BookAfter(ob, log), |log|, x.cmds[..Lives.Kept(log, x)]));
  }

  // ---- the commands at the start of each life ------------------------------------------------------

  lemma FirstLife<B>(crc: Checksum, ob: OrderBook<B>, log: History, xs: seq<Life>)
    requires xs != []
    ensures Gentle(crc, ob, log, xs[0]) ==> |log| + |xs[0].cmds| < TWO64
    ensures Survivors(crc, ob, log, xs) ==
            if Gentle(crc, ob, log, xs[0]) then Survivors(crc, ob, Surviving(log, xs[0]), xs[1..]) else None
  {
  }

  lemma {:induction false} SurvivorsSplit<B>(crc: Checksum, ob: OrderBook<B>, log: History, xs: seq<Life>, j: nat)
    requires Survivors(crc, ob, log, xs).Some? && j <= |xs|
    ensures Survivors(crc, ob, log, xs[..j]).Some?
    ensures Survivors(crc, ob, Survivors(crc, ob, log, xs[..j]).value, xs[j..]) == Survivors(crc, ob, log, xs)
    decreases j
  {
    hide Gentle, Surviving;
    if j == 0 {
      assert xs[0..] == xs;
    } else {
      assert xs[..j][0] == xs[0];
      FirstLife(crc, ob, log, xs);
      FirstLife(crc, ob, log, xs[..j]);
      hide Survivors;
      assert xs[..j][1..] == xs[1..][..j - 1] && xs[1..][j - 1..] == xs[j..];
      SurvivorsSplit(crc, ob, Surviving(log, xs[0]), xs[1..], j - 1);
    }
  }

  /** The commands the j-th life starts from. */
  ghost function At<B>(crc: Checksum, ob: OrderBook<B>, log: History, xs: seq<Life>, j: nat): History
    requires Survivors(crc, ob, log, xs).Some? && j <= |xs|
  {
    SurvivorsSplit(crc, ob, log, xs, j);
    Survivors(crc, ob, log, xs[..j]).value
  }

  lemma NextLife<B>(crc: Checksum, ob: OrderBook<B>, log: History, xs: seq<Life>, j: nat)
    requires Survivors(crc, ob, log, xs).Some? && j < |xs|
    ensures var before := At(crc, ob, log, xs, j);
            Gentle(crc, ob, before, xs[j]) && At(crc, ob, log, xs, j + 1) == Surviving(before, xs[j])
  {
    hide Gentle;
    SurvivorsSplit(crc, ob, log, xs, j);
    SurvivorsSplit(crc, ob, log, xs, j + 1);
    var before := At(crc, ob, log, xs, j);
    SurvivorsSplit(crc, ob, log, xs[..j + 1], j);
    assert xs[..j + 1][..j] == xs[..j] && xs[..j + 1][j..] == [xs[j]];
    assert [xs[j]][1..] == [];
  }

  lemma LaterLives<B>(crc: Checksum, ob: OrderBook<B>, log: History, xs: seq<Life>, j: nat, k: nat)
    requires Survivors(crc, ob, log, xs).Some? && j <= k <= |xs|
    ensures At(crc, ob, log, xs, j) <= At(crc, ob, log, xs, k)
  {
    hide Gentle;
    SurvivorsSplit(crc, ob, log, xs, k);
    SurvivorsSplit(crc, ob, log, xs[..k], j);
    assert xs[..k][..j] == xs[..j];
    ManyLives(crc, ob, At(crc, ob, log, xs, j), xs[..k][j..]);
  }

  lemma LogFrames<B>(crc: Checksum, ob: OrderBook<B>, a: History, b: History)
    requires a <= b
    ensures Frames(crc, EventLog(ob, a)) <= Frames(crc, EventLog(ob, b))
    ensures Size(EventLog(ob, a)) <= Size(EventLog(ob, b))
  {
    assert b[..|a|] == a;
    LogPrefix(ob, b, |a|);
    hide EventLog, Frames;
    FramesGrow(crc, [], EventLog(ob, a), EventLog(ob, b));
    FramesSize(crc, EventLog(ob, a));
    FramesSize(crc, EventLog(ob, b));
    assert [] + Frames(crc, EventLog(ob, a)) == Frames(crc, EventLog(ob, a));
    assert [] + Frames(crc, EventLog(ob, b)) == Frames(crc, EventLog(ob, b));
  }

  /** No gentle crash takes anything back: whatever the event file shows in any life lies at the start of
      the event log of the commands that outlive all lives. */
  lemma NothingRetracted<B>(crc: Checksum, ob: OrderBook<B>, log: History, xs: seq<Life>, j: nat, f: seq<byte>)
    requires Survivors(crc, ob, log, xs).Some? && j < |xs|
    requires |At(crc, ob, log, xs, j)| + |xs[j].cmds| < TWO64 && Visible(crc, ob, At(crc, ob, log, xs, j), xs[j], f)
    ensures f <= Frames(crc, EventLog(ob, At(crc, ob, log, xs, j + 1)))
    ensures f <= Frames(crc, EventLog(ob, Survivors(crc, ob, log, xs).value))
  {
    hide *;
    var before := At(crc, ob, log, xs, j);
    NextLife(crc, ob, log, xs, j);
    Gently(crc, ob, before, xs[j]);
    VisibleStays(crc, ob, before, xs[j], f);
    LaterLives(crc, ob, log, xs, j + 1, |xs|);
    LastLife(crc, ob, log, xs);
    LogFrames(crc, ob, At(crc, ob, log, xs, j + 1), At(crc, ob, log, xs, |xs|));
  }

  lemma LastLife<B>(crc: Checksum, ob: OrderBook<B>, log: History, xs: seq<Life>)
    requires Survivors(crc, ob, log, xs).Some?
    ensures At(crc, ob, log, xs, |xs|) == Survivors(crc, ob, log, xs).value
  {
    assert xs[..|xs|] == xs;
  }

  // ---- the publisher ---------------------------------------------------------------------------------

  /** One run of the publisher: the life it falls into, and the event file when it starts and when it ends. */
  datatype Watch = Watch(life: nat, first: seq<byte>, last: seq<byte>)

  /** Runs follow each other. The publisher starts once the engine has recovered, and within a life the file
      only grows. */
  ghost predicate Watching<B>(crc: Checksum, ob: OrderBook<B>, log: History, xs: seq<Life>, ws: seq<Watch>)
    requires Survivors(crc, ob, log, xs).Some?
  {
    && (forall i :: 0 <= i < |ws| ==> ws[i].life < |xs| && Watched(crc, ob, At(crc, ob, log, xs, ws[i].life), xs, ws[i]))
    && (forall h, i :: 0 <= h < i < |ws| ==> After(ws[h], ws[i]))
  }

  ghost predicate Watched<B>(crc: Checksum, ob: OrderBook<B>, log: History, xs: seq<Life>, w: Watch)
    requires w.life < |xs|
  {
    && |log| + |xs[w.life].cmds| < TWO64
    && Full(crc, ob, log).disk.ev <= w.first <= w.last && Visible(crc, ob, log, xs[w.life], w.last)
  }

  ghost predicate After(v: Watch, w: Watch) {
    v.life < w.life || (v.life == w.life && v.last <= w.first)
  }

  function Spans(ws: seq<Watch>): (spans: seq<Span>)
    ensures |spans| == |ws|
  {
    seq(|ws|, i requires 0 <= i < |ws| => Span(|ws[i].first|, |ws[i].last|))
  }

  /** What each run sees is a piece of one file, and the file is never shorter than it was. */
  lemma OneFile<B>(crc: Checksum, ob: OrderBook<B>, log: History, xs: seq<Life>, ws: seq<Watch>, i: nat)
    requires Survivors(crc, ob, log, xs).Some? && Watching(crc, ob, log, xs, ws) && i < |ws|
    ensures ws[i].first <= ws[i].last <= Frames(crc, EventLog(ob, Survivors(crc, ob, log, xs).value))
    ensures forall h :: 0 <= h < i ==> |ws[h].last| <= |ws[i].first|
  {
    hide At, EventLog, Frames, Visible, CmdLog, Survivors, BookAfter;
    NothingRetracted(crc, ob, log, xs, ws[i].life, ws[i].last);
    forall h | 0 <= h < i
      ensures |ws[h].last| <= |ws[i].first|
    {
      assert After(ws[h], ws[i]);
      if ws[h].life < ws[i].life {
        NothingRetracted(crc, ob, log, xs, ws[h].life, ws[h].last);
        LaterLives(crc, ob, log, xs, ws[h].life + 1, ws[i].life);
        LogFrames(crc, ob, At(crc, ob, log, xs, ws[h].life + 1), At(crc, ob, log, xs, ws[i].life));
      }
    }
  }

  lemma NeverShorter<B>(crc: Checksum, ob: OrderBook<B>, log: History, xs: seq<Life>, ws: seq<Watch>)
    requires Survivors(crc, ob, log, xs).Some? && Watching(crc, ob, log, xs, ws)
    ensures CutAtRecords(EventLog(ob, Survivors(crc, ob, log, xs).value), Spans(ws))
  {
    hide Watching, EventLog, Frames, Survivors, Size;
    var all := EventLog(ob, Survivors(crc, ob, log, xs).value);
    FramesSize(crc, all);
    forall i | 0 <= i < |ws|
      ensures Spans(ws)[i].start <= Spans(ws)[i].top <= Size(all)
      ensures forall h :: 0 <= h < i ==> Spans(ws)[h].top <= Spans(ws)[i].start
    {
      OneFile(crc, ob, log, xs, ws, i);
    }
  }

  /** Any number of lives with gentle crashes and any number of publisher runs in them: everything that was
      ever published is an event of the commands that outlive all lives, and freed of repetitions it is
      the beginning of their event log; after a run left alone for long enough, all of it. */
  method Deliver<B>(crc: Checksum, ob: OrderBook<B>, ghost log: History, ghost xs: seq<Life>, ghost ws: seq<Watch>,
                    file: seq<byte>, spans: seq<Span>, plans: seq<Plan>, cursorFile: CursorFile)
    returns (stream: seq<Event>, ghost reach: nat)
    requires Survivors(crc, ob, log, xs).Some? && Watching(crc, ob, log, xs, ws) && spans == Spans(ws)
    requires FewEvents(ob, Survivors(crc, ob, log, xs).value) && Planned(spans, plans)
    requires file == Frames(crc, EventLog(ob, Survivors(crc, ob, log, xs).value)) && |file| < 0x8000_0000_0000_0000
    requires LoadedCursor(cursorFile.bytes) == 0
    modifies cursorFile
    ensures var all := EventLog(ob, Survivors(crc, ob, log, xs).value);
            && Readable(all) && reach <= |all|
            && Dedup([], stream) == Pub(all[..reach])
            && (forall e :: e in stream ==> e in Pub(all))
            && ((exists i :: 0 <= i < |plans| && Thorough(all, plans[i])) ==> reach == |all|)
  {
    ghost var all := EventLog(ob, Survivors(crc, ob, log, xs).value);
    NeverShorter(crc, ob, log, xs, ws);
    EventsOfLog(ob, Survivors(crc, ob, log, xs).value);
    LogsSized(ob, Survivors(crc, ob, log, xs).value);
    assert Size(all[..0]) == 0;
    hide *;
    var p := new OutboxPublisher(crc, all, file, cursorFile);
    ghost var cursor;
    stream, reach, cursor := Lifetime(p, spans, plans);
  }
}

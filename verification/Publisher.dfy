/** Tailing the event log to the bus with a persisted cursor (internal/engine/outbox_publisher.go,
    outbox.go). */
module Publisher {
  import opened Basics
  import opened Bytes
  import opened Codecs
  import opened Events
  import opened Wal
  import opened LogIO
  import opened Engine

  // ---- the cursor file -----------------------------------------------------------------------

  function LoadedCursor(b: seq<byte>): i64 {
    if |b| < 8 then 0 else U64Signed(b[..8])
  }

  function U64Signed(b: seq<byte>): i64
    requires |b| == 8
  {
    WriteBack(b);
    Spans();
    Signed(FromLE(b))
  }

  function StoredCursor(off: i64): (b: seq<byte>)
    ensures |b| == 8
  {
    LE(Unsigned(off), 8)
  }

  /** Eight bytes, lowest first; fewer read as zero. */
  lemma CursorRoundTrip(off: i64)
    ensures LoadedCursor(StoredCursor(off)) == off && FromLE(StoredCursor(off)) == Unsigned(off)
    ensures forall b: seq<byte> :: |b| < 8 ==> LoadedCursor(b) == 0
  {
    Spans();
    ReadBack(Unsigned(off), 8);
    assert StoredCursor(off)[..8] == StoredCursor(off);
  }

  // ---- what there is to publish ----------------------------------------------------------------

  ghost predicate Readable(ps: seq<seq<byte>>) {
    forall i :: 0 <= i < |ps| ==> DecodedEv(ps[i]).Ok?
  }

  /** The events among the records; end markers are not published. */
  ghost function Pub(ps: seq<seq<byte>>): seq<Event>
    requires Readable(ps)
    decreases |ps|
  {
    if ps == [] then []
    else
      var e := DecodedEv(Last(ps)).value;
      Pub(Init(ps)) + (if e.typ == EV_CMD_END then [] else [e])
  }

  lemma {:induction false} PubAppend(a: seq<seq<byte>>, b: seq<seq<byte>>)
    requires Readable(a) && Readable(b)
    ensures Readable(a + b) && Pub(a + b) == Pub(a) + Pub(b)
    decreases |b|
  {
    hide DecodedEv;
    if b == [] {
      assert a + b == a;
    } else {
      PubAppend(a, Init(b));
      assert Init(a + b) == a + Init(b);
    }
  }

  lemma PubSplit(ps: seq<seq<byte>>, j: nat, k: nat)
    requires Readable(ps) && j <= k <= |ps|
    ensures Pub(ps[..k]) == Pub(ps[..j]) + Pub(ps[j..k])
  {
    hide Pub, DecodedEv;
    PubAppend(ps[..j], ps[j..k]);
    assert ps[..k] == ps[..j] + ps[j..k];
  }

  /** Reading on from a record boundary in the part of the log that is visible so far: the next
      record if it is whole, and otherwise no record. */
  lemma TailRead(crc: Checksum, log: seq<seq<byte>>, k: nat, v: nat)
    requires Sized(DEFAULT_MAX_PAYLOAD, log) && k <= |log| && Size(log[..k]) <= v <= Size(log)
    ensures |Frames(crc, log)| == Size(log)
    ensures var item := ReadFrame(crc, DEFAULT_MAX_PAYLOAD, Frames(crc, log)[..v][Size(log[..k])..]);
            && (item.Record? <==> k < |log| && Size(log[..k + 1]) <= v)
            && (item.Record? ==> item.payload == log[k] && Size(log[..k + 1]) == Size(log[..k]) + HEADER_SIZE + |log[k]|)
  {
    hide Frames, ReadFrame, Severed;
    WholeIff(log, v, k);
    ResumeLaw(crc, DEFAULT_MAX_PAYLOAD, log, v, k);
    if k < |log| {
      SizeNext(crc, log, k);
      WholeIff(log, v, k + 1);
    }
    hide Size;
    FirstRecord(crc, Frames(crc, log)[..v][Size(log[..k])..]);
    assert k < Whole(log, v) ==> log[k..Whole(log, v)][0] == log[k];
  }

  lemma SizeNext(crc: Checksum, log: seq<seq<byte>>, k: nat)
    requires k < |log|
    ensures Size(log[..k + 1]) == Size(log[..k]) + HEADER_SIZE + |log[k]|
  {
    hide Frames;
    assert log[..k + 1] == log[..k] + [log[k]];
    FramesAppend(crc, log[..k], [log[k]]);
    assert Size([log[k]]) == HEADER_SIZE + |log[k]|;
  }

  lemma FirstRecord(crc: Checksum, s: seq<byte>)
    ensures var item := ReadFrame(crc, DEFAULT_MAX_PAYLOAD, s);
            if item.Record?
            then Parse(crc, DEFAULT_MAX_PAYLOAD, s).0 != [] && Parse(crc, DEFAULT_MAX_PAYLOAD, s).0[0] == item.payload
            else Parse(crc, DEFAULT_MAX_PAYLOAD, s).0 == []
  {
  }

  lemma {:induction false} SizeOrder(log: seq<seq<byte>>, j: nat, k: nat)
    requires j <= k <= |log|
    ensures Size(log[..j]) <= Size(log[..k]) && (j < k ==> Size(log[..j]) < Size(log[..k]))
  {
    if j > 0 {
      assert log[..j][1..] == log[1..][..j - 1] && log[..k][1..] == log[1..][..k - 1];
      SizeOrder(log[1..], j - 1, k - 1);
    }
  }

  // ---- one run -----------------------------------------------------------------------------------

  /** Where one run of the publisher got to, in records of the log. */
  datatype Reach = Reach(
    from: nat,     // first record read
    to: nat,       // records before this one have been read
    cursor: nat,   // the cursor file points here
    marked: nat)   // just after the end marker for which the cursor was last stored

  /** The events of the stretch read are published in order, and nothing but end markers lies
      between the cursor and the last marker it was stored for. */
  ghost predicate Safe(log: seq<seq<byte>>, at: Reach, published: seq<Event>)
    requires Readable(log)
  {
    && at.from <= at.cursor <= at.marked <= at.to <= |log|
    && published == Pub(log[at.from..at.to]) && Pub(log[at.cursor..at.marked]) == []
  }

  /** Nothing but end markers was read after record `last`. */
  ghost predicate Tailing(log: seq<seq<byte>>, at: Reach, last: nat, published: seq<Event>)
    requires Readable(log)
  {
    Safe(log, at, published) && at.cursor <= last <= at.to && Pub(log[last..at.to]) == []
  }

  lemma PubNext(log: seq<seq<byte>>, j: nat, k: nat)
    requires Readable(log) && j <= k < |log|
    ensures var e := DecodedEv(log[k]).value;
            Pub(log[j..k + 1]) == Pub(log[j..k]) + (if e.typ == EV_CMD_END then [] else [e])
  {
    assert Init(log[j..k + 1]) == log[j..k] && Last(log[j..k + 1]) == log[k];
  }

  lemma NothingYet(log: seq<seq<byte>>, k: nat)
    requires Readable(log) && k <= |log|
    ensures Pub(log[k..k]) == []
  {
  }

  lemma MarkRead(log: seq<seq<byte>>, at: Reach, last: nat, published: seq<Event>)
    requires Readable(log) && Tailing(log, at, last, published)
    requires at.to < |log| && DecodedEv(log[at.to]).value.typ == EV_CMD_END
    ensures Tailing(log, at.(to := at.to + 1), last, published)
    ensures Tailing(log, at.(to := at.to + 1, cursor := last, marked := at.to + 1), last, published)
  {
    hide Pub, DecodedEv;
    PubNext(log, at.from, at.to);
    PubNext(log, last, at.to);
  }

  lemma EventRead(log: seq<seq<byte>>, at: Reach, last: nat, published: seq<Event>)
    requires Readable(log) && Tailing(log, at, last, published)
    requires at.to < |log| && DecodedEv(log[at.to]).value.typ != EV_CMD_END
    ensures Tailing(log, at.(to := at.to + 1), at.to + 1, published + [DecodedEv(log[at.to]).value])
  {
    hide Pub, DecodedEv;
    NothingYet(log, at.to + 1);
    PubNext(log, at.from, at.to);
    assert Pub(log[at.from..at.to + 1]) == published + [DecodedEv(log[at.to]).value];
  }

  /** What one turn of the reading loop meets: how many bytes of the file are visible, whether the publisher
      is being stopped, and whether storing the cursor works. */
  datatype Turn = Turn(size: nat, stopped: bool, stores: bool)

  ghost predicate Growing(turns: seq<Turn>, low: nat, top: nat) {
    && (forall i :: 0 <= i < |turns| ==> low <= turns[i].size <= top)
    && (forall i, j :: 0 <= i < j < |turns| ==> turns[i].size <= turns[j].size)
  }

  ghost predicate IsMark(log: seq<seq<byte>>, k: nat)
    requires Readable(log) && k < |log|
  {
    DecodedEv(log[k]).value.typ == EV_CMD_END
  }

  /** This turn gets the next record, k, over with. */
  ghost predicate Passes(log: seq<seq<byte>>, k: nat, turn: Turn)
    requires Readable(log)
  {
    k < |log| && Size(log[..k + 1]) <= turn.size && (turn.stopped ==> IsMark(log, k))
  }

  /** The run reads record after record, one a turn, until the first turn that finds none, is stopped at an
      event, or is the last. */
  ghost predicate ReadsOn(log: seq<seq<byte>>, at: Reach, turns: seq<Turn>)
    requires Readable(log)
  {
    && at.from <= at.to <= |log| && at.to - at.from <= |turns|
    && (forall i :: 0 <= i < at.to - at.from ==> Passes(log, at.from + i, turns[i]))
    && (at.to - at.from == |turns| || !Passes(log, at.to, turns[at.to - at.from]))
  }

  /** The cursor was stored at every end marker where that worked, just behind the last event before it. */
  ghost predicate StoredAt(log: seq<seq<byte>>, at: Reach, turns: seq<Turn>)
    requires Readable(log) && at.from <= at.cursor <= at.marked <= at.to <= |log| && at.to - at.from <= |turns|
  {
    && (at.marked == at.from || (IsMark(log, at.marked - 1) && turns[at.marked - 1 - at.from].stores))
    && (forall k :: at.marked <= k < at.to && IsMark(log, k) ==> !turns[k - at.from].stores)
    && (at.cursor == at.from || !IsMark(log, at.cursor - 1))
    && (forall k :: at.cursor <= k < at.marked ==> IsMark(log, k))
  }

  class CursorFile {
    var bytes: seq<byte>

    constructor ()
      ensures bytes == [] && LoadedCursor(bytes) == 0
    {
      bytes := [];
    }

    /** Written to a temporary file and renamed: all, or nothing if a step of it fails. */
    method Store(off: i64, works: bool) returns (ok: bool)
      modifies this
      ensures ok == works && (if works then LoadedCursor(bytes) == off else bytes == old(bytes))
    {
      CursorRoundTrip(off);
      ok := works;
      if ok {
        bytes := StoredCursor(off);
      }
    }
  }

  class OutboxPublisher {
    const crc: Checksum
    const file: seq<byte>         // all that will ever be in the log; a run sees growing parts of it
    const cursorFile: CursorFile
    ghost const log: seq<seq<byte>>

    ghost predicate Valid() {
      && Sized(DEFAULT_MAX_PAYLOAD, log) && Readable(log) && file == Frames(crc, log)
      && |file| < 0x8000_0000_0000_0000
    }

    /** The cursor is the boundary before record k. */
    ghost predicate At(k: nat)
      reads cursorFile
    {
      k <= |log| && LoadedCursor(cursorFile.bytes) == Size(log[..k])
    }

    constructor (crc: Checksum, ghost log: seq<seq<byte>>, file: seq<byte>, cursorFile: CursorFile)
      requires Sized(DEFAULT_MAX_PAYLOAD, log) && Readable(log) && file == Frames(crc, log)
      requires |file| < 0x8000_0000_0000_0000
      ensures Valid() && this.cursorFile == cursorFile && this.log == log
    {
      this.crc, this.log, this.file, this.cursorFile := crc, log, file, cursorFile;
    }

    /** The file is not shorter than the cursor before record k, or it ends at a record. */
    ghost predicate Clean(k: nat, size: nat)
      requires k <= |log|
    {
      Size(log[..k]) <= size || Severed(log, size).End?
    }

    /** A cursor beyond the end of the file is put back to the end, whatever lies there: it is the boundary
        of a record again exactly if the file ends at one. */
    method Correct(size: nat, ghost k: nat, stores: bool) returns (started: bool, committedOff: i64)
      requires Valid() && At(k) && size <= |file|
      modifies cursorFile
      ensures started == (stores || Size(log[..k]) <= size)
      ensures !started ==> At(k)
      ensures started ==> LoadedCursor(cursorFile.bytes) == committedOff == Min(size, Size(log[..k]))
      ensures started ==> ((exists j :: At(j)) <==> Clean(k, size))
      ensures started && Clean(k, size) ==> At(if Size(log[..k]) <= size then k else Whole(log, size))
    {
      hide Frames, Size, Sized, DecodedEv, Whole, Severed;
      Boundaries(k, k);
      RecordEnds(size);
      started, committedOff := true, LoadedCursor(cursorFile.bytes);
      if committedOff > size {
        committedOff := size;
        started := cursorFile.Store(committedOff, stores);
      }
      if started {
        if Size(log[..k]) <= size {
          assert At(k);
        } else if Severed(log, size).End? {
          assert At(Whole(log, size));
        }
      }
    }

    lemma RecordEnds(size: nat)
      requires Valid() && size <= |file|
      ensures forall j :: 0 <= j <= |log| && Size(log[..j]) == size ==> j == Whole(log, size)
      ensures Severed(log, size).End? <==> Size(log[..Whole(log, size)]) == size
    {
      FramesSize(crc, log);
      hide Frames, Size, Sized, DecodedEv, Whole, Severed;
      EndIsWhole(log, size);
      var w := Whole(log, size);
      WholeIff(log, size, w);
      forall j | 0 <= j <= |log| && Size(log[..j]) == size
        ensures j == w
      {
        WholeIff(log, size, j);
        Boundaries(j, w);
      }
    }

    /** One run. The file has `size` bytes when it starts, possibly ending inside a record, and at most `top`
        while it lasts. What each turn of its loop meets, and whether a correction of the cursor can be
        stored, is up to the environment. */
    method Run(size: nat, top: nat, ghost k: nat, stores: bool, turns: seq<Turn>)
      returns (started: bool, published: seq<Event>, ghost at: Reach)
      requires Valid() && At(k) && size <= top <= |file| && Growing(turns, size, top)
      modifies cursorFile
      ensures started == (stores || Size(log[..k]) <= size)
      ensures !started ==> published == [] && At(k)
      ensures started && Clean(k, size) ==>
                && Safe(log, at, published) && At(at.cursor) && Size(log[..at.to]) <= top
                && at.from == (if Size(log[..k]) <= size then k else Whole(log, size))
                && ReadsOn(log, at, turns) && StoredAt(log, at, turns)
    {
      hide Safe, Tailing, Pub, Frames, Size, Sized, DecodedEv, ReadFrame, Whole, Severed, At, Clean, ReadsOn, StoredAt;
      published, at := [], Reach(k, k, k, k);
      AtOffset(k);
      var committedOff;
      started, committedOff := Correct(size, k, stores);
      if started {
        ghost var from := if Size(log[..k]) <= size then k else Whole(log, size);
        AtOffset(from);
        published, at := Tail(committedOff, top, turns, from, Clean(k, size));
      }
    }

    lemma AtOffset(k: nat)
      ensures At(k) ==> k <= |log| && LoadedCursor(cursorFile.bytes) == Size(log[..k])
    {
    }

    lemma Boundaries(j: nat, k: nat)
      requires Valid() && j <= |log| && k <= |log|
      ensures Size(log[..j]) < Size(log[..k]) <==> j < k
      ensures Size(log[..j]) <= |file| == Size(log) && Size(log[..k]) <= |file|
    {
      FramesPrefix(crc, log, j);
      FramesPrefix(crc, log, k);
      if j < k {
        SizeOrder(log, j, k);
      } else {
        SizeOrder(log, k, j);
      }
    }

    /** The reading loop from the committed offset; `clean` says that it is the boundary before record
        `from`. After the first read that finds no whole record, or one that is no event, the reader is
        closed for good. */
    method Tail(committedOff: i64, top: nat, turns: seq<Turn>, ghost from: nat, ghost clean: bool)
      returns (published: seq<Event>, ghost at: Reach)
      requires Valid() && 0 <= committedOff <= top <= |file| && Growing(turns, committedOff, top)
      requires clean ==> At(from) && committedOff == Size(log[..from])
      modifies cursorFile
      ensures clean ==>
                && Safe(log, at, published) && At(at.cursor) && at.from == from
                && at.to <= |log| && Size(log[..at.to]) <= top
                && ReadsOn(log, at, turns) && StoredAt(log, at, turns)
    {
      hide Safe, Tailing, Pub, Frames, Size, Sized, DecodedEv, ReadFrame, Passes, StoredAt, IsMark, Growing;
      published, at := [], Reach(from, from, from, from);
      var off: i64, pos: nat, closed := committedOff, committedOff, false;
      ghost var last: nat := from;
      if clean {
        Nothing(log, from);
        StoredNothing(log, from, turns);
      }
      Visible(turns, committedOff, top);
      for i := 0 to |turns|
        invariant clean ==> Tailing(log, at, last, published) && at.from == from && At(at.cursor)
        invariant clean ==> at.to <= |log| && last <= |log| && Size(log[..at.to]) <= top
        invariant clean ==> at.from <= at.cursor <= at.marked <= at.to && at.to - at.from <= i
        invariant clean && !closed ==> pos == Size(log[..at.to]) && off == Size(log[..last]) && at.to - at.from == i
        invariant clean ==> forall h :: 0 <= h < at.to - at.from ==> Passes(log, at.from + h, turns[h])
        invariant clean && closed ==> at.to - at.from < i && !Passes(log, at.to, turns[at.to - at.from])
        invariant clean ==> StoredAt(log, at, turns) && Behind(log, at, last)
        invariant pos <= top && (i < |turns| ==> pos <= turns[i].size)
      {
        if closed {
          off := committedOff;
          continue;
        }
        var visible := turns[i].size;
        if clean {
          Boundaries(at.to, last);
          TailRead(crc, log, at.to, visible);
          PassesIff(log, at.to, turns[i]);
        }
        var r := new Reader(crc, file[..visible], pos);
        var payload, next, err := r.Next();
        if err != NoError {
          closed := true;
          if err != EOF {
            off := committedOff;
          }
          continue;
        }
        var decoded := DecodedEv(payload);
        if decoded.Err? {
          off, closed := committedOff, true;
          continue;
        }
        var ev := decoded.value;
        if ev.typ == EV_CMD_END {
          var stored := cursorFile.Store(off, turns[i].stores);
          if clean {
            MarkRead(log, at, last, published);
            MarkStored(log, at, last, turns);
            at := if stored then at.(to := at.to + 1, cursor := last, marked := at.to + 1) else at.(to := at.to + 1);
          }
        } else {
          if turns[i].stopped {
            break;
          }
          if clean {
            EventRead(log, at, last, published);
            EventBehind(log, at, last, turns);
            last, at := at.to + 1, at.(to := at.to + 1);
          }
          published := published + [ev];
          off := next;
        }
        pos := next;
      }
      if clean {
        TailingIsSafe(log, at, last, published);
      }
    }
  }

  lemma Visible(turns: seq<Turn>, low: nat, top: nat)
    requires Growing(turns, low, top)
    ensures forall i :: 0 <= i < |turns| ==> low <= turns[i].size <= top
    ensures forall i :: 0 < i < |turns| ==> turns[i - 1].size <= turns[i].size
  {
  }

  lemma PassesIff(log: seq<seq<byte>>, k: nat, turn: Turn)
    requires Readable(log)
    ensures Passes(log, k, turn) <==>
            k < |log| && Size(log[..k + 1]) <= turn.size && (turn.stopped ==> DecodedEv(log[k]).value.typ == EV_CMD_END)
  {
  }

  /** Nothing but end markers was read since `last`, and an event just before it. */
  ghost predicate Behind(log: seq<seq<byte>>, at: Reach, last: nat)
    requires Readable(log) && at.to <= |log|
  {
    && at.from <= at.cursor <= last <= at.to && (last == at.from || !IsMark(log, last - 1))
    && (forall k :: last <= k < at.to ==> IsMark(log, k))
  }

  lemma StoredNothing(log: seq<seq<byte>>, k: nat, turns: seq<Turn>)
    requires Readable(log) && k <= |log|
    ensures StoredAt(log, Reach(k, k, k, k), turns) && Behind(log, Reach(k, k, k, k), k)
  {
  }

  lemma MarkIs(log: seq<seq<byte>>, k: nat)
    requires Readable(log) && k < |log|
    ensures IsMark(log, k) <==> DecodedEv(log[k]).value.typ == EV_CMD_END
  {
  }

  lemma MarkStored(log: seq<seq<byte>>, at: Reach, last: nat, turns: seq<Turn>)
    requires Readable(log) && at.from <= at.cursor <= at.marked <= at.to < |log| && at.to - at.from < |turns|
    requires StoredAt(log, at, turns) && Behind(log, at, last) && DecodedEv(log[at.to]).value.typ == EV_CMD_END
    ensures var at' := if turns[at.to - at.from].stores then at.(to := at.to + 1, cursor := last, marked := at.to + 1)
                       else at.(to := at.to + 1);
            StoredAt(log, at', turns) && Behind(log, at', last)
  {
    hide IsMark, DecodedEv;
    MarkIs(log, at.to);
  }

  lemma EventBehind(log: seq<seq<byte>>, at: Reach, last: nat, turns: seq<Turn>)
    requires Readable(log) && at.from <= at.cursor <= at.marked <= at.to < |log| && at.to - at.from < |turns|
    requires StoredAt(log, at, turns) && Behind(log, at, last) && DecodedEv(log[at.to]).value.typ != EV_CMD_END
    ensures var at' := at.(to := at.to + 1); StoredAt(log, at', turns) && Behind(log, at', at.to + 1)
  {
    hide IsMark, DecodedEv;
    MarkIs(log, at.to);
  }

  lemma Nothing(log: seq<seq<byte>>, k: nat)
    requires Readable(log) && k <= |log|
    ensures Tailing(log, Reach(k, k, k, k), k, [])
  {
  }

  lemma TailingIsSafe(log: seq<seq<byte>>, at: Reach, last: nat, published: seq<Event>)
    requires Readable(log) && Tailing(log, at, last, published)
    ensures Safe(log, at, published)
  {
  }

  // ---- many runs -----------------------------------------------------------------------------

  /** Keeps the first event under each sequence number and position. */
  function Dedup(kept: seq<Event>, s: seq<Event>): seq<Event>
    decreases |s|
  {
    if s == [] then kept else Dedup(if Seen(kept, s[0]) then kept else kept + [s[0]], s[1..])
  }

  predicate Seen(kept: seq<Event>, e: Event) {
    exists i :: 0 <= i < |kept| && SameKey(kept[i], e)
  }

  predicate SameKey(a: Event, b: Event) {
    a.seqNo == b.seqNo && a.idx == b.idx
  }

  ghost predicate DistinctKeys(s: seq<Event>) {
    forall i, j :: 0 <= i < j < |s| ==> !SameKey(s[i], s[j])
  }

  lemma {:induction false} DedupAppend(kept: seq<Event>, s: seq<Event>, t: seq<Event>)
    ensures Dedup(kept, s + t) == Dedup(Dedup(kept, s), t)
    decreases |s|
  {
    if s == [] {
      assert s + t == t;
    } else {
      assert (s + t)[1..] == s[1..] + t;
      DedupAppend(if Seen(kept, s[0]) then kept else kept + [s[0]], s[1..], t);
    }
  }

  /** A stretch that begins inside what is already there adds only what lies beyond. */
  lemma {:induction false} DedupStretch(all: seq<Event>, m: nat, a: nat, b: nat)
    requires DistinctKeys(all) && a <= b <= |all| && a <= m <= |all|
    ensures Dedup(all[..m], all[a..b]) == all[..if m < b then b else m]
    decreases b - a
  {
    if a < b {
      assert all[a..b][0] == all[a] && all[a..b][1..] == all[a + 1..b];
      if a < m {
        assert SameKey(all[..m][a], all[a]);
        DedupStretch(all, m, a + 1, b);
      } else {
        assert all[..m] + [all[a]] == all[..m + 1];
        DedupStretch(all, m + 1, a + 1, b);
      }
    }
  }

  lemma StretchOfEvents(log: seq<seq<byte>>, from: nat, to: nat, reach: nat)
    requires Readable(log) && from <= to <= |log| && from <= reach <= |log| && DistinctKeys(Pub(log))
    ensures Dedup(Pub(log[..reach]), Pub(log[from..to])) == Pub(log[..if reach < to then to else reach])
  {
    hide Pub, Dedup, DistinctKeys;
    var all := Pub(log);
    PubPrefix(log, from);
    PubPrefix(log, to);
    PubPrefix(log, reach);
    PubSplit(log, from, to);
    Longer(log, from, reach);
    Longer(log, reach, to);
    Longer(log, to, reach);
    var a, b, m := |Pub(log[..from])|, |Pub(log[..to])|, |Pub(log[..reach])|;
    assert Pub(log[from..to]) == all[a..b];
    DedupStretch(all, m, a, b);
  }

  lemma PubPrefix(log: seq<seq<byte>>, k: nat)
    requires Readable(log) && k <= |log|
    ensures |Pub(log[..k])| <= |Pub(log)| && Pub(log[..k]) == Pub(log)[..|Pub(log[..k])|]
  {
    assert log[..|log|] == log;
    PubSplit(log, k, |log|);
  }

  lemma Longer(log: seq<seq<byte>>, j: nat, k: nat)
    requires Readable(log) && j <= |log| && k <= |log|
    ensures j <= k ==> |Pub(log[..j])| <= |Pub(log[..k])|
  {
    if j <= k {
      PubSplit(log, j, k);
    }
  }

  lemma PubRange(log: seq<seq<byte>>, a: nat, b: nat, c: nat)
    requires Readable(log) && a <= b <= c <= |log|
    ensures Pub(log[a..c]) == Pub(log[a..b]) + Pub(log[b..c])
  {
    hide Pub, DecodedEv;
    PubAppend(log[a..b], log[b..c]);
    assert log[a..c] == log[a..b] + log[b..c];
  }

  lemma PubWithin(log: seq<seq<byte>>, a: nat, b: nat)
    requires Readable(log) && a <= b <= |log|
    ensures forall e :: e in Pub(log[a..b]) ==> e in Pub(log)
  {
    hide Pub, DecodedEv;
    PubSplit(log, a, b);
    PubPrefix(log, b);
    forall e | e in Pub(log[a..b])
      ensures e in Pub(log)
    {
      assert e in Pub(log[..a]) + Pub(log[a..b]);
    }
  }

  /** What the next run, starting from the cursor, publishes again is exactly what this one published
      after the last marker it stored the cursor for. */
  lemma RepeatsOnlyTheTail(log: seq<seq<byte>>, at: Reach, published: seq<Event>)
    requires Readable(log) && Safe(log, at, published)
    ensures Pub(log[at.cursor..at.to]) == Pub(log[at.marked..at.to])
    ensures published == Pub(log[at.from..at.cursor]) + Pub(log[at.marked..at.to])
  {
    hide Pub, DecodedEv;
    PubRange(log, at.cursor, at.marked, at.to);
    PubRange(log, at.from, at.cursor, at.to);
    assert [] + Pub(log[at.marked..at.to]) == Pub(log[at.marked..at.to]);
  }

  /** The file's size when a run starts and its largest size while it lasts. */
  datatype Span = Span(start: nat, top: nat)

  /** A file that a run finds shorter than it once was has been cut back to a record; otherwise it may end
      anywhere, inside a record too. */
  ghost predicate CutAtRecords(log: seq<seq<byte>>, spans: seq<Span>) {
    && (forall i :: 0 <= i < |spans| ==> spans[i].start <= spans[i].top <= Size(log))
    && (forall h, i :: 0 <= h < i < |spans| && spans[i].start < spans[h].top ==> Severed(log, spans[i].start).End?)
  }

  /** What the environment does in a run: whether the cursor can be corrected, and its turns. */
  datatype Plan = Plan(stores: bool, turns: seq<Turn>)

  ghost predicate Planned(spans: seq<Span>, plans: seq<Plan>) {
    |plans| == |spans| && forall i :: 0 <= i < |spans| ==> Growing(plans[i].turns, spans[i].start, spans[i].top)
  }

  /** A run that is left alone with the whole log for long enough. */
  ghost predicate Thorough(log: seq<seq<byte>>, plan: Plan) {
    plan.stores && |plan.turns| >= |log| && forall turn :: turn in plan.turns ==> turn.size == Size(log) && !turn.stopped
  }

  /** Over any number of restarts, from an empty cursor file: the published stream, freed of
      repetitions by sequence number and position, is the log's events in order up to the furthest
      record read, and the cursor never stands beyond what has been published; and after a run that is
      left alone for long enough it is all of the log's events. */
  method Lifetime(p: OutboxPublisher, spans: seq<Span>, plans: seq<Plan>)
    returns (stream: seq<Event>, ghost reach: nat, ghost cursor: nat)
    requires p.Valid() && p.At(0) && DistinctKeys(Pub(p.log))
    requires CutAtRecords(p.log, spans) && Planned(spans, plans)
    modifies p.cursorFile
    ensures reach <= |p.log| && Dedup([], stream) == Pub(p.log[..reach])
    ensures forall e :: e in stream ==> e in Pub(p.log)
    ensures cursor <= reach && p.At(cursor)
    ensures (exists i :: 0 <= i < |plans| && Thorough(p.log, plans[i])) ==> reach == |p.log|
  {
    hide Pub, Dedup, DistinctKeys, Frames, Size, Sized, DecodedEv, Safe, OutboxPublisher.At, CutAtRecords;
    hide OutboxPublisher.Clean, Whole, ReadsOn, StoredAt, Thorough;
    stream, reach, cursor := [], 0, 0;
    DedupNothing(p.log);
    for i := 0 to |spans|
      invariant reach <= |p.log| && Dedup([], stream) == Pub(p.log[..reach])
      invariant forall e :: e in stream ==> e in Pub(p.log)
      invariant cursor <= reach && p.At(cursor) && Reached(p.log, spans, i, cursor)
      invariant (exists h :: 0 <= h < i && Thorough(p.log, plans[h])) ==> reach == |p.log|
    {
      StartsAtRecord(p, spans, i, cursor);
      var started, published, at := p.Run(spans[i].start, spans[i].top, cursor, plans[i].stores, plans[i].turns);
      DedupAppend([], stream, published);
      ThoroughStarts(p.log, plans[i]);
      if started {
        Bounds(p.log, at, published);
        ThoroughEnds(p.log, plans[i], at);
        SizeOrder(p.log, at.cursor, at.to);
        PubWithin(p.log, at.from, at.to);
        StretchOfEvents(p.log, at.from, at.to, reach);
        reach, cursor := if reach < at.to then at.to else reach, at.cursor;
      } else {
        assert stream + published == stream;
      }
      stream := stream + published;
    }
  }

  lemma ThoroughStarts(log: seq<seq<byte>>, plan: Plan)
    ensures Thorough(log, plan) ==> plan.stores
  {
  }

  lemma ThoroughPasses(log: seq<seq<byte>>, plan: Plan, k: nat)
    requires Readable(log) && k < |log|
    ensures Thorough(log, plan) ==> forall i :: 0 <= i < |plan.turns| ==> Passes(log, k, plan.turns[i])
  {
    SizeOrder(log, k + 1, |log|);
    assert log[..|log|] == log;
    hide IsMark, Size;
    assert forall i :: 0 <= i < |plan.turns| ==> plan.turns[i] in plan.turns;
  }

  lemma ThoroughEnds(log: seq<seq<byte>>, plan: Plan, at: Reach)
    requires Readable(log) && ReadsOn(log, at, plan.turns)
    ensures Thorough(log, plan) ==> at.to == |log|
  {
    hide Passes;
    if at.to < |log| {
      ThoroughPasses(log, plan, at.to);
    }
  }

  /** The cursor stands in what some earlier run saw of the file. */
  ghost predicate Reached(log: seq<seq<byte>>, spans: seq<Span>, i: nat, cursor: nat) {
    cursor <= |log| && i <= |spans| && (cursor == 0 || exists h :: 0 <= h < i && Size(log[..cursor]) <= spans[h].top)
  }

  lemma StartsAtRecord(p: OutboxPublisher, spans: seq<Span>, i: nat, cursor: nat)
    requires p.Valid() && CutAtRecords(p.log, spans) && i < |spans| && Reached(p.log, spans, i, cursor)
    ensures spans[i].start <= spans[i].top <= |p.file| && p.Clean(cursor, spans[i].start)
    ensures Size(p.log[..cursor]) > spans[i].start ==> Whole(p.log, spans[i].start) <= cursor
  {
    FramesSize(p.crc, p.log);
    hide Frames, Sized, DecodedEv;
    if cursor == 0 {
      assert Size(p.log[..0]) == 0;
    }
    hide Size;
    if Size(p.log[..cursor]) > spans[i].start {
      WholeIff(p.log, spans[i].start, cursor);
    }
  }

  lemma Bounds(log: seq<seq<byte>>, at: Reach, published: seq<Event>)
    requires Readable(log) && Safe(log, at, published)
    ensures at.from <= at.cursor <= at.to <= |log| && published == Pub(log[at.from..at.to])
  {
  }

  lemma DedupNothing(log: seq<seq<byte>>)
    requires Readable(log)
    ensures Dedup([], []) == Pub(log[..0]) == []
  {
  }

  // ---- when the keys are distinct ----------------------------------------------------------------

  /** No command of the history emits more events than 16 bits can number. */
  ghost predicate FewEvents<B>(ob: OrderBook<B>, cs: seq<Command>) {
    forall i :: 0 <= i < |cs| ==> |Replayed(ob, BookAfter(ob, cs[..i]), cs[i]).1| <= 0x1_0000
  }

  lemma FewEventsStep<B>(ob: OrderBook<B>, cs: seq<Command>)
    requires cs != []
    ensures FewEvents(ob, cs) <==>
            FewEvents(ob, Init(cs)) && |Replayed(ob, BookAfter(ob, Init(cs)), Last(cs)).1| <= 0x1_0000
  {
    hide BookAfter, Replayed;
    assert cs[..|cs| - 1] == Init(cs);
    assert forall i :: 0 <= i < |cs| - 1 ==> cs[..i] == Init(cs)[..i];
  }

  function StampedAll(s: u64, es: seq<Emitted>): (r: seq<Event>)
    ensures |r| == |es| && forall i :: 0 <= i < |es| ==> r[i] == Stamped(s, i, es[i])
  {
    seq(|es|, i requires 0 <= i < |es| => Stamped(s, i, es[i]))
  }

  lemma StampedIs(s: u64, i: nat, e: Emitted)
    ensures Stamped(s, i, e).seqNo == s && Stamped(s, i, e).idx == i % 0x1_0000 && Stamped(s, i, e).typ != EV_CMD_END
    ensures DecodedEv(EncodedEv(Stamped(s, i, e))) == Ok(Stamped(s, i, e))
  {
    EvRoundTrip(Stamped(s, i, e));
  }

  lemma {:induction false} PubOfPayloads(s: u64, es: seq<Emitted>)
    ensures Readable(EventPayloads(s, es)) && Pub(EventPayloads(s, es)) == StampedAll(s, es)
    decreases |es|
  {
    hide EncodedEv, DecodedEv, Stamped;
    if es != [] {
      PubOfPayloads(s, Init(es));
      assert Init(EventPayloads(s, es)) == EventPayloads(s, Init(es));
      StampedIs(s, |es| - 1, Last(es));
      assert StampedAll(s, es) == StampedAll(s, Init(es)) + [Stamped(s, |es| - 1, Last(es))];
    }
  }

  lemma PubOfRecords(s: u64, es: seq<Emitted>)
    ensures Readable(Records(s, es)) && Pub(Records(s, es)) == StampedAll(s, es)
  {
    PubOfPayloads(s, es);
    EvRoundTrip(EndMarker(s));
    hide EncodedEv, DecodedEv;
    assert Init(Records(s, es)) == EventPayloads(s, es) && Last(Records(s, es)) == EncodedEv(EndMarker(s));
    assert StampedAll(s, es) + [] == StampedAll(s, es);
  }

  ghost predicate Numbered(s: seq<Event>, most: nat) {
    forall i :: 0 <= i < |s| ==> s[i].seqNo <= most
  }

  lemma KeysStep(a: seq<Event>, s: u64, es: seq<Emitted>)
    requires s > 0 && Numbered(a, s - 1)
    ensures DistinctKeys(a + StampedAll(s, es)) <==> DistinctKeys(a) && |es| <= 0x1_0000
    ensures Numbered(a + StampedAll(s, es), s)
  {
    var b := StampedAll(s, es);
    hide StampedAll, Stamped;
    forall i | 0 <= i < |es|
      ensures b[i].seqNo == s && b[i].idx == i % 0x1_0000
    {
      StampedIs(s, i, es[i]);
    }
    if |es| > 0x1_0000 {
      assert SameKey((a + b)[|a|], (a + b)[|a| + 0x1_0000]);
    }
    if DistinctKeys(a + b) {
      assert forall i :: 0 <= i < |a| ==> (a + b)[i] == a[i];
    }
  }

  lemma {:induction false} EventsOfLog<B>(ob: OrderBook<B>, cs: History)
    ensures Readable(EventLog(ob, cs)) && Numbered(Pub(EventLog(ob, cs)), |cs|)
    ensures DistinctKeys(Pub(EventLog(ob, cs))) <==> FewEvents(ob, cs)
    decreases |cs|
  {
    hide Replayed, Records, StampedAll, FewEvents, DistinctKeys;
    if cs != [] {
      EventsOfLog(ob, Init(cs));
      var es := Replayed(ob, BookAfter(ob, Init(cs)), Last(cs)).1;
      PubOfRecords(|cs|, es);
      PubAppend(EventLog(ob, Init(cs)), Records(|cs|, es));
      KeysStep(Pub(EventLog(ob, Init(cs))), |cs|, es);
      FewEventsStep(ob, cs);
    } else {
      NoEvents(ob);
    }
  }

  lemma NoEvents<B>(ob: OrderBook<B>)
    ensures FewEvents(ob, []) && DistinctKeys([])
  {
  }
}

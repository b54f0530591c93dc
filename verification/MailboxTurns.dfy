/** In which order the conflating mailbox serves its topics, and when it closes
    (deploy/wsdemo_steps/05_slow_client_backpressure/main.go, Conn.Enqueue and Conn.flush). */
module MailboxTurns {
  import opened Basics
  import opened Mailbox

  // ---- one flush -----------------------------------------------------------------------------------

  /** What the topics hold, in their order, without nil payloads. */
  function Payloads(latest: map<nat, Payload>, topics: seq<nat>): seq<Payload>
    requires forall t :: t in topics ==> t in latest
    decreases |topics|
  {
    if topics == [] then []
    else Payloads(latest, Init(topics)) + (if latest[Last(topics)].Bytes? then [latest[Last(topics)]] else [])
  }

  ghost predicate Distinct(s: seq<nat>) {
    forall i, j :: 0 <= i < j < |s| ==> s[i] != s[j]
  }

  /** The queue holds each topic with something kept once. */
  ghost predicate Queued(m: Mail) {
    Distinct(m.dirty) && forall t :: t in m.latest <==> t in m.dirty
  }

  lemma PoppedQueued(m: Mail)
    requires Queued(m) && m.dirty != []
    ensures Queued(Popped(m)) && m.dirty[0] !in m.dirty[1..]
  {
    assert m.dirty == [m.dirty[0]] + m.dirty[1..];
  }

  lemma {:induction false} PayloadsFirst(latest: map<nat, Payload>, topics: seq<nat>)
    requires topics != [] && (forall t :: t in topics ==> t in latest) && Distinct(topics)
    ensures forall t :: t in topics[1..] ==> t in latest - {topics[0]}
    ensures Payloads(latest, topics) ==
            (if latest[topics[0]].Bytes? then [latest[topics[0]]] else []) + Payloads(latest - {topics[0]}, topics[1..])
    decreases |topics|
  {
    if |topics| == 1 {
      assert Init(topics) == [] && topics[1..] == [];
    } else {
      PayloadsFirst(latest, Init(topics));
      assert Init(topics)[1..] == Init(topics[1..]) && Last(topics[1..]) == Last(topics);
      assert topics[0] != Last(topics);
    }
  }

  /** A flush serves the first k topics of the queue, each with what it holds; it stops as soon as the batch is
      full, and else when the queue is empty. */
  ghost predicate ServesFirst(m: Mail, max: nat, k: nat, m': Mail, batch: seq<Payload>)
    requires Queued(m)
  {
    && k <= |m.dirty| && m'.dirty == m.dirty[k..] && m'.latest == (map t | t in m.latest && t in m.dirty[k..] :: m.latest[t])
    && m'.closed == m.closed && batch == Payloads(m.latest, m.dirty[..k])
    && |batch| <= max && (|batch| == max || k == |m.dirty|)
    && (k > 0 ==> |Payloads(m.latest, m.dirty[..k - 1])| < max)
  }

  lemma PayloadsMore(m: Mail, k: nat)
    requires Queued(m) && m.dirty != [] && k < |m.dirty|
    ensures forall t :: t in m.dirty[1..][..k] ==> t in Popped(m).latest
    ensures Payloads(m.latest, m.dirty[..k + 1]) ==
            (if Oldest(m).Bytes? then [Oldest(m)] else []) + Payloads(Popped(m).latest, m.dirty[1..][..k])
  {
    PoppedQueued(m);
    hide Payloads;
    assert m.dirty[..k + 1][1..] == m.dirty[1..][..k] && m.dirty[..k + 1][0] == m.dirty[0];
    PayloadsFirst(m.latest, m.dirty[..k + 1]);
  }

  lemma ServesOneMore(m: Mail, max: nat, k: nat, m': Mail, batch: seq<Payload>)
    requires Queued(m) && m.dirty != [] && max > 0 && Queued(Popped(m))
    requires ServesFirst(Popped(m), if Oldest(m).Nil? then max else max - 1, k, m', batch)
    ensures ServesFirst(m, max, k + 1, m', if Oldest(m).Nil? then batch else [Oldest(m)] + batch)
  {
    hide Payloads, Queued;
    PayloadsMore(m, k);
    assert m.dirty[k + 1..] == m.dirty[1..][k..];
    PoppedQueued(m);
    LatestLeft(m, k);
    if k > 0 {
      PayloadsMore(m, k - 1);
    } else {
      QueueKept(m);
      NoPayloads(m.latest, m.dirty[..0]);
    }
    assert [] + batch == batch;
  }

  lemma QueueKept(m: Mail)
    requires Queued(m)
    ensures forall t :: t in m.dirty ==> t in m.latest
  {
  }

  lemma LatestLeft(m: Mail, k: nat)
    requires m.dirty != [] && k < |m.dirty| && m.dirty[0] !in m.dirty[1..]
    ensures (map t | t in Popped(m).latest && t in m.dirty[1..][k..] :: Popped(m).latest[t])
            == (map t | t in m.latest && t in m.dirty[k + 1..] :: m.latest[t])
  {
    assert m.dirty[k + 1..] == m.dirty[1..][k..];
    assert forall t :: t in m.dirty[1..][k..] ==> t in m.dirty[1..];
  }

  lemma NoPayloads(latest: map<nat, Payload>, topics: seq<nat>)
    requires topics == []
    ensures Payloads(latest, topics) == []
  {
  }

  lemma ServesNone(m: Mail, max: nat)
    requires Queued(m) && (m.dirty == [] || max == 0)
    ensures ServesFirst(m, max, 0, m, [])
  {
  }

  lemma {:induction false} FlushServes(m: Mail, max: nat) returns (k: nat)
    requires Queued(m)
    ensures ServesFirst(m, max, k, Emptied(m, max).0, Emptied(m, max).1)
    decreases |m.dirty|
  {
    hide ServesFirst, Queued;
    if m.dirty == [] || max == 0 {
      ServesNone(m, max);
      k := 0;
    } else {
      PoppedQueued(m);
      var left := if Oldest(m).Nil? then max else max - 1;
      k := FlushServes(Popped(m), left);
      ServesOneMore(m, max, k, Emptied(Popped(m), left).0, Emptied(Popped(m), left).1);
      k := k + 1;
    }
  }

  // ---- a whole run -----------------------------------------------------------------------------------

  lemma {:induction false} RunQueued(ops: seq<Op>)
    ensures Queued(Ran(ops).0)
    decreases |ops|
  {
    if ops != [] {
      RunQueued(Init(ops));
      var m := Ran(Init(ops)).0;
      if Last(ops).Take? {
        var k := FlushServes(m, Last(ops).max);
        hide Payloads;
        assert forall t :: t in m.dirty[k..] ==> t in m.dirty;
      }
      hide Emptied;
    }
  }

  /** How long a topic has been waiting: the number of operations after which nothing was kept for it. */
  ghost function Since(ops: seq<Op>, t: nat): (i: nat)
    ensures i <= |ops|
    decreases |ops|
  {
    if ops == [] || t !in Ran(ops).0.latest then |ops| else Since(Init(ops), t)
  }

  ghost predicate InTurn(ops: seq<Op>, topics: seq<nat>) {
    forall i, j :: 0 <= i < j < |topics| ==> Since(ops, topics[i]) < Since(ops, topics[j])
  }

  lemma SinceStays(ops: seq<Op>, t: nat)
    requires ops != [] && t in Ran(ops).0.latest
    ensures Since(ops, t) == Since(Init(ops), t) <= |ops| - 1
    ensures t in Ran(Init(ops)).0.latest ==> Since(Init(ops), t) < |ops| - 1
    ensures t !in Ran(Init(ops)).0.latest ==> Since(Init(ops), t) == |ops| - 1
  {
    hide Ran;
    if Init(ops) == [] {
      NothingKept();
    }
  }

  lemma NothingKept()
    ensures Ran([]) == (Mailbox.EMPTY, [])
  {
  }

  /** The queue after one more operation: a suffix of the old one, or the old one with the topic just put. */
  lemma QueueMoves(ops: seq<Op>)
    requires ops != []
    ensures var before, after := Ran(Init(ops)).0, Ran(ops).0;
            || (exists k :: 0 <= k <= |before.dirty| && after.dirty == before.dirty[k..])
            || (Last(ops).Put? && Last(ops).topic !in before.dirty && after.dirty == before.dirty + [Last(ops).topic])
  {
    RunQueued(Init(ops));
    var m := Ran(Init(ops)).0;
    if Last(ops).Take? {
      var k := FlushServes(m, Last(ops).max);
      hide Payloads, Emptied;
      assert 0 <= k <= |m.dirty| && Ran(ops).0.dirty == m.dirty[k..];
    } else {
      assert m.dirty == m.dirty[0..];
    }
  }

  /** First come, first served: over every run, topics are queued in the order in which they last began to
      have something kept, however often it was replaced since. */
  lemma {:induction false} ServedInTurn(ops: seq<Op>)
    ensures Queued(Ran(ops).0) && InTurn(ops, Ran(ops).0.dirty)
    decreases |ops|
  {
    RunQueued(ops);
    if ops != [] {
      ServedInTurn(Init(ops));
      QueueMoves(ops);
      hide Ran, Since, Queued;
      KeptIsQueued(ops);
      KeptIsQueued(Init(ops));
      var before, after := Ran(Init(ops)).0.dirty, Ran(ops).0.dirty;
      if k :| 0 <= k <= |before| && after == before[k..] {
        TurnsLeft(ops, before, k);
      } else {
        TurnsMore(ops, before, Last(ops).topic);
      }
    }
  }

  lemma KeptIsQueued(ops: seq<Op>)
    requires Queued(Ran(ops).0)
    ensures forall t :: t in Ran(ops).0.latest <==> t in Ran(ops).0.dirty
  {
  }

  lemma TurnsLeft(ops: seq<Op>, before: seq<nat>, k: nat)
    requires ops != [] && k <= |before| && InTurn(Init(ops), before)
    requires forall t :: t in before[k..] ==> t in Ran(ops).0.latest
    ensures InTurn(ops, before[k..])
  {
    hide Ran, Since;
    var after := before[k..];
    forall i, j | 0 <= i < j < |after|
      ensures Since(ops, after[i]) < Since(ops, after[j])
    {
      SinceStays(ops, after[i]);
      SinceStays(ops, after[j]);
      assert after[i] == before[k + i] && after[j] == before[k + j];
    }
  }

  lemma TurnsMore(ops: seq<Op>, before: seq<nat>, t: nat)
    requires ops != [] && InTurn(Init(ops), before)
    requires forall u :: u in before + [t] ==> u in Ran(ops).0.latest
    requires forall u :: u in Ran(Init(ops)).0.latest <==> u in before
    requires t !in before
    ensures InTurn(ops, before + [t])
  {
    hide Ran, Since;
    var after := before + [t];
    forall i, j | 0 <= i < j < |after|
      ensures Since(ops, after[i]) < Since(ops, after[j])
    {
      assert after[i] in after && after[j] in after;
      SinceStays(ops, after[i]);
      SinceStays(ops, after[j]);
    }
  }

  // ---- closing ---------------------------------------------------------------------------------------

  /** The number of bytes kept. */
  ghost function BytesKept(m: Mail): nat {
    BytesIn(m.dirty, m.latest)
  }

  ghost function BytesIn(topics: seq<nat>, latest: map<nat, Payload>): nat {
    if topics == [] then 0
    else
      BytesIn(topics[1..], latest) +
      (if topics[0] in latest && latest[topics[0]].Bytes? then |latest[topics[0]].bytes| else 0)
  }

  lemma {:induction false} BytesAreHeld(topics: seq<nat>, latest: map<nat, Payload>)
    ensures BytesIn(topics, latest) == Held(topics, latest)
  {
    if topics != [] {
      BytesAreHeld(topics[1..], latest);
    }
  }

  ghost predicate Tallied(m: Mail) {
    Queued(m) && m.pending == BytesKept(m)
  }

  lemma PopTallies(m: Mail)
    requires Tallied(m) && m.dirty != []
    ensures Tallied(Popped(m)) && BytesKept(Popped(m)) <= BytesKept(m)
  {
    PoppedQueued(m);
    BytesAreHeld(m.dirty, m.latest);
    BytesAreHeld(m.dirty[1..], m.latest - {m.dirty[0]});
    HeldFirst(m.dirty, m.latest);
    HeldWithout(m.dirty[1..], m.latest, m.dirty[0]);
    hide Held, BytesIn, Queued;
  }

  lemma {:induction false} EmptyTallies(m: Mail, max: nat)
    requires Tallied(m)
    ensures Tallied(Emptied(m, max).0) && BytesKept(Emptied(m, max).0) <= BytesKept(m) && Emptied(m, max).0.closed == m.closed
    decreases |m.dirty|
  {
    hide Tallied, BytesKept;
    if m.dirty != [] && max > 0 {
      PopTallies(m);
      EmptyTallies(Popped(m), if Oldest(m).Nil? then max else max - 1);
    }
  }

  function Topics(dirty: seq<nat>): set<nat> {
    set t | t in dirty
  }

  lemma TalliedIs(m: Mail)
    ensures Tallied(m) <==> Consistent(m.latest, m.dirty, Topics(m.dirty), m.pending)
  {
    BytesAreHeld(m.dirty, m.latest);
    hide Held, BytesIn;
    assert m.latest.Keys == Topics(m.dirty) <==> forall t :: t in m.latest <==> t in m.dirty;
  }

  lemma PutTallies(m: Mail, t: nat, p: Payload)
    requires Tallied(m) && !m.closed
    ensures Tallied(Entered(m, t, p))
  {
    hide Tallied, Consistent, Weight, Topics;
    TalliedIs(m);
    TalliedIs(Entered(m, t, p));
    OneTopicMore(m.dirty, t);
    PutCounts(m.latest, m.dirty, Topics(m.dirty), m.pending, t, p);
  }

  lemma OneTopicMore(dirty: seq<nat>, t: nat)
    ensures Topics(dirty + [t]) == Topics(dirty) + {t} && (t in Topics(dirty) <==> t in dirty)
  {
  }

  /** At some moment of the run more than 256 KiB were kept. */
  ghost predicate Exceeded(ops: seq<Op>) {
    exists i :: 0 <= i <= |ops| && BytesKept(Ran(ops[..i]).0) > 262144
  }

  lemma ExceededStep(ops: seq<Op>)
    requires ops != []
    ensures Exceeded(ops) <==> Exceeded(Init(ops)) || BytesKept(Ran(ops).0) > 262144
  {
    hide Ran, BytesKept;
    assert ops[..|ops|] == ops;
    assert forall i :: 0 <= i <= |ops| - 1 ==> Init(ops)[..i] == ops[..i];
  }

  lemma OpTallies(m: Mail, op: Op)
    requires Tallied(m) && (BytesKept(m) > 262144 ==> m.closed)
    ensures var m' := if op.Take? then Emptied(m, op.max).0 else Entered(m, op.topic, op.payload);
            && Tallied(m') && (m.closed ==> m'.closed) && (BytesKept(m') > 262144 ==> m'.closed)
            && (m'.closed ==> m.closed || BytesKept(m') > 262144)
  {
    if op.Take? {
      EmptyTallies(m, op.max);
    } else if !m.closed {
      PutTallies(m, op.topic, op.payload);
    }
    hide BytesKept, Queued, Emptied;
  }

  /** The connection is closed exactly when at some moment it kept more than 256 KiB; from then on nothing
      enters. */
  lemma {:induction false} ClosedByLimit(ops: seq<Op>, t: nat, p: Payload)
    ensures Tallied(Ran(ops).0) && (BytesKept(Ran(ops).0) > 262144 ==> Ran(ops).0.closed)
    ensures Ran(ops).0.closed <==> Exceeded(ops)
    ensures Ran(ops).0.closed ==> Ran(ops + [Put(t, p)]) == Ran(ops)
    decreases |ops|
  {
    assert Init(ops + [Put(t, p)]) == ops;
    hide Exceeded, Tallied, BytesKept, Emptied;
    if ops != [] {
      ClosedByLimit(Init(ops), t, p);
      ExceededStep(ops);
      OpTallies(Ran(Init(ops)).0, Last(ops));
    } else {
      NothingYet();
    }
  }

  lemma NothingYet()
    ensures Ran([]) == (Mailbox.EMPTY, []) && Tallied(Mailbox.EMPTY) && BytesKept(Mailbox.EMPTY) == 0 && !Exceeded([])
  {
  }
}

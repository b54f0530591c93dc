/** The conflating mailbox of one websocket connection
    (deploy/wsdemo_steps/05_slow_client_backpressure/main.go, Conn.Enqueue and Conn.flush). */
module Mailbox {
  import opened Basics

  const MAX_PENDING_BYTES := 256 * 1024

  datatype Payload = Nil | Bytes(bytes: seq<int>)

  function Weight(p: Payload): nat {
    if p.Nil? then 0 else |p.bytes|
  }

  datatype Entry = Entry(topic: nat, payload: Payload)

  /** A delivery: which enqueue it hands on, and how many enqueues there had been by then. */
  datatype Delivery = Delivery(index: nat, seen: nat)

  /** The last enqueue of a topic, or -1. */
  function Newest(log: seq<Entry>, topic: nat): (k: int)
    ensures -1 <= k < |log|
    ensures k >= 0 ==> log[k].topic == topic
    ensures forall i :: k < i < |log| ==> log[i].topic != topic
    decreases |log|
  {
    if log == [] then -1
    else if log[|log| - 1].topic == topic then |log| - 1
    else Newest(log[..|log| - 1], topic)
  }

  lemma NewestOne(log: seq<Entry>, e: Entry, topic: nat)
    ensures Newest(log + [e], topic) == if e.topic == topic then |log| else Newest(log, topic)
  {
    assert (log + [e])[..|log|] == log;
  }

  /** Every delivery hands on the newest payload its topic had at that moment. */
  ghost predicate Fresh(log: seq<Entry>, sent: seq<Delivery>) {
    forall i :: 0 <= i < |sent| ==>
      && sent[i].index < sent[i].seen <= |log| && log[sent[i].index].payload.Bytes?
      && Newest(log[..sent[i].seen], log[sent[i].index].topic) == sent[i].index
  }

  /** Per topic the deliveries go forward through the enqueues: none twice, none out of order. */
  ghost predicate Forward(log: seq<Entry>, sent: seq<Delivery>) {
    forall i, j :: 0 <= i < j < |sent| && SameTopic(log, sent[i], sent[j]) ==> sent[i].index < sent[j].index
  }

  predicate SameTopic(log: seq<Entry>, a: Delivery, b: Delivery) {
    a.index < |log| && b.index < |log| && log[a.index].topic == log[b.index].topic
  }

  ghost predicate Sent(sent: seq<Delivery>, k: int) {
    exists i :: 0 <= i < |sent| && sent[i].index == k
  }

  /** Nothing of the topic is outstanding: its last enqueue was delivered, unless it carried no payload. */
  ghost predicate Settled(log: seq<Entry>, sent: seq<Delivery>, topic: nat) {
    var k := Newest(log, topic);
    k < 0 || log[k].payload.Nil? || Sent(sent, k)
  }

  /** The newest payload of the topic is outstanding. */
  ghost predicate Outstanding(log: seq<Entry>, sent: seq<Delivery>, topic: nat, p: Payload) {
    var k := Newest(log, topic);
    && k >= 0 && log[k].payload == p
    && forall i :: 0 <= i < |sent| && sent[i].index < |log| && log[sent[i].index].topic == topic ==> sent[i].index < k
  }

  /** Bytes held for some topics. */
  function Held(topics: seq<nat>, latest: map<nat, Payload>): nat {
    if topics == [] then 0
    else (if topics[0] in latest then Weight(latest[topics[0]]) else 0) + Held(topics[1..], latest)
  }

  lemma {:induction false} HeldUpdate(topics: seq<nat>, latest: map<nat, Payload>, t: nat, p: Payload)
    requires forall i, j :: 0 <= i < j < |topics| ==> topics[i] != topics[j]
    ensures Held(topics, latest[t := p]) ==
            Held(topics, latest) +
            if t in topics then Weight(p) - (if t in latest then Weight(latest[t]) else 0) else 0
  {
    if topics != [] {
      HeldUpdate(topics[1..], latest, t, p);
      assert t in topics <==> t == topics[0] || t in topics[1..];
    }
  }

  lemma {:induction false} HeldAppend(topics: seq<nat>, latest: map<nat, Payload>, t: nat)
    ensures Held(topics + [t], latest) == Held(topics, latest) + (if t in latest then Weight(latest[t]) else 0)
  {
    if topics != [] {
      HeldAppend(topics[1..], latest, t);
      assert (topics + [t])[1..] == topics[1..] + [t];
    }
  }

  lemma {:induction false} HeldWithout(topics: seq<nat>, latest: map<nat, Payload>, t: nat)
    requires t !in topics
    ensures Held(topics, latest - {t}) == Held(topics, latest)
  {
    if topics != [] {
      HeldWithout(topics[1..], latest, t);
    }
  }

  // ---- bookkeeping of deliveries -----------------------------------------------------------------

  lemma EnqueueKeeps(log: seq<Entry>, sent: seq<Delivery>, e: Entry)
    requires Fresh(log, sent) && Forward(log, sent)
    ensures Fresh(log + [e], sent) && Forward(log + [e], sent)
    ensures Outstanding(log + [e], sent, e.topic, e.payload)
    ensures forall t, p :: t != e.topic && Outstanding(log, sent, t, p) ==> Outstanding(log + [e], sent, t, p)
    ensures forall t :: t != e.topic && Settled(log, sent, t) ==> Settled(log + [e], sent, t)
  {
    forall i | 0 <= i < |sent|
      ensures (log + [e])[..sent[i].seen] == log[..sent[i].seen]
    {
    }
    forall t
      ensures Newest(log + [e], t) == if e.topic == t then |log| else Newest(log, t)
    {
      NewestOne(log, e, t);
    }
    hide Newest;
  }

  lemma DeliverKeeps(log: seq<Entry>, sent: seq<Delivery>, t: nat, p: Payload)
    requires Fresh(log, sent) && Forward(log, sent) && Outstanding(log, sent, t, p) && p.Bytes?
    ensures var sent' := sent + [Delivery(Newest(log, t), |log|)];
            && Fresh(log, sent') && Forward(log, sent') && Settled(log, sent', t)
            && (forall u, q :: u != t && Outstanding(log, sent, u, q) ==> Outstanding(log, sent', u, q))
            && (forall u :: Settled(log, sent, u) ==> Settled(log, sent', u))
  {
    var k := Newest(log, t);
    var sent' := sent + [Delivery(k, |log|)];
    assert log[..|log|] == log;
    assert sent'[|sent|].index == k;
    forall m | Sent(sent, m)
      ensures Sent(sent', m)
    {
      var i :| 0 <= i < |sent| && sent[i].index == m;
      assert sent'[i].index == m;
    }
    hide Newest;
    forall i | 0 <= i < |sent|
      ensures sent'[i] == sent[i] && sent[i].index < |log|
    {
    }
  }

  /** The queue of dirty topics has no repeats and holds exactly the topics with something kept;
      `pending` is the number of bytes kept. */
  ghost predicate Consistent(latest: map<nat, Payload>, dirty: seq<nat>, dirtySet: set<nat>, pending: int) {
    && (forall i, j :: 0 <= i < j < |dirty| ==> dirty[i] != dirty[j])
    && (forall t :: t in dirtySet <==> t in dirty)
    && latest.Keys == dirtySet
    && pending == Held(dirty, latest)
  }

  lemma NilWeighsNothing()
    ensures Weight(Nil) == 0
  {
  }

  function Kept(latest: map<nat, Payload>, t: nat): nat {
    if t in latest then Weight(latest[t]) else 0
  }

  lemma PutCounts(latest: map<nat, Payload>, dirty: seq<nat>, dirtySet: set<nat>, pending: int, t: nat, p: Payload)
    requires Consistent(latest, dirty, dirtySet, pending)
    ensures t in dirtySet <==> t in dirty
    ensures Consistent(latest[t := p], if t in dirtySet then dirty else dirty + [t],
                       if t in dirtySet then dirtySet else dirtySet + {t},
                       pending + Weight(p) - Kept(latest, t))
  {
    HeldUpdate(dirty, latest, t, p);
    HeldAppend(dirty, latest[t := p], t);
    hide Held;
  }

  lemma PopCounts(latest: map<nat, Payload>, dirty: seq<nat>, dirtySet: set<nat>, pending: int)
    requires Consistent(latest, dirty, dirtySet, pending) && dirty != []
    ensures dirty[0] in latest
    ensures Consistent(latest - {dirty[0]}, dirty[1..], dirtySet - {dirty[0]}, pending - Weight(latest[dirty[0]]))
  {
    var t := dirty[0];
    assert t in dirty;
    HeldFirst(dirty, latest);
    HeldWithout(dirty[1..], latest, t);
    hide Held;
    assert dirty == [t] + dirty[1..];
  }

  /** What is kept is outstanding, and nothing else is. */
  ghost predicate Tracks(log: seq<Entry>, sent: seq<Delivery>, latest: map<nat, Payload>) {
    && Fresh(log, sent) && Forward(log, sent)
    && (forall t :: t in latest ==> Outstanding(log, sent, t, latest[t]))
    && (forall t :: t !in latest ==> Settled(log, sent, t))
  }

  lemma PutTracks(log: seq<Entry>, sent: seq<Delivery>, latest: map<nat, Payload>, t: nat, p: Payload)
    requires Tracks(log, sent, latest)
    ensures Tracks(log + [Entry(t, p)], sent, latest[t := p])
  {
    EnqueueKeeps(log, sent, Entry(t, p));
    hide Fresh, Forward, Outstanding, Settled;
  }

  lemma PopTracks(log: seq<Entry>, sent: seq<Delivery>, latest: map<nat, Payload>, t: nat)
    requires Tracks(log, sent, latest) && t in latest
    ensures Newest(log, t) >= 0 && log[Newest(log, t)].payload == latest[t]
    ensures latest[t].Nil? ==> Tracks(log, sent, latest - {t})
    ensures latest[t].Bytes? ==> Tracks(log, sent + [Delivery(Newest(log, t), |log|)], latest - {t})
  {
    OutstandingIs(log, sent, t, latest[t]);
    if latest[t].Nil? {
      NilSettles(log, sent, t);
    } else {
      DeliverKeeps(log, sent, t, latest[t]);
    }
    hide Fresh, Forward, Outstanding, Settled, Newest;
  }

  // ---- the mailbox on values -------------------------------------------------------------------------

  datatype Mail = Mail(latest: map<nat, Payload>, dirty: seq<nat>, pending: int, closed: bool)

  const EMPTY := Mail(map[], [], 0, false)

  function Entered(m: Mail, id: nat, payload: Payload): Mail {
    if m.closed then m
    else
      var pending := m.pending + Weight(payload) - Kept(m.latest, id);
      Mail(m.latest[id := payload], if id in m.dirty then m.dirty else m.dirty + [id], pending, pending > MAX_PENDING_BYTES)
  }

  /** The mailbox without its oldest dirty topic. */
  function Popped(m: Mail): Mail
    requires m.dirty != []
  {
    m.(latest := m.latest - {m.dirty[0]}, dirty := m.dirty[1..], pending := m.pending - Kept(m.latest, m.dirty[0]))
  }

  function Oldest(m: Mail): Payload
    requires m.dirty != []
  {
    if m.dirty[0] in m.latest then m.latest[m.dirty[0]] else Nil
  }

  /** Up to `max` payloads in the order of the queue; a nil payload is thrown away and not counted. */
  function Emptied(m: Mail, max: nat): (Mail, seq<Payload>)
    decreases |m.dirty|
  {
    if m.dirty == [] || max == 0 then (m, [])
    else if Oldest(m).Nil? then Emptied(Popped(m), max)
    else
      var (m', batch) := Emptied(Popped(m), max - 1);
      (m', [Oldest(m)] + batch)
  }

  lemma EmptiedOnto(m: Mail, max: nat, batch: seq<Payload>)
    requires m.dirty != [] && max > 0
    ensures var (m', more) := Emptied(m, max);
            if Oldest(m).Nil? then (m', batch + more) == (Emptied(Popped(m), max).0, batch + Emptied(Popped(m), max).1)
            else (m', batch + more) ==
                 (Emptied(Popped(m), max - 1).0, (batch + [Oldest(m)]) + Emptied(Popped(m), max - 1).1)
  {
    if Oldest(m).Bytes? {
      var more := Emptied(Popped(m), max - 1).1;
      assert batch + ([Oldest(m)] + more) == (batch + [Oldest(m)]) + more;
    }
  }

  lemma EmptiedStops(m: Mail, max: nat, batch: seq<Payload>)
    requires m.dirty == [] || max == 0
    ensures Emptied(m, max) == (m, []) && batch + [] == batch
  {
  }

  class Conn {
    var latest: map<nat, Payload>
    var dirty: seq<nat>
    var dirtySet: set<nat>
    var pending: int
    var closed: bool
    var notified: bool

    ghost var log: seq<Entry>       // every payload taken in
    ghost var sent: seq<Delivery>   // every payload handed on

    ghost predicate Counted()
      reads this
    {
      Consistent(latest, dirty, dirtySet, pending)
    }

    ghost predicate Tracked()
      reads this
    {
      Tracks(log, sent, latest)
    }

    function View(): Mail
      reads this
    {
      Mail(latest, dirty, pending, closed)
    }

    constructor ()
      ensures Counted() && Tracked() && log == [] && sent == [] && View() == EMPTY
    {
      latest, dirty, dirtySet, pending, closed, notified, log, sent := map[], [], {}, 0, false, false, [], [];
    }

    /** Queues the topic unless it is queued. */
    method Mark(id: nat)
      modifies this`dirty, this`dirtySet
      ensures dirty == (if id in old(dirtySet) then old(dirty) else old(dirty) + [id])
      ensures dirtySet == (if id in old(dirtySet) then old(dirtySet) else old(dirtySet) + {id})
    {
      if id !in dirtySet {
        dirtySet := dirtySet + {id};
        dirty := dirty + [id];
      }
    }

    /** Replaces whatever the topic held. Too many bytes close the connection. */
    method Enqueue(id: nat, payload: Payload) returns (ok: bool)
      requires Counted() && Tracked()
      modifies this
      ensures Counted() && Tracked() && sent == old(sent) && View() == Entered(old(View()), id, payload)
      ensures log == if old(closed) then old(log) else old(log) + [Entry(id, payload)]
      ensures ok == !closed && (ok ==> notified)
    {
      hide Tracks, Consistent, Weight;
      if closed {
        return false;
      }
      PutCounts(latest, dirty, dirtySet, pending, id, payload);
      PutTracks(log, sent, latest, id, payload);
      NilWeighsNothing();
      var old' := if id in latest then latest[id] else Nil;
      latest := latest[id := payload];
      Mark(id);
      var delta: int := Weight(payload);
      if old'.Bytes? {
        delta := delta - Weight(old');
      }
      pending := pending + delta;
      log := log + [Entry(id, payload)];
      if pending > MAX_PENDING_BYTES {
        closed := true;
      } else {
        notified := true;
      }
      ok := !closed;
    }

    /** Takes the oldest dirty topic off the queue. */
    method PopOne() returns (p: Payload)
      requires Counted() && Tracked() && dirty != []
      modifies this
      ensures Counted() && Tracked() && log == old(log)
      ensures View() == Popped(old(View())) && p == Oldest(old(View()))
      ensures var k := Newest(log, old(dirty)[0]);
              && k >= 0 && p == log[k].payload
              && sent == if p.Nil? then old(sent) else old(sent) + [Delivery(k, |log|)]
    {
      hide Tracks, Consistent;
      PopCounts(latest, dirty, dirtySet, pending);
      PopTracks(log, sent, latest, dirty[0]);
      var id := dirty[0];
      dirty := dirty[1..];
      dirtySet := dirtySet - {id};
      p := latest[id];
      latest := latest - {id};
      if p.Nil? {
        return;
      }
      sent := sent + [Delivery(Newest(log, id), |log|)];
      pending := pending - Weight(p);
    }

    /** Hands on up to `max` payloads, oldest dirty topic first. */
    method Flush(max: nat) returns (batch: seq<Payload>)
      requires Counted() && Tracked()
      modifies this
      ensures Counted() && Tracked() && log == old(log) && old(sent) <= sent && closed == old(closed)
      ensures |batch| <= max && (|batch| == max || dirty == [])
      ensures (View(), batch) == Emptied(old(View()), max)
      ensures Delivers(log, sent[|old(sent)|..], batch)
    {
      hide Tracks, Consistent, Newest, Emptied, Popped, Oldest;
      batch := [];
      assert sent[|sent|..] == [];
      ghost var goal := Emptied(View(), max);
      assert [] + goal.1 == goal.1;
      while |dirty| > 0 && |batch| < max
        invariant Counted() && Tracked() && log == old(log) && old(sent) <= sent && closed == old(closed)
        invariant |batch| <= max
        invariant var (m, more) := Emptied(View(), max - |batch|); goal == (m, batch + more)
        invariant Delivers(log, sent[|old(sent)|..], batch)
        decreases |dirty|
      {
        ghost var before := sent;
        EmptiedOnto(View(), max - |batch|, batch);
        PoppedIs(View());
        var p := PopOne();
        if p.Nil? {
          continue;
        }
        DeliversMore(log, before[|old(sent)|..], batch, [Last(sent)], [p]);
        assert sent[|old(sent)|..] == before[|old(sent)|..] + [Last(sent)];
        batch := batch + [p];
      }
      EmptiedStops(View(), max - |batch|, batch);
    }
  }

  lemma PoppedIs(m: Mail)
    requires m.dirty != []
    ensures Popped(m).dirty == m.dirty[1..] && Popped(m).closed == m.closed
  {
  }

  lemma HeldFirst(topics: seq<nat>, latest: map<nat, Payload>)
    requires topics != []
    ensures Held(topics, latest) == (if topics[0] in latest then Weight(latest[topics[0]]) else 0) + Held(topics[1..], latest)
  {
  }

  lemma NilSettles(log: seq<Entry>, sent: seq<Delivery>, t: nat)
    requires Outstanding(log, sent, t, Nil)
    ensures Settled(log, sent, t)
  {
  }

  lemma OutstandingIs(log: seq<Entry>, sent: seq<Delivery>, t: nat, p: Payload)
    requires Outstanding(log, sent, t, p)
    ensures Newest(log, t) >= 0 && log[Newest(log, t)].payload == p
  {
  }

  // ---- a whole run -----------------------------------------------------------------------------

  datatype Op = Put(topic: nat, payload: Payload) | Take(max: nat)

  /** What was enqueued, in order. */
  function Puts(ops: seq<Op>): seq<Entry>
    decreases |ops|
  {
    if ops == [] then []
    else Puts(Init(ops)) + (if Last(ops).Put? then [Entry(Last(ops).topic, Last(ops).payload)] else [])
  }

  /** The mailbox after a run, and everything the flushes handed on. */
  function Ran(ops: seq<Op>): (Mail, seq<Payload>)
    decreases |ops|
  {
    if ops == [] then (EMPTY, [])
    else
      var (m, delivered) := Ran(Init(ops));
      match Last(ops)
      case Put(topic, payload) => (Entered(m, topic, payload), delivered)
      case Take(max) =>
        var (m', batch) := Emptied(m, max);
        (m', delivered + batch)
  }

  /** The connection took in everything enqueued up to the put that closed it. */
  ghost predicate TookIn(c: Conn, ops: seq<Op>)
    reads c
  {
    c.log <= Puts(ops) && (!c.closed ==> c.log == Puts(ops))
  }

  lemma OneMoreOp(ops: seq<Op>, i: nat)
    requires i < |ops|
    ensures Puts(ops[..i + 1]) == Puts(ops[..i]) + (if ops[i].Put? then [Entry(ops[i].topic, ops[i].payload)] else [])
    ensures Ran(ops[..i + 1]) ==
            var (m, delivered) := Ran(ops[..i]);
            if ops[i].Put? then (Entered(m, ops[i].topic, ops[i].payload), delivered)
            else (Emptied(m, ops[i].max).0, delivered + Emptied(m, ops[i].max).1)
  {
    assert Init(ops[..i + 1]) == ops[..i] && Last(ops[..i + 1]) == ops[i];
  }

  lemma NoOps(ops: seq<Op>)
    ensures Puts(ops[..0]) == [] && Ran(ops[..0]) == (EMPTY, []) && ops[..|ops|] == ops
  {
  }

  /** Over any run of enqueues and flushes: the mailbox and what it hands on are those of the run, and
      handed on is, topic by topic, a subsequence of what was enqueued, each time the newest there was;
      when the mailbox is drained every topic's last payload has been handed on. */
  method Session(ops: seq<Op>) returns (c: Conn, delivered: seq<Payload>)
    ensures (c.View(), delivered) == Ran(ops) && TookIn(c, ops)
    ensures c.Counted() && Fresh(c.log, c.sent) && Forward(c.log, c.sent)
    ensures Delivers(c.log, c.sent, delivered)
    ensures c.dirty == [] ==> forall t :: Settled(c.log, c.sent, t)
  {
    hide Tracks, Consistent, Delivers, Entered, Emptied, Puts, Ran;
    c := new Conn();
    delivered := [];
    NothingDelivered();
    NoOps(ops);
    for i := 0 to |ops|
      invariant fresh(c) && c.Counted() && c.Tracked() && Delivers(c.log, c.sent, delivered)
      invariant (c.View(), delivered) == Ran(ops[..i]) && TookIn(c, ops[..i])
    {
      OneMoreOp(ops, i);
      match ops[i] {
        case Put(topic, payload) =>
          ghost var log := c.log;
          EnteredCloses(c.View(), topic, payload);
          var ok := c.Enqueue(topic, payload);
          MoreTaken(log, c.log, c.sent, delivered);
        case Take(max) =>
          ghost var sent := c.sent;
          var batch := c.Flush(max);
          DeliversMore(c.log, sent, delivered, c.sent[|sent|..], batch);
          assert c.sent == sent + c.sent[|sent|..];
          delivered := delivered + batch;
      }
    }
    Drained(c);
  }

  lemma EnteredCloses(m: Mail, id: nat, payload: Payload)
    ensures m.closed ==> Entered(m, id, payload).closed
  {
  }

  /** The payloads handed on are those of the deliveries. */
  ghost predicate Delivers(log: seq<Entry>, sent: seq<Delivery>, delivered: seq<Payload>) {
    && |delivered| == |sent|
    && forall i :: 0 <= i < |sent| ==> sent[i].index < |log| && delivered[i] == log[sent[i].index].payload
  }

  lemma NothingDelivered()
    ensures Delivers([], [], [])
  {
  }

  lemma MoreTaken(log: seq<Entry>, log': seq<Entry>, sent: seq<Delivery>, delivered: seq<Payload>)
    requires Delivers(log, sent, delivered) && log <= log'
    ensures Delivers(log', sent, delivered)
  {
  }

  lemma DeliversMore(log: seq<Entry>, sent: seq<Delivery>, delivered: seq<Payload>, more: seq<Delivery>, batch: seq<Payload>)
    requires Delivers(log, sent, delivered) && Delivers(log, more, batch)
    ensures Delivers(log, sent + more, delivered + batch)
  {
  }

  lemma Drained(c: Conn)
    requires c.Counted() && c.Tracked()
    ensures Fresh(c.log, c.sent) && Forward(c.log, c.sent)
    ensures c.dirty == [] ==> forall t :: Settled(c.log, c.sent, t)
  {
    hide Fresh, Forward, Settled, Outstanding;
  }
}

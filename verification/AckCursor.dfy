/** The block pusher with contiguous acknowledgements (learn/eth/scan/handler3.go, util.go): the
    master, the push worker, the ack manager and the retry timers as interleaved steps, over any
    number of restarts. */
module AckCursor {

  const MAX_INT64 := 0x7FFF_FFFF_FFFF_FFFF

  datatype Job = Job(height: nat, attempt: nat)

  datatype Ack = Ack(job: Job, ok: bool)

  datatype Config = Config(batchSize: nat, maxRetries: nat)

  datatype Flush = Idle | Sending(ok: bool)

  datatype Pipe = Pipe(
    next: nat,             // master: next height to enqueue
    jobs: seq<Job>,        // bounded channel to the worker
    batch: seq<Job>,       // worker: collected, or still to be acknowledged
    flush: Flush,          // worker: the result of the push whose acks are being sent
    acks: seq<Ack>,        // bounded channel to the manager
    waiting: seq<Job>,     // failed jobs in their back-off
    pending: set<nat>,     // manager: acknowledged, ahead of their turn
    expected: nat,         // manager: first height not passed yet
    stopped: bool,         // manager: gave up, the cursor does not fit its column
    cursor: nat,           // persisted
    dropped: set<nat>,     // out of retries
    pushed: set<nat>)      // heights that some push wrote without error

  datatype Action =
    | Enqueue               // the master has fetched the next block
    | Take                  // the worker takes a job
    | Push(ok: bool)        // the batch is full or its timer fired
    | Reply                 // the worker sends one ack
    | Receive               // the manager takes an ack
    | Advance(stored: bool) // the manager tries to store the cursor
    | Retry(i: nat)         // a back-off ends
    | Restart               // crash, and start again from the stored cursor

  function Room(cfg: Config): nat {
    cfg.batchSize * 4
  }

  function Started(cursor: nat, pushed: set<nat>): Pipe {
    Pipe(cursor, [], [], Idle, [], [], {}, cursor, false, cursor, {}, pushed)
  }

  function Without<T>(s: seq<T>, i: nat): seq<T>
    requires i < |s|
  {
    s[..i] + s[i + 1..]
  }

  function HeightsOf(js: seq<Job>): set<nat> {
    set i | 0 <= i < |js| :: js[i].height
  }

  /** One step of one of the goroutines; an action that is not enabled changes nothing. */
  function Step(cfg: Config, s: Pipe, a: Action): Pipe {
    match a
    case Enqueue =>
      if |s.jobs| < Room(cfg) then s.(jobs := s.jobs + [Job(s.next, 0)], next := s.next + 1) else s
    case Take =>
      if s.jobs != [] && s.flush.Idle? && |s.batch| < cfg.batchSize
      then s.(batch := s.batch + [s.jobs[0]], jobs := s.jobs[1..]) else s
    case Push(ok) =>
      if s.batch != [] && s.flush.Idle?
      then s.(flush := Sending(ok), pushed := if ok then s.pushed + HeightsOf(s.batch) else s.pushed) else s
    case Reply =>
      if s.flush.Sending? && s.batch != [] && |s.acks| < Room(cfg)
      then s.(acks := s.acks + [Ack(s.batch[0], s.flush.ok)], batch := s.batch[1..],
              flush := if |s.batch| == 1 then Idle else s.flush)
      else s
    case Receive =>
      if s.acks == [] || s.stopped || s.expected in s.pending then s
      else
        var r, rest := s.acks[0], s.(acks := s.acks[1..]);
        if !r.ok then
          if cfg.maxRetries == 0 || r.job.attempt < cfg.maxRetries
          then rest.(waiting := s.waiting + [r.job.(attempt := r.job.attempt + 1)])
          else rest.(dropped := s.dropped + {r.job.height})
        else if r.job.height < s.expected then rest
        else rest.(pending := s.pending + {r.job.height})
    case Advance(stored) =>
      if s.stopped || s.expected !in s.pending then s
      else if s.expected + 1 > MAX_INT64 then s.(stopped := true)
      else if stored then s.(cursor := s.expected + 1, pending := s.pending - {s.expected}, expected := s.expected + 1)
      else s
    case Retry(i) =>
      if i < |s.waiting| && |s.jobs| < Room(cfg)
      then s.(jobs := s.jobs + [s.waiting[i]], waiting := Without(s.waiting, i)) else s
    case Restart => Started(s.cursor, s.pushed)
  }

  function Run(cfg: Config, start: nat, actions: seq<Action>): Pipe
    decreases |actions|
  {
    if actions == [] then Started(start, {})
    else Step(cfg, Run(cfg, start, actions[..|actions| - 1]), actions[|actions| - 1])
  }

  // ---- where a height is -----------------------------------------------------------------------

  function Jobs(js: seq<Job>, h: nat): nat
    decreases |js|
  {
    if js == [] then 0 else Jobs(js[..|js| - 1], h) + (if js[|js| - 1].height == h then 1 else 0)
  }

  function Replies(rs: seq<Ack>): seq<Job> {
    seq(|rs|, i requires 0 <= i < |rs| => rs[i].job)
  }

  function In(ps: set<nat>, h: nat): nat {
    if h in ps then 1 else 0
  }

  /** In how many places a height is: queue, batch, ack queue, back-off, pending, or given up. */
  function Places(s: Pipe, h: nat): nat {
    Jobs(s.jobs, h) + Jobs(s.batch, h) + Jobs(Replies(s.acks), h) + Jobs(s.waiting, h) + In(s.pending, h) + In(s.dropped, h)
  }

  lemma {:induction false} JobsAppend(a: seq<Job>, b: seq<Job>, h: nat)
    ensures Jobs(a + b, h) == Jobs(a, h) + Jobs(b, h)
    decreases |b|
  {
    if b == [] {
      assert a + b == a;
    } else {
      JobsAppend(a, b[..|b| - 1], h);
      assert (a + b)[..|a + b| - 1] == a + b[..|b| - 1];
    }
  }

  lemma JobsOne(j: Job, h: nat)
    ensures Jobs([j], h) == if j.height == h then 1 else 0
  {
    assert [j][..0] == [];
  }

  lemma JobsMore(js: seq<Job>, j: Job, h: nat)
    ensures Jobs(js + [j], h) == Jobs(js, h) + (if j.height == h then 1 else 0)
  {
    JobsAppend(js, [j], h);
    JobsOne(j, h);
  }

  lemma JobsFirst(js: seq<Job>, h: nat)
    requires js != []
    ensures Jobs(js, h) == (if js[0].height == h then 1 else 0) + Jobs(js[1..], h)
  {
    JobsAppend([js[0]], js[1..], h);
    JobsOne(js[0], h);
    assert js == [js[0]] + js[1..];
  }

  lemma JobsWithout(js: seq<Job>, i: nat, h: nat)
    requires i < |js|
    ensures Jobs(js, h) == Jobs(Without(js, i), h) + (if js[i].height == h then 1 else 0)
  {
    JobsAppend(js[..i], js[i..], h);
    JobsFirst(js[i..], h);
    JobsAppend(js[..i], js[i + 1..], h);
    assert js == js[..i] + js[i..] && js[i..][1..] == js[i + 1..];
  }

  lemma ManyJobs(js: seq<Job>, i: nat)
    requires i < |js|
    ensures Jobs(js, js[i].height) >= 1
  {
    JobsWithout(js, i, js[i].height);
  }

  // ---- the invariants --------------------------------------------------------------------------

  /** Every height enqueued and not passed is in exactly one place, every other in none. */
  ghost predicate Partitioned(s: Pipe) {
    forall h: nat :: Places(s, h) == if s.expected <= h < s.next then 1 else 0
  }

  /** Nothing counts as acknowledged that was not pushed; everything passed was. */
  ghost predicate Acknowledged(s: Pipe, origin: nat) {
    && origin <= s.cursor == s.expected
    && (forall h :: origin <= h < s.cursor ==> h in s.pushed)
    && (forall i :: 0 <= i < |s.acks| && s.acks[i].ok ==> s.acks[i].job.height in s.pushed)
    && (s.flush == Sending(true) ==> HeightsOf(s.batch) <= s.pushed)
    && s.pending <= s.pushed
  }

  lemma {:induction false} NoJobs(js: seq<Job>, h: nat)
    requires js == []
    ensures Jobs(js, h) == 0
  {
  }

  /** How a step moves one height about. */
  lemma StepMoves(cfg: Config, s: Pipe, a: Action, h: nat)
    requires !a.Restart? && Partitioned(s)
    ensures var s' := Step(cfg, s, a);
            Places(s', h) == Places(s, h)
                             + (if s'.next > s.next && h == s.next then 1 else 0)
                             - (if s'.expected > s.expected && h == s.expected then 1 else 0)
  {
    hide Jobs;
    match a
    case Enqueue =>
      JobsMore(s.jobs, Job(s.next, 0), h);
    case Take =>
      if s.jobs != [] {
        JobsFirst(s.jobs, h);
        JobsMore(s.batch, s.jobs[0], h);
      }
    case Push(ok) =>
    case Reply =>
      if s.batch != [] {
        JobsFirst(s.batch, h);
        if s.flush.Sending? {
          assert Replies(s.acks + [Ack(s.batch[0], s.flush.ok)]) == Replies(s.acks) + [s.batch[0]];
        }
        JobsMore(Replies(s.acks), s.batch[0], h);
      }
    case Receive =>
      if s.acks != [] {
        ReceiveMoves(cfg, s, h);
      }
    case Advance(stored) =>
    case Retry(i) =>
      if i < |s.waiting| {
        JobsWithout(s.waiting, i, h);
        JobsMore(s.jobs, s.waiting[i], h);
      }
    case Restart =>
  }

  lemma ReceiveMoves(cfg: Config, s: Pipe, h: nat)
    requires s.acks != [] && Partitioned(s)
    ensures Places(Step(cfg, s, Receive), h) == Places(s, h)
  {
    var j := s.acks[0].job;
    assert Replies(s.acks[1..]) == Replies(s.acks)[1..];
    JobsFirst(Replies(s.acks), h);
    JobsMore(s.waiting, j.(attempt := j.attempt + 1), h);
    ManyJobs(Replies(s.acks), 0);
    hide Jobs;
    assert Places(s, j.height) == 1;
  }

  /** Partition: after any step each height is again in exactly its one place. */
  lemma StepPartitions(cfg: Config, s: Pipe, a: Action)
    requires Partitioned(s) && (a.Restart? || s.expected <= s.next)
    requires s.expected < s.next || s.expected !in s.pending
    ensures Partitioned(Step(cfg, s, a))
  {
    var s' := Step(cfg, s, a);
    if a.Restart? {
      forall h: nat
        ensures Places(s', h) == 0
      {
        NoJobs(s'.jobs, h);
      }
    } else {
      forall h: nat
        ensures Places(s', h) == if s'.expected <= h < s'.next then 1 else 0
      {
        StepMoves(cfg, s, a, h);
        hide Places;
      }
    }
  }

  lemma PendingEnqueued(s: Pipe)
    requires Partitioned(s)
    ensures s.expected in s.pending ==> s.expected < s.next
    ensures forall h :: h in s.pending ==> s.expected <= h < s.next
  {
    hide Jobs;
    assert forall h :: h in s.pending ==> Places(s, h) >= 1;
  }

  lemma StepAcknowledges(cfg: Config, s: Pipe, a: Action, origin: nat)
    requires Acknowledged(s, origin)
    ensures Acknowledged(Step(cfg, s, a), origin)
  {
    match a
    case Push(ok) =>
    case Reply =>
      if s.flush.Sending? && s.batch != [] && |s.acks| < Room(cfg) {
        assert s.batch[0].height in HeightsOf(s.batch);
        assert HeightsOf(s.batch[1..]) <= HeightsOf(s.batch) by {
          forall i | 0 <= i < |s.batch| - 1
            ensures s.batch[1..][i].height in HeightsOf(s.batch)
          {
            assert s.batch[i + 1].height in HeightsOf(s.batch);
          }
        }
      }
    case Take =>
    case _ =>
  }

  ghost predicate Sound(cfg: Config, s: Pipe, origin: nat) {
    && Partitioned(s) && Acknowledged(s, origin) && s.expected <= s.next
    && (cfg.maxRetries == 0 ==> s.dropped == {})
    && |s.jobs| <= 4 * cfg.batchSize && |s.acks| <= 4 * cfg.batchSize && |s.batch| <= cfg.batchSize
    && (s.flush.Sending? ==> s.batch != [])
    && (origin <= MAX_INT64 ==> s.cursor <= MAX_INT64)
  }

  lemma StartsSound(cfg: Config, start: nat)
    ensures Sound(cfg, Started(start, {}), start)
  {
    forall h: nat
      ensures Places(Started(start, {}), h) == 0
    {
      NoJobs([], h);
    }
  }

  lemma StepSound(cfg: Config, s: Pipe, a: Action, origin: nat)
    requires Sound(cfg, s, origin)
    ensures Sound(cfg, Step(cfg, s, a), origin)
    ensures s.cursor <= Step(cfg, s, a).cursor && s.pushed <= Step(cfg, s, a).pushed
  {
    PendingEnqueued(s);
    StepPartitions(cfg, s, a);
    StepAcknowledges(cfg, s, a, origin);
    hide Partitioned, Acknowledged, HeightsOf;
  }

  /** Under every interleaving of enqueues, batches, failures, retries and restarts, in every reachable
      state: each height enqueued since the last restart and not passed is in exactly one place; a
      cursor c means that every height from the very start up to c was pushed without error; with unlimited
      retries nothing is ever dropped; and no queue exceeds its room. */
  lemma {:induction false} EveryRun(cfg: Config, start: nat, actions: seq<Action>)
    ensures Sound(cfg, Run(cfg, start, actions), start)
    decreases |actions|
  {
    hide Sound, Step;
    if actions == [] {
      StartsSound(cfg, start);
    } else {
      EveryRun(cfg, start, actions[..|actions| - 1]);
      StepSound(cfg, Run(cfg, start, actions[..|actions| - 1]), actions[|actions| - 1], start);
    }
  }

  /** The stored cursor never goes back, also not over restarts. */
  lemma {:induction false} CursorMonotone(cfg: Config, start: nat, actions: seq<Action>, k: nat)
    requires k <= |actions|
    ensures Run(cfg, start, actions[..k]).cursor <= Run(cfg, start, actions).cursor
    decreases |actions|
  {
    if k == |actions| {
      assert actions[..k] == actions;
    } else {
      hide Sound, Step;
      var before := actions[..|actions| - 1];
      CursorMonotone(cfg, start, before, k);
      assert before[..k] == actions[..k];
      EveryRun(cfg, start, before);
      StepSound(cfg, Run(cfg, start, before), actions[|actions| - 1], start);
    }
  }

  // ---- retries ---------------------------------------------------------------------------------------

  /** The manager took a failed ack for this height off its queue. */
  ghost predicate FailedNow(s: Pipe, a: Action, s': Pipe, h: nat) {
    a.Receive? && s.acks != [] && s'.acks == s.acks[1..] && !s.acks[0].ok && s.acks[0].job.height == h
  }

  /** How many failed acks the manager received for a height. */
  ghost function Failed(cfg: Config, start: nat, actions: seq<Action>, h: nat): nat
    decreases |actions|
  {
    if actions == [] then 0
    else
      var before, a := actions[..|actions| - 1], actions[|actions| - 1];
      var s := Run(cfg, start, before);
      Failed(cfg, start, before, h) + (if FailedNow(s, a, Step(cfg, s, a), h) then 1 else 0)
  }

  ghost predicate Steady(actions: seq<Action>) {
    forall i :: 0 <= i < |actions| ==> !actions[i].Restart?
  }

  /** Everything that is still on its way. */
  ghost predicate InPipe(s: Pipe, j: Job) {
    j in s.jobs || j in s.batch || j in Replies(s.acks) || j in s.waiting
  }

  /** Attempts are counted right, within the limit; a height is given up by its first failure too many. */
  ghost predicate Retried(cfg: Config, s: Pipe, failed: nat -> nat) {
    && (forall j :: InPipe(s, j) ==> j.attempt == failed(j.height))
    && (forall h :: h in s.dropped <==> cfg.maxRetries > 0 && failed(h) == cfg.maxRetries + 1)
    && (forall h :: cfg.maxRetries > 0 ==> failed(h) <= cfg.maxRetries + 1)
    && (forall h :: h >= s.next ==> failed(h) == 0)
  }

  lemma {:induction false} JobsIn(js: seq<Job>, h: nat)
    ensures Jobs(js, h) > 0 <==> exists j :: j in js && j.height == h
    decreases |js|
  {
    if js != [] {
      JobsIn(js[..|js| - 1], h);
      assert js == js[..|js| - 1] + [js[|js| - 1]];
    }
  }

  /** A height on its way was enqueued, and is not given up. */
  lemma PipeEnqueued(s: Pipe, j: Job)
    requires Partitioned(s) && InPipe(s, j)
    ensures s.expected <= j.height < s.next && j.height !in s.dropped
  {
    JobsIn(s.jobs, j.height);
    JobsIn(s.batch, j.height);
    JobsIn(Replies(s.acks), j.height);
    JobsIn(s.waiting, j.height);
    hide Jobs;
    assert Places(s, j.height) > 0;
  }

  /** The first ack's height is nowhere else. */
  lemma FirstAckAlone(s: Pipe)
    requires Partitioned(s) && s.acks != []
    ensures var h := s.acks[0].job.height;
            && InPipe(s, s.acks[0].job)
            && forall j :: j in s.jobs || j in s.batch || j in Replies(s.acks[1..]) || j in s.waiting ==> j.height != h
  {
    var h := s.acks[0].job.height;
    assert Replies(s.acks)[0] == s.acks[0].job && Replies(s.acks)[1..] == Replies(s.acks[1..]);
    assert Replies(s.acks)[0] in Replies(s.acks);
    PipeEnqueued(s, s.acks[0].job);
    JobsFirst(Replies(s.acks), h);
    JobsIn(s.jobs, h);
    JobsIn(s.batch, h);
    JobsIn(Replies(s.acks[1..]), h);
    JobsIn(s.waiting, h);
    hide Jobs;
    assert Places(s, h) == 1;
  }

  lemma ReceiveRetries(cfg: Config, s: Pipe, failed: nat -> nat, failed': nat -> nat)
    requires Partitioned(s) && Retried(cfg, s, failed) && s.acks != [] && !s.stopped && s.expected !in s.pending
    requires forall h: nat :: failed'(h) == failed(h) + (if !s.acks[0].ok && s.acks[0].job.height == h then 1 else 0)
    ensures Retried(cfg, Step(cfg, s, Receive), failed')
  {
    FirstAckAlone(s);
    PipeEnqueued(s, s.acks[0].job);
    var s' := Step(cfg, s, Receive);
    assert Replies(s'.acks) == Replies(s.acks)[1..];
    forall j | InPipe(s', j)
      ensures j.attempt == failed'(j.height)
    {
      if j in Replies(s.acks)[1..] {
        assert j in Replies(s.acks);
      }
    }
  }

  lemma StepRetries(cfg: Config, s: Pipe, a: Action, failed: nat -> nat, failed': nat -> nat)
    requires Partitioned(s) && Retried(cfg, s, failed) && !a.Restart?
    requires forall h: nat :: failed'(h) == failed(h) + (if FailedNow(s, a, Step(cfg, s, a), h) then 1 else 0)
    ensures Retried(cfg, Step(cfg, s, a), failed')
  {
    var s' := Step(cfg, s, a);
    if a.Receive? {
      if s.acks != [] && !s.stopped && s.expected !in s.pending {
        ReceiveRetries(cfg, s, failed, failed');
      } else {
        assert s.acks != [] ==> |s.acks| != |s.acks[1..]|;
      }
    } else {
      forall j | InPipe(s', j)
        ensures InPipe(s, j) || j == Job(s.next, 0)
      {
        if a.Reply? && s.batch != [] && s.flush.Sending? {
          assert Replies(s.acks + [Ack(s.batch[0], s.flush.ok)]) == Replies(s.acks) + [s.batch[0]];
        }
      }
    }
  }

  /** Over every run without restart: the attempt of each job on its way is the number of failed acks received
      for its height, at most the limit if there is one; and a height is given up exactly when there is a
      limit and one failure more than it was received. */
  lemma {:induction false} RetriesCounted(cfg: Config, start: nat, actions: seq<Action>)
    requires Steady(actions)
    ensures Retried(cfg, Run(cfg, start, actions), h => Failed(cfg, start, actions, h))
    ensures forall j :: InPipe(Run(cfg, start, actions), j) && cfg.maxRetries > 0 ==> j.attempt <= cfg.maxRetries
    decreases |actions|
  {
    hide Sound, Partitioned, Step, Places;
    if actions != [] {
      var before, a := actions[..|actions| - 1], actions[|actions| - 1];
      RetriesCounted(cfg, start, before);
      EveryRun(cfg, start, before);
      SoundParts(cfg, Run(cfg, start, before), start);
      hide Retried, FailedNow;
      StepRetries(cfg, Run(cfg, start, before), a, h => Failed(cfg, start, before, h), h => Failed(cfg, start, actions, h));
    } else {
      NothingTried(cfg, start);
    }
    EveryRun(cfg, start, actions);
    SoundParts(cfg, Run(cfg, start, actions), start);
    WithinLimit(cfg, Run(cfg, start, actions), h => Failed(cfg, start, actions, h));
  }

  lemma NothingTried(cfg: Config, start: nat)
    ensures Retried(cfg, Started(start, {}), h => Failed(cfg, start, [], h))
  {
  }

  lemma WithinLimit(cfg: Config, s: Pipe, failed: nat -> nat)
    requires Partitioned(s) && Retried(cfg, s, failed)
    ensures forall j :: InPipe(s, j) && cfg.maxRetries > 0 ==> j.attempt <= cfg.maxRetries
  {
    forall j | InPipe(s, j) && cfg.maxRetries > 0
      ensures j.attempt <= cfg.maxRetries
    {
      PipeEnqueued(s, j);
    }
  }

  lemma SoundParts(cfg: Config, s: Pipe, origin: nat)
    requires Sound(cfg, s, origin)
    ensures Partitioned(s) && Acknowledged(s, origin) && s.expected <= s.next && s.cursor == s.expected
  {
  }

  // ---- the goroutines ----------------------------------------------------------------------------

  function Many(cfg: Config, s: Pipe, actions: seq<Action>): Pipe
    decreases |actions|
  {
    if actions == [] then s else Step(cfg, Many(cfg, s, actions[..|actions| - 1]), actions[|actions| - 1])
  }

  /** How often storing the cursor failed. */
  ghost function Failures(actions: seq<Action>): nat
    decreases |actions|
  {
    if actions == [] then 0
    else Failures(actions[..|actions| - 1]) + (if actions[|actions| - 1] == Advance(false) then 1 else 0)
  }

  function Tries(stores: seq<bool>): seq<Action> {
    seq(|stores|, i requires 0 <= i < |stores| => Advance(stores[i]))
  }

  lemma TriesMore(stores: seq<bool>, k: nat)
    requires k < |stores|
    ensures Tries(stores[..k + 1]) == Tries(stores[..k]) + [Advance(stores[k])]
  {
  }

  lemma OneFailure(actions: seq<Action>, a: Action)
    ensures Failures(actions + [a]) == Failures(actions) + (if a == Advance(false) then 1 else 0)
  {
    assert (actions + [a])[..|actions|] == actions;
  }

  lemma NoSteps(cfg: Config, s: Pipe)
    ensures Many(cfg, s, []) == s
  {
  }

  lemma OneMore(cfg: Config, s: Pipe, actions: seq<Action>, a: Action)
    ensures Many(cfg, s, actions + [a]) == Step(cfg, Many(cfg, s, actions), a)
  {
    assert (actions + [a])[..|actions|] == actions;
  }

  lemma {:induction false} ManySound(cfg: Config, s: Pipe, actions: seq<Action>, origin: nat)
    requires Sound(cfg, s, origin)
    ensures Sound(cfg, Many(cfg, s, actions), origin)
    decreases |actions|
  {
    hide Sound, Step;
    if actions != [] {
      ManySound(cfg, s, actions[..|actions| - 1], origin);
      StepSound(cfg, Many(cfg, s, actions[..|actions| - 1]), actions[|actions| - 1], origin);
    }
  }

  // ---- progress ----------------------------------------------------------------------------------

  /** A height that can not be passed without a restart: given up, or its last failure is on its way. */
  ghost predicate Lost(cfg: Config, s: Pipe, h: nat) {
    || h in s.dropped
    || (cfg.maxRetries > 0 && exists i :: 0 <= i < |s.acks| && HopelessAck(cfg, s.acks[i], h))
    || (cfg.maxRetries > 0 && s.flush == Sending(false) && exists i :: 0 <= i < |s.batch| && Hopeless(cfg, s.batch[i], h))
  }

  ghost predicate HopelessAck(cfg: Config, r: Ack, h: nat) {
    !r.ok && Hopeless(cfg, r.job, h)
  }

  ghost predicate Hopeless(cfg: Config, j: Job, h: nat) {
    j.height == h && j.attempt >= cfg.maxRetries
  }

  lemma LostInPlace(cfg: Config, s: Pipe, h: nat)
    requires Partitioned(s) && Lost(cfg, s, h)
    ensures s.expected <= h < s.next
  {
    if h in s.dropped {
      assert Places(s, h) > 0;
    } else if exists i :: 0 <= i < |s.acks| && HopelessAck(cfg, s.acks[i], h) {
      var i :| 0 <= i < |s.acks| && HopelessAck(cfg, s.acks[i], h);
      ManyJobs(Replies(s.acks), i);
      hide Jobs;
      assert Places(s, h) > 0;
    } else {
      var i :| 0 <= i < |s.batch| && Hopeless(cfg, s.batch[i], h);
      ManyJobs(s.batch, i);
      hide Jobs;
      assert Places(s, h) > 0;
    }
  }

  lemma StepStaysLost(cfg: Config, s: Pipe, a: Action, h: nat)
    requires Lost(cfg, s, h) && !a.Restart?
    ensures Lost(cfg, Step(cfg, s, a), h)
  {
    var s' := Step(cfg, s, a);
    if h !in s.dropped {
      if exists i :: 0 <= i < |s.acks| && HopelessAck(cfg, s.acks[i], h) {
        var i :| 0 <= i < |s.acks| && HopelessAck(cfg, s.acks[i], h);
        if s'.acks == s.acks[1..] {
          if i > 0 {
            assert s'.acks[i - 1] == s.acks[i];
          }
        } else {
          assert s'.acks[i] == s.acks[i];
        }
      } else {
        var i :| 0 <= i < |s.batch| && Hopeless(cfg, s.batch[i], h);
        if a.Reply? && |s.acks| < Room(cfg) {
          if i == 0 {
            assert HopelessAck(cfg, s'.acks[|s.acks|], h);
          } else {
            assert s'.batch[i - 1] == s.batch[i];
          }
        } else {
          assert s'.batch[i] == s.batch[i];
        }
      }
    }
  }

  /** While a height is lost the cursor stays at or before it. */
  lemma {:induction false} LostHolds(cfg: Config, s: Pipe, actions: seq<Action>, h: nat, origin: nat)
    requires Sound(cfg, s, origin) && Lost(cfg, s, h) && Steady(actions)
    ensures Lost(cfg, Many(cfg, s, actions), h) && Many(cfg, s, actions).cursor <= h
    decreases |actions|
  {
    hide Sound, Step, Lost;
    if actions != [] {
      var before := actions[..|actions| - 1];
      LostHolds(cfg, s, before, h, origin);
      StepStaysLost(cfg, Many(cfg, s, before), actions[|actions| - 1], h);
    }
    ManySound(cfg, s, actions, origin);
    SoundParts(cfg, Many(cfg, s, actions), origin);
    LostInPlace(cfg, Many(cfg, s, actions), h);
  }

  function AckWork(acks: seq<Ack>): nat
    decreases |acks|
  {
    if acks == [] then 0 else AckWork(acks[1..]) + (if acks[0].ok then 2 else 7)
  }

  /** Steps, at most, until everything on its way has been passed. */
  function Work(s: Pipe): nat {
    |s.pending| + AckWork(s.acks) + 6 * |s.waiting| + 5 * |s.jobs| +
    (match s.flush case Idle => 4 case Sending(ok) => if ok then 3 else 8) * |s.batch|
  }

  lemma {:induction false} AckWorkMore(acks: seq<Ack>, r: Ack)
    ensures AckWork(acks + [r]) == AckWork(acks) + (if r.ok then 2 else 7)
    decreases |acks|
  {
    if acks == [] {
      assert [r][1..] == [];
    } else {
      AckWorkMore(acks[1..], r);
      assert (acks + [r])[1..] == acks[1..] + [r];
    }
  }

  /** The next thing to do. */
  function Turn(s: Pipe): Action {
    if s.expected in s.pending then Advance(true)
    else if s.acks != [] then Receive
    else if s.flush.Sending? then Reply
    else if s.batch != [] then Push(true)
    else if s.jobs != [] then Take
    else Retry(0)
  }

  lemma TurnWorks(cfg: Config, s: Pipe, origin: nat)
    requires Sound(cfg, s, origin) && cfg.batchSize > 0 && !s.stopped && s.next <= MAX_INT64
    requires s.expected < s.next && forall h :: !Lost(cfg, s, h)
    ensures var s' := Step(cfg, s, Turn(s)); Work(s') < Work(s) && s'.next == s.next && !s'.stopped
  {
    PendingEnqueued(s);
    NoneDropped(cfg, s);
    hide Partitioned, Acknowledged, Lost, Places;
    SomethingThere(s);
    TurnShrinks(cfg, s);
  }

  lemma NoneDropped(cfg: Config, s: Pipe)
    requires forall h :: !Lost(cfg, s, h)
    ensures s.dropped == {}
  {
    assert forall h :: h in s.dropped ==> Lost(cfg, s, h);
  }

  lemma TurnShrinks(cfg: Config, s: Pipe)
    requires cfg.batchSize > 0 && !s.stopped && s.expected < s.next <= MAX_INT64 && (s.flush.Sending? ==> s.batch != [])
    requires s.expected in s.pending || s.acks != [] || s.batch != [] || s.jobs != [] || s.waiting != []
    ensures var s' := Step(cfg, s, Turn(s)); Work(s') < Work(s) && s'.next == s.next && !s'.stopped
  {
    if s.expected !in s.pending && s.acks == [] && s.flush.Sending? {
      AckWorkMore(s.acks, Ack(s.batch[0], s.flush.ok));
    }
  }

  /** Something is to be done as long as a height is not passed and none is given up. */
  lemma SomethingThere(s: Pipe)
    requires Partitioned(s) && s.expected < s.next && s.dropped == {}
    ensures s.expected in s.pending || s.acks != [] || s.batch != [] || s.jobs != [] || s.waiting != []
  {
    assert Places(s, s.expected) == 1;
  }

  lemma TurnLosesNothing(cfg: Config, s: Pipe)
    requires forall h :: !Lost(cfg, s, h)
    ensures forall h :: !Lost(cfg, Step(cfg, s, Turn(s)), h)
  {
    var s' := Step(cfg, s, Turn(s));
    forall h
      ensures !Lost(cfg, s', h)
    {
      assert !Lost(cfg, s, h);
      match Turn(s)
      case Receive =>
        if s.acks != [] {
          var first := s.acks[0].job.height;
          assert HopelessAck(cfg, s.acks[0], first) ==> cfg.maxRetries == 0 || Lost(cfg, s, first);
          assert forall i :: 0 <= i < |s.acks| - 1 ==> s.acks[1..][i] == s.acks[i + 1];
        }
      case Reply =>
        if s.batch != [] {
          assert s.flush == Sending(false) ==> (Hopeless(cfg, s.batch[0], h) ==> cfg.maxRetries == 0);
          assert forall i :: 0 <= i < |s.batch| - 1 ==> s.batch[1..][i] == s.batch[i + 1];
        }
      case _ =>
    }
  }

  lemma {:induction false} ManyFirst(cfg: Config, s: Pipe, a: Action, rest: seq<Action>)
    ensures Many(cfg, s, [a] + rest) == Many(cfg, Step(cfg, s, a), rest)
    decreases |rest|
  {
    hide Step;
    var all := [a] + rest;
    if rest == [] {
      assert all[..0] == [];
    } else {
      ManyFirst(cfg, s, a, rest[..|rest| - 1]);
      assert all[..|all| - 1] == [a] + rest[..|rest| - 1];
    }
  }

  /** No restart, and nothing new from the master. */
  ghost predicate Draining(actions: seq<Action>) {
    forall i :: 0 <= i < |actions| ==> !actions[i].Restart? && !actions[i].Enqueue?
  }

  lemma Drains(cfg: Config, s: Pipe, origin: nat) returns (actions: seq<Action>)
    requires Sound(cfg, s, origin) && cfg.batchSize > 0 && !s.stopped && s.next <= MAX_INT64
    requires forall h :: !Lost(cfg, s, h)
    ensures Draining(actions) && Many(cfg, s, actions).cursor == s.next
    decreases Work(s)
  {
    hide Sound, Step, Lost, Work;
    SoundParts(cfg, s, origin);
    if s.expected == s.next {
      actions := [];
    } else {
      TurnWorks(cfg, s, origin);
      TurnLosesNothing(cfg, s);
      StepSound(cfg, s, Turn(s), origin);
      var rest := Drains(cfg, Step(cfg, s, Turn(s)), origin);
      ManyFirst(cfg, s, Turn(s), rest);
      actions := [Turn(s)] + rest;
    }
  }

  lemma {:induction false} DrainingKeepsNext(cfg: Config, s: Pipe, actions: seq<Action>)
    requires Draining(actions)
    ensures Many(cfg, s, actions).next == s.next && Steady(actions)
    decreases |actions|
  {
    if actions != [] {
      DrainingKeepsNext(cfg, s, actions[..|actions| - 1]);
    }
  }

  /** Progress: in every reachable state of a manager that has not given up, everything enqueued can still be
      passed without a restart if and only if no height is given up or has its last failure on its way. */
  lemma PassableIff(cfg: Config, start: nat, actions: seq<Action>)
    requires cfg.batchSize > 0 && !Run(cfg, start, actions).stopped && Run(cfg, start, actions).next <= MAX_INT64
    ensures var s := Run(cfg, start, actions);
            (exists more :: Draining(more) && Many(cfg, s, more).cursor == s.next) <==> forall h :: !Lost(cfg, s, h)
  {
    var s := Run(cfg, start, actions);
    EveryRun(cfg, start, actions);
    hide Sound, Step, Lost, Many, Run;
    if forall h :: !Lost(cfg, s, h) {
      var more := Drains(cfg, s, start);
      assert Draining(more) && Many(cfg, s, more).cursor == s.next;
    }
    if exists more :: Draining(more) && Many(cfg, s, more).cursor == s.next {
      var more :| Draining(more) && Many(cfg, s, more).cursor == s.next;
      forall h
        ensures !Lost(cfg, s, h)
      {
        if Lost(cfg, s, h) {
          DrainingKeepsNext(cfg, s, more);
          LostHolds(cfg, s, more, h, start);
          SoundParts(cfg, s, start);
          LostInPlace(cfg, s, h);
        }
      }
    }
  }

  class Handler3 {
    const cfg: Config
    var next: nat
    var jobCh: seq<Job>
    var batch: seq<Job>
    var flush: Flush
    var ackCh: seq<Ack>
    var waiting: seq<Job>
    var pending: set<nat>
    var expected: nat
    var stopped: bool
    var cursor: nat
    var dropped: set<nat>
    var pushed: set<nat>

    function View(): Pipe
      reads this
    {
      Pipe(next, jobCh, batch, flush, ackCh, waiting, pending, expected, stopped, cursor, dropped, pushed)
    }

    /** Master and manager both begin at the stored cursor. */
    constructor (cfg: Config, cursor: nat)
      ensures this.cfg == cfg && View() == Started(cursor, {})
    {
      this.cfg, this.cursor, next, expected := cfg, cursor, cursor, cursor;
      jobCh, batch, flush, ackCh, waiting, pending, stopped, dropped, pushed := [], [], Idle, [], [], {}, false, {}, {};
    }

    /** Enqueues blocks up to the chain's height, or until the queue is full. A block that cannot be
        fetched is tried again. */
    method EnqueueBlocks(latest: nat) returns (ghost trace: seq<Action>)
      modifies this
      ensures View() == Many(cfg, old(View()), trace) && forall i :: 0 <= i < |trace| ==> trace[i] == Enqueue
      ensures next == old(next) + |trace| && (next >= latest || |jobCh| >= Room(cfg)) && (trace == [] || next <= latest)
    {
      trace := [];
      while next < latest && |jobCh| < Room(cfg)
        invariant View() == Many(cfg, old(View()), trace) && forall i :: 0 <= i < |trace| ==> trace[i] == Enqueue
        invariant next == old(next) + |trace| && (trace == [] || next <= latest)
        decreases latest - next
      {
        OneMore(cfg, old(View()), trace, Enqueue);
        trace := trace + [Enqueue];
        jobCh := jobCh + [Job(next, 0)];
        next := next + 1;
      }
    }

    /** Collects a job; a full batch is pushed at once. */
    method WorkerTake(ok: bool) returns (ghost trace: seq<Action>)
      requires flush.Idle? && jobCh != [] && |batch| < cfg.batchSize
      modifies this
      ensures View() == Many(cfg, old(View()), trace)
      ensures trace == [Take] + (if |batch| >= cfg.batchSize then [Push(ok)] else [])
      ensures flush == if |batch| >= cfg.batchSize then Sending(ok) else Idle
    {
      OneMore(cfg, View(), [], Take);
      assert [] + [Take] == [Take];
      trace := [Take];
      batch := batch + [jobCh[0]];
      jobCh := jobCh[1..];
      if |batch| >= cfg.batchSize {
        OneMore(cfg, old(View()), trace, Push(ok));
        trace := trace + [Push(ok)];
        WorkerPush(ok);
      }
    }

    /** One pipelined write; ids are fixed, so writing again what is there already is no error. */
    method WorkerPush(ok: bool)
      requires flush.Idle? && batch != []
      modifies this`flush, this`pushed
      ensures View() == Step(cfg, old(View()), Push(ok))
    {
      if ok {
        pushed := pushed + HeightsOf(batch);
      }
      flush := Sending(ok);
    }

    /** Sends acks for the whole batch, as far as the ack queue has room. */
    method WorkerReply() returns (ghost trace: seq<Action>)
      requires flush.Sending?
      modifies this
      ensures View() == Many(cfg, old(View()), trace) && forall i :: 0 <= i < |trace| ==> trace[i] == Reply
      ensures batch == [] || |ackCh| >= Room(cfg)
    {
      trace := [];
      while batch != [] && flush.Sending? && |ackCh| < Room(cfg)
        invariant View() == Many(cfg, old(View()), trace) && forall i :: 0 <= i < |trace| ==> trace[i] == Reply
        invariant batch != [] ==> flush.Sending?
        decreases |batch|
      {
        OneMore(cfg, old(View()), trace, Reply);
        trace := trace + [Reply];
        ackCh := ackCh + [Ack(batch[0], flush.ok)];
        batch := batch[1..];
        if batch == [] {
          flush := Idle;
        }
      }
    }

    /** Takes one ack: a failure goes to back-off or is given up; a success waits for its turn. */
    method ManagerReceive()
      requires ackCh != [] && !stopped && expected !in pending
      modifies this
      ensures View() == Step(cfg, old(View()), Receive)
    {
      var res := ackCh[0];
      ackCh := ackCh[1..];
      if !res.ok {
        if cfg.maxRetries == 0 || res.job.attempt < cfg.maxRetries {
          waiting := waiting + [res.job.(attempt := res.job.attempt + 1)];
        } else {
          dropped := dropped + {res.job.height};
        }
        return;
      }
      if res.job.height < expected {
        return;
      }
      pending := pending + {res.job.height};
    }

    /** One turn: the cursor is stored and moves on, the store fails, or the height no longer fits. */
    method AdvanceOnce(stored: bool)
      requires expected in pending && !stopped
      modifies this
      ensures View() == Step(cfg, old(View()), Advance(stored))
      ensures stopped == (old(expected) + 1 > MAX_INT64)
      ensures pending == if stored && !stopped then old(pending) - {old(expected)} else old(pending)
      ensures expected == if stored && !stopped then old(expected) + 1 else old(expected)
    {
      if expected + 1 > MAX_INT64 {
        stopped := true;
      } else if stored {
        cursor := expected + 1;
        pending := pending - {expected};
        expected := expected + 1;
      }
    }

    /** The cursor follows every contiguous success. `stores` are the answers of the storing calls, one after
        the other; when they are used up and another is needed, the process ends. */
    method ManagerAdvance(stores: seq<bool>) returns (ghost trace: seq<Action>, used: nat, ended: bool)
      modifies this
      ensures View() == Many(cfg, old(View()), trace) && used <= |stores|
      ensures trace == Tries(stores[..used]) + (if stopped && !old(stopped) then [Advance(true)] else [])
      ensures ended <==> !stopped && expected in pending
      ensures ended ==> used == |stores|
      ensures !stopped ==> expected == old(expected) + |trace| - Failures(trace)
    {
      hide Step, Many;
      NoSteps(cfg, View());
      trace, used, ended := [], 0, false;
      while expected in pending && !stopped
        invariant View() == Many(cfg, old(View()), trace) && used <= |stores|
        invariant trace == Tries(stores[..used]) + (if stopped && !old(stopped) then [Advance(true)] else [])
        invariant !stopped ==> expected == old(expected) + |trace| - Failures(trace)
        decreases !stopped, |stores| - used
      {
        if expected + 1 > MAX_INT64 {
          OneMore(cfg, old(View()), trace, Advance(true));
          trace := trace + [Advance(true)];
          AdvanceOnce(true);
          break;
        }
        if used == |stores| {
          ended := true;
          return;
        }
        var stored := stores[used];
        OneMore(cfg, old(View()), trace, Advance(stored));
        OneFailure(trace, Advance(stored));
        TriesMore(stores, used);
        trace := trace + [Advance(stored)];
        used := used + 1;
        AdvanceOnce(stored);
      }
    }

    /** A back-off has ended. */
    method RetryOne(i: nat)
      requires i < |waiting| && |jobCh| < Room(cfg)
      modifies this`jobCh, this`waiting
      ensures View() == Step(cfg, old(View()), Retry(i))
    {
      jobCh, waiting := jobCh + [waiting[i]], Without(waiting, i);
    }
  }
}

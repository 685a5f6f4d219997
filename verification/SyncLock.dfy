/** The lock that keeps two synchronisations of one POS connection apart
    (app/modules/catalog/sync_guards.py, worker/tasks/catalog_sync.py, worker/main.py).

    The lock is a Redis key with an expiry and always holds the same value, so a release deletes
    whatever is under the key.  Safety is a matter of time only. */
module SyncLock {

  import opened Common

  /** The job timeout and the lock's time to live, in seconds. */
  datatype Timing = Timing(timeout: nat, ttl: nat)

  /** `WorkerSettings.job_timeout` and `_SYNC_LOCK_TTL_SECONDS`. */
  const DEPLOYED := Timing(120, 150)

  datatype Phase = Waiting | Syncing(since: int) | Over | Crashed

  datatype Job = Job(conn: nat, start: int, phase: Phase)

  /** `owner` is known to the model only; `since` is when the key was set. */
  datatype Lock = Lock(owner: nat, since: int)

  /** `foreign` records that some release deleted a live lock of another job. */
  datatype State = State(now: int, locks: map<nat, Lock>, jobs: map<nat, Job>, foreign: bool)

  const INIT := State(0, map[], map[], false)

  datatype Event =
    | Start(j: nat, conn: nat)
    | Tick(seconds: nat)
    | Acquire(j: nat)     // SET key 1 NX EX ttl; a refused job returns at once
    | Release(j: nat)     // DEL key, in the finally block
    | Quit(j: nat)        // returns before asking for the lock
    | Crash(j: nat)       // the worker process dies

  /** The key is present and has not expired. */
  predicate Held(p: Timing, st: State, conn: nat) {
    conn in st.locks && st.now < st.locks[conn].since + p.ttl
  }

  predicate Alive(j: Job) {
    j.phase.Waiting? || j.phase.Syncing?
  }

  /** Every job that is neither over nor dead ends, release included, within its timeout. */
  predicate WithinTimeout(p: Timing, st: State, now: int) {
    forall j :: j in st.jobs && Alive(st.jobs[j]) ==> now <= st.jobs[j].start + p.timeout
  }

  function Move(st: State, j: nat, phase: Phase): State
    requires j in st.jobs
  {
    st.(jobs := st.jobs[j := st.jobs[j].(phase := phase)])
  }

  function Step(p: Timing, st: State, e: Event): Option<State> {
    match e
    case Start(j, conn) =>
      if j in st.jobs then None else Some(st.(jobs := st.jobs[j := Job(conn, st.now, Waiting)]))
    case Tick(d) =>
      if WithinTimeout(p, st, st.now + d) then Some(st.(now := st.now + d)) else None
    case Acquire(j) =>
      if j !in st.jobs || !st.jobs[j].phase.Waiting? then None
      else if Held(p, st, st.jobs[j].conn) then Some(Move(st, j, Over))
      else Some(Move(st, j, Syncing(st.now)).(locks := st.locks[st.jobs[j].conn := Lock(j, st.now)]))
    case Release(j) =>
      if j !in st.jobs || !st.jobs[j].phase.Syncing? then None
      else
        var conn := st.jobs[j].conn;
        Some(Move(st, j, Over).(locks := st.locks - {conn},
             foreign := st.foreign || (Held(p, st, conn) && st.locks[conn].owner != j)))
    case Quit(j) =>
      if j !in st.jobs || !st.jobs[j].phase.Waiting? then None else Some(Move(st, j, Over))
    case Crash(j) =>
      if j !in st.jobs || !Alive(st.jobs[j]) then None else Some(Move(st, j, Crashed))
  }

  function Run(p: Timing, st: State, es: seq<Event>): Option<State>
    decreases |es|
  {
    if es == [] then Some(st)
    else
      match Step(p, st, es[0])
      case None => None
      case Some(next) => Run(p, next, es[1..])
  }

  /** No two jobs synchronise the same connection at the same time. */
  ghost predicate Exclusive(st: State) {
    forall j, k :: j in st.jobs && k in st.jobs && j != k && st.jobs[j].phase.Syncing? && st.jobs[k].phase.Syncing? ==>
      st.jobs[j].conn != st.jobs[k].conn
  }

  /** Every synchronising job still owns its lock. */
  ghost predicate Owns(st: State, j: nat)
    requires j in st.jobs && st.jobs[j].phase.Syncing?
  {
    && st.jobs[j].conn in st.locks
    && st.locks[st.jobs[j].conn] == Lock(j, st.jobs[j].phase.since)
  }

  ghost predicate Inv(p: Timing, st: State) {
    && (forall j :: j in st.jobs ==> st.jobs[j].start <= st.now)
    && WithinTimeout(p, st, st.now)
    && (forall j :: j in st.jobs && st.jobs[j].phase.Syncing? ==>
          st.jobs[j].start <= st.jobs[j].phase.since <= st.now && Owns(st, j))
    && !st.foreign
  }

  /** A synchronising job's own lock has not expired. */
  lemma OwnLockHeld(p: Timing, st: State, j: nat)
    requires p.timeout < p.ttl && Inv(p, st) && j in st.jobs && st.jobs[j].phase.Syncing?
    ensures Held(p, st, st.jobs[j].conn) && st.locks[st.jobs[j].conn].owner == j
  {
    assert st.now <= st.jobs[j].start + p.timeout;
  }

  lemma AcquireKeepsInv(p: Timing, st: State, j: nat)
    requires p.timeout < p.ttl && Inv(p, st) && Step(p, st, Acquire(j)).Some?
    ensures Inv(p, Step(p, st, Acquire(j)).value)
  {
    forall k | k in st.jobs && st.jobs[k].phase.Syncing? ensures Held(p, st, st.jobs[k].conn) {
      OwnLockHeld(p, st, k);
    }
  }

  lemma ReleaseKeepsInv(p: Timing, st: State, j: nat)
    requires p.timeout < p.ttl && Inv(p, st) && Step(p, st, Release(j)).Some?
    ensures Inv(p, Step(p, st, Release(j)).value)
  {
    forall k | k in st.jobs && st.jobs[k].phase.Syncing? ensures st.locks[st.jobs[k].conn].owner == k {
      OwnLockHeld(p, st, k);
    }
  }

  lemma StepKeepsInv(p: Timing, st: State, e: Event)
    requires p.timeout < p.ttl && Inv(p, st) && Step(p, st, e).Some?
    ensures Inv(p, Step(p, st, e).value)
  {
    match e
    case Acquire(j) => AcquireKeepsInv(p, st, j);
    case Release(j) => ReleaseKeepsInv(p, st, j);
    case _ =>
  }

  lemma {:induction false} RunKeepsInv(p: Timing, st: State, es: seq<Event>)
    requires p.timeout < p.ttl && Inv(p, st) && Run(p, st, es).Some?
    ensures Inv(p, Run(p, st, es).value)
    decreases |es|
  {
    if es != [] {
      StepKeepsInv(p, st, es[0]);
      RunKeepsInv(p, Step(p, st, es[0]).value, es[1..]);
    }
  }

  /** A waiting job gets the lock exactly when the key is absent or was set `ttl` seconds ago or more;
      otherwise it ends; and a release leaves the connection without a key. */
  lemma LockStepsExactly(p: Timing, st: State, j: nat)
    requires j in st.jobs
    ensures st.jobs[j].phase.Waiting? ==>
              var conn := st.jobs[j].conn;
              var free := conn !in st.locks || st.locks[conn].since + p.ttl <= st.now;
              var next := Step(p, st, Acquire(j));
              && next.Some? && next.value.jobs[j].phase == (if free then Syncing(st.now) else Over)
              && next.value.locks == if free then st.locks[conn := Lock(j, st.now)] else st.locks
    ensures st.jobs[j].phase.Syncing? ==>
              var next := Step(p, st, Release(j));
              && next.Some? && next.value.jobs[j].phase == Over && next.value.locks == st.locks - {st.jobs[j].conn}
  {
  }

  /** In every run: no overlap, and no release deletes another job's lock. */
  ghost predicate Safe(p: Timing) {
    forall es :: Run(p, INIT, es).Some? ==> Exclusive(Run(p, INIT, es).value) && !Run(p, INIT, es).value.foreign
  }

  /** The lock is safe exactly when it outlives the longest job. */
  lemma SafeIffLockOutlivesJob(p: Timing)
    ensures Safe(p) <==> p.timeout < p.ttl
  {
    if p.timeout < p.ttl {
      forall es | Run(p, INIT, es).Some?
        ensures Exclusive(Run(p, INIT, es).value) && !Run(p, INIT, es).value.foreign
      {
        RunKeepsInv(p, INIT, es);
      }
    } else {
      var es := Overlap(p);
      assert !Exclusive(Run(p, INIT, es).value);
    }
  }

  /** A lock no longer than the job lets a second job in. */
  lemma Overlap(p: Timing) returns (es: seq<Event>)
    requires p.ttl <= p.timeout
    ensures Run(p, INIT, es).Some? && !Exclusive(Run(p, INIT, es).value)
  {
    es := [Start(0, 7), Start(1, 7), Acquire(0), Tick(p.ttl), Acquire(1)];
    var s1 := Step(p, INIT, es[0]).value;
    var s2 := Step(p, s1, es[1]).value;
    var s3 := Step(p, s2, es[2]).value;
    var s4 := Step(p, s3, es[3]).value;
    var s5 := Step(p, s4, es[4]).value;
    assert s5.jobs[0].phase.Syncing? && s5.jobs[1].phase.Syncing?;
    assert Run(p, s4, es[4..]) == Some(s5) by { assert es[4..][1..] == []; }
    assert es[3..][1..] == es[4..] && es[2..][1..] == es[3..] && es[1..][1..] == es[2..];
    assert Run(p, s3, es[3..]) == Some(s5);
    assert Run(p, s2, es[2..]) == Some(s5);
    assert Run(p, s1, es[1..]) == Some(s5);
  }

  /** The deployed 120 s and 150 s are safe. */
  lemma DeployedIsSafe(es: seq<Event>)
    requires Run(DEPLOYED, INIT, es).Some?
    ensures Exclusive(Run(DEPLOYED, INIT, es).value) && !Run(DEPLOYED, INIT, es).value.foreign
  {
    RunKeepsInv(DEPLOYED, INIT, es);
  }

  // ---------------------------------------------------------------- crashed holders

  /** Job j has crashed, and a lock of its own, if any, dates from before `at`. */
  ghost predicate Stale(st: State, j: nat, at: int) {
    && j in st.jobs && st.jobs[j].phase.Crashed? && at <= st.now
    && forall c :: c in st.locks && st.locks[c].owner == j ==> st.locks[c].since <= at
  }

  lemma {:induction false} RunKeepsStale(p: Timing, st: State, es: seq<Event>, j: nat, at: int)
    requires Stale(st, j, at) && Run(p, st, es).Some?
    ensures Stale(Run(p, st, es).value, j, at)
    decreases |es|
  {
    if es != [] {
      RunKeepsStale(p, Step(p, st, es[0]).value, es[1..], j, at);
    }
  }

  ghost predicate LocksInPast(st: State) {
    forall c :: c in st.locks ==> st.locks[c].since <= st.now
  }

  lemma {:induction false} RunKeepsPast(p: Timing, st: State, es: seq<Event>)
    requires LocksInPast(st) && Run(p, st, es).Some?
    ensures LocksInPast(Run(p, st, es).value)
    decreases |es|
  {
    if es != [] {
      RunKeepsPast(p, Step(p, st, es[0]).value, es[1..]);
    }
  }

  /** From `ttl` seconds after a crash on, the dead job's lock refuses nobody. */
  lemma CrashBlocksAtMostTtl(p: Timing, before: seq<Event>, j: nat, after: seq<Event>, conn: nat)
    requires Run(p, INIT, before).Some?
    requires Step(p, Run(p, INIT, before).value, Crash(j)).Some?
    requires Run(p, Step(p, Run(p, INIT, before).value, Crash(j)).value, after).Some?
    ensures var st := Run(p, INIT, before).value;
            var end := Run(p, Step(p, st, Crash(j)).value, after).value;
            end.now >= st.now + p.ttl && Held(p, end, conn) ==> end.locks[conn].owner != j
  {
    RunKeepsPast(p, INIT, before);
    var st := Run(p, INIT, before).value;
    RunKeepsStale(p, Step(p, st, Crash(j)).value, after, j, st.now);
  }
}

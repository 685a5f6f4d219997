/** The Redis commands of the two guards, run one after the other at one instant
    (app/modules/catalog/sync_guards.py). */
module SyncGuards {

  import opened Common
  import RateLimit
  import SyncLock

  class Redis {
    var now: int
    var counters: map<RateLimit.Key, RateLimit.Counter>
    var locks: map<nat, SyncLock.Lock>

    constructor (time: int)
      ensures now == time && counters == map[] && locks == map[]
    {
      now, counters, locks := time, map[], map[];
    }

    /** The limiter's view of the store, with nothing in flight. */
    ghost function Limiter(): RateLimit.State
      reads this
    {
      RateLimit.State(now, counters, map[], map[], [])
    }

    /** The lock protocol's view of the store, with one job asking or syncing. */
    ghost function Locking(j: nat, conn: nat, phase: SyncLock.Phase): SyncLock.State
      reads this
    {
      SyncLock.State(now, locks, map[j := SyncLock.Job(conn, now, phase)], false)
    }

    predicate CounterPresent(k: RateLimit.Key)
      reads this
    {
      k in counters && (counters[k].expiry.None? || now < counters[k].expiry.value)
    }

    /** How many calls the connection's current window has counted. */
    function CountNow(conn: nat): nat
      reads this
    {
      var k := RateLimit.KeyOf(conn, now);
      if CounterPresent(k) then counters[k].count else 0
    }

    /** INCR */
    method Incr(k: RateLimit.Key) returns (n: nat)
      modifies this`counters
      ensures n == if old(CounterPresent(k)) then old(counters)[k].count + 1 else 1
      ensures counters == old(counters)[k :=
                if old(CounterPresent(k)) then old(counters)[k].(count := n) else RateLimit.Counter(1, None)]
    {
      if CounterPresent(k) {
        n := counters[k].count + 1;
        counters := counters[k := counters[k].(count := n)];
      } else {
        n := 1;
        counters := counters[k := RateLimit.Counter(1, None)];
      }
    }

    /** EXPIRE */
    method Expire(k: RateLimit.Key, seconds: nat)
      modifies this`counters
      ensures counters == if old(CounterPresent(k))
                          then old(counters)[k := old(counters)[k].(expiry := Some(now + seconds))] else old(counters)
    {
      if CounterPresent(k) { counters := counters[k := counters[k].(expiry := Some(now + seconds))]; }
    }

    /** `check_rate_limit`: the same decision and the same counters as the limiter's commands. */
    method CheckRateLimit(conn: nat, limit: int) returns (allowed: bool)
      modifies this`counters
      ensures allowed == (old(CountNow(conn)) + 1 <= limit) && CountNow(conn) == old(CountNow(conn)) + 1
      ensures var c := RateLimit.Config(limit, 0);
              var read := RateLimit.Step(c, old(Limiter()), RateLimit.ReadClock(0, conn)).value;
              var incr := RateLimit.Step(c, read, RateLimit.Incr(0));
              && incr.Some? && incr.value.log == [RateLimit.Decision(conn, now, allowed)]
              && var end := if 0 in incr.value.owing then RateLimit.Step(c, incr.value, RateLimit.Expire(0)) else incr;
              end.Some? && end.value.keys == counters && end.value.owing == map[]
    {
      var k := RateLimit.KeyOf(conn, now);
      var n := Incr(k);
      if n == 1 { Expire(k, RateLimit.WINDOW); }
      allowed := n <= limit;
    }

    /** `acquire_sync_lock`: SET NX EX */
    method AcquireSyncLock(p: SyncLock.Timing, conn: nat, j: nat) returns (ok: bool)
      modifies this`locks
      ensures var next := SyncLock.Step(p, old(Locking(j, conn, SyncLock.Waiting)), SyncLock.Acquire(j));
              next.Some? && next.value.locks == locks && ok == next.value.jobs[j].phase.Syncing?
    {
      ok := !(conn in locks && now < locks[conn].since + p.ttl);
      if ok { locks := locks[conn := SyncLock.Lock(j, now)]; }
    }

    /** `release_sync_lock`: DEL, whatever the key holds */
    method ReleaseSyncLock(p: SyncLock.Timing, conn: nat, ghost j: nat)
      modifies this`locks
      ensures var next := SyncLock.Step(p, old(Locking(j, conn, SyncLock.Syncing(now))), SyncLock.Release(j));
              next.Some? && next.value.locks == locks && conn !in locks
    {
      locks := locks - {conn};
    }
  }
}

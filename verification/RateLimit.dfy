/** The fixed-window rate limiter of the catalogue synchronisation
    (app/modules/catalog/sync_guards.py).

    A call reads the clock, later sends INCR, and later still, if it was the first, EXPIRE.  The
    model lets time pass between these commands, up to a bound between the first two. */
module RateLimit {

  import opened Common

  const WINDOW := 60

  datatype Key = Key(conn: nat, window: int)

  datatype Counter = Counter(count: nat, expiry: Option<int>)

  /** A call that has read the clock and not yet sent INCR. */
  datatype Pending = Pending(conn: nat, time: int)

  /** One decision: for whom, the clock reading, and whether the call was allowed. */
  datatype Decision = Decision(conn: nat, time: int, allowed: bool)

  datatype State = State(
    now: int, keys: map<Key, Counter>, pending: map<nat, Pending>, owing: map<nat, Key>, log: seq<Decision>)

  const INIT := State(0, map[], map[], map[], [])

  /** `limit` calls per minute; at most `delay` seconds between clock and INCR. */
  datatype Config = Config(limit: int, delay: nat)

  datatype Event =
    | ReadClock(call: nat, conn: nat)
    | Incr(call: nat)
    | Expire(call: nat)
    | Tick(seconds: nat)

  /** The key exists; Redis drops it when its expiry comes. */
  predicate Present(st: State, k: Key) {
    k in st.keys && (st.keys[k].expiry.None? || st.now < st.keys[k].expiry.value)
  }

  function KeyOf(conn: nat, time: int): Key {
    Key(conn, time / WINDOW)
  }

  function Step(c: Config, st: State, e: Event): Option<State> {
    match e
    case ReadClock(call, conn) =>
      if call in st.pending || call in st.owing then None
      else Some(st.(pending := st.pending[call := Pending(conn, st.now)]))
    case Incr(call) =>
      if call !in st.pending || st.now > st.pending[call].time + c.delay then None
      else
        var x := st.pending[call];
        var k := KeyOf(x.conn, x.time);
        var n := if Present(st, k) then st.keys[k].count + 1 else 1;
        var counter := if Present(st, k) then st.keys[k].(count := n) else Counter(1, None);
        Some(State(st.now, st.keys[k := counter], st.pending - {call},
                   if n == 1 then st.owing[call := k] else st.owing,
                   st.log + [Decision(x.conn, x.time, n <= c.limit)]))
    case Expire(call) =>
      if call !in st.owing then None
      else
        var k := st.owing[call];
        Some(st.(owing := st.owing - {call},
                 keys := if Present(st, k) then st.keys[k := st.keys[k].(expiry := Some(st.now + WINDOW))]
                         else st.keys))
    case Tick(d) => Some(st.(now := st.now + d))
  }

  function Run(c: Config, st: State, es: seq<Event>): Option<State>
    decreases |es|
  {
    if es == [] then Some(st)
    else
      match Step(c, st, es[0])
      case None => None
      case Some(next) => Run(c, next, es[1..])
  }

  // ---------------------------------------------------------------- counting

  /** Decisions taken under a key. */
  function Calls(log: seq<Decision>, k: Key): nat {
    if log == [] then 0
    else Calls(log[..|log| - 1], k) + if KeyOf(log[|log| - 1].conn, log[|log| - 1].time) == k then 1 else 0
  }

  function Allowed(log: seq<Decision>, k: Key): nat {
    if log == [] then 0
    else
      var d := log[|log| - 1];
      Allowed(log[..|log| - 1], k) + if KeyOf(d.conn, d.time) == k && d.allowed then 1 else 0
  }

  /** Calls allowed for a connection at clock readings in [from, until). */
  function AllowedBetween(log: seq<Decision>, conn: nat, from: int, until: int): nat {
    if log == [] then 0
    else
      var d := log[|log| - 1];
      AllowedBetween(log[..|log| - 1], conn, from, until)
      + if d.conn == conn && from <= d.time < until && d.allowed then 1 else 0
  }

  lemma LogNext(log: seq<Decision>, d: Decision, k: Key)
    ensures Calls(log + [d], k) == Calls(log, k) + if KeyOf(d.conn, d.time) == k then 1 else 0
    ensures Allowed(log + [d], k) == Allowed(log, k) + if KeyOf(d.conn, d.time) == k && d.allowed then 1 else 0
  {
    assert (log + [d])[..|log|] == log;
  }

  function Min(a: int, b: int): int {
    if a <= b then a else b
  }

  function Cap(limit: int): nat {
    if limit <= 0 then 0 else limit
  }

  // ---------------------------------------------------------------- without delay

  /** A counter never disappears inside its own window and counts every call of the window. */
  ghost predicate Inv(c: Config, st: State) {
    && (forall k :: k in st.keys && st.keys[k].expiry.Some? ==> st.keys[k].expiry.value >= (k.window + 1) * WINDOW)
    && (forall k :: k in st.keys ==> k.window * WINDOW <= st.now)
    && (forall k :: Exact(c, st, k))
    && (forall x :: x in st.pending ==> st.pending[x].time <= st.now)
    && (forall x :: x in st.owing ==> st.owing[x] in st.keys)
  }

  /** Inside its own window a counter that was ever created is still there. */
  lemma PresentInWindow(c: Config, st: State, call: nat)
    requires c.delay == 0 && Inv(c, st) && Step(c, st, Incr(call)).Some?
    ensures var x := st.pending[call];
            var k := KeyOf(x.conn, x.time);
            k.window * WINDOW <= st.now && (Present(st, k) <==> k in st.keys)
  {
    var x := st.pending[call];
    assert x.time == st.now && (x.time / WINDOW) * WINDOW <= st.now < (x.time / WINDOW + 1) * WINDOW;
  }

  /** The effect of INCR on the table and on the counts of decisions. */
  lemma IncrEffect(c: Config, st: State, call: nat, l: Key)
    requires Step(c, st, Incr(call)).Some?
    ensures var next := Step(c, st, Incr(call)).value;
            var k := KeyOf(st.pending[call].conn, st.pending[call].time);
            var was := if Present(st, k) then st.keys[k].count else 0;
            && k in next.keys && next.keys == st.keys[k := next.keys[k]] && next.keys[k].count == was + 1
            && next.keys[k].expiry == (if Present(st, k) then st.keys[k].expiry else None)
            && next.now == st.now
            && Calls(next.log, l) == Calls(st.log, l) + (if k == l then 1 else 0)
            && Allowed(next.log, l) == Allowed(st.log, l) + (if k == l && was + 1 <= c.limit then 1 else 0)
  {
    var x := st.pending[call];
    var k := KeyOf(x.conn, x.time);
    var was := if Present(st, k) then st.keys[k].count else 0;
    LogNext(st.log, Decision(x.conn, x.time, was + 1 <= c.limit), l);
  }

  ghost predicate Exact(c: Config, st: State, k: Key) {
    && Calls(st.log, k) == (if k in st.keys then st.keys[k].count else 0)
    && Allowed(st.log, k) == Min(Calls(st.log, k), Cap(c.limit))
  }

  lemma IncrCounts(c: Config, st: State, call: nat, l: Key)
    requires Step(c, st, Incr(call)).Some? && Exact(c, st, l)
    requires var k := KeyOf(st.pending[call].conn, st.pending[call].time); Present(st, k) <==> k in st.keys
    ensures Exact(c, Step(c, st, Incr(call)).value, l)
  {
    IncrEffect(c, st, call, l);
  }

  lemma IncrKeepsInv(c: Config, st: State, call: nat)
    requires c.delay == 0 && Inv(c, st) && Step(c, st, Incr(call)).Some?
    ensures Inv(c, Step(c, st, Incr(call)).value)
  {
    PresentInWindow(c, st, call);
    forall l ensures Exact(c, Step(c, st, Incr(call)).value, l) {
      IncrCounts(c, st, call, l);
    }
  }

  lemma StepKeepsInv(c: Config, st: State, e: Event)
    requires c.delay == 0 && Inv(c, st) && Step(c, st, e).Some?
    ensures Inv(c, Step(c, st, e).value)
  {
    if e.Incr? {
      IncrKeepsInv(c, st, e.call);
    } else {
      var next := Step(c, st, e).value;
      forall l ensures Exact(c, next, l) {
        assert Exact(c, st, l) && next.log == st.log && (l in next.keys <==> l in st.keys);
      }
    }
  }

  lemma {:induction false} RunKeepsInv(c: Config, st: State, es: seq<Event>)
    requires c.delay == 0 && Inv(c, st) && Run(c, st, es).Some?
    ensures Inv(c, Run(c, st, es).value)
    decreases |es|
  {
    if es != [] {
      StepKeepsInv(c, st, es[0]);
      RunKeepsInv(c, Step(c, st, es[0]).value, es[1..]);
    }
  }

  /** An interval of one window's length meets two windows at most. */
  lemma {:induction false} IntervalInTwoWindows(log: seq<Decision>, conn: nat, from: int)
    ensures AllowedBetween(log, conn, from, from + WINDOW) <=
              Allowed(log, KeyOf(conn, from)) + Allowed(log, KeyOf(conn, from + WINDOW))
  {
    if log != [] {
      IntervalInTwoWindows(log[..|log| - 1], conn, from);
      var d := log[|log| - 1];
      assert (from + WINDOW) / WINDOW == from / WINDOW + 1;
      assert from <= d.time < from + WINDOW ==>
          d.time / WINDOW == from / WINDOW || d.time / WINDOW == from / WINDOW + 1;
    }
  }

  /** When INCR follows the clock at once the first calls of a window, up to the limit, are allowed,
      and no others. */
  lemma ExactWithoutDelay(limit: int, es: seq<Event>, k: Key)
    requires Run(Config(limit, 0), INIT, es).Some?
    ensures var log := Run(Config(limit, 0), INIT, es).value.log; Allowed(log, k) == Min(Calls(log, k), Cap(limit))
  {
    RunKeepsInv(Config(limit, 0), INIT, es);
    assert Exact(Config(limit, 0), Run(Config(limit, 0), INIT, es).value, k);
  }

  // ---------------------------------------------------------------- with delay

  /** In every run no window allows more than its limit. */
  ghost predicate Bounded(c: Config) {
    forall es, k :: Run(c, INIT, es).Some? ==> Allowed(Run(c, INIT, es).value.log, k) <= Cap(c.limit)
  }

  /** n calls at instant 0, the first of which also sends its EXPIRE. */
  function Burst(n: nat): seq<Event> {
    if n == 0 then []
    else Burst(n - 1) + [ReadClock(n, 0), Incr(n)] + if n == 1 then [Expire(1)] else []
  }

  function AfterBurst(n: nat): State
    requires n >= 1
  {
    State(0, map[Key(0, 0) := Counter(n, Some(WINDOW))], map[], map[], BurstLog(n))
  }

  function BurstLog(n: nat): seq<Decision> {
    if n == 0 then [] else BurstLog(n - 1) + [Decision(0, 0, true)]
  }

  lemma {:induction false} RunSplits(c: Config, st: State, xs: seq<Event>, ys: seq<Event>)
    requires Run(c, st, xs).Some?
    ensures Run(c, st, xs + ys) == Run(c, Run(c, st, xs).value, ys)
    decreases |xs|
  {
    if xs == [] {
      assert xs + ys == ys;
    } else {
      assert (xs + ys)[1..] == xs[1..] + ys;
      RunSplits(c, Step(c, st, xs[0]).value, xs[1..], ys);
    }
  }

  lemma RunTwo(c: Config, st: State, es: seq<Event>, s1: State, s2: State)
    requires |es| == 2 && Step(c, st, es[0]) == Some(s1) && Step(c, s1, es[1]) == Some(s2)
    ensures Run(c, st, es) == Some(s2)
  {
    assert Run(c, s1, es[1..]) == Some(s2) by { assert es[1..][1..] == []; }
  }

  lemma RunOne(c: Config, st: State, e: Event, s1: State)
    requires Step(c, st, e) == Some(s1)
    ensures Run(c, st, [e]) == Some(s1)
  {
    assert [e][1..] == [];
  }

  lemma FirstCall(c: Config)
    requires c.limit >= 1
    ensures Run(c, INIT, Burst(1)) == Some(AfterBurst(1))
  {
    var s1 := Step(c, INIT, ReadClock(1, 0)).value;
    var s2 := Step(c, s1, Incr(1)).value;
    assert s2 == State(0, map[Key(0, 0) := Counter(1, None)], map[], map[1 := Key(0, 0)], [Decision(0, 0, true)]);
    var s3 := Step(c, s2, Expire(1)).value;
    assert s3.keys == AfterBurst(1).keys && s3.owing == map[];
    assert BurstLog(1) == BurstLog(0) + [Decision(0, 0, true)];
    assert s3 == AfterBurst(1);
    RunTwo(c, INIT, [ReadClock(1, 0), Incr(1)], s1, s2);
    RunOne(c, s2, Expire(1), s3);
    RunSplits(c, INIT, [ReadClock(1, 0), Incr(1)], [Expire(1)]);
    assert Burst(1) == [] + [ReadClock(1, 0), Incr(1)] + [Expire(1)];
    assert Burst(1) == [ReadClock(1, 0), Incr(1)] + [Expire(1)];
  }

  lemma {:induction false} BurstAllowed(c: Config, n: nat)
    requires 1 <= n <= c.limit
    ensures Run(c, INIT, Burst(n)) == Some(AfterBurst(n))
  {
    if n == 1 {
      FirstCall(c);
    } else {
      BurstAllowed(c, n - 1);
      var s0 := AfterBurst(n - 1);
      var s1 := Step(c, s0, ReadClock(n, 0)).value;
      var s2 := Step(c, s1, Incr(n)).value;
      assert s2.keys == AfterBurst(n).keys && s2.pending == map[] && s2.log == BurstLog(n);
      RunTwo(c, s0, [ReadClock(n, 0), Incr(n)], s1, s2);
      RunSplits(c, INIT, Burst(n - 1), [ReadClock(n, 0), Incr(n)]);
      assert Burst(n) == Burst(n - 1) + [ReadClock(n, 0), Incr(n)] + [];
      assert Burst(n) == Burst(n - 1) + [ReadClock(n, 0), Incr(n)];
    }
  }

  lemma {:induction false} BurstCount(n: nat)
    ensures Allowed(BurstLog(n), Key(0, 0)) == n
  {
    if n > 0 {
      BurstCount(n - 1);
      LogNext(BurstLog(n - 1), Decision(0, 0, true), Key(0, 0));
    }
  }

  /** A call that reads the clock at second 59 and counts at second 60 finds the counter gone. */
  lemma LateCall(c: Config) returns (es: seq<Event>)
    requires c.limit >= 1 && c.delay >= 1
    ensures Run(c, INIT, es).Some? && Allowed(Run(c, INIT, es).value.log, Key(0, 0)) == c.limit + 1
  {
    var n: nat := c.limit;
    BurstAllowed(c, n);
    BurstCount(n);
    var s0 := AfterBurst(n);
    var s1 := Step(c, s0, Tick(59)).value;
    var s2 := Step(c, s1, ReadClock(0, 0)).value;
    var s3 := Step(c, s2, Tick(1)).value;
    var s4 := Step(c, s3, Incr(0)).value;
    assert s4.log == BurstLog(n) + [Decision(0, 59, true)];
    LogNext(BurstLog(n), Decision(0, 59, true), Key(0, 0));
    RunTwo(c, s0, [Tick(59), ReadClock(0, 0)], s1, s2);
    RunTwo(c, s2, [Tick(1), Incr(0)], s3, s4);
    RunSplits(c, s0, [Tick(59), ReadClock(0, 0)], [Tick(1), Incr(0)]);
    es := Burst(n) + ([Tick(59), ReadClock(0, 0)] + [Tick(1), Incr(0)]);
    RunSplits(c, INIT, Burst(n), [Tick(59), ReadClock(0, 0)] + [Tick(1), Incr(0)]);
  }

  lemma {:induction false} NothingAllowed(c: Config, st: State, es: seq<Event>, k: Key)
    requires c.limit <= 0 && Allowed(st.log, k) == 0 && Run(c, st, es).Some?
    ensures Allowed(Run(c, st, es).value.log, k) == 0
    decreases |es|
  {
    if es != [] {
      var next := Step(c, st, es[0]).value;
      if es[0].Incr? { LogNext(st.log, next.log[|st.log|], k); }
      NothingAllowed(c, next, es[1..], k);
    }
  }

  /** The window bound holds in every run exactly when the clock reading and INCR fall in the
      same second, or nothing is ever allowed. */
  lemma BoundedIffNoDelay(c: Config)
    ensures Bounded(c) <==> c.delay == 0 || c.limit <= 0
  {
    if c.limit <= 0 {
      forall es, k | Run(c, INIT, es).Some? ensures Allowed(Run(c, INIT, es).value.log, k) <= Cap(c.limit) {
        NothingAllowed(c, INIT, es, k);
      }
    } else if c.delay == 0 {
      forall es, k | Run(c, INIT, es).Some? ensures Allowed(Run(c, INIT, es).value.log, k) <= Cap(c.limit) {
        ExactWithoutDelay(c.limit, es, k);
      }
    } else {
      var es := LateCall(c);
      assert Allowed(Run(c, INIT, es).value.log, Key(0, 0)) > Cap(c.limit);
    }
  }

  // ---------------------------------------------------------------- how bad a delay can be

  /** How many counters, one after the other, can serve the calls of one window. */
  function Lives(delay: nat): nat {
    1 + (delay + WINDOW - 1) / WINDOW
  }

  function Times(n: nat, cap: nat): nat {
    if n == 0 then 0 else Times(n - 1, cap) + cap
  }

  lemma {:induction false} TimesMonotone(m: nat, n: nat, cap: nat)
    requires m <= n
    ensures Times(m, cap) <= Times(n, cap)
  {
    if m < n { TimesMonotone(m, n - 1, cap); }
  }

  lemma {:induction false} TimesIsProduct(n: nat, cap: nat)
    ensures Times(n, cap) == n * cap
  {
    if n > 0 { TimesIsProduct(n - 1, cap); }
  }

  /** The counter under k is the g-th for its window: it was created g - 1 windows into or after its
      own, lives one window longer, and earlier ones allowed at most the limit each. */
  ghost predicate InLife(c: Config, st: State, k: Key, g: nat) {
    && k in st.keys && 1 <= g <= Lives(c.delay)
    && (k.window + g - 1) * WINDOW <= st.now
    && (st.keys[k].expiry.Some? ==> st.keys[k].expiry.value >= (k.window + g) * WINDOW)
    && Allowed(st.log, k) <= Times(g - 1, Cap(c.limit)) + Min(st.keys[k].count, Cap(c.limit))
  }

  ghost predicate DelayInv(c: Config, st: State) {
    && (forall k :: k in st.keys ==> exists g: nat :: InLife(c, st, k, g))
    && (forall k :: k !in st.keys ==> Allowed(st.log, k) == 0)
    && (forall x :: x in st.pending ==> st.pending[x].time <= st.now)
    && (forall x :: x in st.owing ==> st.owing[x] in st.keys)
  }

  /** INCR on a counter that is still there. */
  lemma IncrPresent(c: Config, st: State, call: nat, k: Key, g: nat)
    requires Step(c, st, Incr(call)).Some? && k == KeyOf(st.pending[call].conn, st.pending[call].time)
    requires Present(st, k) && InLife(c, st, k, g)
    ensures InLife(c, Step(c, st, Incr(call)).value, k, g)
  {
    IncrEffect(c, st, call, k);
  }

  /** INCR on a counter that expired creates the next one; there is time for so many only. */
  lemma IncrExpired(c: Config, st: State, call: nat, k: Key, g: nat)
    requires Step(c, st, Incr(call)).Some? && k == KeyOf(st.pending[call].conn, st.pending[call].time)
    requires !Present(st, k) && InLife(c, st, k, g)
    ensures InLife(c, Step(c, st, Incr(call)).value, k, g + 1)
  {
    var x := st.pending[call];
    IncrEffect(c, st, call, k);
    assert x.time < (k.window + 1) * WINDOW;
    assert (k.window + g) * WINDOW <= st.now < (k.window + 1) * WINDOW + c.delay;
    assert (g - 1) * WINDOW < c.delay;
    assert g + 1 <= Lives(c.delay);
  }

  /** INCR under a key that was never used in this window. */
  lemma IncrFirst(c: Config, st: State, call: nat, k: Key)
    requires Step(c, st, Incr(call)).Some? && k == KeyOf(st.pending[call].conn, st.pending[call].time)
    requires st.pending[call].time <= st.now && k !in st.keys && Allowed(st.log, k) == 0
    ensures InLife(c, Step(c, st, Incr(call)).value, k, 1)
  {
    IncrEffect(c, st, call, k);
    assert k.window * WINDOW <= st.pending[call].time;
  }

  lemma IncrKeepsLives(c: Config, st: State, call: nat, l: Key)
    requires DelayInv(c, st) && Step(c, st, Incr(call)).Some?
    ensures var next := Step(c, st, Incr(call)).value;
            if l in next.keys then exists g: nat :: InLife(c, next, l, g) else Allowed(next.log, l) == 0
  {
    var next := Step(c, st, Incr(call)).value;
    if l != KeyOf(st.pending[call].conn, st.pending[call].time) {
      IncrEffect(c, st, call, l);
      if l in st.keys {
        var g: nat :| InLife(c, st, l, g);
        assert InLife(c, next, l, g);
      }
    } else if l !in st.keys {
      IncrFirst(c, st, call, l);
      assert InLife(c, next, l, 1);
    } else {
      var g: nat :| InLife(c, st, l, g);
      if Present(st, l) {
        IncrPresent(c, st, call, l, g);
        assert InLife(c, next, l, g);
      } else {
        IncrExpired(c, st, call, l, g);
        assert InLife(c, next, l, g + 1);
      }
    }
  }

  lemma OtherKeepsLives(c: Config, st: State, e: Event, l: Key)
    requires DelayInv(c, st) && Step(c, st, e).Some? && !e.Incr? && l in st.keys
    ensures l in Step(c, st, e).value.keys && exists g: nat :: InLife(c, Step(c, st, e).value, l, g)
  {
    var g: nat :| InLife(c, st, l, g);
    assert InLife(c, Step(c, st, e).value, l, g);
  }

  lemma StepKeepsDelayInv(c: Config, st: State, e: Event)
    requires DelayInv(c, st) && Step(c, st, e).Some?
    ensures DelayInv(c, Step(c, st, e).value)
  {
    var next := Step(c, st, e).value;
    forall l ensures if l in next.keys then exists g: nat :: InLife(c, next, l, g) else Allowed(next.log, l) == 0 {
      if e.Incr? {
        IncrKeepsLives(c, st, e.call, l);
      } else if l in st.keys {
        OtherKeepsLives(c, st, e, l);
      }
    }
  }

  lemma {:induction false} RunKeepsDelayInv(c: Config, st: State, es: seq<Event>)
    requires DelayInv(c, st) && Run(c, st, es).Some?
    ensures DelayInv(c, Run(c, st, es).value)
    decreases |es|
  {
    if es != [] {
      StepKeepsDelayInv(c, st, es[0]);
      RunKeepsDelayInv(c, Step(c, st, es[0]).value, es[1..]);
    }
  }

  /** The limit once, and once more for every window, or part of one, that the delay lasts. */
  function Quota(c: Config): nat {
    Times(Lives(c.delay), Cap(c.limit))
  }

  lemma QuotaOf(c: Config)
    ensures Quota(c) == Lives(c.delay) * Cap(c.limit)
    ensures c.delay == 0 ==> Quota(c) == Cap(c.limit)
    ensures 1 <= c.delay <= WINDOW ==> Quota(c) == 2 * Cap(c.limit)
  {
    TimesIsProduct(Lives(c.delay), Cap(c.limit));
  }

  lemma WindowBound(c: Config, es: seq<Event>, k: Key)
    requires Run(c, INIT, es).Some?
    ensures Allowed(Run(c, INIT, es).value.log, k) <= Quota(c)
  {
    RunKeepsDelayInv(c, INIT, es);
    var st := Run(c, INIT, es).value;
    if k in st.keys {
      var g: nat :| InLife(c, st, k, g);
      assert Times(g, Cap(c.limit)) == Times(g - 1, Cap(c.limit)) + Cap(c.limit);
      TimesMonotone(g, Lives(c.delay), Cap(c.limit));
    }
  }

  /** With any bound on the delay between clock and INCR, a window allows no more than the quota and
      any half-open minute no more than twice the quota.  Without delay the quota is the limit, with
      up to a minute of delay it is twice the limit. */
  lemma BoundedPerWindow(c: Config, es: seq<Event>, k: Key, from: int)
    requires Run(c, INIT, es).Some?
    ensures var log := Run(c, INIT, es).value.log;
            && Allowed(log, k) <= Quota(c)
            && AllowedBetween(log, k.conn, from, from + WINDOW) <= 2 * Quota(c)
    ensures Quota(c) == Lives(c.delay) * Cap(c.limit)
    ensures c.delay == 0 ==> Quota(c) == Cap(c.limit)
    ensures 1 <= c.delay <= WINDOW ==> Quota(c) == 2 * Cap(c.limit)
  {
    QuotaOf(c);
    WindowBound(c, es, k);
    WindowBound(c, es, KeyOf(k.conn, from));
    WindowBound(c, es, KeyOf(k.conn, from + WINDOW));
    IntervalInTwoWindows(Run(c, INIT, es).value.log, k.conn, from);
  }

  // ---------------------------------------------------------------- the quota is attained

  /** Calls a to b - 1 have read the clock at second 59 and not yet counted. */
  function Waiting(a: nat, b: nat): map<nat, Pending> {
    if a >= b then map[] else Waiting(a, b - 1)[b - 1 := Pending(0, 59)]
  }

  lemma {:induction false} WaitingAre(a: nat, b: nat)
    ensures forall i :: i in Waiting(a, b) <==> a <= i < b
    ensures forall i :: i in Waiting(a, b) ==> Waiting(a, b)[i] == Pending(0, 59)
  {
    if a < b { WaitingAre(a, b - 1); }
  }

  function Wave(now: int, count: nat, expiry: int, a: nat, b: nat, log: seq<Decision>): State {
    State(now, map[Key(0, 0) := Counter(count, Some(expiry))], Waiting(a, b), map[], log)
  }

  lemma RunThen(c: Config, st: State, xs: seq<Event>, mid: State, ys: seq<Event>, end: State)
    requires Run(c, st, xs) == Some(mid) && Run(c, mid, ys) == Some(end)
    ensures Run(c, st, xs + ys) == Some(end)
  {
    RunSplits(c, st, xs, ys);
  }

  /** m calls read the clock at second 59. */
  lemma {:induction false} ReadRun(c: Config, count: nat, expiry: int, m: nat,
                                   log: seq<Decision>) returns (es: seq<Event>)
    ensures Run(c, Wave(59, count, expiry, 0, 0, log), es) == Some(Wave(59, count, expiry, 0, m, log))
    decreases m
  {
    if m == 0 {
      es := [];
    } else {
      var before := ReadRun(c, count, expiry, m - 1, log);
      var mid, end := Wave(59, count, expiry, 0, m - 1, log), Wave(59, count, expiry, 0, m, log);
      WaitingAre(0, m - 1);
      RunOne(c, mid, ReadClock(m - 1, 0), end);
      RunThen(c, Wave(59, count, expiry, 0, 0, log), before, mid, [ReadClock(m - 1, 0)], end);
      es := before + [ReadClock(m - 1, 0)];
    }
  }

  lemma WaitingLess(a: nat, b: nat)
    requires a < b
    ensures a in Waiting(a, b) && Waiting(a, b)[a] == Pending(0, 59) && Waiting(a, b) - {a} == Waiting(a + 1, b)
  {
    WaitingAre(a, b);
    WaitingAre(a + 1, b);
  }

  /** A waiting call counts on a counter that is there. */
  lemma CountRun(c: Config, now: int, count: nat, expiry: int, a: nat, b: nat, log: seq<Decision>)
    returns (es: seq<Event>)
    requires a < b && now < expiry && now <= 59 + c.delay && 1 <= count < c.limit
    ensures Run(c, Wave(now, count, expiry, a, b, log), es) ==
              Some(Wave(now, count + 1, expiry, a + 1, b, log + [Decision(0, 59, true)]))
  {
    var st := Wave(now, count, expiry, a, b, log);
    var end := Wave(now, count + 1, expiry, a + 1, b, log + [Decision(0, 59, true)]);
    WaitingLess(a, b);
    assert KeyOf(0, 59) == Key(0, 0) && Present(st, Key(0, 0));
    assert st.keys[Key(0, 0) := Counter(count + 1, Some(expiry))] == end.keys;
    RunOne(c, st, Incr(a), end);
    es := [Incr(a)];
  }

  /** A waiting call finds the counter just expired, and creates the next one. */
  lemma RenewRun(c: Config, now: int, count: nat, a: nat, b: nat, log: seq<Decision>) returns (es: seq<Event>)
    requires a < b && now <= 59 + c.delay && 1 <= c.limit
    ensures Run(c, Wave(now, count, now, a, b, log), es) ==
              Some(Wave(now, 1, now + WINDOW, a + 1, b, log + [Decision(0, 59, true)]))
  {
    var st := Wave(now, count, now, a, b, log);
    var end := Wave(now, 1, now + WINDOW, a + 1, b, log + [Decision(0, 59, true)]);
    var mid := State(now, map[Key(0, 0) := Counter(1, None)], Waiting(a + 1, b), map[a := Key(0, 0)], end.log);
    WaitingLess(a, b);
    assert KeyOf(0, 59) == Key(0, 0) && !Present(st, Key(0, 0));
    assert st.keys[Key(0, 0) := Counter(1, None)] == mid.keys && st.owing[a := Key(0, 0)] == mid.owing;
    assert Step(c, st, Incr(a)) == Some(mid);
    assert mid.owing - {a} == map[] && mid.keys[Key(0, 0) := Counter(1, Some(now + WINDOW))] == end.keys;
    assert Step(c, mid, Expire(a)) == Some(end);
    RunTwo(c, st, [Incr(a), Expire(a)], mid, end);
    es := [Incr(a), Expire(a)];
  }

  /** The log after n more allowed calls of the window. */
  function Logged(log: seq<Decision>, n: nat): seq<Decision> {
    if n == 0 then log else Logged(log, n - 1) + [Decision(0, 59, true)]
  }

  lemma {:induction false} LoggedCount(log: seq<Decision>, n: nat)
    ensures Allowed(Logged(log, n), Key(0, 0)) == Allowed(log, Key(0, 0)) + n
  {
    if n > 0 {
      LoggedCount(log, n - 1);
      LogNext(Logged(log, n - 1), Decision(0, 59, true), Key(0, 0));
    }
  }

  /** n waiting calls count, one after the other. */
  lemma {:induction false} FillRun(c: Config, now: int, expiry: int, a: nat, b: nat, log: seq<Decision>, n: nat)
    returns (es: seq<Event>)
    requires now < expiry && now <= 59 + c.delay && n < c.limit && a + n <= b
    ensures Run(c, Wave(now, 1, expiry, a, b, log), es) == Some(Wave(now, 1 + n, expiry, a + n, b, Logged(log, n)))
    decreases n
  {
    if n == 0 {
      es := [];
    } else {
      var before := FillRun(c, now, expiry, a, b, log, n - 1);
      var one := CountRun(c, now, n, expiry, a + n - 1, b, Logged(log, n - 1));
      RunThen(c, Wave(now, 1, expiry, a, b, log), before, Wave(now, n, expiry, a + n - 1, b, Logged(log, n - 1)),
              one, Wave(now, 1 + n, expiry, a + n, b, Logged(log, n)));
      es := before + one;
    }
  }

  lemma WaitRun(c: Config, now: int, count: nat, until: int, a: nat, b: nat, log: seq<Decision>)
    returns (es: seq<Event>)
    requires now <= until
    ensures Run(c, Wave(now, count, until, a, b, log), es) == Some(Wave(until, count, until, a, b, log))
  {
    RunOne(c, Wave(now, count, until, a, b, log), Tick(until - now), Wave(until, count, until, a, b, log));
    es := [Tick(until - now)];
  }

  /** The counter expires and the next waiting call renews it. */
  lemma TurnRun(c: Config, now: int, expiry: int, a: nat, b: nat, log: seq<Decision>) returns (es: seq<Event>)
    requires now <= expiry <= 59 + c.delay && 1 <= c.limit && a < b
    ensures Run(c, Wave(now, c.limit, expiry, a, b, log), es) ==
              Some(Wave(expiry, 1, expiry + WINDOW, a + 1, b, Logged(log, 1)))
  {
    var wait := WaitRun(c, now, c.limit, expiry, a, b, log);
    var renew := RenewRun(c, expiry, c.limit, a, b, log);
    assert Logged(log, 1) == Logged(log, 0) + [Decision(0, 59, true)];
    RunThen(c, Wave(now, c.limit, expiry, a, b, log), wait, Wave(expiry, c.limit, expiry, a, b, log),
            renew, Wave(expiry, 1, expiry + WINDOW, a + 1, b, Logged(log, 1)));
    es := wait + renew;
  }

  /** When the counter expires, as many calls as the limit are allowed once more. */
  lemma WaveRun(c: Config, now: int, expiry: int, a: nat, b: nat, log: seq<Decision>)
    returns (es: seq<Event>, after: seq<Decision>)
    requires now <= expiry <= 59 + c.delay && 1 <= c.limit && a + c.limit <= b
    ensures Run(c, Wave(now, c.limit, expiry, a, b, log), es) ==
              Some(Wave(expiry, c.limit, expiry + WINDOW, a + c.limit, b, after))
    ensures Allowed(after, Key(0, 0)) == Allowed(log, Key(0, 0)) + c.limit
  {
    after := Logged(Logged(log, 1), c.limit - 1);
    LoggedTwice(log, c.limit - 1);
    es := WaveEvents(c, now, expiry, a, b, log);
  }

  lemma LoggedTwice(log: seq<Decision>, n: nat)
    ensures Allowed(Logged(Logged(log, 1), n), Key(0, 0)) == Allowed(log, Key(0, 0)) + 1 + n
  {
    LoggedCount(log, 1);
    LoggedCount(Logged(log, 1), n);
  }

  lemma WaveEvents(c: Config, now: int, expiry: int, a: nat, b: nat, log: seq<Decision>) returns (es: seq<Event>)
    requires now <= expiry <= 59 + c.delay && 1 <= c.limit && a + c.limit <= b
    ensures Run(c, Wave(now, c.limit, expiry, a, b, log), es) ==
              Some(Wave(expiry, c.limit, expiry + WINDOW, a + c.limit, b, Logged(Logged(log, 1), c.limit - 1)))
  {
    var turn := TurnRun(c, now, expiry, a, b, log);
    var fill := FillRun(c, expiry, expiry + WINDOW, a + 1, b, Logged(log, 1), c.limit - 1);
    RunThen(c, Wave(now, c.limit, expiry, a, b, log), turn, Wave(expiry, 1, expiry + WINDOW, a + 1, b, Logged(log, 1)),
            fill, Wave(expiry, c.limit, expiry + WINDOW, a + c.limit, b, Logged(Logged(log, 1), c.limit - 1)));
    es := turn + fill;
  }

  /** So many times, for as long as the delay lasts. */
  lemma {:induction false} WavesRun(c: Config, now: int, expiry: int, a: nat, b: nat, log: seq<Decision>, n: nat)
    returns (es: seq<Event>, end: State)
    requires now <= expiry && 1 <= c.limit && a + Times(n, c.limit) <= b
    requires n == 0 || expiry + (n - 1) * WINDOW <= 59 + c.delay
    ensures Run(c, Wave(now, c.limit, expiry, a, b, log), es) == Some(end)
    ensures Allowed(end.log, Key(0, 0)) == Allowed(log, Key(0, 0)) + Times(n, c.limit)
    decreases n
  {
    var st := Wave(now, c.limit, expiry, a, b, log);
    if n == 0 {
      es, end := [], st;
    } else {
      assert Times(n, c.limit) == Times(n - 1, c.limit) + c.limit;
      var first, after := WaveRun(c, now, expiry, a, b, log);
      var rest;
      rest, end := WavesRun(c, expiry, expiry + WINDOW, a + c.limit, b, after, n - 1);
      RunThen(c, st, first, Wave(expiry, c.limit, expiry + WINDOW, a + c.limit, b, after), rest, end);
      es := first + rest;
    }
  }

  /** A run in which one window allows the whole quota. */
  lemma QuotaReached(c: Config) returns (es: seq<Event>)
    requires c.limit >= 1
    ensures Run(c, INIT, es).Some? && Allowed(Run(c, INIT, es).value.log, Key(0, 0)) == Quota(c)
  {
    var limit: nat, n: nat := c.limit, Lives(c.delay) - 1;
    BurstAllowed(c, limit);
    BurstCount(limit);
    var log := BurstLog(limit);
    assert Waiting(0, 0) == map[];
    var m := Times(n, limit);
    var idle := Wave(59, limit, WINDOW, 0, 0, log);
    RunOne(c, AfterBurst(limit), Tick(59), idle);
    RunThen(c, INIT, Burst(limit), AfterBurst(limit), [Tick(59)], idle);
    var readers := ReadRun(c, limit, WINDOW, m, log);
    RunThen(c, INIT, Burst(limit) + [Tick(59)], idle, readers, Wave(59, limit, WINDOW, 0, m, log));
    LastWaveInTime(c.delay);
    var waves, end := WavesRun(c, 59, WINDOW, 0, m, log, n);
    RunThen(c, INIT, Burst(limit) + [Tick(59)] + readers, Wave(59, limit, WINDOW, 0, m, log), waves, end);
    es := Burst(limit) + [Tick(59)] + readers + waves;
  }

  lemma LastWaveInTime(delay: nat)
    ensures Lives(delay) == 1 || WINDOW + (Lives(delay) - 2) * WINDOW <= 59 + delay
  {
  }

  ghost predicate BoundedBy(c: Config, q: nat) {
    forall es, k :: Run(c, INIT, es).Some? ==> Allowed(Run(c, INIT, es).value.log, k) <= q
  }

  /** The quota is exact: a bound on the calls allowed per window holds in all runs if and only if it
      is not below the quota. */
  lemma QuotaIsLeastBound(c: Config, q: nat)
    ensures BoundedBy(c, q) <==> q >= Quota(c)
  {
    if q >= Quota(c) {
      forall es, k | Run(c, INIT, es).Some? ensures Allowed(Run(c, INIT, es).value.log, k) <= q {
        WindowBound(c, es, k);
      }
    } else {
      QuotaOf(c);
      var es := QuotaReached(c);
      assert Allowed(Run(c, INIT, es).value.log, Key(0, 0)) > q;
    }
  }
}

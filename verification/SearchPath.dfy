/** Tenant isolation over the shared connection pool (app/core/database/session.py).

    Physical connections carry a committed `search_path` and, while a transaction is open, the
    value seen inside that transaction.  Sessions borrow a connection for one transaction at a
    time.  The two hooks of the source are switches of a configuration, so that the theorems can
    say which guarantee depends on which hook. */
module SearchPath {

  import opened Common

  type Path = string

  const PUBLIC: Path := "public"

  /** The value a brand-new physical connection starts with: PostgreSQL's default. */
  const SERVER_DEFAULT: Path := "\"$user\", public"

  // ---------------------------------------------------------------- PostgreSQL

  /** An open transaction: the path in force and whether a statement has failed in it. */
  datatype Txn = Txn(path: Path, failed: bool)

  datatype Conn = Conn(committed: Path, txn: Option<Txn>)

  /** Every statement runs in a transaction; the driver opens one implicitly. */
  function PgBegin(c: Conn): Conn {
    if c.txn.None? then c.(txn := Some(Txn(c.committed, false))) else c
  }

  /** `SET search_path TO p`; a failed transaction ignores it until rolled back. */
  function PgSet(c: Conn, p: Path): Conn {
    var b := PgBegin(c);
    if b.txn.value.failed then b else b.(txn := Some(Txn(p, false)))
  }

  /** COMMIT makes the path permanent; committing a failed transaction rolls it back. */
  function PgCommit(c: Conn): Conn {
    if c.txn.Some? && !c.txn.value.failed then Conn(c.txn.value.path, None) else c.(txn := None)
  }

  /** ROLLBACK restores the path of before the transaction. */
  function PgRollback(c: Conn): Conn {
    c.(txn := None)
  }

  // ---------------------------------------------------------------- the two hooks

  /** What the check-in hook does: nothing, only the SET, or the SET and the explicit commit. */
  datatype CheckinHook = Off | SetOnly | SetAndCommit

  datatype Hooks = Hooks(onBegin: bool, onCheckin: CheckinHook)

  /** The configuration the source installs. */
  const INSTALLED := Hooks(true, SetAndCommit)

  /** The `after_begin` listener: reapply the path stored in `session.info`, if any. */
  function AfterBegin(h: Hooks, c: Conn, info: Option<Path>): Conn {
    if h.onBegin && info.Some? then PgSet(c, info.value) else c
  }

  /** The `reset` listener.  `None`: the SET raised, and the pool invalidates the connection. */
  function ResetHook(h: Hooks, c: Conn): Option<Conn> {
    if h.onCheckin.Off? then Some(c)
    else if c.txn.Some? && c.txn.value.failed then None
    else if h.onCheckin.SetOnly? then Some(PgSet(c, PUBLIC))
    else Some(PgCommit(PgSet(c, PUBLIC)))
  }

  /** How a connection comes back: through the pool's rollback before or after the listener, or
      only to be terminated (the listener returns early and the connection is never reused). */
  datatype Return = RollbackThenHook | HookThenRollback | Terminate

  /** The connection the pool keeps, if it keeps it. */
  function CheckIn(h: Hooks, c: Conn, how: Return): Option<Conn> {
    match how
    case Terminate => None
    case RollbackThenHook => ResetHook(h, PgRollback(c))
    case HookThenRollback =>
      match ResetHook(h, c)
      case None => None
      case Some(d) => Some(PgRollback(d))
  }

  // ---------------------------------------------------------------- pooled system

  /** `info` is the path deposited by the session helpers, `None` for a raw session. */
  datatype Session = Session(info: Option<Path>, conn: Option<nat>)

  /** One executed statement: whose it was and the path it ran under. */
  datatype Entry = Entry(session: nat, info: Option<Path>, path: Path)

  /** A connection that is in `conns` but neither idle nor borrowed has been discarded. */
  datatype State = State(conns: map<nat, Conn>, idle: set<nat>, sessions: map<nat, Session>, log: seq<Entry>)

  datatype Event =
    | Open(s: nat, info: Option<Path>)
    | Begin(s: nat, c: nat)              // borrow connection c (idle, or brand new) and begin
    | Execute(s: nat)
    | RawSet(s: nat, p: Path)            // a raw session changes the path itself
    | Fail(s: nat)                       // a statement of the transaction raises
    | Commit(s: nat, how: Return)
    | Rollback(s: nat, how: Return)
    | Close(s: nat, how: Return)

  const INIT := State(map[], {}, map[], [])

  /** Give session s's connection back to the pool in condition c. */
  function GiveBack(h: Hooks, st: State, s: nat, c: Conn, how: Return): State
    requires s in st.sessions && st.sessions[s].conn.Some?
  {
    var id := st.sessions[s].conn.value;
    var freed := st.sessions[s := st.sessions[s].(conn := None)];
    match CheckIn(h, c, how)
    case None => st.(sessions := freed)
    case Some(d) => st.(conns := st.conns[id := d], idle := st.idle + {id}, sessions := freed)
  }

  predicate Borrowing(st: State, s: nat) {
    && s in st.sessions && st.sessions[s].conn.Some?
    && st.sessions[s].conn.value in st.conns && st.conns[st.sessions[s].conn.value].txn.Some?
  }

  function Borrowed(st: State, s: nat): Conn
    requires Borrowing(st, s)
  {
    st.conns[st.sessions[s].conn.value]
  }

  function PutConn(st: State, s: nat, c: Conn): State
    requires Borrowing(st, s)
  {
    st.(conns := st.conns[st.sessions[s].conn.value := c])
  }

  /** The connection handed out on checkout: the pool's ping rolls back what is still open. */
  function CheckedOut(st: State, c: nat): Conn
    requires c in st.idle ==> c in st.conns
  {
    if c in st.idle then PgRollback(st.conns[c]) else Conn(SERVER_DEFAULT, None)
  }

  /** `None` when the event cannot happen in this state. */
  function Step(h: Hooks, st: State, e: Event): Option<State> {
    match e
    case Open(s, info) =>
      if s in st.sessions then None else Some(st.(sessions := st.sessions[s := Session(info, None)]))
    case Begin(s, c) =>
      if s !in st.sessions || st.sessions[s].conn.Some? || (c in st.conns) != (c in st.idle) then None
      else
        var conn := AfterBegin(h, PgBegin(CheckedOut(st, c)), st.sessions[s].info);
        Some(st.(conns := st.conns[c := conn], idle := st.idle - {c},
                 sessions := st.sessions[s := st.sessions[s].(conn := Some(c))]))
    case Execute(s) =>
      if !Borrowing(st, s) || Borrowed(st, s).txn.value.failed then None
      else Some(st.(log := st.log + [Entry(s, st.sessions[s].info, Borrowed(st, s).txn.value.path)]))
    case RawSet(s, p) =>
      if !Borrowing(st, s) || st.sessions[s].info.Some? then None
      else Some(PutConn(st, s, PgSet(Borrowed(st, s), p)))
    case Fail(s) =>
      if !Borrowing(st, s) then None
      else
        var c := Borrowed(st, s);
        Some(PutConn(st, s, c.(txn := Some(c.txn.value.(failed := true)))))
    case Commit(s, how) =>
      if !Borrowing(st, s) then None else Some(GiveBack(h, st, s, PgCommit(Borrowed(st, s)), how))
    case Rollback(s, how) =>
      if !Borrowing(st, s) then None else Some(GiveBack(h, st, s, PgRollback(Borrowed(st, s)), how))
    case Close(s, how) =>
      if s !in st.sessions then None
      else
        var back := if Borrowing(st, s) then GiveBack(h, st, s, Borrowed(st, s), how) else st;
        Some(back.(sessions := back.sessions - {s}))
  }

  function Run(h: Hooks, st: State, es: seq<Event>): Option<State>
    decreases |es|
  {
    if es == [] then Some(st)
    else
      match Step(h, st, es[0])
      case None => None
      case Some(next) => Run(h, next, es[1..])
  }

  // ---------------------------------------------------------------- invariants

  /** Borrowed connections are open, are not idle, and belong to one session only. */
  ghost predicate Exclusive(st: State) {
    && st.idle <= st.conns.Keys
    && (forall s :: s in st.sessions && st.sessions[s].conn.Some? ==>
          Borrowing(st, s) && st.sessions[s].conn.value !in st.idle)
    && (forall s, t :: s in st.sessions && t in st.sessions && s != t && st.sessions[s].conn.Some? ==>
          st.sessions[s].conn != st.sessions[t].conn)
  }

  /** Every idle connection starts its next user on `public`. */
  ghost predicate Neutral(st: State) {
    forall c :: c in st.idle && c in st.conns ==> st.conns[c].committed == PUBLIC
  }

  /** A session opened through a helper holds a connection set to its own path. */
  ghost predicate OnOwnPath(st: State) {
    forall s :: Borrowing(st, s) && st.sessions[s].info.Some? ==>
      Borrowed(st, s).txn.value.path == st.sessions[s].info.value
  }

  ghost predicate LogIsolated(log: seq<Entry>) {
    forall i :: 0 <= i < |log| && log[i].info.Some? ==> log[i].path == log[i].info.value
  }

  lemma GiveBackKeepsExclusive(h: Hooks, st: State, s: nat, c: Conn, how: Return)
    requires Exclusive(st) && Borrowing(st, s)
    ensures Exclusive(GiveBack(h, st, s, c, how))
  {
  }

  lemma BeginKeepsExclusive(h: Hooks, st: State, s: nat, c: nat)
    requires Exclusive(st) && Step(h, st, Begin(s, c)).Some?
    ensures Exclusive(Step(h, st, Begin(s, c)).value)
  {
    assert forall t :: t in st.sessions && st.sessions[t].conn.Some? ==> st.sessions[t].conn.value != c;
  }

  lemma StepKeepsExclusive(h: Hooks, st: State, e: Event)
    requires Exclusive(st) && Step(h, st, e).Some?
    ensures Exclusive(Step(h, st, e).value)
  {
    match e
    case Begin(s, c) => BeginKeepsExclusive(h, st, s, c);
    case Commit(s, how) => GiveBackKeepsExclusive(h, st, s, PgCommit(Borrowed(st, s)), how);
    case Rollback(s, how) => GiveBackKeepsExclusive(h, st, s, PgRollback(Borrowed(st, s)), how);
    case Close(s, how) => if Borrowing(st, s) { GiveBackKeepsExclusive(h, st, s, Borrowed(st, s), how); }
    case _ =>
  }

  lemma StepKeepsNeutral(h: Hooks, st: State, e: Event)
    requires h.onCheckin.SetAndCommit? && Exclusive(st) && Neutral(st) && Step(h, st, e).Some?
    ensures Neutral(Step(h, st, e).value)
  {
  }

  lemma StepKeepsOwnPath(h: Hooks, st: State, e: Event)
    requires h.onBegin && Exclusive(st) && OnOwnPath(st) && LogIsolated(st.log) && Step(h, st, e).Some?
    ensures OnOwnPath(Step(h, st, e).value) && LogIsolated(Step(h, st, e).value.log)
  {
  }

  /** All invariants that the installed configuration, or half of it, keeps over whole runs. */
  lemma {:induction false} RunKeeps(h: Hooks, st: State, es: seq<Event>)
    requires Exclusive(st) && Run(h, st, es).Some?
    ensures Exclusive(Run(h, st, es).value)
    ensures h.onCheckin.SetAndCommit? && Neutral(st) ==> Neutral(Run(h, st, es).value)
    ensures h.onBegin && OnOwnPath(st) && LogIsolated(st.log) ==>
              OnOwnPath(Run(h, st, es).value) && LogIsolated(Run(h, st, es).value.log)
    decreases |es|
  {
    if es != [] {
      var next := Step(h, st, es[0]).value;
      StepKeepsExclusive(h, st, es[0]);
      if h.onCheckin.SetAndCommit? && Neutral(st) { StepKeepsNeutral(h, st, es[0]); }
      if h.onBegin && OnOwnPath(st) && LogIsolated(st.log) { StepKeepsOwnPath(h, st, es[0]); }
      RunKeeps(h, next, es[1..]);
    }
  }

  // ---------------------------------------------------------------- which hook gives what

  /** In every interleaving every statement of a helper's session runs under that session's path. */
  ghost predicate HelpersIsolated(h: Hooks) {
    forall es :: Run(h, INIT, es).Some? ==> LogIsolated(Run(h, INIT, es).value.log)
  }

  /** In every reachable state every idle connection is on `public`. */
  ghost predicate PoolNeutral(h: Hooks) {
    forall es :: Run(h, INIT, es).Some? ==> Neutral(Run(h, INIT, es).value)
  }

  /** Isolation of the helpers' sessions rests on `after_begin` and on nothing else. */
  lemma IsolationNeedsBeginHook(h: Hooks)
    ensures HelpersIsolated(h) <==> h.onBegin
  {
    if h.onBegin {
      forall es | Run(h, INIT, es).Some? ensures LogIsolated(Run(h, INIT, es).value.log) {
        RunKeeps(h, INIT, es);
      }
    } else {
      var es := [Open(0, Some("\"tenant_a\"")), Begin(0, 0), Execute(0)];
      var s1 := Step(h, INIT, es[0]).value;
      var s2 := Step(h, s1, es[1]).value;
      var s3 := Step(h, s2, es[2]).value;
      assert s3.log[0] == Entry(0, Some("\"tenant_a\""), SERVER_DEFAULT);
      assert es[1..][1..] == [es[2]];
      assert Run(h, s2, [es[2]]) == Some(s3);
      assert Run(h, s1, es[1..]) == Some(s3);
      assert Run(h, INIT, es) == Some(s3);
      assert !LogIsolated(s3.log);
    }
  }

  /** A neutral pool rests on the check-in hook, and on its explicit commit. */
  lemma NeutralityNeedsCommit(h: Hooks)
    ensures PoolNeutral(h) <==> h.onCheckin.SetAndCommit?
  {
    if h.onCheckin.SetAndCommit? {
      forall es | Run(h, INIT, es).Some? ensures Neutral(Run(h, INIT, es).value) {
        RunKeeps(h, INIT, es);
      }
    } else {
      var es := [Open(0, None), Begin(0, 0), RawSet(0, "\"tenant_a\""), Commit(0, RollbackThenHook)];
      var s1 := Step(h, INIT, es[0]).value;
      var s2 := Step(h, s1, es[1]).value;
      var s3 := Step(h, s2, es[2]).value;
      var s4 := Step(h, s3, es[3]).value;
      assert s4.conns[0].committed == "\"tenant_a\"";
      assert "\"tenant_a\""[0] != PUBLIC[0];
      assert es[1..][1..] == es[2..] && es[2..][1..] == [es[3]];
      assert Run(h, s3, [es[3]]) == Some(s4);
      assert Run(h, s2, es[2..]) == Some(s4);
      assert Run(h, s1, es[1..]) == Some(s4);
      assert Run(h, INIT, es) == Some(s4);
      assert 0 in s4.idle;
      assert !Neutral(s4);
    }
  }

  /** A raw session starts its transaction on `public` if and only if the pool had the connection
      already; a brand-new one starts on the server's default. */
  lemma RawStartsOnPublicIff(es: seq<Event>, s: nat, c: nat)
    requires Run(INSTALLED, INIT, es).Some?
    requires var st := Run(INSTALLED, INIT, es).value;
             s in st.sessions && st.sessions[s].info.None? && Step(INSTALLED, st, Begin(s, c)).Some?
    ensures var st := Run(INSTALLED, INIT, es).value;
            var next := Step(INSTALLED, st, Begin(s, c)).value;
            && c in next.conns && next.conns[c].txn.Some?
            && (next.conns[c].txn.value.path == PUBLIC <==> c in st.idle)
            && (next.conns[c].txn.value.path == SERVER_DEFAULT <==> c !in st.idle)
  {
    RunKeeps(INSTALLED, INIT, es);
    assert PUBLIC[0] != SERVER_DEFAULT[0];
  }

  /** The very first statement of a raw session does not run on `public`. */
  lemma FreshConnectionStartsOnDefault()
    ensures var end := Run(INSTALLED, INIT, [Open(0, None), Begin(0, 0), Execute(0)]);
            end.Some? && end.value.log == [Entry(0, None, SERVER_DEFAULT)] && SERVER_DEFAULT != PUBLIC
  {
    var es := [Open(0, None), Begin(0, 0), Execute(0)];
    var s1 := Step(INSTALLED, INIT, es[0]).value;
    var s2 := Step(INSTALLED, s1, es[1]).value;
    var s3 := Step(INSTALLED, s2, es[2]).value;
    assert s3.log == [Entry(0, None, SERVER_DEFAULT)];
    assert es[1..][1..] == [es[2]];
    assert Run(INSTALLED, s2, [es[2]]) == Some(s3);
    assert Run(INSTALLED, s1, es[1..]) == Some(s3);
    assert PUBLIC[0] != SERVER_DEFAULT[0];
  }

  // ---------------------------------------------------------------- refinement

  /** The simple system: no pool, no shared connection.  Each session has its own connection,
      which starts every transaction on the session's own path. */
  datatype OwnSession = OwnSession(info: Option<Path>, txn: Option<Txn>)

  datatype OwnState = OwnState(sessions: map<nat, OwnSession>, log: seq<Entry>)

  const OWN_INIT := OwnState(map[], [])

  /** Where a raw session may find itself when its transaction begins. */
  predicate NeutralStart(p: Path) {
    p == PUBLIC || p == SERVER_DEFAULT
  }

  ghost predicate OwnNext(a: OwnState, e: Event, b: OwnState) {
    match e
    case Open(s, info) =>
      s !in a.sessions && b == a.(sessions := a.sessions[s := OwnSession(info, None)])
    case Begin(s, _) =>
      && s in a.sessions && a.sessions[s].txn.None? && s in b.sessions && b.sessions[s].txn.Some?
      && var t := b.sessions[s].txn.value;
      && !t.failed
      && (if a.sessions[s].info.Some? then t.path == a.sessions[s].info.value else NeutralStart(t.path))
      && b == a.(sessions := a.sessions[s := OwnSession(a.sessions[s].info, Some(t))])
    case Execute(s) =>
      && s in a.sessions && a.sessions[s].txn.Some? && !a.sessions[s].txn.value.failed
      && b == a.(log := a.log + [Entry(s, a.sessions[s].info, a.sessions[s].txn.value.path)])
    case RawSet(s, p) =>
      && s in a.sessions && a.sessions[s].txn.Some? && a.sessions[s].info.None?
      && var t := a.sessions[s].txn.value;
      && b == a.(sessions := a.sessions[s := a.sessions[s].(txn := Some(if t.failed then t else Txn(p, false)))])
    case Fail(s) =>
      && s in a.sessions && a.sessions[s].txn.Some?
      && b == a.(sessions := a.sessions[s := a.sessions[s].(txn := Some(a.sessions[s].txn.value.(failed := true)))])
    case Commit(s, _) =>
      s in a.sessions && a.sessions[s].txn.Some? && b == a.(sessions := a.sessions[s := a.sessions[s].(txn := None)])
    case Rollback(s, _) =>
      s in a.sessions && a.sessions[s].txn.Some? && b == a.(sessions := a.sessions[s := a.sessions[s].(txn := None)])
    case Close(s, _) =>
      s in a.sessions && b == a.(sessions := a.sessions - {s})
  }

  ghost predicate OwnRun(a: OwnState, es: seq<Event>, b: OwnState)
    decreases |es|
  {
    if es == [] then a == b
    else exists mid :: OwnNext(a, es[0], mid) && OwnRun(mid, es[1..], b)
  }

  /** What a pooled session looks like from outside: its info and its open transaction. */
  ghost function OwnView(st: State, s: nat): OwnSession
    requires s in st.sessions
  {
    OwnSession(st.sessions[s].info, if Borrowing(st, s) then Borrowed(st, s).txn else None)
  }

  ghost function Abs(st: State): OwnState {
    OwnState(map s | s in st.sessions :: OwnView(st, s), st.log)
  }

  /** An event of one session is invisible to every other session. */
  lemma OthersUntouched(st: State, e: Event, t: nat)
    requires Exclusive(st) && Step(INSTALLED, st, e).Some? && t != e.s
    ensures t in st.sessions <==> t in Step(INSTALLED, st, e).value.sessions
    ensures t in st.sessions ==> OwnView(Step(INSTALLED, st, e).value, t) == OwnView(st, t)
  {
  }

  lemma OwnSessionAfter(st: State, e: Event)
    requires Step(INSTALLED, st, e).Some?
    ensures e.s in Step(INSTALLED, st, e).value.sessions <==> !e.Close?
    ensures e.s in st.sessions || e.Open?
  {
  }

  /** Seen from outside, an event changes its own session only. */
  lemma ViewsAfter(st: State, e: Event)
    requires Exclusive(st) && Step(INSTALLED, st, e).Some?
    ensures var next := Step(INSTALLED, st, e).value;
            && (e.s in next.sessions <==> !e.Close?)
            && Abs(next).sessions == if e.Close? then Abs(st).sessions - {e.s}
                                     else Abs(st).sessions[e.s := OwnView(next, e.s)]
  {
    var next := Step(INSTALLED, st, e).value;
    OwnSessionAfter(st, e);
    forall t: nat | t != e.s
      ensures t in Abs(st).sessions <==> t in Abs(next).sessions
      ensures t in Abs(st).sessions ==> Abs(next).sessions[t] == Abs(st).sessions[t]
    {
      OthersUntouched(st, e, t);
    }
  }

  /** Each step of the pooled system is a step of the simple one, with the same log. */
  lemma StepRefines(st: State, e: Event)
    requires Exclusive(st) && Neutral(st) && OnOwnPath(st) && Step(INSTALLED, st, e).Some?
    ensures OwnNext(Abs(st), e, Abs(Step(INSTALLED, st, e).value))
  {
    ViewsAfter(st, e);
    if e.Execute? {
      var next := Step(INSTALLED, st, e).value;
      assert OwnView(next, e.s) == OwnView(st, e.s);
      assert Abs(next).sessions == Abs(st).sessions;
    }
  }

  lemma {:induction false} RunRefines(st: State, es: seq<Event>)
    requires Exclusive(st) && Neutral(st) && OnOwnPath(st) && LogIsolated(st.log) && Run(INSTALLED, st, es).Some?
    ensures OwnRun(Abs(st), es, Abs(Run(INSTALLED, st, es).value))
    decreases |es|
  {
    if es != [] {
      var next := Step(INSTALLED, st, es[0]).value;
      StepRefines(st, es[0]);
      RunKeeps(INSTALLED, st, [es[0]]);
      assert Run(INSTALLED, next, [es[0]][1..]) == Some(next);
      RunRefines(next, es[1..]);
    }
  }

  /** Main theorem: whatever the interleaving, the reuse of connections and the way each use
      ended, the pooled system produces a log that private connections produce too. */
  lemma PooledRefinesPrivate(es: seq<Event>)
    requires Run(INSTALLED, INIT, es).Some?
    ensures exists b :: OwnRun(OWN_INIT, es, b) && b.log == Run(INSTALLED, INIT, es).value.log
    ensures LogIsolated(Run(INSTALLED, INIT, es).value.log)
  {
    RunRefines(INIT, es);
    RunKeeps(INSTALLED, INIT, es);
    assert Abs(INIT) == OWN_INIT;
    var b := Abs(Run(INSTALLED, INIT, es).value);
    assert OwnRun(OWN_INIT, es, b);
  }

  // ---------------------------------------------------------------- nothing is refused

  /** In every reachable state: any session may be opened; one without a transaction may begin on
      every idle connection and on every new one; one with a transaction may end it in any way, and
      execute unless a statement has failed; and any session may be closed. */
  lemma EventsEnabled(es: seq<Event>, s: nat, info: Option<Path>, c: nat, how: Return)
    requires Run(INSTALLED, INIT, es).Some?
    ensures var st := Run(INSTALLED, INIT, es).value;
            && (s !in st.sessions ==> Step(INSTALLED, st, Open(s, info)).Some?)
            && (s in st.sessions ==> Step(INSTALLED, st, Close(s, how)).Some?)
            && (s in st.sessions && st.sessions[s].conn.None? && (c in st.idle || c !in st.conns) ==>
                  Step(INSTALLED, st, Begin(s, c)).Some?)
            && (s in st.sessions && st.sessions[s].conn.Some? ==> TransactionEnabled(st, s, how))
  {
    RunKeeps(INSTALLED, INIT, es);
    var st := Run(INSTALLED, INIT, es).value;
    if s in st.sessions && st.sessions[s].conn.Some? { BorrowerEnabled(st, s, how); }
  }

  /** The session's transaction may end in any way, and go on unless a statement has failed. */
  ghost predicate TransactionEnabled(st: State, s: nat, how: Return)
    requires s in st.sessions
  {
    && Step(INSTALLED, st, Commit(s, how)).Some? && Step(INSTALLED, st, Rollback(s, how)).Some?
    && Step(INSTALLED, st, Fail(s)).Some? && OwnView(st, s).txn.Some?
    && (Step(INSTALLED, st, Execute(s)).Some? <==> !OwnView(st, s).txn.value.failed)
  }

  lemma BorrowerEnabled(st: State, s: nat, how: Return)
    requires Borrowing(st, s)
    ensures TransactionEnabled(st, s, how)
  {
  }

  /** Unless it is only terminated, the connection of a transaction that committed or rolled back is
      idle afterwards, on `public`, and any session without a transaction may take it. */
  lemma ReturnedIsBorrowable(es: seq<Event>, s: nat, how: Return, commits: bool, t: nat)
    requires Run(INSTALLED, INIT, es).Some?
    requires var st := Run(INSTALLED, INIT, es).value;
             && s in st.sessions && st.sessions[s].conn.Some?
             && (t == s || (t in st.sessions && st.sessions[t].conn.None?))
    ensures var st := Run(INSTALLED, INIT, es).value;
            var next := Step(INSTALLED, st, if commits then Commit(s, how) else Rollback(s, how));
            var c := st.sessions[s].conn.value;
            && next.Some? && s in next.value.sessions && next.value.sessions[s].conn.None?
            && (c in next.value.idle <==> !how.Terminate?)
            && (!how.Terminate? ==>
                  && c in next.value.conns && next.value.conns[c] == Conn(PUBLIC, None)
                  && Step(INSTALLED, next.value, Begin(t, c)).Some?)
  {
    RunKeeps(INSTALLED, INIT, es);
    ReturnedIsIdle(Run(INSTALLED, INIT, es).value, s, how, commits);
  }

  lemma ReturnedIsIdle(st: State, s: nat, how: Return, commits: bool)
    requires Borrowing(st, s)
    ensures var next := Step(INSTALLED, st, if commits then Commit(s, how) else Rollback(s, how));
            var c := st.sessions[s].conn.value;
            && next.Some? && next.value.sessions == st.sessions[s := st.sessions[s].(conn := None)]
            && (!how.Terminate? ==>
                c in next.value.idle && c in next.value.conns && next.value.conns[c] == Conn(PUBLIC, None))
            && (how.Terminate? ==> next.value.idle == st.idle)
  {
  }

  /** Closing with an open transaction gives the connection back too. */
  lemma ClosedIsReturned(es: seq<Event>, s: nat)
    requires Run(INSTALLED, INIT, es).Some?
    requires s in Run(INSTALLED, INIT, es).value.sessions && Run(INSTALLED, INIT, es).value.sessions[s].conn.Some?
    ensures var st := Run(INSTALLED, INIT, es).value;
            var next := Step(INSTALLED, st, Close(s, RollbackThenHook));
            next.Some? && s !in next.value.sessions && st.sessions[s].conn.value in next.value.idle
  {
    RunKeeps(INSTALLED, INIT, es);
  }

  /** A private system has one next state for an event, but for where a raw session begins. */
  lemma OwnNextDetermined(a: OwnState, e: Event, b: OwnState, other: OwnState)
    requires OwnNext(a, e, b) && OwnNext(a, e, other)
    requires e.Begin? && e.s in a.sessions ==> a.sessions[e.s].info.Some?
    ensures b == other
  {
  }

  /** The other half of the refinement: in every reachable state each event of the private system is
      an event of the pool, on any idle connection or a new one, and leads to the same state; a raw
      session begins on `public` on every idle connection and on the default on every new one. */
  lemma PrivateStepsMatched(es: seq<Event>, e: Event, b: OwnState)
    requires Run(INSTALLED, INIT, es).Some?
    requires var st := Run(INSTALLED, INIT, es).value;
             OwnNext(Abs(st), e, b) && (e.Begin? ==> e.c in st.idle || e.c !in st.conns)
    ensures var st := Run(INSTALLED, INIT, es).value;
            var next := Step(INSTALLED, st, e);
            && next.Some? && next.value.log == b.log
            && (!e.Begin? || st.sessions[e.s].info.Some? ==> Abs(next.value) == b)
            && (e.Begin? && st.sessions[e.s].info.None? ==>
                  OwnView(next.value, e.s).txn == Some(Txn(if e.c in st.idle then PUBLIC else SERVER_DEFAULT, false)))
  {
    RunKeeps(INSTALLED, INIT, es);
    var st := Run(INSTALLED, INIT, es).value;
    PrivateStepEnabled(st, e, b);
    StepRefines(st, e);
    if !e.Begin? || st.sessions[e.s].info.Some? {
      OwnNextDetermined(Abs(st), e, b, Abs(Step(INSTALLED, st, e).value));
    }
  }

  lemma PrivateStepEnabled(st: State, e: Event, b: OwnState)
    requires Exclusive(st) && OwnNext(Abs(st), e, b) && (e.Begin? ==> e.c in st.idle || e.c !in st.conns)
    ensures Step(INSTALLED, st, e).Some?
  {
    if e.s in st.sessions { assert Abs(st).sessions[e.s] == OwnView(st, e.s); }
  }

  /** One connection serves a session twice. */
  lemma ConnectionReused()
    ensures var end := Run(INSTALLED, INIT, [Open(0, None), Begin(0, 0), Commit(0, RollbackThenHook), Begin(0, 0)]);
            end.Some? && end.value.conns.Keys == {0} && end.value.sessions[0].conn == Some(0)
  {
    var es := [Open(0, None), Begin(0, 0), Commit(0, RollbackThenHook), Begin(0, 0)];
    var s1 := Step(INSTALLED, INIT, es[0]).value;
    var s2 := Step(INSTALLED, s1, es[1]).value;
    var s3 := Step(INSTALLED, s2, es[2]).value;
    var s4 := Step(INSTALLED, s3, es[3]).value;
    assert s4.conns.Keys == {0};
    assert es[1..][1..] == es[2..] && es[2..][1..] == [es[3]];
    assert Run(INSTALLED, s3, [es[3]]) == Some(s4);
    assert Run(INSTALLED, s2, es[2..]) == Some(s4);
    assert Run(INSTALLED, s1, es[1..]) == Some(s4);
  }

  // ---------------------------------------------------------------- the hooks as written

  /** A physical connection, changed in place by the two listeners. */
  class Connection {
    var committed: Path
    var txn: Option<Txn>

    ghost function View(): Conn
      reads this
    {
      Conn(committed, txn)
    }

    constructor ()
      ensures View() == Conn(SERVER_DEFAULT, None)
    {
      committed := SERVER_DEFAULT;
      txn := None;
    }

    /** Run `SET search_path`; `ok` is false when the open transaction has failed. */
    method Set(p: Path) returns (ok: bool)
      modifies this
      ensures View() == PgSet(old(View()), p)
      ensures ok == !(old(txn).Some? && old(txn).value.failed)
    {
      if txn.None? { txn := Some(Txn(committed, false)); }
      ok := !txn.value.failed;
      if ok { txn := Some(Txn(p, false)); }
    }

    method CommitTransaction()
      modifies this
      ensures View() == PgCommit(old(View()))
    {
      if txn.Some? && !txn.value.failed { committed := txn.value.path; }
      txn := None;
    }

    /** `_apply_search_path_on_transaction_begin` */
    method ApplySearchPathOnTransactionBegin(info: Option<Path>)
      modifies this
      ensures View() == AfterBegin(INSTALLED, old(View()), info)
      ensures info.Some? && !(old(txn).Some? && old(txn).value.failed) ==>
                txn == Some(Txn(info.value, false)) && committed == old(committed)
    {
      if info.Some? {
        var _ := Set(info.value);
      }
    }

    /** `_reset_search_path_on_checkin`; `kept` is false when the connection is not to be reused. */
    method ResetSearchPathOnCheckin(terminateOnly: bool, asyncioSafe: bool) returns (kept: bool)
      modifies this
      ensures terminateOnly || !asyncioSafe ==> !kept && View() == old(View())
      ensures !terminateOnly && asyncioSafe ==> kept == ResetHook(INSTALLED, old(View())).Some?
      ensures kept ==> ResetHook(INSTALLED, old(View())) == Some(View())
      ensures kept ==> View() == Conn(PUBLIC, None)
    {
      if terminateOnly || !asyncioSafe { return false; }
      kept := Set(PUBLIC);
      if kept { CommitTransaction(); }
    }
  }
}

/** Rotation and revocation of refresh tokens (app/modules/auth/service.py).

    Transactions interleave statement by statement under Read Committed: an UPDATE waits for the
    transaction that has written the row, then decides on the row's newest committed version. */
module RefreshTokens {

  import opened Common

  /** One `refresh_tokens` row.  The family is the id of the login row it descends from. */
  datatype Row = Row(user: nat, family: nat, parent: Option<nat>, revoked: bool)

  /** How far a transaction has got. */
  datatype Work =
    | Read(row: nat)                 // refresh: the SELECT found the row live
    | Claimed(row: nat)              // refresh: the UPDATE changed one row
    | Issued(row: nat, child: nat)   // refresh: the next token's row is inserted
    | Login(child: nat)              // login: the first token's row is inserted
    | Revoking(todo: set<nat>)       // logout and friends: rows of the UPDATE still to visit
    | RevokeRead(row: nat)           // revoke_session: the SELECT found the row live
    | RevokeDone(row: nat)           // revoke_session: the row is written

  /** `writes` are the rows this transaction marks revoked; it holds their locks. */
  datatype Txn = Txn(work: Work, writes: set<nat>, inserts: map<nat, Row>)

  /** `rows` is the committed table; `consumed` lists the tokens exchanged, in commit order. */
  datatype State = State(rows: map<nat, Row>, txns: map<nat, Txn>, nextId: nat, consumed: seq<nat>)

  datatype Event =
    | BeginRefresh(t: nat, row: nat)
    | Claim(t: nat)
    | Issue(t: nat)
    | BeginLogin(t: nat, user: nat)
    | BeginRevokeAll(t: nat, user: nat, keep: Option<nat>)
    | Visit(t: nat, row: nat)
    | BeginRevokeOne(t: nat, user: nat, row: nat)
    | WriteRevoked(t: nat)
    | Commit(t: nat)
    | Abort(t: nat)

  const INIT := State(map[], map[], 0, [])

  /** No other transaction holds the row. */
  predicate Unlocked(st: State, t: nat, row: nat) {
    forall u :: u in st.txns && u != t ==> row !in st.txns[u].writes
  }

  predicate Live(st: State, row: nat) {
    row in st.rows && !st.rows[row].revoked
  }

  /** The rows a bulk revocation is to write. */
  function LiveRows(st: State, user: nat, keep: Option<nat>): set<nat> {
    set r | r in st.rows && st.rows[r].user == user && !st.rows[r].revoked && keep != Some(r)
  }

  function Put(st: State, t: nat, txn: Txn): State {
    st.(txns := st.txns[t := txn])
  }

  function Drop(st: State, t: nat): State {
    st.(txns := st.txns - {t})
  }

  /** The UPDATE of `refresh_token`.  With its WHERE clause re-evaluated, a row revoked meanwhile
      counts zero rows and the request is rejected; an unconditional write would always win. */
  function ClaimStep(conditional: bool, st: State, t: nat, row: nat): State
    requires row in st.rows
  {
    if conditional && st.rows[row].revoked then Drop(st, t)
    else Put(st, t, Txn(Claimed(row), {row}, map[]))
  }

  predicate Finished(w: Work) {
    w.Issued? || w.Login? || w.RevokeDone? || w == Revoking({})
  }

  function Applied(rows: map<nat, Row>, txn: Txn): map<nat, Row> {
    (map r | r in rows :: if r in txn.writes then rows[r].(revoked := true) else rows[r]) + txn.inserts
  }

  function CommitStep(st: State, t: nat): State
    requires t in st.txns
  {
    var txn := st.txns[t];
    State(Applied(st.rows, txn), st.txns - {t}, st.nextId,
          st.consumed + if txn.work.Issued? then [txn.work.row] else [])
  }

  /** `None` when the event cannot happen, in particular when it would have to wait for a lock. */
  function Step(conditional: bool, st: State, e: Event): Option<State> {
    match e
    case BeginRefresh(t, row) =>
      if t in st.txns || !Live(st, row) then None else Some(Put(st, t, Txn(Read(row), {}, map[])))
    case Claim(t) =>
      if t !in st.txns || !st.txns[t].work.Read? || st.txns[t].work.row !in st.rows
         || !Unlocked(st, t, st.txns[t].work.row) then None
      else Some(ClaimStep(conditional, st, t, st.txns[t].work.row))
    case Issue(t) =>
      if t !in st.txns || !st.txns[t].work.Claimed? || st.txns[t].work.row !in st.rows then None
      else
        var parent := st.txns[t].work.row;
        var child := Row(st.rows[parent].user, st.rows[parent].family, Some(parent), false);
        Some(Put(st.(nextId := st.nextId + 1), t,
                 Txn(Issued(parent, st.nextId), st.txns[t].writes, map[st.nextId := child])))
    case BeginLogin(t, user) =>
      if t in st.txns then None
      else
        Some(Put(st.(nextId := st.nextId + 1), t,
                 Txn(Login(st.nextId), {}, map[st.nextId := Row(user, st.nextId, None, false)])))
    case BeginRevokeAll(t, user, keep) =>
      if t in st.txns then None
      else Some(Put(st, t, Txn(Revoking(LiveRows(st, user, keep)), {}, map[])))
    case Visit(t, row) =>
      if t !in st.txns || !st.txns[t].work.Revoking? || row !in st.txns[t].work.todo || row !in st.rows
         || !Unlocked(st, t, row) then None
      else
        var txn := st.txns[t];
        Some(Put(st, t, Txn(Revoking(txn.work.todo - {row}),
                            if st.rows[row].revoked then txn.writes else txn.writes + {row}, map[])))
    case BeginRevokeOne(t, user, row) =>
      if t in st.txns || !Live(st, row) || st.rows[row].user != user then None
      else Some(Put(st, t, Txn(RevokeRead(row), {}, map[])))
    case WriteRevoked(t) =>
      if t !in st.txns || !st.txns[t].work.RevokeRead? || st.txns[t].work.row !in st.rows
         || !Unlocked(st, t, st.txns[t].work.row) then None
      else Some(Put(st, t, Txn(RevokeDone(st.txns[t].work.row), {st.txns[t].work.row}, map[])))
    case Commit(t) =>
      if t !in st.txns || !Finished(st.txns[t].work) then None else Some(CommitStep(st, t))
    case Abort(t) =>
      if t !in st.txns then None else Some(Drop(st, t))
  }

  function Run(conditional: bool, st: State, es: seq<Event>): Option<State>
    decreases |es|
  {
    if es == [] then Some(st)
    else
      match Step(conditional, st, es[0])
      case None => None
      case Some(next) => Run(conditional, next, es[1..])
  }

  // ---------------------------------------------------------------- invariant

  /** What an open transaction may rely on. */
  ghost predicate TxnOk(st: State, t: nat)
    requires t in st.txns
  {
    var x := st.txns[t];
    && x.writes <= st.rows.Keys
    && (forall id :: id in x.inserts ==> id < st.nextId && id !in st.rows)
    && match x.work
       case Claimed(row) => x.writes == {row} && Live(st, row) && x.inserts == map[]
       case Issued(row, child) =>
         && x.writes == {row} && Live(st, row)
         && x.inserts == map[child := Row(st.rows[row].user, st.rows[row].family, Some(row), false)]
       case Login(child) =>
         && x.writes == {} && child in x.inserts
         && x.inserts == map[child := Row(x.inserts[child].user, child, None, false)]
       case _ => x.inserts == map[]
  }

  /** Locks are exclusive and ids are handed out once. */
  ghost predicate TxnsApart(st: State) {
    forall t, u :: t in st.txns && u in st.txns && t != u ==>
      st.txns[t].writes !! st.txns[u].writes && st.txns[t].inserts.Keys !! st.txns[u].inserts.Keys
  }

  /** At most one live row per family. */
  ghost predicate OneLivePerFamily(rows: map<nat, Row>) {
    forall r, s :: r in rows && s in rows && r != s && !rows[r].revoked && !rows[s].revoked ==>
      rows[r].family != rows[s].family
  }

  /** Families are named by a committed login; parents are consumed tokens, with one child each. */
  ghost predicate Lineage(rows: map<nat, Row>, consumed: seq<nat>) {
    && (forall r {:trigger rows[r].family} :: r in rows ==> rows[r].family in rows)
    && (forall r {:trigger rows[r].parent} :: r in rows && rows[r].parent.Some? ==> rows[r].parent.value in consumed)
    && (forall r, s {:trigger rows[r].parent, rows[s].parent} ::
          r in rows && s in rows && r != s && rows[r].parent.Some? ==> rows[r].parent != rows[s].parent)
  }

  /** A token is exchanged at most once, and is revoked from then on. */
  ghost predicate ConsumedOnce(rows: map<nat, Row>, consumed: seq<nat>) {
    && (forall i :: 0 <= i < |consumed| ==> consumed[i] in rows && rows[consumed[i]].revoked)
    && (forall i, j :: 0 <= i < j < |consumed| ==> consumed[i] != consumed[j])
  }

  ghost predicate Inv(st: State) {
    && (forall r :: r in st.rows ==> r < st.nextId)
    && (forall t :: t in st.txns ==> TxnOk(st, t))
    && TxnsApart(st)
    && OneLivePerFamily(st.rows)
    && Lineage(st.rows, st.consumed)
    && ConsumedOnce(st.rows, st.consumed)
  }

  // ---------------------------------------------------------------- preservation

  /** Steps that only move one transaction forward. */
  lemma PutKeepsInv(st: State, t: nat, txn: Txn, nextId: nat)
    requires Inv(st) && nextId >= st.nextId
    requires forall u :: u in st.txns && u != t ==> st.txns[u].writes !! txn.writes
    requires forall id :: id in txn.inserts ==> st.nextId <= id < nextId
    requires TxnOk(Put(st.(nextId := nextId), t, txn), t)
    ensures Inv(Put(st.(nextId := nextId), t, txn))
  {
    var next := Put(st.(nextId := nextId), t, txn);
    forall u | u in next.txns ensures TxnOk(next, u) {
      if u != t { assert TxnOk(st, u); }
    }
  }

  lemma DropKeepsInv(st: State, t: nat)
    requires Inv(st)
    ensures Inv(Drop(st, t))
  {
    forall u | u in Drop(st, t).txns ensures TxnOk(Drop(st, t), u) {
      assert TxnOk(st, u);
    }
  }

  /** The table after a commit still has at most one live row per family. */
  lemma CommitKeepsFamilies(st: State, t: nat)
    requires Inv(st) && t in st.txns && Finished(st.txns[t].work)
    ensures OneLivePerFamily(CommitStep(st, t).rows)
  {
    assert TxnOk(st, t);
    var x, rows := st.txns[t], CommitStep(st, t).rows;
    forall r, s | r in rows && s in rows && r != s && !rows[r].revoked && !rows[s].revoked
      ensures rows[r].family != rows[s].family
    {
      if r in st.rows && s in st.rows {
        assert r !in x.inserts && s !in x.inserts;
      } else {
        var former := if r in st.rows then r else s;
        assert former in st.rows;
        assert rows[former].family in st.rows;
      }
    }
  }

  /** Names and parents of the rows after a commit are known. */
  lemma CommitKeepsAncestors(st: State, t: nat, r: nat)
    requires Inv(st) && t in st.txns && Finished(st.txns[t].work) && r in CommitStep(st, t).rows
    ensures CommitStep(st, t).rows[r].family in CommitStep(st, t).rows
    ensures CommitStep(st, t).rows[r].parent.Some? ==>
              CommitStep(st, t).rows[r].parent.value in CommitStep(st, t).consumed
  {
    assert TxnOk(st, t);
    var x, next := st.txns[t], CommitStep(st, t);
    if r in st.rows {
      assert r !in x.inserts;
      assert st.rows[r].family in next.rows;
    } else if x.work.Issued? {
      assert next.consumed[|st.consumed|] == x.work.row;
      assert st.rows[x.work.row].family in next.rows;
    }
  }

  /** A committed child does not share its parent with another row. */
  lemma CommitKeepsOneChild(st: State, t: nat, r: nat, s: nat)
    requires Inv(st) && t in st.txns && Finished(st.txns[t].work)
    requires r in CommitStep(st, t).rows && s in CommitStep(st, t).rows && r != s
    requires CommitStep(st, t).rows[r].parent.Some?
    ensures CommitStep(st, t).rows[r].parent != CommitStep(st, t).rows[s].parent
  {
    assert TxnOk(st, t);
    var x, rows := st.txns[t], CommitStep(st, t).rows;
    if r in st.rows && s in st.rows {
      assert r !in x.inserts && s !in x.inserts;
      assert rows[r].parent == st.rows[r].parent && rows[s].parent == st.rows[s].parent;
    } else if x.work.Issued? {
      var other := if r in st.rows then r else s;
      assert other in st.rows && other !in x.inserts && rows[other].parent == st.rows[other].parent;
      assert Live(st, x.work.row) && x.work.row !in st.consumed;
    }
  }

  lemma CommitKeepsLineage(st: State, t: nat)
    requires Inv(st) && t in st.txns && Finished(st.txns[t].work)
    ensures Lineage(CommitStep(st, t).rows, CommitStep(st, t).consumed)
  {
    forall r | r in CommitStep(st, t).rows
      ensures CommitStep(st, t).rows[r].family in CommitStep(st, t).rows
      ensures CommitStep(st, t).rows[r].parent.Some? ==>
                CommitStep(st, t).rows[r].parent.value in CommitStep(st, t).consumed
    {
      CommitKeepsAncestors(st, t, r);
    }
    forall r, s | r in CommitStep(st, t).rows && s in CommitStep(st, t).rows && r != s
                  && CommitStep(st, t).rows[r].parent.Some?
      ensures CommitStep(st, t).rows[r].parent != CommitStep(st, t).rows[s].parent
    {
      CommitKeepsOneChild(st, t, r, s);
    }
  }

  lemma CommitKeepsConsumed(st: State, t: nat)
    requires Inv(st) && t in st.txns && Finished(st.txns[t].work)
    ensures ConsumedOnce(CommitStep(st, t).rows, CommitStep(st, t).consumed)
  {
    assert TxnOk(st, t);
    var x, next := st.txns[t], CommitStep(st, t);
    forall i | 0 <= i < |next.consumed| ensures next.consumed[i] in next.rows && next.rows[next.consumed[i]].revoked {
      assert next.consumed[i] !in x.inserts;
    }
  }

  /** A commit leaves every other transaction what it relies on. */
  lemma CommitKeepsTxn(st: State, t: nat, u: nat)
    requires Inv(st) && t in st.txns && Finished(st.txns[t].work) && u in st.txns && u != t
    ensures u in CommitStep(st, t).txns && TxnOk(CommitStep(st, t), u)
  {
    var x, next := st.txns[t], CommitStep(st, t);
    assert TxnOk(st, t) && TxnOk(st, u);
    assert x.writes !! st.txns[u].writes && x.inserts.Keys !! st.txns[u].inserts.Keys;
    assert forall id :: id in st.rows && id !in x.writes && id !in x.inserts ==> next.rows[id] == st.rows[id];
  }

  lemma CommitKeepsInv(st: State, t: nat)
    requires Inv(st) && t in st.txns && Finished(st.txns[t].work)
    ensures Inv(CommitStep(st, t))
  {
    CommitKeepsFamilies(st, t);
    CommitKeepsLineage(st, t);
    CommitKeepsConsumed(st, t);
    assert TxnOk(st, t);
    var next := CommitStep(st, t);
    forall u | u in next.txns ensures TxnOk(next, u) {
      CommitKeepsTxn(st, t, u);
    }
  }

  lemma RefreshKeepsInv(st: State, e: Event)
    requires Inv(st) && Step(true, st, e).Some? && (e.BeginRefresh? || e.Claim? || e.Issue?)
    ensures Inv(Step(true, st, e).value)
  {
    var next := Step(true, st, e).value;
    if e.t in st.txns { assert TxnOk(st, e.t); }
    if next == Drop(st, e.t) {
      DropKeepsInv(st, e.t);
    } else {
      PutKeepsInv(st, e.t, next.txns[e.t], next.nextId);
    }
  }

  lemma LoginKeepsInv(st: State, t: nat, user: nat)
    requires Inv(st) && Step(true, st, BeginLogin(t, user)).Some?
    ensures Inv(Step(true, st, BeginLogin(t, user)).value)
  {
    var next := Step(true, st, BeginLogin(t, user)).value;
    PutKeepsInv(st, t, next.txns[t], next.nextId);
  }

  lemma VisitKeepsInv(st: State, t: nat, row: nat)
    requires Inv(st) && Step(true, st, Visit(t, row)).Some?
    ensures Inv(Step(true, st, Visit(t, row)).value)
  {
    var next := Step(true, st, Visit(t, row)).value;
    assert TxnOk(st, t);
    PutKeepsInv(st, t, next.txns[t], next.nextId);
  }

  lemma RevokeKeepsInv(st: State, e: Event)
    requires Inv(st) && Step(true, st, e).Some?
    requires e.BeginRevokeAll? || e.BeginRevokeOne? || e.WriteRevoked?
    ensures Inv(Step(true, st, e).value)
  {
    var next := Step(true, st, e).value;
    if e.t in st.txns { assert TxnOk(st, e.t); }
    PutKeepsInv(st, e.t, next.txns[e.t], next.nextId);
  }

  lemma StepKeepsInv(st: State, e: Event)
    requires Inv(st) && Step(true, st, e).Some?
    ensures Inv(Step(true, st, e).value)
  {
    match e
    case BeginRefresh(_, _) => RefreshKeepsInv(st, e);
    case Claim(_) => RefreshKeepsInv(st, e);
    case Issue(_) => RefreshKeepsInv(st, e);
    case BeginLogin(t, user) => LoginKeepsInv(st, t, user);
    case Commit(t) => CommitKeepsInv(st, t);
    case Abort(t) => DropKeepsInv(st, t);
    case Visit(t, row) => VisitKeepsInv(st, t, row);
    case _ => RevokeKeepsInv(st, e);
  }

  lemma {:induction false} RunKeepsInv(st: State, es: seq<Event>)
    requires Inv(st) && Run(true, st, es).Some?
    ensures Inv(Run(true, st, es).value)
    decreases |es|
  {
    if es != [] {
      StepKeepsInv(st, es[0]);
      RunKeepsInv(Step(true, st, es[0]).value, es[1..]);
    }
  }

  // ---------------------------------------------------------------- results

  /** Rows are never deleted, never change owner or ancestry, and never come back to life. */
  ghost predicate Grows(before: map<nat, Row>, after: map<nat, Row>) {
    forall r :: r in before ==>
      r in after && (after[r] == before[r] || after[r] == before[r].(revoked := true))
  }

  lemma GrowsTransitive(a: map<nat, Row>, b: map<nat, Row>, c: map<nat, Row>)
    requires Grows(a, b) && Grows(b, c)
    ensures Grows(a, c)
  {
  }

  lemma StepGrows(st: State, e: Event)
    requires Inv(st) && Step(true, st, e).Some?
    ensures Grows(st.rows, Step(true, st, e).value.rows)
  {
    if e.Commit? {
      assert TxnOk(st, e.t);
    }
  }

  lemma {:induction false} RunGrows(st: State, es: seq<Event>)
    requires Inv(st) && Run(true, st, es).Some?
    ensures Grows(st.rows, Run(true, st, es).value.rows)
    decreases |es|
  {
    if es != [] {
      var next := Step(true, st, es[0]).value;
      StepGrows(st, es[0]);
      StepKeepsInv(st, es[0]);
      RunGrows(next, es[1..]);
      GrowsTransitive(st.rows, next.rows, Run(true, next, es[1..]).value.rows);
    }
  }

  /** In every interleaving: tokens are exchanged at most once, each family has at most one live
      row, and each token has at most one successor. */
  lemma RotationSafe(es: seq<Event>)
    requires Run(true, INIT, es).Some?
    ensures var st := Run(true, INIT, es).value;
            OneLivePerFamily(st.rows) && ConsumedOnce(st.rows, st.consumed) && Lineage(st.rows, st.consumed)
  {
    RunKeepsInv(INIT, es);
  }

  lemma {:induction false} RunSplits(conditional: bool, st: State, xs: seq<Event>, ys: seq<Event>)
    requires Run(conditional, st, xs).Some?
    ensures Run(conditional, st, xs + ys) == Run(conditional, Run(conditional, st, xs).value, ys)
    decreases |xs|
  {
    if xs == [] {
      assert xs + ys == ys;
    } else {
      assert (xs + ys)[1..] == xs[1..] + ys;
      RunSplits(conditional, Step(conditional, st, xs[0]).value, xs[1..], ys);
    }
  }

  /** A run goes on with one more event. */
  lemma RunNext(conditional: bool, st: State, es: seq<Event>, e: Event)
    requires Run(conditional, st, es).Some?
    ensures Run(conditional, st, es + [e]) == Step(conditional, Run(conditional, st, es).value, e)
  {
    RunSplits(conditional, st, es, [e]);
    assert [e][1..] == [];
  }

  /** A row revoked at some point of a run is revoked at every later point. */
  lemma RevokedForEver(xs: seq<Event>, ys: seq<Event>, row: nat)
    requires Run(true, INIT, xs).Some? && Run(true, INIT, xs + ys).Some?
    requires row in Run(true, INIT, xs).value.rows && Run(true, INIT, xs).value.rows[row].revoked
    ensures row in Run(true, INIT, xs + ys).value.rows && Run(true, INIT, xs + ys).value.rows[row].revoked
  {
    RunSplits(true, INIT, xs, ys);
    RunKeepsInv(INIT, xs);
    RunGrows(Run(true, INIT, xs).value, ys);
  }

  /** No token is ever exchanged twice. */
  ghost predicate ExchangedOnce(conditional: bool) {
    forall es :: Run(conditional, INIT, es).Some? ==>
      var c := Run(conditional, INIT, es).value.consumed;
      forall i, j :: 0 <= i < j < |c| ==> c[i] != c[j]
  }

  /** The single exchange rests on the re-evaluated WHERE clause of the claim. */
  lemma ExchangeNeedsConditionalClaim(conditional: bool)
    ensures ExchangedOnce(conditional) <==> conditional
  {
    if conditional {
      forall es | Run(true, INIT, es).Some?
        ensures var c := Run(true, INIT, es).value.consumed; forall i, j :: 0 <= i < j < |c| ==> c[i] != c[j]
      {
        RotationSafe(es);
      }
    } else {
      var es := UnconditionalDoubleExchange();
      var c := Run(false, INIT, es).value.consumed;
      assert c[0] == c[1];
    }
  }

  const LOGIN: seq<Event> := [BeginLogin(0, 7), Commit(0)]
  const BOTH: seq<Event> := [BeginRefresh(1, 0), BeginRefresh(2, 0)]
  const FIRST: seq<Event> := [Claim(1), Issue(1), Commit(1)]
  const SECOND: seq<Event> := [Claim(2), Issue(2), Commit(2)]

  /** The state in which two requests have read the same live token. */
  const RACING := State(map[0 := Row(7, 0, None, false)],
                        map[1 := Txn(Read(0), {}, map[]), 2 := Txn(Read(0), {}, map[])], 1, [])

  const ONE_DONE := State(map[0 := Row(7, 0, None, true), 1 := Row(7, 0, Some(0), false)],
                          map[2 := Txn(Read(0), {}, map[])], 2, [0])

  lemma RacingReached()
    ensures Run(false, INIT, LOGIN + BOTH) == Some(RACING)
  {
    var s1 := Step(false, INIT, LOGIN[0]).value;
    var s2 := State(map[0 := Row(7, 0, None, false)], map[], 1, []);
    var after := CommitStep(s1, 0);
    assert after.rows == s2.rows && after.txns == s2.txns && after.consumed == s2.consumed;
    var s3 := Step(false, s2, BOTH[0]).value;
    assert Step(false, s3, BOTH[1]).value.txns == RACING.txns;
    Chain2(INIT, LOGIN, s1, s2);
    Chain2(s2, BOTH, s3, RACING);
    RunSplits(false, INIT, LOGIN, BOTH);
  }

  /** The first request has issued its token and not yet committed. */
  const ISSUED := State(RACING.rows,
                        RACING.txns[1 := Txn(Issued(0, 1), {0}, map[1 := Row(7, 0, Some(0), false)])], 2, [])

  lemma FirstCommits()
    ensures CommitStep(ISSUED, 1) == ONE_DONE
  {
    var next := CommitStep(ISSUED, 1);
    assert next.rows == ONE_DONE.rows;
    assert next.txns == ONE_DONE.txns;
    assert next.consumed == [0];
  }

  lemma FirstExchange()
    ensures Run(false, RACING, FIRST) == Some(ONE_DONE)
  {
    var s1 := Put(RACING, 1, Txn(Claimed(0), {0}, map[]));
    assert Step(false, RACING, FIRST[0]) == Some(s1);
    assert s1.txns[1 := ISSUED.txns[1]] == ISSUED.txns;
    assert Step(false, s1, FIRST[1]) == Some(ISSUED);
    FirstCommits();
    Chain3(RACING, FIRST, s1, ISSUED, ONE_DONE);
  }

  lemma SecondExchange()
    ensures Run(false, ONE_DONE, SECOND).Some? && Run(false, ONE_DONE, SECOND).value.consumed == [0, 0]
  {
    var s1 := Step(false, ONE_DONE, SECOND[0]).value;
    var s2 := Step(false, s1, SECOND[1]).value;
    var s3 := Step(false, s2, SECOND[2]).value;
    Chain3(ONE_DONE, SECOND, s1, s2, s3);
  }

  /** With an unconditional write both racing requests would exchange the same token. */
  lemma UnconditionalDoubleExchange() returns (es: seq<Event>)
    ensures Run(false, INIT, es).Some? && Run(false, INIT, es).value.consumed == [0, 0]
  {
    RacingReached();
    FirstExchange();
    SecondExchange();
    RunSplits(false, INIT, LOGIN + BOTH, FIRST);
    RunSplits(false, INIT, LOGIN + BOTH + FIRST, SECOND);
    es := LOGIN + BOTH + FIRST + SECOND;
  }

  lemma Chain2(st: State, es: seq<Event>, s1: State, s2: State)
    requires |es| == 2 && Step(false, st, es[0]) == Some(s1) && Step(false, s1, es[1]) == Some(s2)
    ensures Run(false, st, es) == Some(s2)
  {
    assert es[1..] == [es[1]];
    assert Run(false, s1, [es[1]]) == Some(s2);
  }

  lemma Chain3(st: State, es: seq<Event>, s1: State, s2: State, s3: State)
    requires |es| == 3 && Step(false, st, es[0]) == Some(s1) && Step(false, s1, es[1]) == Some(s2)
    requires Step(false, s2, es[2]) == Some(s3)
    ensures Run(false, st, es) == Some(s3)
  {
    Chain2(s1, es[1..], s2, s3);
  }

  /** What a commit in a reachable state promises. */
  lemma CommitLaws(es: seq<Event>, t: nat)
    requires Run(true, INIT, es).Some? && Step(true, Run(true, INIT, es).value, Commit(t)).Some?
    ensures var st := Run(true, INIT, es).value;
            var next := CommitStep(st, t);
            && Run(true, INIT, es + [Commit(t)]) == Some(next) && Grows(st.rows, next.rows)
            && OneLivePerFamily(next.rows)
            && ConsumedOnce(next.rows, next.consumed) && Lineage(next.rows, next.consumed)
  {
    RunNext(true, INIT, es, Commit(t));
    RotationSafe(es + [Commit(t)]);
    RunKeepsInv(INIT, es);
    StepGrows(Run(true, INIT, es).value, Commit(t));
  }

  /** Those of them that no other transaction holds. */
  function FreeRows(st: State, t: nat, seen: set<nat>): set<nat> {
    set r | r in seen && Unlocked(st, t, r)
  }

  /** A bulk revocation that has written `done` and has still to visit the rest. */
  function Partway(st: State, t: nat, seen: set<nat>, done: set<nat>): State {
    Put(st, t, Txn(Revoking(seen - done), done, map[]))
  }

  lemma PartwayBegins(st: State, t: nat, user: nat, keep: Option<nat>)
    requires t !in st.txns
    ensures Run(true, st, [BeginRevokeAll(t, user, keep)]) == Some(Partway(st, t, LiveRows(st, user, keep), {}))
  {
    var seen := LiveRows(st, user, keep);
    assert seen - {} == seen;
    assert [] + [BeginRevokeAll(t, user, keep)] == [BeginRevokeAll(t, user, keep)];
    RunNext(true, st, [], BeginRevokeAll(t, user, keep));
  }

  lemma PartwayNext(st: State, t: nat, seen: set<nat>, done: set<nat>, row: nat)
    requires t !in st.txns && row in FreeRows(st, t, seen) && row !in done && Live(st, row)
    ensures Step(true, Partway(st, t, seen, done), Visit(t, row)) == Some(Partway(st, t, seen, done + {row}))
  {
    var next := Txn(Revoking(seen - (done + {row})), done + {row}, map[]);
    assert seen - done - {row} == seen - (done + {row});
    assert Partway(st, t, seen, done).txns[t := next] == st.txns[t := next];
  }

  // ---------------------------------------------------------------- what each request does

  /** A transaction that was the last to join commits: the others are as they were. */
  lemma CommitAlone(st: State, t: nat, txn: Txn)
    requires t !in st.txns
    ensures CommitStep(Put(st, t, txn), t) ==
              State(Applied(st.rows, txn), st.txns, st.nextId,
                    if txn.work.Issued? then st.consumed + [txn.work.row] else st.consumed)
  {
    assert Put(st, t, txn).txns - {t} == st.txns && st.consumed + [] == st.consumed;
  }

  lemma RunTwo(st: State, a: Event, b: Event, s1: State, s2: State)
    requires Step(true, st, a) == Some(s1) && Step(true, s1, b) == Some(s2)
    ensures Run(true, st, [a, b]) == Some(s2)
  {
    assert [a, b][1..] == [b] && [b][1..] == [];
    assert Run(true, s1, [b]) == Some(s2);
  }

  /** The run goes on through four events. */
  lemma RunFour(st: State, a: Event, b: Event, c: Event, d: Event, s1: State, s2: State, s3: State, s4: State)
    requires Step(true, st, a) == Some(s1) && Step(true, s1, b) == Some(s2)
    requires Step(true, s2, c) == Some(s3) && Step(true, s3, d) == Some(s4)
    ensures Run(true, st, [a, b, c, d]) == Some(s4)
  {
    RunTwo(s2, c, d, s3, s4);
    assert [a, b, c, d][1..] == [b, c, d] && [b, c, d][1..] == [c, d];
    assert Run(true, s1, [b, c, d]) == Some(s4);
  }

  lemma FreshId(xs: seq<Event>)
    requires Run(true, INIT, xs).Some?
    ensures Run(true, INIT, xs).value.nextId !in Run(true, INIT, xs).value.rows
  {
    RunKeepsInv(INIT, xs);
  }

  /** The table after a token was exchanged for its child. */
  function Exchanged(st: State, row: nat): map<nat, Row>
    requires row in st.rows
  {
    st.rows[row := st.rows[row].(revoked := true)]
           [st.nextId := Row(st.rows[row].user, st.rows[row].family, Some(row), false)]
  }

  lemma RefreshAlone(st: State, t: nat, row: nat)
    requires st.nextId !in st.rows && t !in st.txns && Live(st, row) && Unlocked(st, t, row)
    ensures Run(true, st, [BeginRefresh(t, row), Claim(t), Issue(t), Commit(t)]) ==
              Some(State(Exchanged(st, row), st.txns, st.nextId + 1, st.consumed + [row]))
  {
    var child := Row(st.rows[row].user, st.rows[row].family, Some(row), false);
    var s1 := Put(st, t, Txn(Read(row), {}, map[]));
    var s2 := Put(st, t, Txn(Claimed(row), {row}, map[]));
    var s3 := Put(st.(nextId := st.nextId + 1), t, Txn(Issued(row, st.nextId), {row}, map[st.nextId := child]));
    var s4 := State(Exchanged(st, row), st.txns, st.nextId + 1, st.consumed + [row]);
    assert s1.txns[t := Txn(Claimed(row), {row}, map[])] == s2.txns;
    assert Step(true, s1, Claim(t)) == Some(s2);
    assert s2.txns[t := s3.txns[t]] == s3.txns;
    assert Step(true, s2, Issue(t)) == Some(s3);
    CommitAlone(st.(nextId := st.nextId + 1), t, s3.txns[t]);
    assert Applied(st.rows, s3.txns[t]) == s4.rows;
    RunFour(st, BeginRefresh(t, row), Claim(t), Issue(t), Commit(t), s1, s2, s3, s4);
  }

  /** A refresh with a live token that nobody holds goes through: the token is revoked and exchanged
      for one new live token of the same user and family, and nothing else changes. */
  lemma RefreshGoesThrough(xs: seq<Event>, t: nat, row: nat)
    requires Run(true, INIT, xs).Some?
    requires var st := Run(true, INIT, xs).value;
             && t !in st.txns && row in st.rows && !st.rows[row].revoked
             && forall u :: u in st.txns ==> row !in st.txns[u].writes
    ensures var st := Run(true, INIT, xs).value;
            var end := Run(true, st, [BeginRefresh(t, row), Claim(t), Issue(t), Commit(t)]);
            && end.Some? && end.value.txns == st.txns && end.value.consumed == st.consumed + [row]
            && end.value.rows.Keys == st.rows.Keys + {st.nextId} && st.nextId !in st.rows
            && end.value.rows[row] == st.rows[row].(revoked := true)
            && end.value.rows[st.nextId] == Row(st.rows[row].user, st.rows[row].family, Some(row), false)
            && (forall r :: r in st.rows && r != row ==> end.value.rows[r] == st.rows[r])
  {
    FreshId(xs);
    RefreshAlone(Run(true, INIT, xs).value, t, row);
  }

  /** A refresh whose token is missing or revoked does not begin, and one whose token was revoked
      before its claim ends with nothing changed. */
  lemma RefreshIsRefused(st: State, t: nat, row: nat)
    ensures row !in st.rows || st.rows[row].revoked ==> Step(true, st, BeginRefresh(t, row)).None?
    ensures (t in st.txns && st.txns[t].work == Read(row) && row in st.rows && st.rows[row].revoked) ==>
              Step(true, st, Claim(t)).Some? ==> Step(true, st, Claim(t)).value == st.(txns := st.txns - {t})
  {
  }

  lemma AppliedInsert(rows: map<nat, Row>, txn: Txn, id: nat, row: Row)
    requires txn.writes == {} && txn.inserts == map[id := row]
    ensures Applied(rows, txn) == rows[id := row]
  {
    var kept := map r | r in rows :: if r in txn.writes then rows[r].(revoked := true) else rows[r];
    assert kept == rows;
  }

  function LoginTxn(st: State, user: nat): Txn {
    Txn(Login(st.nextId), {}, map[st.nextId := Row(user, st.nextId, None, false)])
  }

  lemma LoginCommits(st: State, t: nat, user: nat)
    requires t !in st.txns
    ensures CommitStep(Put(st.(nextId := st.nextId + 1), t, LoginTxn(st, user)), t) ==
              State(st.rows[st.nextId := Row(user, st.nextId, None, false)], st.txns, st.nextId + 1, st.consumed)
  {
    CommitAlone(st.(nextId := st.nextId + 1), t, LoginTxn(st, user));
    AppliedInsert(st.rows, LoginTxn(st, user), st.nextId, Row(user, st.nextId, None, false));
  }

  /** A login adds one live token of the user, which founds a family, and nothing else. */
  lemma LoginGoesThrough(xs: seq<Event>, t: nat, user: nat)
    requires Run(true, INIT, xs).Some? && t !in Run(true, INIT, xs).value.txns
    ensures var st := Run(true, INIT, xs).value;
            var next := Step(true, st, BeginLogin(t, user));
            && next.Some? && st.nextId !in st.rows
            && Step(true, next.value, Commit(t)) ==
                 Some(State(st.rows[st.nextId := Row(user, st.nextId, None, false)], st.txns, st.nextId + 1,
                            st.consumed))
  {
    FreshId(xs);
    LoginCommits(Run(true, INIT, xs).value, t, user);
  }

  /** Which requests begin: a refresh on a live row, a revocation of one's own live session, and any
      login or bulk revocation. */
  lemma RequestsBegin(st: State, t: nat, row: nat, user: nat, keep: Option<nat>)
    requires t !in st.txns
    ensures Step(true, st, BeginRefresh(t, row)).Some? <==> row in st.rows && !st.rows[row].revoked
    ensures Step(true, st, BeginRevokeOne(t, user, row)).Some? <==>
              row in st.rows && !st.rows[row].revoked && st.rows[row].user == user
    ensures Step(true, st, BeginLogin(t, user)).Some? && Step(true, st, BeginRevokeAll(t, user, keep)).Some?
  {
  }

  lemma RevokeOneAlone(st: State, t: nat, user: nat, row: nat)
    requires t !in st.txns && Live(st, row) && st.rows[row].user == user && Unlocked(st, t, row)
    ensures Run(true, st, [BeginRevokeOne(t, user, row), WriteRevoked(t), Commit(t)]) ==
              Some(st.(rows := st.rows[row := st.rows[row].(revoked := true)]))
  {
    var s1 := Put(st, t, Txn(RevokeRead(row), {}, map[]));
    var s2 := Put(st, t, Txn(RevokeDone(row), {row}, map[]));
    var s3 := st.(rows := st.rows[row := st.rows[row].(revoked := true)]);
    assert s1.txns[t := s2.txns[t]] == s2.txns;
    assert Step(true, s1, WriteRevoked(t)) == Some(s2);
    CommitAlone(st, t, s2.txns[t]);
    assert Applied(st.rows, s2.txns[t]) == s3.rows;
    RunTwo(s1, WriteRevoked(t), Commit(t), s2, s3);
    assert [BeginRevokeOne(t, user, row), WriteRevoked(t), Commit(t)][1..] == [WriteRevoked(t), Commit(t)];
  }

  /** A bulk revocation that met no lock and commits. */
  lemma BulkAlone(st: State, t: nat, user: nat, keep: Option<nat>)
    requires t !in st.txns && forall u :: u in st.txns ==> st.txns[u].writes == {}
    ensures var seen := LiveRows(st, user, keep);
            var end := Step(true, Partway(st, t, seen, FreeRows(st, t, seen)), Commit(t));
            && end.Some? && end.value.txns == st.txns && end.value.consumed == st.consumed
            && end.value.rows.Keys == st.rows.Keys
            && forall r :: r in st.rows ==>
                 end.value.rows[r] == st.rows[r].(
                   revoked := st.rows[r].revoked || (st.rows[r].user == user && keep != Some(r)))
  {
    var seen := LiveRows(st, user, keep);
    assert FreeRows(st, t, seen) == seen && seen - seen == {};
    assert Partway(st, t, seen, seen).txns - {t} == st.txns && st.consumed + [] == st.consumed;
  }

  /** A row the bulk revocation of a user's sessions is about. */
  ghost predicate Wanted(st: State, r: nat, user: nat, keep: Option<nat>) {
    r in st.rows && st.rows[r].user == user && !st.rows[r].revoked && keep != Some(r)
  }

  /** Transaction t began a bulk revocation in state `begun` and has lost sight of no row. */
  ghost predicate Pursues(begun: State, st: State, t: nat, user: nat, keep: Option<nat>) {
    && t in st.txns && st.txns[t].work.Revoking? && st.txns[t].inserts == map[]
    && (forall r :: r in st.txns[t].work.todo || r in st.txns[t].writes ==> Wanted(begun, r, user, keep))
    && (forall r :: Wanted(begun, r, user, keep) ==>
          r in st.txns[t].work.todo || r in st.txns[t].writes || (r in st.rows && st.rows[r].revoked))
  }

  lemma PursuesVisit(begun: State, st: State, t: nat, row: nat, user: nat, keep: Option<nat>)
    requires Pursues(begun, st, t, user, keep) && Step(true, st, Visit(t, row)).Some?
    ensures Pursues(begun, Step(true, st, Visit(t, row)).value, t, user, keep)
  {
  }

  /** Nothing else is an event of such a transaction, and others leave it alone. */
  lemma OthersLeaveRevoking(st: State, e: Event, t: nat)
    requires t in st.txns && st.txns[t].work.Revoking? && Step(true, st, e).Some?
    requires e != Commit(t) && e != Abort(t) && !(e.Visit? && e.t == t)
    ensures t in Step(true, st, e).value.txns && Step(true, st, e).value.txns[t] == st.txns[t]
  {
  }

  lemma PursuesGrows(begun: State, st: State, next: State, t: nat, user: nat, keep: Option<nat>)
    requires Pursues(begun, st, t, user, keep) && Grows(st.rows, next.rows)
    requires t in next.txns && next.txns[t] == st.txns[t]
    ensures Pursues(begun, next, t, user, keep)
  {
  }

  lemma PursuesStep(begun: State, st: State, e: Event, t: nat, user: nat, keep: Option<nat>)
    requires Pursues(begun, st, t, user, keep) && Step(true, st, e).Some? && e != Commit(t) && e != Abort(t)
    requires Grows(st.rows, Step(true, st, e).value.rows)
    ensures Pursues(begun, Step(true, st, e).value, t, user, keep)
  {
    if e.Visit? && e.t == t {
      PursuesVisit(begun, st, t, e.row, user, keep);
    } else {
      OthersLeaveRevoking(st, e, t);
      PursuesGrows(begun, st, Step(true, st, e).value, t, user, keep);
    }
  }

  lemma ReachedGrows(xs: seq<Event>, st: State, e: Event, next: State)
    requires Run(true, INIT, xs) == Some(st) && Step(true, st, e) == Some(next)
    ensures Run(true, INIT, xs + [e]) == Some(next) && Grows(st.rows, next.rows)
  {
    RunNext(true, INIT, xs, e);
    RunKeepsInv(INIT, xs);
    StepGrows(st, e);
  }

  lemma {:induction false} PursuesRun(xs: seq<Event>, begun: State, st: State, es: seq<Event>, end: State, t: nat,
                                      user: nat, keep: Option<nat>)
    requires Run(true, INIT, xs) == Some(st) && Pursues(begun, st, t, user, keep) && Run(true, st, es) == Some(end)
    requires forall i :: 0 <= i < |es| ==> es[i] != Commit(t) && es[i] != Abort(t)
    ensures Pursues(begun, end, t, user, keep) && Grows(st.rows, end.rows)
    decreases |es|
  {
    if es != [] {
      var e, next := es[0], Step(true, st, es[0]).value;
      assert e != Commit(t) && e != Abort(t);
      ReachedGrows(xs, st, e, next);
      PursuesStep(begun, st, e, t, user, keep);
      PursuesRun(xs + [e], begun, next, es[1..], end, t, user, keep);
      GrowsTransitive(st.rows, next.rows, end.rows);
    }
  }

  lemma BulkBegins(begun: State, next: State, t: nat, user: nat, keep: Option<nat>)
    requires Step(true, begun, BeginRevokeAll(t, user, keep)) == Some(next)
    ensures Pursues(begun, next, t, user, keep) && next.rows == begun.rows
  {
  }

  /** `logout`, `revoke_all_sessions` and the rest, whatever runs meanwhile: when the UPDATE commits,
      every row that the user had when it began, but the one kept, is revoked; and the commit revokes
      rows of that user only, and not the one kept. */
  lemma BulkRevocationIsComplete(xs: seq<Event>, begun: State, next: State, es: seq<Event>, before: State, t: nat,
                                 user: nat, keep: Option<nat>)
    requires Run(true, INIT, xs) == Some(begun) && Step(true, begun, BeginRevokeAll(t, user, keep)) == Some(next)
    requires Run(true, next, es) == Some(before) && Step(true, before, Commit(t)).Some?
    requires forall i :: 0 <= i < |es| ==> es[i] != Commit(t) && es[i] != Abort(t)
    ensures var after := Step(true, before, Commit(t)).value;
            && (forall r :: r in begun.rows && begun.rows[r].user == user && keep != Some(r) ==>
                  r in after.rows && after.rows[r].revoked)
            && after.rows.Keys == before.rows.Keys
            && (forall r :: r in before.rows && (before.rows[r].user != user || keep == Some(r)) ==>
                  after.rows[r] == before.rows[r])
  {
    RunNext(true, INIT, xs, BeginRevokeAll(t, user, keep));
    BulkBegins(begun, next, t, user, keep);
    PursuesRun(xs + [BeginRevokeAll(t, user, keep)], begun, next, es, before, t, user, keep);
    BulkCommit(begun, before, t, user, keep);
  }

  lemma BulkCommit(begun: State, before: State, t: nat, user: nat, keep: Option<nat>)
    requires Pursues(begun, before, t, user, keep) && Finished(before.txns[t].work) && Grows(begun.rows, before.rows)
    ensures var after := CommitStep(before, t);
            && (forall r :: r in begun.rows && begun.rows[r].user == user && keep != Some(r) ==>
                  r in after.rows && after.rows[r].revoked)
            && after.rows.Keys == before.rows.Keys
            && (forall r :: r in before.rows && (before.rows[r].user != user || keep == Some(r)) ==>
                  after.rows[r] == before.rows[r])
  {
    var after := CommitStep(before, t);
    forall r | r in begun.rows && begun.rows[r].user == user && keep != Some(r)
      ensures r in after.rows && after.rows[r].revoked
    {
      assert begun.rows[r].revoked || Wanted(begun, r, user, keep);
    }
    forall r | r in before.txns[t].writes ensures r in before.rows && before.rows[r].user == user && keep != Some(r) {
      assert Wanted(begun, r, user, keep);
    }
  }

  // ---------------------------------------------------------------- the statements as written

  /** The table and its open transactions, changed in place one statement at a time.  `history` lists
      the statements so far. */
  class TokenTable {
    var rows: map<nat, Row>
    var txns: map<nat, Txn>
    var nextId: nat
    var consumed: seq<nat>
    ghost var history: seq<Event>

    ghost function View(): State
      reads this
    {
      State(rows, txns, nextId, consumed)
    }

    /** The table is where a run of the protocol from the empty table has led. */
    ghost predicate Valid()
      reads this
    {
      Run(true, INIT, history) == Some(View())
    }

    /** What rotation promises of the committed rows. */
    ghost predicate Safe()
      reads this
    {
      OneLivePerFamily(rows) && ConsumedOnce(rows, consumed) && Lineage(rows, consumed)
    }

    constructor ()
      ensures Valid() && Safe() && View() == INIT
    {
      rows, txns, nextId, consumed, history := map[], map[], 0, [], [];
    }

    /** The conditional UPDATE of `refresh_token`; the caller raises unless one row changed. */
    method ClaimRow(t: nat) returns (rowcount: nat)
      requires Valid() && Step(true, View(), Claim(t)).Some?
      modifies this`txns, this`history
      ensures Valid() && history == old(history) + [Claim(t)]
      ensures Step(true, old(View()), Claim(t)) == Some(View())
      ensures rowcount == if rows[old(txns)[t].work.row].revoked then 0 else 1
    {
      RunNext(true, INIT, history, Claim(t));
      history := history + [Claim(t)];
      var row := txns[t].work.row;
      if rows[row].revoked {
        txns := txns - {t};
        return 0;
      }
      txns := txns[t := Txn(Claimed(row), {row}, map[])];
      rowcount := 1;
    }

    /** `issue_tokens` inside a refresh: insert the successor, leave the commit to the caller. */
    method IssueTokens(t: nat) returns (id: nat)
      requires Valid() && Step(true, View(), Issue(t)).Some?
      modifies this`txns, this`nextId, this`history
      ensures Valid() && history == old(history) + [Issue(t)]
      ensures Step(true, old(View()), Issue(t)) == Some(View())
      ensures id == old(nextId) && id in txns[t].inserts && txns[t].inserts[id].parent == Some(old(txns)[t].work.row)
    {
      RunNext(true, INIT, history, Issue(t));
      history := history + [Issue(t)];
      var parent := txns[t].work.row;
      id := nextId;
      nextId := nextId + 1;
      var child := Row(rows[parent].user, rows[parent].family, Some(parent), false);
      txns := txns[t := Txn(Issued(parent, id), txns[t].writes, map[id := child])];
    }

    /** The UPDATE of `logout`, `revoke_all_sessions`, `reset_password` and `change_password`, as far
        as it gets without waiting: every live row of the user but `keep` is written, except those
        that another transaction holds, on which it waits.  It is a run of the protocol. */
    method RevokeAll(t: nat, user: nat, keep: Option<nat>) returns (ghost es: seq<Event>)
      requires Valid() && t !in txns
      modifies this`txns, this`history
      ensures Valid() && history == old(history) + es && Run(true, old(View()), es) == Some(View())
      ensures var seen := LiveRows(old(View()), user, keep);
              View() == Partway(old(View()), t, seen, FreeRows(old(View()), t, seen))
      ensures t in txns && forall r :: r in txns[t].writes <==>
                && r in rows && rows[r].user == user && !rows[r].revoked && keep != Some(r)
                && forall u :: u in old(txns) ==> r !in old(txns)[u].writes
    {
      ghost var start := View();
      var seen := set r | r in rows && rows[r].user == user && !rows[r].revoked && keep != Some(r);
      var free := set r | r in seen && forall u :: u in txns ==> r !in txns[u].writes;
      assert seen == LiveRows(start, user, keep) && free == FreeRows(start, t, seen);
      txns := txns[t := Txn(Revoking(seen), {}, map[])];
      PartwayBegins(start, t, user, keep);
      assert seen - {} == seen;
      es := VisitRows(t, seen, free, start, [BeginRevokeAll(t, user, keep)]);
      RunSplits(true, INIT, history, es);
      history := history + es;
    }

    /** `logout`, `revoke_all_sessions` and the revocations of a password change, when nobody holds a
        row: afterwards exactly the rows that were revoked, and those of the user but for the session
        kept, are revoked, and nothing else has changed. */
    method RevokeSessions(t: nat, user: nat, keep: Option<nat>)
      requires Valid() && t !in txns && forall u :: u in txns ==> txns[u].writes == {}
      modifies this
      ensures Valid() && rows.Keys == old(rows).Keys && txns == old(txns) && consumed == old(consumed)
      ensures forall r :: r in rows ==>
                var was := old(rows)[r];
                rows[r] == was.(revoked := was.revoked || (was.user == user && keep != Some(r)))
    {
      var es := RevokeAll(t, user, keep);
      BulkAlone(old(View()), t, user, keep);
      CommitTxn(t);
    }

    /** `revoke_session`, when nobody holds the row: found exactly when the row is there, live and the
        user's own; then that row and no other is revoked. */
    method RevokeSession(t: nat, user: nat, row: nat) returns (found: bool)
      requires Valid() && t !in txns && forall u :: u in txns ==> row !in txns[u].writes
      modifies this
      ensures Valid() && txns == old(txns) && consumed == old(consumed)
      ensures found <==> row in old(rows) && old(rows)[row].user == user && !old(rows)[row].revoked
      ensures rows == if found then old(rows)[row := old(rows)[row].(revoked := true)] else old(rows)
    {
      found := row in rows && rows[row].user == user && !rows[row].revoked;
      if !found { return; }
      ghost var es := [BeginRevokeOne(t, user, row), WriteRevoked(t), Commit(t)];
      RevokeOneAlone(View(), t, user, row);
      RunSplits(true, INIT, history, es);
      rows := rows[row := rows[row].(revoked := true)];
      history := history + es;
    }

    /** Row after row the UPDATE writes those it need not wait for. */
    method VisitRows(t: nat, seen: set<nat>, free: set<nat>, ghost start: State, ghost begun: seq<Event>)
      returns (ghost es: seq<Event>)
      requires t !in start.txns && free == FreeRows(start, t, seen) && forall r :: r in free ==> Live(start, r)
      requires View() == Partway(start, t, seen, {}) && Run(true, start, begun) == Some(View())
      modifies this`txns
      ensures View() == Partway(start, t, seen, free) && Run(true, start, es) == Some(View())
    {
      var todo, done := free, {};
      es := begun;
      while todo != {}
        invariant todo !! done && todo + done == free
        invariant View() == Partway(start, t, seen, done) && Run(true, start, es) == Some(View())
        decreases todo
      {
        var row :| row in todo;
        PartwayNext(start, t, seen, done, row);
        RunNext(true, start, es, Visit(t, row));
        todo, done := todo - {row}, done + {row};
        txns := txns[t := Txn(Revoking(seen - done), done, map[])];
        es := es + [Visit(t, row)];
      }
      assert done == free;
    }

    /** COMMIT: the writes and inserts of the transaction become visible together.  Rotation stays
        safe, and no committed row is lost or comes back to life. */
    method CommitTxn(t: nat)
      requires Valid() && Step(true, View(), Commit(t)).Some?
      modifies this
      ensures Valid() && Safe() && history == old(history) + [Commit(t)]
      ensures Step(true, old(View()), Commit(t)) == Some(View())
      ensures Grows(old(rows), rows)
    {
      CommitLaws(history, t);
      history := history + [Commit(t)];
      MakeVisible(t);
    }

    method MakeVisible(t: nat)
      requires t in txns
      modifies this`rows, this`txns, this`consumed
      ensures View() == CommitStep(old(View()), t)
    {
      var txn := txns[t];
      rows := (map r | r in rows :: if r in txn.writes then rows[r].(revoked := true) else rows[r]) + txn.inserts;
      txns := txns - {t};
      if txn.work.Issued? { consumed := consumed + [txn.work.row]; }
      assert rows == Applied(old(rows), txn);
      assert old(consumed) + [] == old(consumed);
    }
  }
}

/** The server's table of client sessions, keyed by account id. A session enters it under a random
    temporary id, moves to its account when it logs in, stays there through logout, and leaves when
    it is closed. */
module SessionRegistry {

  type Account = nat
  type Table<S> = map<Account, seq<S>>

  // ---------- The three table operations ----------

  function Listed<S>(m: Table<S>, a: Account): seq<S> {
    if a in m then m[a] else []
  }

  /** `appendSession` under the lock. */
  function Append<S>(m: Table<S>, a: Account, s: S): Table<S> {
    m[a := Listed(m, a) + [s]]
  }

  /** `std::list::remove`: every occurrence goes. */
  function Without<S(==)>(list: seq<S>, s: S): seq<S> {
    if list == [] then []
    else if list[0] == s then Without(list[1..], s)
    else [list[0]] + Without(list[1..], s)
  }

  lemma {:induction false} WithoutFacts<S>(list: seq<S>, s: S)
    ensures var r := Without(list, s);
            && s !in r && (forall x :: x in r ==> x in list) && (forall x :: x in list && x != s ==> x in r)
            && (NoDup(list) ==> NoDup(r))
  {
    if list != [] {
      WithoutFacts(list[1..], s);
      assert list == [list[0]] + list[1..];
      var r, rest := Without(list, s), Without(list[1..], s);
      if NoDup(list) {
        assert NoDup(list[1..]) by {
          assert forall i :: 0 <= i < |list| - 1 ==> list[1..][i] == list[i + 1];
        }
        assert list[0] !in list[1..];
        assert r == rest || r == [list[0]] + rest;
      }
    }
  }

  /** What remains keeps its order: the list is gone through piece by piece. */
  lemma {:induction false} WithoutInPieces<S>(a: seq<S>, b: seq<S>, s: S)
    ensures Without(a + b, s) == Without(a, s) + Without(b, s)
  {
    if a == [] {
      assert a + b == b;
    } else {
      var rest := a[1..];
      WithoutInPieces(rest, b, s);
      WithoutFirst(a, s);
      WithoutFirst(a + b, s);
      assert (a + b)[0] == a[0] && (a + b)[1..] == rest + b;
      hide Without;
      Regroup(if a[0] == s then [] else [a[0]], Without(rest, s), Without(b, s));
    }
  }

  lemma WithoutFirst<S>(list: seq<S>, s: S)
    requires list != []
    ensures Without(list, s) == (if list[0] == s then [] else [list[0]]) + Without(list[1..], s)
  {
  }

  lemma Regroup<S>(x: seq<S>, y: seq<S>, z: seq<S>)
    ensures (x + y) + z == x + (y + z)
  {
  }

  /** `removeSession` under the lock: the list loses the session, an empty list its entry. */
  function Remove<S(==)>(m: Table<S>, a: Account, s: S): Table<S> {
    if a !in m then m
    else if Without(m[a], s) == [] then m - {a}
    else m[a := Without(m[a], s)]
  }

  ghost predicate NoDup<S>(list: seq<S>) {
    forall i, j :: 0 <= i < j < |list| ==> list[i] != list[j]
  }

  // ---------- Runs of the registry ----------

  datatype Status = Disconnected | Connected | LoggedIn

  datatype Session = Session(account: Account, status: Status, closed: bool)

  /** Sessions are identified by numbers here; `sessions` holds what each has in its own fields. */
  datatype State = State(table: Table<nat>, sessions: map<nat, Session>)

  datatype Op =
    | Start(s: nat, tempId: Account)    // accepted connection; the id is random
    | Handshake(s: nat)
    | Login(s: nat, account: Account)   // password verified
    | Logout(s: nat)
    | Close(s: nat)                     // close(_, true)
    | CloseAll                          // removeSessions

  const Empty := State(map[], map[])

  /** What the code lets happen: a session starts once; login is refused while logged in and logout
      while not. Nothing stops a handler from running on a session that was closed meanwhile. */
  predicate Enabled(st: State, op: Op) {
    match op
    case Start(s, _) => s !in st.sessions
    case CloseAll => true
    case Login(s, _) => s in st.sessions && st.sessions[s].status != LoggedIn
    case Logout(s) => s in st.sessions && st.sessions[s].status == LoggedIn
    case _ => op.s in st.sessions
  }

  function CloseListed(st: State): map<nat, Session> {
    map s | s in st.sessions ::
      if exists a :: a in st.table && s in st.table[a]
      then st.sessions[s].(status := Disconnected, closed := true) else st.sessions[s]
  }

  function Apply(st: State, op: Op): State
    requires Enabled(st, op)
  {
    match op
    case Start(s, tempId) =>
      State(Append(st.table, tempId, s), st.sessions[s := Session(tempId, Disconnected, false)])
    case Handshake(s) =>
      st.(sessions := st.sessions[s := st.sessions[s].(status := Connected)])
    case Login(s, account) =>
      State(Append(Remove(st.table, st.sessions[s].account, s), account, s),
            st.sessions[s := st.sessions[s].(account := account, status := LoggedIn)])
    case Logout(s) =>
      st.(sessions := st.sessions[s := st.sessions[s].(status := Connected)])
    case Close(s) =>
      State(Remove(st.table, st.sessions[s].account, s),
            st.sessions[s := st.sessions[s].(status := Disconnected, closed := true)])
    case CloseAll =>
      State(map[], CloseListed(st))
  }

  /** Every list is non-empty and without repetition and holds open sessions of that account; every
      open session is in the list of its account. So a session is registered once, under its
      current id, if and only if it is not closed. */
  ghost predicate Inv(st: State) {
    && (forall a :: a in st.table ==> GoodList(st, a))
    && (forall s :: s in st.sessions && !st.sessions[s].closed ==> s in Listed(st.table, st.sessions[s].account))
  }

  ghost predicate GoodList(st: State, a: Account)
    requires a in st.table
  {
    && st.table[a] != [] && NoDup(st.table[a])
    && forall s :: s in st.table[a] ==> s in st.sessions && !st.sessions[s].closed && st.sessions[s].account == a
  }

  /** Number of places where `s` is registered under `a`. */
  function Places(list: seq<nat>, s: nat): nat {
    if list == [] then 0 else (if list[0] == s then 1 else 0) + Places(list[1..], s)
  }

  lemma {:induction false} PlacesOnce(list: seq<nat>, s: nat)
    requires NoDup(list)
    ensures Places(list, s) == if s in list then 1 else 0
  {
    if list != [] {
      PlacesOnce(list[1..], s);
      assert list == [list[0]] + list[1..];
    }
  }

  lemma AppendKeepsGood(st: State, st': State, a: Account, s: nat)
    requires forall b :: b in st.table ==> GoodList(st, b)
    requires forall b :: b in st.table ==> s !in st.table[b]
    requires st'.table == Append(st.table, a, s)
    requires s in st'.sessions && !st'.sessions[s].closed && st'.sessions[s].account == a
    requires forall x :: x in st.sessions && x != s ==> x in st'.sessions && st'.sessions[x] == st.sessions[x]
    ensures forall b :: b in st'.table ==> GoodList(st', b)
  {
    forall b | b in st'.table
      ensures GoodList(st', b)
    {
      if b in st.table {
        assert GoodList(st, b);
      }
    }
  }

  lemma RemoveKeepsGood(st: State, a: Account, s: nat)
    requires forall b :: b in st.table ==> GoodList(st, b)
    requires forall b :: b in st.table && s in st.table[b] ==> b == a
    ensures var t := Remove(st.table, a, s);
            && (forall b :: b in t ==> GoodList(st.(table := t), b) && s !in t[b])
            && (forall x, b :: x != s ==> (x in Listed(t, b) <==> x in Listed(st.table, b)))
  {
    var t := Remove(st.table, a, s);
    WithoutFacts(Listed(st.table, a), s);
    forall b | b in t
      ensures GoodList(st.(table := t), b) && s !in t[b]
    {
      assert GoodList(st, b);
    }
  }

  lemma LoginKeepsInv(st: State, s: nat, account: Account)
    requires Inv(st) && Enabled(st, Login(s, account)) && !st.sessions[s].closed
    ensures Inv(Apply(st, Login(s, account)))
  {
    OnlyUnderOwnAccount(st, s);
    RemoveKeepsGood(st, st.sessions[s].account, s);
    var mid := st.(table := Remove(st.table, st.sessions[s].account, s));
    AppendKeepsGood(mid, Apply(st, Login(s, account)), account, s);
  }

  lemma CloseKeepsInv(st: State, s: nat)
    requires Inv(st) && s in st.sessions
    ensures Inv(Apply(st, Close(s)))
  {
    var st' := Apply(st, Close(s));
    OnlyUnderOwnAccount(st, s);
    RemoveKeepsGood(st, st.sessions[s].account, s);
    forall b | b in st'.table
      ensures GoodList(st', b)
    {
      assert GoodList(st.(table := st'.table), b) && s !in st'.table[b];
    }
  }

  lemma StepKeepsInv(st: State, op: Op)
    requires Inv(st) && Enabled(st, op)
    requires op.Login? ==> !st.sessions[op.s].closed
    ensures Inv(Apply(st, op))
  {
    var st' := Apply(st, op);
    match op
    case Start(s, tempId) =>
      forall b | b in st.table
        ensures s !in st.table[b]
      {
        assert GoodList(st, b);
      }
      AppendKeepsGood(st, st', tempId, s);
    case Login(s, account) => LoginKeepsInv(st, s, account);
    case Close(s) => CloseKeepsInv(st, s);
    case CloseAll =>
    case _ =>
      forall b | b in st'.table
        ensures GoodList(st', b)
      {
        assert GoodList(st, b);
      }
  }

  lemma OnlyUnderOwnAccount(st: State, s: nat)
    requires Inv(st) && s in st.sessions
    ensures forall b :: b in st.table && s in st.table[b] ==> b == st.sessions[s].account
  {
    forall b | b in st.table && s in st.table[b]
      ensures b == st.sessions[s].account
    {
      assert GoodList(st, b);
    }
  }

  ghost predicate Runs(st: State, ops: seq<Op>)
    decreases ops
  {
    ops == [] || (Enabled(st, ops[0]) && Runs(Apply(st, ops[0]), ops[1..]))
  }

  ghost function Exec(st: State, ops: seq<Op>): State
    requires Runs(st, ops)
    decreases ops
  {
    if ops == [] then st else Exec(Apply(st, ops[0]), ops[1..])
  }

  /** No login completes on a session that was closed meanwhile. */
  ghost predicate NoLateLogin(st: State, ops: seq<Op>)
    requires Runs(st, ops)
    decreases ops
  {
    ops == [] ||
    (&& (ops[0].Login? ==> !st.sessions[ops[0].s].closed)
     && NoLateLogin(Apply(st, ops[0]), ops[1..]))
  }

  lemma {:induction false} RunKeepsInv(st: State, ops: seq<Op>)
    requires Inv(st) && Runs(st, ops) && NoLateLogin(st, ops)
    ensures Inv(Exec(st, ops))
    decreases ops
  {
    if ops != [] {
      StepKeepsInv(st, ops[0]);
      RunKeepsInv(Apply(st, ops[0]), ops[1..]);
    }
  }

  /** Through any sequence of starts, logins, logouts, re-logins and closes, each session that was
      started is registered exactly once, under its current id, while it is open, and nowhere once
      it is closed; and no account is left with an empty list. */
  lemma RegisteredExactlyWhileOpen(ops: seq<Op>, s: nat, a: Account)
    requires Runs(Empty, ops) && NoLateLogin(Empty, ops)
    requires s in Exec(Empty, ops).sessions
    ensures var st := Exec(Empty, ops);
            && Places(Listed(st.table, a), s)
               == (if !st.sessions[s].closed && a == st.sessions[s].account then 1 else 0)
            && (a in st.table ==> st.table[a] != [])
  {
    RunKeepsInv(Empty, ops);
    var st := Exec(Empty, ops);
    if a in st.table {
      assert GoodList(st, a);
      PlacesOnce(st.table[a], s);
    }
  }

  // ---------- The registry follows the history ----------

  /** Whether a session is open, by what happened last to it. */
  predicate OpenAfter(ops: seq<Op>, s: nat) {
    if ops == [] then false
    else
      var before := ops[..|ops| - 1];
      match ops[|ops| - 1]
      case Start(x, _) => x == s || OpenAfter(before, s)
      case Close(x) => x != s && OpenAfter(before, s)
      case CloseAll => false
      case _ => OpenAfter(before, s)
  }

  /** The id of its start or of its last login. */
  function AccountAfter(ops: seq<Op>, s: nat): Account {
    if ops == [] then 0
    else
      var before := ops[..|ops| - 1];
      match ops[|ops| - 1]
      case Start(x, id) => if x == s then id else AccountAfter(before, s)
      case Login(x, account) => if x == s then account else AccountAfter(before, s)
      case _ => AccountAfter(before, s)
  }

  function StatusAfter(ops: seq<Op>, s: nat): Status {
    if ops == [] then Disconnected
    else
      var before := ops[..|ops| - 1];
      match ops[|ops| - 1]
      case CloseAll => if OpenAfter(before, s) then Disconnected else StatusAfter(before, s)
      case Start(x, _) => if x == s then Disconnected else StatusAfter(before, s)
      case Close(x) => if x == s then Disconnected else StatusAfter(before, s)
      case Handshake(x) => if x == s then Connected else StatusAfter(before, s)
      case Logout(x) => if x == s then Connected else StatusAfter(before, s)
      case Login(x, _) => if x == s then LoggedIn else StatusAfter(before, s)
  }

  predicate StartedIn(ops: seq<Op>, s: nat) {
    exists k :: 0 <= k < |ops| && ops[k].Start? && ops[k].s == s
  }

  /** A run and its last step. */
  lemma {:induction false} LastStep(st: State, ops: seq<Op>)
    requires ops != [] && Runs(st, ops) && NoLateLogin(st, ops)
    ensures var before, last := ops[..|ops| - 1], ops[|ops| - 1];
            && Runs(st, before) && NoLateLogin(st, before) && Enabled(Exec(st, before), last)
            && Exec(st, ops) == Apply(Exec(st, before), last)
            && (last.Login? ==> !Exec(st, before).sessions[last.s].closed)
    decreases |ops|
  {
    if |ops| == 1 {
      assert ops[1..] == [] && ops[..0] == [];
    } else {
      LastStep(Apply(st, ops[0]), ops[1..]);
      assert ops[1..][..|ops| - 2] == ops[..|ops| - 1][1..];
    }
  }

  /** The fields of a session, as its own history says. */
  ghost predicate Follows(st: State, ops: seq<Op>, s: nat) {
    && (s in st.sessions <==> StartedIn(ops, s))
    && (s in st.sessions ==> st.sessions[s] == Session(AccountAfter(ops, s), StatusAfter(ops, s), !OpenAfter(ops, s)))
    && (s !in st.sessions ==> !OpenAfter(ops, s))
  }

  lemma StartedStep(ops: seq<Op>, s: nat)
    requires ops != []
    ensures var last := ops[|ops| - 1];
            StartedIn(ops, s) <==> (last.Start? && last.s == s) || StartedIn(ops[..|ops| - 1], s)
  {
    var before := ops[..|ops| - 1];
    assert forall k :: 0 <= k < |before| ==> before[k] == ops[k];
  }

  lemma StepFollows(st: State, ops: seq<Op>, s: nat)
    requires ops != [] && Inv(st) && Enabled(st, ops[|ops| - 1]) && Follows(st, ops[..|ops| - 1], s)
    ensures Follows(Apply(st, ops[|ops| - 1]), ops, s)
  {
    StartedStep(ops, s);
    if ops[|ops| - 1].CloseAll? && s in st.sessions {
      if !st.sessions[s].closed {
        assert s in st.table[st.sessions[s].account];
      } else {
        forall a | a in st.table
          ensures s !in st.table[a]
        {
          assert GoodList(st, a);
        }
      }
    }
  }

  lemma {:induction false} RunFollows(ops: seq<Op>, s: nat)
    requires Runs(Empty, ops) && NoLateLogin(Empty, ops)
    ensures Follows(Exec(Empty, ops), ops, s)
    decreases |ops|
  {
    if ops != [] {
      var before := ops[..|ops| - 1];
      LastStep(Empty, ops);
      RunFollows(before, s);
      RunKeepsInv(Empty, before);
      StepFollows(Exec(Empty, before), ops, s);
    }
  }

  /** After any run a session that was started stands once in the table if it is open by its history,
      under the id of its start or last login, and nowhere else; and its status is the one its last
      event gave it. */
  lemma RegistryFollowsHistory(ops: seq<Op>, s: nat, a: Account)
    requires Runs(Empty, ops) && NoLateLogin(Empty, ops) && StartedIn(ops, s)
    ensures var st := Exec(Empty, ops);
            && s in st.sessions && st.sessions[s].status == StatusAfter(ops, s)
            && Places(Listed(st.table, a), s) == if OpenAfter(ops, s) && AccountAfter(ops, s) == a then 1 else 0
  {
    RunFollows(ops, s);
    RegisteredExactlyWhileOpen(ops, s, a);
  }

  /** The assumption is exact: one login decides, and it breaks the registry if and only if its
      session is already closed. */
  lemma LoginBreaksExactlyWhenClosed(st: State, s: nat, account: Account)
    requires Inv(st) && Enabled(st, Login(s, account))
    ensures Inv(Apply(st, Login(s, account))) <==> !st.sessions[s].closed
  {
    if !st.sessions[s].closed {
      StepKeepsInv(st, Login(s, account));
    } else {
      var st' := Apply(st, Login(s, account));
      assert s in st'.table[account] && st'.sessions[s].closed;
      assert !GoodList(st', account);
    }
  }

  predicate ListedUnderOwn(st: State, s: nat) {
    s in st.sessions && s in Listed(st.table, st.sessions[s].account)
  }

  /** Takes the session out of the table whatever else is going on. */
  predicate TakesOut(op: Op, s: nat) {
    op == Close(s) || op.CloseAll?
  }

  lemma StepKeepsListed(st: State, op: Op, s: nat)
    requires Enabled(st, op) && ListedUnderOwn(st, s)
    ensures ListedUnderOwn(Apply(st, op), s) <==> !TakesOut(op, s)
  {
    var a := st.sessions[s].account;
    match op
    case Login(other, account) => WithoutFacts(Listed(st.table, st.sessions[other].account), other);
    case Close(other) => WithoutFacts(Listed(st.table, st.sessions[other].account), other);
    case _ =>
  }

  lemma {:induction false} ListedUntilClosed(st: State, ops: seq<Op>, s: nat)
    requires Runs(st, ops) && ListedUnderOwn(st, s)
    requires forall k :: 0 <= k < |ops| ==> !TakesOut(ops[k], s)
    ensures ListedUnderOwn(Exec(st, ops), s)
    decreases ops
  {
    if ops != [] {
      StepKeepsListed(st, ops[0], s);
      ListedUntilClosed(Apply(st, ops[0]), ops[1..], s);
    }
  }

  /** A session that logs in after it was closed stays in the table, closed as it is, until it is
      closed once more or everything is. */
  lemma LateLoginStaysUntilClosedAgain(st: State, s: nat, account: Account, ops: seq<Op>)
    requires Enabled(st, Login(s, account)) && st.sessions[s].closed
    requires Runs(Apply(st, Login(s, account)), ops)
    requires forall k :: 0 <= k < |ops| ==> !TakesOut(ops[k], s)
    ensures var end := Exec(Apply(st, Login(s, account)), ops);
            ListedUnderOwn(end, s) && end.sessions[s].closed
  {
    ListedUntilClosed(Apply(st, Login(s, account)), ops, s);
    StaysClosed(Apply(st, Login(s, account)), ops, s);
  }

  lemma {:induction false} StaysClosed(st: State, ops: seq<Op>, s: nat)
    requires Runs(st, ops) && s in st.sessions && st.sessions[s].closed
    ensures s in Exec(st, ops).sessions && Exec(st, ops).sessions[s].closed
    decreases ops
  {
    if ops != [] {
      StaysClosed(Apply(st, ops[0]), ops[1..], s);
    }
  }

  // ---------- The objects ----------

  class ClientSession {
    var accountId: Account
    var status: Status

    constructor (tempId: Account)
      ensures accountId == tempId && status == Disconnected
    {
      accountId, status := tempId, Disconnected;
    }

    /** `close(false, false)`: the registry is left alone. */
    method CloseOnly()
      modifies this
      ensures status == Disconnected && accountId == old(accountId)
    {
      status := Disconnected;
    }
  }

  class Server {
    var sessions: Table<ClientSession>

    constructor ()
      ensures sessions == map[]
    {
      sessions := map[];
    }

    method AppendSession(session: ClientSession)
      modifies this
      ensures sessions == Append(old(sessions), session.accountId, session)
      ensures var a := session.accountId;
              sessions == old(sessions)[a := (if a in old(sessions) then old(sessions)[a] else []) + [session]]
    {
      var a := session.accountId;
      if a !in sessions {
        sessions := sessions[a := []];
      }
      sessions := sessions[a := sessions[a] + [session]];
    }

    method RemoveSession(session: ClientSession)
      modifies this
      ensures sessions == Remove(old(sessions), session.accountId, session)
      ensures forall a :: a in old(sessions) && a != session.accountId ==>
                a in sessions && sessions[a] == old(sessions)[a]
      ensures forall a :: a in sessions ==> a in old(sessions)
      ensures var a := session.accountId;
              && (a in sessions ==> session !in sessions[a] && sessions[a] == Without(old(sessions)[a], session))
              && (a !in sessions && a in old(sessions) ==> forall x :: x in old(sessions)[a] ==> x == session)
    {
      var a := session.accountId;
      if a in sessions {
        WithoutFacts(sessions[a], session);
        var sm := Without(sessions[a], session);
        if sm == [] {
          sessions := sessions - {a};
        } else {
          sessions := sessions[a := sm];
        }
      }
    }

    method GetSessions(a: Account) returns (res: seq<ClientSession>)
      ensures res == if a in sessions then sessions[a] else []
    {
      res := [];
      if a in sessions {
        res := sessions[a];
      }
    }

    /** The registry part of a successful login: out under the temporary id, in under the account. */
    method Login(session: ClientSession, account: Account)
      modifies this, session
      ensures session.accountId == account && session.status == LoggedIn
      ensures sessions == Append(Remove(old(sessions), old(session.accountId), session), account, session)
    {
      session.status := LoggedIn;
      RemoveSession(session);
      session.accountId := account;
      AppendSession(session);
    }

    ghost function AllListed(): set<ClientSession>
      reads this
    {
      set a, s | a in sessions && s in sessions[a] :: s
    }

    /** Closes every listed session without touching the table, then clears the table. */
    method RemoveSessions()
      modifies this, AllListed()
      ensures sessions == map[]
      ensures forall s :: s in old(AllListed()) ==> s.status == Disconnected && s.accountId == old(s.accountId)
    {
      ghost var all := AllListed();
      ghost var done: set<Account> := {};
      var todo := sessions.Keys;
      while todo != {}
        invariant sessions == old(sessions) && todo + done == sessions.Keys
        invariant forall a, s :: a in done && a in sessions && s in sessions[a] ==> s.status == Disconnected
        invariant forall s :: s in all ==> s.accountId == old(s.accountId)
        decreases |todo|
      {
        var a :| a in todo;
        assert forall s :: s in sessions[a] ==> s in all;
        CloseList(sessions[a]);
        todo, done := todo - {a}, done + {a};
      }
      sessions := map[];
    }

    method CloseList(list: seq<ClientSession>)
      modifies list
      ensures forall s :: s in list ==> s.status == Disconnected && s.accountId == old(s.accountId)
    {
      for i := 0 to |list|
        invariant forall j :: 0 <= j < i ==> list[j].status == Disconnected
        invariant forall s :: s in list ==> s.accountId == old(s.accountId)
      {
        list[i].CloseOnly();
      }
    }
  }
}

/** Handlers that overlap. A handler first looks at the store and decides, then inserts, then deletes,
    and other workers may be anywhere in theirs meanwhile. What becomes of "one contact request per
    pair of accounts" is settled here: the one step that endangers it, and what follows once there are
    two. */
module RequestRaces {
  import opened Wrappers
  import opened RequestStore
  import opened RequestInvariants

  /** Where a worker is in a handler. */
  datatype Pc =
    | Idle
    | Looked(e: Effect)                 // has decided, and inserted nothing yet
    | Inserted(remove: Option<Query>)   // has still to delete

  datatype State = State(db: Db, workers: seq<Pc>)

  /** The copies of a push are inserted in one step here. */
  datatype Step =
    | Look(w: nat, op: Op)
    | Insert(w: nat)
    | Erase(w: nat)

  predicate Enabled(s: State, step: Step) {
    step.w < |s.workers| &&
    match step
    case Look(w, _) => s.workers[w].Idle?
    case Insert(w) => s.workers[w].Looked?
    case Erase(w) => s.workers[w].Inserted?
  }

  function Apply(s: State, step: Step): State
    requires Enabled(s, step)
  {
    match step
    case Look(w, op) =>
      s.(workers := s.workers[w := Looked(Handle(s.db.rows, op))])
    case Insert(w) =>
      var e := s.workers[w].e;
      State(Db(s.db.rows + Numbered(e.insert, s.db.next), s.db.next + |e.insert|), s.workers[w := Inserted(e.remove)])
    case Erase(w) =>
      State(Db(Removed(s.db.rows, s.workers[w].remove), s.db.next), s.workers[w := Idle])
  }

  ghost predicate Runs(s: State, steps: seq<Step>)
    decreases steps
  {
    steps == [] || (Enabled(s, steps[0]) && Runs(Apply(s, steps[0]), steps[1..]))
  }

  ghost function Exec(s: State, steps: seq<Step>): State
    requires Runs(s, steps)
    decreases steps
  {
    if steps == [] then s else Exec(Apply(s, steps[0]), steps[1..])
  }

  function Init(workers: nat): State {
    State(EmptyDb, seq(workers, i => Idle))
  }

  // ---------- A handler that nobody interrupts ----------

  /** Whoever inserts and then deletes has seen a match for the deletion. */
  lemma RemovalWasSeen(rows: seq<Row>, op: Op)
    ensures var e := Handle(rows, op);
            e.insert != [] && e.remove.Some? ==> Find(rows, e.remove.value).Some?
  {
    if op.AddContactRequest? {
      FindFacts(rows, ContactByCode(op.addCode));
      FindFacts(rows, ByCode(op.addCode));
    } else if op.Accept? || op.Reject? {
      FindFacts(rows, ByIdDst(op.contactRequestId, op.who.account));
      FindFacts(rows, ById(op.contactRequestId));
    }
  }

  /** Without interruption the three steps are the operation as one step. */
  lemma UninterruptedHandler(s: State, w: nat, op: Op)
    requires w < |s.workers| && s.workers[w].Idle?
    ensures var steps := [Look(w, op), Insert(w), Erase(w)];
            Runs(s, steps) && Exec(s, steps) == s.(db := RequestStore.Apply(s.db, op))
  {
    hide Handle;
    var e := Handle(s.db.rows, op);
    var s1 := Apply(s, Look(w, op));
    var s2 := Apply(s1, Insert(w));
    var s3 := Apply(s2, Erase(w));
    RemovalWasSeen(s.db.rows, op);
    if e.insert != [] && e.remove.Some? {
      DeleteInFront(s.db.rows, Numbered(e.insert, s.db.next), e.remove.value);
    } else if e.insert == [] {
      assert s.db.rows + [] == s.db.rows && Removed(s.db.rows, e.remove) + [] == Removed(s.db.rows, e.remove);
    }
    assert s3.workers == s.workers;
    assert s3.db == Commit(s.db, e);
    assert Exec(s3, []) == s3;
    hide Apply, Enabled;
    RunOne(s2, Erase(w), []);
    RunOne(s1, Insert(w), [Erase(w)] + []);
    RunOne(s, Look(w, op), [Insert(w)] + ([Erase(w)] + []));
    assert [Look(w, op), Insert(w), Erase(w)] == [Look(w, op)] + ([Insert(w)] + ([Erase(w)] + []));
  }

  lemma RunOne(s: State, step: Step, rest: seq<Step>)
    requires Enabled(s, step) && Runs(Apply(s, step), rest)
    ensures Runs(s, [step] + rest) && Exec(s, [step] + rest) == Exec(Apply(s, step), rest)
  {
    assert ([step] + rest)[1..] == rest;
  }

  // ---------- The step that endangers uniqueness ----------

  function Matching(reqs: seq<Request>, q: Query): nat {
    if reqs == [] then 0 else (if Matches(q, reqs[0]) then 1 else 0) + Matching(reqs[1..], q)
  }

  lemma {:induction false} MatchingIsCount(reqs: seq<Request>, next: nat, q: Query)
    ensures Count(Numbered(reqs, next), q) == Matching(reqs, q)
  {
    if reqs != [] {
      MatchingIsCount(reqs[1..], next + 1, q);
      assert Numbered(reqs, next)[1..] == Numbered(reqs[1..], next + 1);
    }
  }

  function IntendedBy(pc: Pc, q: Query): nat {
    if pc.Looked? then Matching(pc.e.insert, q) else 0
  }

  /** How many matching requests workers have decided to insert. */
  function Intended(workers: seq<Pc>, q: Query): nat {
    if workers == [] then 0 else IntendedBy(workers[0], q) + Intended(workers[1..], q)
  }

  lemma {:induction false} IntendedUpdate(workers: seq<Pc>, w: nat, pc: Pc, q: Query)
    requires w < |workers|
    ensures Intended(workers[w := pc], q) + IntendedBy(workers[w], q) == Intended(workers, q) + IntendedBy(pc, q)
  {
    if w == 0 {
      assert workers[w := pc][1..] == workers[1..];
    } else {
      assert workers[w := pc][1..] == workers[1..][w - 1 := pc];
      IntendedUpdate(workers[1..], w - 1, pc, q);
    }
  }

  lemma {:induction false} SomebodyIntends(workers: seq<Pc>, q: Query) returns (w: nat)
    requires Intended(workers, q) > 0
    ensures w < |workers| && IntendedBy(workers[w], q) > 0
  {
    if IntendedBy(workers[0], q) > 0 {
      w := 0;
    } else {
      var v := SomebodyIntends(workers[1..], q);
      w := v + 1;
    }
  }

  lemma {:induction false} IdleIntendNothing(workers: seq<Pc>, q: Query)
    requires forall w :: 0 <= w < |workers| ==> workers[w].Idle?
    ensures Intended(workers, q) == 0
  {
    if workers != [] {
      IdleIntendNothing(workers[1..], q);
    }
  }

  /** At most one request for a pair is stored or about to be. */
  ghost predicate AtMostOne(s: State, src: nat, dst: nat) {
    Count(s.db.rows, ContactBetween(src, dst)) + Intended(s.workers, ContactBetween(src, dst)) <= 1
  }

  ghost predicate PairsSafe(s: State) {
    forall src, dst :: AtMostOne(s, src, dst)
  }

  /** The racy step: a handler looks, and decides to insert a contact request for a pair for which
      another has looked and not yet inserted its own. */
  ghost predicate Overlaps(s: State, step: Step) {
    step.Look? && exists src, dst :: OverlapsFor(s, step, src, dst)
  }

  ghost predicate OverlapsFor(s: State, step: Step, src: nat, dst: nat)
    requires step.Look?
  {
    && Matching(Handle(s.db.rows, step.op).insert, ContactBetween(src, dst)) > 0
    && Intended(s.workers, ContactBetween(src, dst)) > 0
  }

  /** What a step does to the requests for one pair. */
  lemma PairAfterStep(s: State, step: Step, src: nat, dst: nat)
    requires Enabled(s, step) && AtMostOne(s, src, dst)
    ensures AtMostOne(Apply(s, step), src, dst) <==> !(step.Look? && OverlapsFor(s, step, src, dst))
  {
    hide Handle;
    var q, s', w := ContactBetween(src, dst), Apply(s, step), step.w;
    IntendedUpdate(s.workers, w, s'.workers[w], q);
    assert s'.workers == s.workers[w := s'.workers[w]];
    match step
    case Look(_, op) =>
      InsertsPair(s.db, op, src, dst);
      MatchingIsCount(Handle(s.db.rows, op).insert, s.db.next, q);
    case Insert(_) =>
      CountAppend(s.db.rows, Numbered(s.workers[w].e.insert, s.db.next), q);
      MatchingIsCount(s.workers[w].e.insert, s.db.next, q);
    case Erase(_) =>
      if s.workers[w].remove.Some? {
        CountAfterDelete(s.db.rows, s.workers[w].remove.value, q);
      }
  }

  /** A step keeps every pair at one request, stored or intended, if and only if it is not the racy
      step. */
  lemma PairsSafeUnlessOverlap(s: State, step: Step)
    requires PairsSafe(s) && Enabled(s, step)
    ensures PairsSafe(Apply(s, step)) <==> !Overlaps(s, step)
  {
    hide Apply, AtMostOne, OverlapsFor;
    forall src, dst
      ensures AtMostOne(Apply(s, step), src, dst) <==> !(step.Look? && OverlapsFor(s, step, src, dst))
    {
      assert AtMostOne(s, src, dst);
      PairAfterStep(s, step, src, dst);
    }
  }

  /** And the racy step does lead to two requests: the two handlers only have to go on. */
  lemma OverlapLeadsToTwo(s: State, step: Step) returns (rest: seq<Step>)
    requires Enabled(s, step) && Overlaps(s, step)
    ensures Runs(Apply(s, step), rest) && !PairsUnique(Exec(Apply(s, step), rest).db)
  {
    hide Handle;
    var src: nat, dst: nat :| OverlapsFor(s, step, src, dst);
    var q, w := ContactBetween(src, dst), step.w;
    var u := SomebodyIntends(s.workers, q);
    var s1 := Apply(s, step);
    InsertAdds(s1, u, q);
    var s2 := Apply(s1, Insert(u));
    InsertAdds(s2, w, q);
    var s3 := Apply(s2, Insert(w));
    assert Count(s3.db.rows, q) >= 2;
    assert Exec(s3, []) == s3;
    RunOne(s2, Insert(w), []);
    RunOne(s1, Insert(u), [Insert(w)] + []);
    rest := [Insert(u)] + ([Insert(w)] + []);
  }

  lemma InsertAdds(s: State, w: nat, q: Query)
    requires Enabled(s, Insert(w))
    ensures Count(Apply(s, Insert(w)).db.rows, q) == Count(s.db.rows, q) + IntendedBy(s.workers[w], q)
  {
    var e := s.workers[w].e;
    CountAppend(s.db.rows, Numbered(e.insert, s.db.next), q);
    MatchingIsCount(e.insert, s.db.next, q);
  }

  /** An insertion by a handler that looked at an earlier store keeps pairs unique if and only if no
      request for its pair is there by now. */
  lemma InsertKeepsUniqueExactlyWhenAbsent(s: State, w: nat, earlier: Db, op: Op)
    requires w < |s.workers| && s.workers[w] == Looked(Handle(earlier.rows, op)) && PairsUnique(s.db)
    ensures PairsUnique(Apply(s, Insert(w)).db)
       <==> forall src, dst :: Matching(Handle(earlier.rows, op).insert, ContactBetween(src, dst)) > 0
                           ==> Count(s.db.rows, ContactBetween(src, dst)) == 0
  {
    hide Handle, Apply;
    var after := Apply(s, Insert(w)).db;
    forall src, dst
      ensures var q, reqs := ContactBetween(src, dst), Handle(earlier.rows, op).insert;
              Count(after.rows, q) == Count(s.db.rows, q) + Matching(reqs, q) && Matching(reqs, q) <= 1
    {
      InsertAdds(s, w, ContactBetween(src, dst));
      InsertsPair(earlier, op, src, dst);
      MatchingIsCount(Handle(earlier.rows, op).insert, earlier.next, ContactBetween(src, dst));
    }
  }

  ghost predicate NoOverlap(s: State, steps: seq<Step>)
    requires Runs(s, steps)
    decreases steps
  {
    steps == [] || (!Overlaps(s, steps[0]) && NoOverlap(Apply(s, steps[0]), steps[1..]))
  }

  lemma {:induction false} SafeRun(s: State, steps: seq<Step>)
    requires PairsSafe(s) && Runs(s, steps) && NoOverlap(s, steps)
    ensures PairsSafe(Exec(s, steps))
    decreases steps
  {
    hide PairsSafe, Overlaps, Apply, Enabled;
    if steps != [] {
      PairsSafeUnlessOverlap(s, steps[0]);
      SafeRun(Apply(s, steps[0]), steps[1..]);
    }
  }

  /** However handlers of any kind overlap, as long as no two are between look and insertion for the
      same pair, no pair ever has two contact requests. */
  lemma OnePerPairWithoutOverlap(workers: nat, steps: seq<Step>)
    requires Runs(Init(workers), steps) && NoOverlap(Init(workers), steps)
    ensures PairsUnique(Exec(Init(workers), steps).db)
  {
    var s := Init(workers);
    forall src, dst
      ensures AtMostOne(s, src, dst)
    {
      IdleIntendNothing(s.workers, ContactBetween(src, dst));
    }
    SafeRun(s, steps);
    forall src, dst
      ensures Count(Exec(s, steps).db.rows, ContactBetween(src, dst)) <= 1
    {
      assert AtMostOne(Exec(s, steps), src, dst);
    }
  }

  // ---------- What a contact request does to its pair ----------

  /** A contact request from `src` to `dst` that nothing but a pending one could refuse. */
  predicate Asks(rows: seq<Row>, op: Op, src: nat, dst: nat) {
    && op.AddContactRequest? && op.who.loggedIn && op.who.account == src && src in op.dir.known
    && Target(rows, op.dir, op.addCode, op.name) == Some(dst) && dst != src
    && op.key.Some? && op.stored
  }

  lemma PairInserted(db: Db, op: Op, src: nat, dst: nat)
    ensures var q := ContactBetween(src, dst);
            Count(Numbered(Handle(db.rows, op).insert, db.next), q)
              == if Asks(db.rows, op, src, dst) && Count(db.rows, q) != 1 then 1 else 0
  {
    var q, e := ContactBetween(src, dst), Handle(db.rows, op);
    if op.PushRequest? {
      PushesMatchNoContact(op, |op.keys|, db.next, q);
    } else if e.insert != [] {
      assert e.insert == [e.insert[0]];
      CountOne(e.insert[0], db.next, q);
    }
  }

  /** Two workers that take up the same request while none is pending do overlap. */
  lemma SameRequestTwiceOverlaps(s: State, w: nat, u: nat, op: Op, src: nat, dst: nat)
    requires w < |s.workers| && u < |s.workers| && w != u && s.workers[w].Idle? && s.workers[u].Idle?
    requires Asks(s.db.rows, op, src, dst) && Count(s.db.rows, ContactBetween(src, dst)) != 1
    ensures Enabled(s, Look(w, op)) && Enabled(Apply(s, Look(w, op)), Look(u, op))
    ensures Overlaps(Apply(s, Look(w, op)), Look(u, op))
  {
    hide Handle, Asks;
    var q, s1 := ContactBetween(src, dst), Apply(s, Look(w, op));
    PairInserted(s.db, op, src, dst);
    MatchingIsCount(Handle(s.db.rows, op).insert, s.db.next, q);
    IntendedUpdate(s.workers, w, s1.workers[w], q);
    assert OverlapsFor(s1, Look(u, op), src, dst);
  }

  /** The operation takes out a request of the pair. */
  predicate TakesOut(rows: seq<Row>, op: Op, q: Query) {
    var remove := Handle(rows, op).remove;
    remove.Some? && Find(rows, remove.value).Some? && Matches(q, Find(rows, remove.value).value.req)
  }

  /** A contact request is stored, whatever is pending, unless exactly one is. */
  lemma RefusedExactlyWhenOne(db: Db, op: Op, src: nat, dst: nat)
    ensures var q := ContactBetween(src, dst);
            Count(RequestStore.Apply(db, op).rows, q) + (if TakesOut(db.rows, op, q) then 1 else 0)
              == Count(db.rows, q) + (if Asks(db.rows, op, src, dst) && Count(db.rows, q) != 1 then 1 else 0)
  {
    hide Handle, Asks;
    var q, e := ContactBetween(src, dst), Handle(db.rows, op);
    CountAfterCommit(db, e, q);
    PairInserted(db, op, src, dst);
    if e.remove.Some? {
      CountAfterDelete(db.rows, e.remove.value, q);
    }
  }

  function ExecFrom(db: Db, ops: seq<Op>): Db
    decreases |ops|
  {
    if ops == [] then db else ExecFrom(RequestStore.Apply(db, ops[0]), ops[1..])
  }

  ghost predicate NeverJustOne(db: Db, ops: seq<Op>, q: Query)
    decreases |ops|
  {
    Count(db.rows, q) != 1 && (ops == [] || NeverJustOne(RequestStore.Apply(db, ops[0]), ops[1..], q))
  }

  /** How many of the operations ask for the pair, and how many take out a request of it. */
  function Asked(db: Db, ops: seq<Op>, src: nat, dst: nat): nat
    decreases |ops|
  {
    if ops == [] then 0
    else (if Asks(db.rows, ops[0], src, dst) then 1 else 0) + Asked(RequestStore.Apply(db, ops[0]), ops[1..], src, dst)
  }

  function TakenOut(db: Db, ops: seq<Op>, q: Query): nat
    decreases |ops|
  {
    if ops == [] then 0
    else (if TakesOut(db.rows, ops[0], q) then 1 else 0) + TakenOut(RequestStore.Apply(db, ops[0]), ops[1..], q)
  }

  /** Once a pair has two requests, the test for exactly one pending request lets every further one
      through, any number of them, until removals have brought the pair down to a single request:
      from two on, the count only grows by every request and shrinks by every removal. */
  lemma {:induction false} UncaughtUntilOneIsLeft(db: Db, ops: seq<Op>, src: nat, dst: nat)
    requires Count(db.rows, ContactBetween(src, dst)) >= 2
    requires NeverJustOne(db, ops, ContactBetween(src, dst))
    ensures var q, end := ContactBetween(src, dst), ExecFrom(db, ops);
            && Count(end.rows, q) >= 2
            && Count(end.rows, q) + TakenOut(db, ops, q) == Count(db.rows, q) + Asked(db, ops, src, dst)
    decreases |ops|
  {
    hide TakesOut, Asks;
    if ops != [] {
      RefusedExactlyWhenOne(db, ops[0], src, dst);
      UncaughtUntilOneIsLeft(RequestStore.Apply(db, ops[0]), ops[1..], src, dst);
    }
  }
}

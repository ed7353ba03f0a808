/** What holds of the request store over whole runs: where every record goes, what becomes of a
    contact request, and what add codes do. */
module RequestHistory {
  import opened Wrappers
  import opened RequestStore
  import opened RequestInvariants

  // ---------- The ledger ----------

  /** Every request ever stored, in order; the position is the number of its row. */
  function Ledger(ops: seq<Op>): seq<Request> {
    if ops == [] then []
    else
      var before := ops[..|ops| - 1];
      Ledger(before) + Handle(Exec(before).rows, ops[|ops| - 1]).insert
  }

  ghost predicate Stored(db: Db, oid: nat) {
    exists r :: r in db.rows && r.oid == oid
  }

  /** Rows are in insertion order, and each holds what was inserted under its number. */
  ghost predicate Filed(db: Db, ledger: seq<Request>) {
    && db.next == |ledger|
    && Ordered(db.rows)
    && (forall r :: r in db.rows ==> r.oid < |ledger| && ledger[r.oid] == r.req)
  }

  ghost predicate Ordered(rows: seq<Row>) {
    forall i, j :: 0 <= i < j < |rows| ==> rows[i].oid < rows[j].oid
  }

  lemma WithoutOne(rows: seq<Row>, k: nat)
    requires Ordered(rows) && k < |rows|
    ensures var rest := rows[..k] + rows[k + 1..];
            && Ordered(rest)
            && (forall r :: r in rest ==> r in rows && r.oid != rows[k].oid)
            && (forall r :: r in rows && r != rows[k] ==> r in rest)
  {
    var rest := rows[..k] + rows[k + 1..];
    assert forall i :: 0 <= i < |rest| ==> rest[i] == rows[if i < k then i else i + 1];
    forall r | r in rows && r != rows[k]
      ensures r in rest
    {
      var i :| 0 <= i < |rows| && rows[i] == r;
      assert rest[if i < k then i else i - 1] == r;
    }
  }

  /** What a removal leaves, number by number. */
  lemma RemovalFacts(db: Db, ledger: seq<Request>, q: Option<Query>)
    requires Filed(db, ledger)
    ensures Filed(Db(Removed(db.rows, q), db.next), ledger)
    ensures forall r :: r in Removed(db.rows, q) ==> r in db.rows
    ensures forall r :: r in db.rows && r !in Removed(db.rows, q) ==>
              q.Some? && Find(db.rows, q.value) == Some(r) && Matches(q.value, r.req)
    ensures q.Some? && Find(db.rows, q.value).Some? ==>
              !Stored(Db(Removed(db.rows, q), db.next), Find(db.rows, q.value).value.oid)
  {
    if q.Some? {
      FindFacts(db.rows, q.value);
      if Find(db.rows, q.value).Some? {
        var k := DeleteFirstAt(db.rows, q.value);
        WithoutOne(db.rows, k);
      }
    }
  }

  lemma OrderedAppend(kept: seq<Row>, added: seq<Row>, next: nat)
    requires Ordered(kept) && forall r :: r in kept ==> r.oid < next
    requires forall i :: 0 <= i < |added| ==> added[i].oid == next + i
    ensures Ordered(kept + added)
  {
    forall i, j | 0 <= i < j < |kept + added|
      ensures (kept + added)[i].oid < (kept + added)[j].oid
    {
      assert i < |kept| ==> (kept + added)[i] in kept;
    }
  }

  lemma CommitFiled(db: Db, ledger: seq<Request>, e: Effect)
    requires Filed(db, ledger)
    ensures Filed(Commit(db, e), ledger + e.insert)
    ensures forall oid: nat :: oid < |ledger| ==>
              (Stored(Commit(db, e), oid) <==> Stored(Db(Removed(db.rows, e.remove), db.next), oid))
    ensures forall oid: nat :: |ledger| <= oid < |ledger| + |e.insert| ==> Stored(Commit(db, e), oid)
  {
    RemovalFacts(db, ledger, e.remove);
    NumberedFacts(e.insert, db.next);
    hide Handle, Find, Matches, DeleteFirst, Numbered;
    var kept, added := Removed(db.rows, e.remove), Numbered(e.insert, db.next);
    OrderedAppend(kept, added, db.next);
    hide Ordered;
    var db', all := Commit(db, e), ledger + e.insert;
    forall r | r in db'.rows
      ensures r.oid < |all| && all[r.oid] == r.req
      ensures r.oid < |ledger| ==> r in kept
    {
      if r !in kept {
        assert r in added;
      }
    }
    forall oid: nat | |ledger| <= oid < |ledger| + |e.insert|
      ensures Stored(db', oid)
    {
      assert added[oid - |ledger|] in db'.rows;
    }
  }

  lemma {:induction false} RunFiled(ops: seq<Op>)
    ensures Filed(Exec(ops), Ledger(ops))
  {
    hide Handle;
    if ops != [] {
      var before := ops[..|ops| - 1];
      RunFiled(before);
      CommitFiled(Exec(before), Ledger(before), Handle(Exec(before).rows, ops[|ops| - 1]));
    }
  }

  // ---------- Every record is accounted for ----------

  /** The row that a step takes out of a store with these rows. */
  function Hit(rows: seq<Row>, op: Op): Option<Row> {
    var q := Handle(rows, op).remove;
    if q.Some? then Find(rows, q.value) else None
  }

  /** Whoever takes the step has a right to the record: the record is addressed to that account, or
      the account dispatches a record of its own, or it shows the record's add code. */
  predicate Entitled(op: Op, r: Request) {
    match op
    case DispatchRequest(who, _) => r.src == who.account || r.dst == Some(who.account)
    case AddContactRequest(_, _, _, addCode, _, _, _) => addCode != "" && r.addCode == addCode
    case Accept(who, _, _, _, _, _) => r.dst == Some(who.account)
    case Reject(who, _, _, _) => r.dst == Some(who.account)
    case Acknowledged(account, _) => r.dst == Some(account)
    case _ => false
  }

  /** An answer goes through although some record in front of the one that is answered carries the
      same id. */
  predicate Shadowed(rows: seq<Row>, op: Op) {
    && (op.Accept? || op.Reject?)
    && Handle(rows, op).remove.Some?
    && var own := Find(rows, ByIdDst(op.contactRequestId, op.who.account));
    && own.Some?
    && exists e :: e in Before(rows, own.value) && e.req.id == op.contactRequestId
  }

  /** The first row with an id is for `account` if and only if none in front of the account's own row
      has that id; otherwise it is one of those. */
  lemma {:induction false} FirstWithId(rows: seq<Row>, id: nat, account: nat)
    requires Find(rows, ByIdDst(id, account)).Some?
    ensures Find(rows, ById(id)).Some?
    ensures var own, first := Find(rows, ByIdDst(id, account)).value, Find(rows, ById(id)).value;
            && first.req.id == id
            && (first.req.dst == Some(account) <==> forall e :: e in Before(rows, own) ==> e.req.id != id)
            && (first.req.dst != Some(account) ==> first in Before(rows, own))
  {
    if !Matches(ByIdDst(id, account), rows[0].req) {
      FirstWithId(rows[1..], id, account);
      FindFacts(rows[1..], ByIdDst(id, account));
      var own := Find(rows, ByIdDst(id, account)).value;
      assert Before(rows, own) == [rows[0]] + Before(rows[1..], own);
    }
  }

  /** A step takes out a record its caller has a right to if and only if it is not a shadowed answer;
      a shadowed answer takes out one of the records in front of the one that is answered. */
  lemma EntitledUnlessShadowed(rows: seq<Row>, op: Op)
    requires Hit(rows, op).Some?
    ensures Entitled(op, Hit(rows, op).value.req) <==> !Shadowed(rows, op)
    ensures Shadowed(rows, op) ==>
              var own := Find(rows, ByIdDst(op.contactRequestId, op.who.account)).value;
              Hit(rows, op).value in Before(rows, own) && Hit(rows, op).value.req.id == op.contactRequestId
  {
    FindFacts(rows, Handle(rows, op).remove.value);
    if op.Accept? || op.Reject? {
      FirstWithId(rows, op.contactRequestId, op.who.account);
    }
  }

  /** Step `k` of the run takes row `oid` out of the store. */
  ghost predicate LeavesAt(ops: seq<Op>, k: nat, oid: nat) {
    k < |ops| && Stored(Exec(ops[..k]), oid) && !Stored(Exec(ops[..k + 1]), oid)
  }

  lemma PrefixState(ops: seq<Op>, k: nat)
    requires k < |ops|
    ensures Exec(ops[..k + 1]) == Apply(Exec(ops[..k]), ops[k])
    ensures Ledger(ops[..k + 1]) == Ledger(ops[..k]) + Handle(Exec(ops[..k]).rows, ops[k]).insert
  {
    assert ops[..k + 1][..k] == ops[..k];
  }

  lemma {:induction false} LedgerGrows(ops: seq<Op>, k: nat)
    requires k <= |ops|
    ensures Ledger(ops[..k]) <= Ledger(ops)
  {
    hide Handle;
    if k == |ops| {
      assert ops[..k] == ops;
    } else {
      var before := ops[..|ops| - 1];
      LedgerGrows(before, k);
      assert before[..k] == ops[..k];
    }
  }

  /** One step, seen from one row that is already in the ledger. */
  lemma StepOnRow(db: Db, ledger: seq<Request>, op: Op, oid: nat)
    requires Filed(db, ledger) && oid < |ledger|
    ensures Stored(Apply(db, op), oid) ==> Stored(db, oid)
    ensures Stored(db, oid) && !Stored(Apply(db, op), oid) <==> Hit(db.rows, op) == Some(Row(oid, ledger[oid]))
  {
    hide Handle;
    var e := Handle(db.rows, op);
    CommitFiled(db, ledger, e);
    RemovalFacts(db, ledger, e.remove);
    if Stored(db, oid) && !Stored(Apply(db, op), oid) {
      var r :| r in db.rows && r.oid == oid;
      assert r == Row(oid, ledger[oid]);
    }
    if Hit(db.rows, op) == Some(Row(oid, ledger[oid])) {
      FindFacts(db.rows, e.remove.value);
    }
  }

  /** Once out, a row never comes back. */
  lemma {:induction false} GoneForGood(ops: seq<Op>, j: nat, k: nat, oid: nat)
    requires j <= k <= |ops| && oid < |Ledger(ops[..j])| && !Stored(Exec(ops[..j]), oid)
    ensures !Stored(Exec(ops[..k]), oid)
    decreases k
  {
    hide Handle, Apply;
    if j < k {
      GoneForGood(ops, j, k - 1, oid);
      RunFiled(ops[..k - 1]);
      LedgerGrows(ops[..k - 1], j);
      assert ops[..k - 1][..j] == ops[..j];
      PrefixState(ops, k - 1);
      StepOnRow(Exec(ops[..k - 1]), Ledger(ops[..k - 1]), ops[k - 1], oid);
    }
  }

  /** Step `k` is the only one that takes the row out, and its caller has a right to the record unless
      it is a shadowed answer. */
  ghost predicate Departure(ops: seq<Op>, k: nat, oid: nat) {
    && LeavesAt(ops, k, oid) && (forall j: nat :: LeavesAt(ops, j, oid) ==> j == k)
    && oid < |Ledger(ops)|
    && (Entitled(ops[k], Ledger(ops)[oid]) <==> !Shadowed(Exec(ops[..k]).rows, ops[k]))
  }

  /** Every request ever stored is either still in the store, or was taken out by exactly one step
      of the run, and whoever took that step had a right to it unless the step was a shadowed
      answer. */
  lemma EveryRecordAccountedFor(ops: seq<Op>, oid: nat)
    requires oid < |Ledger(ops)|
    ensures Stored(Exec(ops), oid) ==> forall k: nat :: !LeavesAt(ops, k, oid)
    ensures !Stored(Exec(ops), oid) ==> exists k: nat :: Departure(ops, k, oid)
  {
    hide Handle, Apply, Entitled, Shadowed;
    forall j: nat | LeavesAt(ops, j, oid)
      ensures !Stored(Exec(ops), oid)
      ensures forall k: nat :: LeavesAt(ops, k, oid) ==> k <= j
    {
      LeavesOnce(ops, j, oid);
    }
    if !Stored(Exec(ops), oid) {
      var k := DepartureStep(ops, oid);
      DepartureHits(ops, k, oid);
      assert Departure(ops, k, oid);
    }
  }

  lemma LeavesOnce(ops: seq<Op>, j: nat, oid: nat)
    requires LeavesAt(ops, j, oid)
    ensures !Stored(Exec(ops), oid)
    ensures forall k: nat :: LeavesAt(ops, k, oid) ==> k <= j
  {
    hide Handle, Apply;
    StoredIsInLedger(ops[..j], oid);
    LedgerGrows(ops[..j + 1], j);
    assert ops[..j + 1][..j] == ops[..j];
    GoneForGood(ops, j + 1, |ops|, oid);
    assert ops[..|ops|] == ops;
    forall k: nat | LeavesAt(ops, k, oid)
      ensures k <= j
    {
      if k > j {
        GoneForGood(ops, j + 1, k, oid);
      }
    }
  }

  /** The step with which a row leaves is one that hits it. */
  lemma DepartureHits(ops: seq<Op>, k: nat, oid: nat)
    requires LeavesAt(ops, k, oid)
    ensures oid < |Ledger(ops[..k])| <= |Ledger(ops)|
    ensures Hit(Exec(ops[..k]).rows, ops[k]) == Some(Row(oid, Ledger(ops)[oid]))
    ensures Entitled(ops[k], Ledger(ops)[oid]) <==> !Shadowed(Exec(ops[..k]).rows, ops[k])
  {
    hide Handle, Apply, Entitled, Shadowed, Hit;
    RunFiled(ops[..k]);
    StoredIsInLedger(ops[..k], oid);
    LedgerGrows(ops, k);
    PrefixState(ops, k);
    StepOnRow(Exec(ops[..k]), Ledger(ops[..k]), ops[k], oid);
    EntitledUnlessShadowed(Exec(ops[..k]).rows, ops[k]);
  }

  /** A step that hits a row takes it out. */
  lemma HitsDepart(ops: seq<Op>, k: nat)
    requires k < |ops| && Hit(Exec(ops[..k]).rows, ops[k]).Some?
    ensures LeavesAt(ops, k, Hit(Exec(ops[..k]).rows, ops[k]).value.oid)
  {
    hide Handle, Apply;
    var db, ledger := Exec(ops[..k]), Ledger(ops[..k]);
    RunFiled(ops[..k]);
    FindFacts(db.rows, Handle(db.rows, ops[k]).remove.value);
    PrefixState(ops, k);
    StepOnRow(db, ledger, ops[k], Hit(db.rows, ops[k]).value.oid);
  }

  /** In a run every record leaves through somebody who has a right to it if and only if no answer in
      the run is shadowed. */
  lemma OnlyTheEntitledUnlessShadowed(ops: seq<Op>)
    ensures (forall k: nat, oid: nat :: LeavesAt(ops, k, oid) ==>
               oid < |Ledger(ops)| && Entitled(ops[k], Ledger(ops)[oid]))
       <==> (forall k: nat :: k < |ops| ==> !Shadowed(Exec(ops[..k]).rows, ops[k]))
  {
    hide Handle, Apply, Entitled, Exec, Ledger;
    forall k: nat, oid: nat | LeavesAt(ops, k, oid)
      ensures oid < |Ledger(ops)|
      ensures Entitled(ops[k], Ledger(ops)[oid]) <==> !Shadowed(Exec(ops[..k]).rows, ops[k])
    {
      DepartureHits(ops, k, oid);
    }
    forall k: nat | k < |ops| && Shadowed(Exec(ops[..k]).rows, ops[k])
      ensures exists oid: nat :: LeavesAt(ops, k, oid)
    {
      FindFacts(Exec(ops[..k]).rows, ByIdDst(ops[k].contactRequestId, ops[k].who.account));
      ShadowedHits(Exec(ops[..k]).rows, ops[k]);
      HitsDepart(ops, k);
    }
  }

  lemma ShadowedHits(rows: seq<Row>, op: Op)
    requires Shadowed(rows, op)
    ensures Hit(rows, op).Some?
  {
    FirstWithId(rows, op.contactRequestId, op.who.account);
  }

  lemma StoredIsInLedger(ops: seq<Op>, oid: nat)
    requires Stored(Exec(ops), oid)
    ensures oid < |Ledger(ops)|
  {
    RunFiled(ops);
  }

  lemma {:induction false} DepartureStep(ops: seq<Op>, oid: nat) returns (k: nat)
    requires oid < |Ledger(ops)| && !Stored(Exec(ops), oid)
    ensures LeavesAt(ops, k, oid)
  {
    hide Handle, Apply;
    assert ops != [];
    var n := |ops| - 1;
    var before := ops[..n];
    PrefixState(ops, n);
    assert ops[..n + 1] == ops;
    RunFiled(before);
    if oid < |Ledger(before)| {
      if Stored(Exec(before), oid) {
        k := n;
        StepOnRow(Exec(before), Ledger(before), ops[n], oid);
      } else {
        k := DepartureStep(before, oid);
        assert before[..k] == ops[..k] && before[..k + 1] == ops[..k + 1];
      }
    } else {
      CommitFiled(Exec(before), Ledger(before), Handle(Exec(before).rows, ops[n]));
      CommitIsApply(Exec(before), ops[n]);
      assert false;
    }
  }

  lemma CommitIsApply(db: Db, op: Op)
    ensures Apply(db, op) == Commit(db, Handle(db.rows, op))
  {
    hide Handle, Commit;
  }

  // ---------- Contact requests ----------

  /** Clients never use the id of a contact request for anything else. */
  ghost predicate ContactIdsUnique(ledger: seq<Request>) {
    forall i, j :: 0 <= i < |ledger| && 0 <= j < |ledger| && i != j && ledger[i].kind.AddContact?
      ==> ledger[i].id != ledger[j].id
  }

  /** The session deletes on a client's status 1 only for what it delivered as something other than a
      contact request. */
  ghost predicate AcksAreForDeliveries(ops: seq<Op>) {
    forall k :: 0 <= k < |ops| && ops[k].Acknowledged? ==> Delivered(ops, k)
  }

  ghost predicate Delivered(ops: seq<Op>, k: nat)
    requires k < |ops| && ops[k].Acknowledged?
  {
    exists r :: r in Ledger(ops[..k]) && r.id == ops[k].id && !r.kind.AddContact?
  }

  /** Then no answer takes out the wrong contact request, and no acknowledgement takes one out: it
      leaves the store only through its source or recipient, or the redemption of its code. */
  lemma ContactRequestsLeaveByTheirParties(ops: seq<Op>, k: nat, oid: nat)
    requires ContactIdsUnique(Ledger(ops)) && AcksAreForDeliveries(ops)
    requires oid < |Ledger(ops)| && Ledger(ops)[oid].kind.AddContact?
    ensures LeavesAt(ops, k, oid) ==> Entitled(ops[k], Ledger(ops)[oid]) && !ops[k].Acknowledged?
  {
    hide Handle, Apply, Exec, Ledger, Entitled, ContactIdsUnique, Filed, Hit;
    if LeavesAt(ops, k, oid) {
      RunFiled(ops[..k]);
      LedgerGrows(ops, k);
      DepartureHits(ops, k, oid);
      HitContact(Exec(ops[..k]), Ledger(ops[..k]), Ledger(ops), ops[k], oid);
    }
  }

  lemma HitContact(db: Db, ledger: seq<Request>, all: seq<Request>, op: Op, oid: nat)
    requires Filed(db, ledger) && ledger <= all && ContactIdsUnique(all)
    requires oid < |ledger| && ledger[oid].kind.AddContact? && Hit(db.rows, op) == Some(Row(oid, all[oid]))
    requires op.Acknowledged? ==> exists r :: r in ledger && r.id == op.id && !r.kind.AddContact?
    ensures !Shadowed(db.rows, op) && !op.Acknowledged?
  {
    FindFacts(db.rows, Handle(db.rows, op).remove.value);
    if Shadowed(db.rows, op) {
      var q := ByIdDst(op.contactRequestId, op.who.account);
      LookedUpIs(db, all, ledger, q, oid);
      FindFacts(db.rows, q);
      EntitledUnlessShadowed(db.rows, op);
    }
  }

  /** A lookup by the id of a contact request finds that contact request. */
  lemma LookedUpIs(db: Db, all: seq<Request>, ledger: seq<Request>, q: Query, oid: nat)
    requires Filed(db, ledger) && ledger <= all && ContactIdsUnique(all)
    requires oid < |ledger| && ledger[oid].kind.AddContact?
    requires (q.ById? || q.ByIdDst?) && q.id == ledger[oid].id && Find(db.rows, q).Some?
    ensures Find(db.rows, q).value.oid == oid && Find(db.rows, q).value.req == ledger[oid]
  {
    FindFacts(db.rows, q);
    var r := Find(db.rows, q).value;
    assert all[r.oid] == r.req && all[oid] == ledger[oid];
  }

  function AnswersTo(ledger: seq<Request>, id: nat): nat {
    if ledger == [] then 0
    else AnswersTo(ledger[..|ledger| - 1], id) + if ledger[|ledger| - 1].answers == Some(id) then 1 else 0
  }

  ghost predicate AnswersNameRequests(ledger: seq<Request>) {
    forall a :: 0 <= a < |ledger| && ledger[a].answers.Some? ==>
      exists b :: 0 <= b < a && ledger[b].id == ledger[a].answers.value
  }

  lemma {:induction false} NoAnswers(ledger: seq<Request>, id: nat)
    requires forall a :: 0 <= a < |ledger| ==> ledger[a].answers != Some(id)
    ensures AnswersTo(ledger, id) == 0
  {
    if ledger != [] {
      NoAnswers(ledger[..|ledger| - 1], id);
    }
  }

  lemma {:induction false} AnswersAppend(a: seq<Request>, b: seq<Request>, id: nat)
    ensures AnswersTo(a + b, id) == AnswersTo(a, id) + AnswersTo(b, id)
  {
    if b == [] {
      assert a + b == a;
    } else {
      assert (a + b)[..|a + b| - 1] == a + b[..|b| - 1];
      AnswersAppend(a, b[..|b| - 1], id);
    }
  }

  /** An operation inserts an answer only as its one insertion, to a request it looked up and whose
      id it then deletes. */
  lemma AnswersOnlyByLookup(rows: seq<Row>, op: Op, id: nat)
    ensures var e := Handle(rows, op);
            AnswersTo(e.insert, id) > 0 ==>
              && |e.insert| == 1 && e.insert[0].answers == Some(id) && !e.insert[0].kind.AddContact?
              && AnswersTo(e.insert, id) == 1
              && e.remove == Some(ById(id)) && Find(rows, ById(id)).Some?
  {
    var e := Handle(rows, op);
    if op.Accept? || op.Reject? {
      FindFacts(rows, ByIdDst(op.contactRequestId, op.who.account));
      FindFacts(rows, ById(op.contactRequestId));
      if e.insert != [] {
        assert e.insert[..0] == [];
        assert AnswersTo(e.insert[..0], id) == 0;
      }
    } else {
      InsertsNoAnswers(rows, op);
      NoAnswers(e.insert, id);
    }
  }

  lemma InsertsNoAnswers(rows: seq<Row>, op: Op)
    requires !op.Accept? && !op.Reject?
    ensures forall r :: r in Handle(rows, op).insert ==> r.answers.None?
  {
    if op.PushRequest? {
      FanOutIsPushes(op, |op.keys|);
    }
  }

  ghost predicate HandshakeAt(db: Db, ledger: seq<Request>, oid: nat)
    requires oid < |ledger|
  {
    ledger[oid].kind.AddContact? ==>
      (if Stored(db, oid) then 1 else 0) + AnswersTo(ledger, ledger[oid].id) <= 1
  }

  /** What a step does to the handshake of a contact request that is already in the ledger. */
  lemma StepKeepsHandshake(db: Db, ledger: seq<Request>, op: Op, oid: nat)
    requires Filed(db, ledger) && ContactIdsUnique(ledger) && oid < |ledger|
    requires HandshakeAt(db, ledger, oid)
    ensures HandshakeAt(Apply(db, op), ledger + Handle(db.rows, op).insert, oid)
  {
    hide Handle;
    var e := Handle(db.rows, op);
    if ledger[oid].kind.AddContact? {
      var id := ledger[oid].id;
      CommitFiled(db, ledger, e);
      RemovalFacts(db, ledger, e.remove);
      AnswersAppend(ledger, e.insert, id);
      AnswersOnlyByLookup(db.rows, op, id);
      if AnswersTo(e.insert, id) > 0 {
        LookedUpIs(db, ledger, ledger, ById(id), oid);
        FindFacts(db.rows, ById(id));
        assert Stored(db, oid) && !Stored(Db(Removed(db.rows, e.remove), db.next), oid);
      }
      assert (ledger + e.insert)[oid] == ledger[oid];
      CommitIsApply(db, op);
    }
  }

  lemma {:induction false} RunKeepsHandshake(ops: seq<Op>)
    requires ContactIdsUnique(Ledger(ops))
    ensures AnswersNameRequests(Ledger(ops))
    ensures forall oid: nat :: oid < |Ledger(ops)| ==> HandshakeAt(Exec(ops), Ledger(ops), oid)
  {
    hide Handle, Apply;
    if ops != [] {
      var n := |ops| - 1;
      var db, ledger, op := Exec(ops[..n]), Ledger(ops[..n]), ops[n];
      var e := Handle(db.rows, op);
      assert ops[..n + 1] == ops;
      PrefixState(ops, n);
      RunFiled(ops[..n]);
      LedgerGrows(ops, n);
      PrefixUnique(ledger, Ledger(ops));
      RunKeepsHandshake(ops[..n]);
      StepNamesRequests(db, ledger, op);
      forall oid: nat | oid < |Ledger(ops)|
        ensures HandshakeAt(Exec(ops), Ledger(ops), oid)
      {
        if oid < |ledger| {
          StepKeepsHandshake(db, ledger, op, oid);
        } else if Ledger(ops)[oid].kind.AddContact? {
          NoAnswerBesideContact(db.rows, op, oid - |ledger|, Ledger(ops)[oid].id);
          NewRequestUnanswered(Ledger(ops), oid);
        }
      }
    }
  }

  lemma NoAnswerBesideContact(rows: seq<Row>, op: Op, i: nat, id: nat)
    requires i < |Handle(rows, op).insert| && Handle(rows, op).insert[i].kind.AddContact?
    ensures forall r :: r in Handle(rows, op).insert ==> r.answers != Some(id)
  {
    hide Handle;
    var ins := Handle(rows, op).insert;
    if r :| r in ins && r.answers == Some(id) {
      var a :| 0 <= a < |ins| && ins[a] == r;
      OneAnswer(ins, a, id);
      AnswersOnlyByLookup(rows, op, id);
    }
  }

  lemma PrefixUnique(a: seq<Request>, b: seq<Request>)
    requires a <= b && ContactIdsUnique(b)
    ensures ContactIdsUnique(a)
  {
    assert forall i :: 0 <= i < |a| ==> a[i] == b[i];
  }

  lemma StepNamesRequests(db: Db, ledger: seq<Request>, op: Op)
    requires Filed(db, ledger) && AnswersNameRequests(ledger)
    ensures AnswersNameRequests(ledger + Handle(db.rows, op).insert)
  {
    hide Handle;
    var e := Handle(db.rows, op);
    var all := ledger + e.insert;
    forall a | 0 <= a < |all| && all[a].answers.Some?
      ensures exists b :: 0 <= b < a && all[b].id == all[a].answers.value
    {
      var id := all[a].answers.value;
      if a < |ledger| {
        var b :| 0 <= b < a && ledger[b].id == id;
        assert all[b].id == id;
      } else {
        OneAnswer(e.insert, a - |ledger|, id);
        AnswersOnlyByLookup(db.rows, op, id);
        FindFacts(db.rows, ById(id));
        var r := Find(db.rows, ById(id)).value;
        assert all[r.oid].id == id;
      }
    }
  }

  lemma {:induction false} OneAnswer(ledger: seq<Request>, a: nat, id: nat)
    requires a < |ledger| && ledger[a].answers == Some(id)
    ensures AnswersTo(ledger, id) > 0
  {
    if a < |ledger| - 1 {
      OneAnswer(ledger[..|ledger| - 1], a, id);
    }
  }

  /** Nothing can have answered a contact request before or beside its insertion. */
  lemma NewRequestUnanswered(ledger: seq<Request>, oid: nat)
    requires ContactIdsUnique(ledger) && AnswersNameRequests(ledger) && oid < |ledger|
    requires ledger[oid].kind.AddContact?
    requires forall a :: oid < a < |ledger| ==> ledger[a].answers != Some(ledger[oid].id)
    ensures AnswersTo(ledger, ledger[oid].id) == 0
  {
    NoAnswers(ledger, ledger[oid].id);
  }

  /** A contact request is answered at most once, counting every acceptance and rejection ever
      given, and once it has been answered it is no longer in the store. */
  lemma AtMostOneAnswer(ops: seq<Op>, oid: nat)
    requires ContactIdsUnique(Ledger(ops))
    requires oid < |Ledger(ops)| && Ledger(ops)[oid].kind.AddContact?
    ensures (if Stored(Exec(ops), oid) then 1 else 0) + AnswersTo(Ledger(ops), Ledger(ops)[oid].id) <= 1
  {
    RunKeepsHandshake(ops);
    assert HandshakeAt(Exec(ops), Ledger(ops), oid);
  }
}

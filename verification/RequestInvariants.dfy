/** Invariants of the request store: one contact request per pair of accounts, one request per add
    code, and the exact effect of answers and acknowledgements. */
module RequestInvariants {
  import opened Wrappers
  import opened RequestLaws
  import opened RequestStore

  // ---------- One contact request per pair ----------

  ghost predicate PairsUnique(db: Db) {
    forall src, dst :: Count(db.rows, ContactBetween(src, dst)) <= 1
  }

  lemma {:induction false} PushesMatchNoContact(op: Op, n: nat, next: nat, q: Query)
    requires op.PushRequest? && n <= |op.keys|
    requires q.ContactBetween? || (q.ByCode? && q.code != "")
    ensures Count(Numbered(FanOut(op, n), next), q) == 0
  {
    NumberedFacts(FanOut(op, n), next);
    FanOutIsPushes(op, n);
    CountNone(Numbered(FanOut(op, n), next), q);
  }

  /** Only a contact request that found none pending for its pair inserts one. */
  lemma InsertsPair(db: Db, op: Op, src: nat, dst: nat)
    ensures var q, e := ContactBetween(src, dst), Handle(db.rows, op);
            Count(Numbered(e.insert, db.next), q) <= (if Pending(db.rows, q) then 0 else 1)
  {
    var q, e := ContactBetween(src, dst), Handle(db.rows, op);
    if op.PushRequest? {
      PushesMatchNoContact(op, |op.keys|, db.next, q);
    } else if e.insert != [] {
      assert e.insert == [e.insert[0]];
      CountOne(e.insert[0], db.next, q);
    }
  }

  lemma {:induction false} OneRequestPerPair(ops: seq<Op>)
    ensures PairsUnique(Exec(ops))
  {
    hide Handle;
    if ops != [] {
      var db, op := Exec(ops[..|ops| - 1]), ops[|ops| - 1];
      OneRequestPerPair(ops[..|ops| - 1]);
      forall src, dst
        ensures Count(Exec(ops).rows, ContactBetween(src, dst)) <= 1
      {
        InsertsPair(db, op, src, dst);
        CountAfterCommit(db, Handle(db.rows, op), ContactBetween(src, dst));
      }
    }
  }

  /** In every reachable store there is at most one contact request from one account to another, and
      so the test for exactly one pending request is the test for any. */
  lemma PendingMeansAny(ops: seq<Op>, src: nat, dst: nat)
    ensures var rows, q := Exec(ops).rows, ContactBetween(src, dst);
            && Count(rows, q) <= 1
            && (Pending(rows, q) <==> exists r :: r in rows && Matches(q, r.req))
  {
    OneRequestPerPair(ops);
    FindFacts(Exec(ops).rows, ContactBetween(src, dst));
  }

  // ---------- Add codes ----------

  /** Random codes do not repeat a code that is still in the store, and are not empty. */
  ghost predicate CodesFresh(ops: seq<Op>) {
    forall k :: 0 <= k < |ops| && ops[k].CreateAddCode? ==> CodeFreshAt(ops, k)
  }

  ghost predicate CodeFreshAt(ops: seq<Op>, k: nat)
    requires k < |ops| && ops[k].CreateAddCode?
  {
    ops[k].code != "" && Count(Exec(ops[..k]).rows, ByCode(ops[k].code)) == 0
  }

  /** No two rows carry the same code, and only contact requests carry one. */
  ghost predicate CodesUnique(db: Db) {
    && (forall code :: code != "" ==> Count(db.rows, ByCode(code)) <= 1)
    && (forall r :: r in db.rows && r.req.addCode != "" ==> r.req.kind.AddContact?)
  }

  /** What an operation adds under a code, against what it takes away. */
  lemma CodeBalance(db: Db, op: Op, code: string)
    requires code != ""
    requires op.CreateAddCode? ==> op.code != code || Count(db.rows, ByCode(code)) == 0
    requires Count(db.rows, ByCode(code)) <= 1
    ensures var e := Handle(db.rows, op);
            Count(Removed(db.rows, e.remove), ByCode(code)) + Count(Numbered(e.insert, db.next), ByCode(code)) <= 1
  {
    var q, e := ByCode(code), Handle(db.rows, op);
    CountAfterCommit(db, e, q);
    if op.PushRequest? {
      PushesMatchNoContact(op, |op.keys|, db.next, q);
    } else if e.insert != [] {
      assert e.insert == [e.insert[0]];
      CountOne(e.insert[0], db.next, q);
      if op.AddContactRequest? && op.addCode == code {
        assert e.remove == Some(q);
        CountAfterDelete(db.rows, q, q);
        FindFacts(db.rows, q);
        FindFacts(db.rows, ContactByCode(code));
      }
    }
  }

  lemma InsertedCodes(rows: seq<Row>, op: Op)
    ensures forall r :: r in Handle(rows, op).insert && r.addCode != "" ==> r.kind.AddContact?
  {
    if op.PushRequest? {
      FanOutIsPushes(op, |op.keys|);
    }
  }

  lemma InsertedCodesAreContacts(db: Db, op: Op)
    requires forall r :: r in db.rows && r.req.addCode != "" ==> r.req.kind.AddContact?
    ensures forall r :: r in Apply(db, op).rows && r.req.addCode != "" ==> r.req.kind.AddContact?
  {
    hide Handle;
    var e := Handle(db.rows, op);
    NumberedFacts(e.insert, db.next);
    InsertedCodes(db.rows, op);
    if e.remove.Some? {
      CountAfterDelete(db.rows, e.remove.value, e.remove.value);
    }
    forall r | r in Numbered(e.insert, db.next)
      ensures r.req in e.insert
    {
    }
  }

  lemma StepKeepsCodesUnique(db: Db, op: Op)
    requires CodesUnique(db)
    requires op.CreateAddCode? ==> op.code != "" && Count(db.rows, ByCode(op.code)) == 0
    ensures CodesUnique(Apply(db, op))
  {
    hide Handle;
    InsertedCodesAreContacts(db, op);
    forall code | code != ""
      ensures Count(Apply(db, op).rows, ByCode(code)) <= 1
    {
      CodeBalance(db, op, code);
      CountAfterCommit(db, Handle(db.rows, op), ByCode(code));
    }
  }

  lemma PrefixFresh(ops: seq<Op>, n: nat)
    requires CodesFresh(ops) && n <= |ops|
    ensures CodesFresh(ops[..n])
  {
    forall k | 0 <= k < n && ops[..n][k].CreateAddCode?
      ensures CodeFreshAt(ops[..n], k)
    {
      assert CodeFreshAt(ops, k);
      assert ops[..n][..k] == ops[..k];
    }
  }

  lemma {:induction false} OneRequestPerCode(ops: seq<Op>)
    requires CodesFresh(ops)
    ensures CodesUnique(Exec(ops))
  {
    hide Handle, Apply, CodesUnique;
    if ops == [] {
      EmptyCodesUnique();
    } else {
      var n := |ops| - 1;
      PrefixFresh(ops, n);
      OneRequestPerCode(ops[..n]);
      assert ops[n].CreateAddCode? ==> CodeFreshAt(ops, n);
      StepKeepsCodesUnique(Exec(ops[..n]), ops[n]);
    }
  }

  lemma EmptyCodesUnique()
    ensures CodesUnique(EmptyDb)
  {
  }

  /** The redemption of a code by a caller for whom nothing stands in the way, stored or not. */
  ghost predicate Redeems(db: Db, op: Op) {
    && op.AddContactRequest? && op.who.loggedIn && op.addCode != "" && op.key.Some?
    && var target := Target(db.rows, op.dir, op.addCode, op.name);
    && op.who.account in op.dir.known && target.Some? && target.value != op.who.account
    && !Pending(db.rows, ContactBetween(op.who.account, target.value))
  }

  ghost predicate CanRedeem(db: Db, op: Op) {
    Redeems(db, op) && op.stored
  }

  /** The row that carries a code. */
  function Holder(db: Db, code: string): Option<Row> {
    Find(db.rows, ByCode(code))
  }

  /** A redemption replaces the one row with the code by one other: the redeemer's request to the
      source of the row that was looked up. Every other row stays as it was. */
  lemma RedemptionPassesTheCode(db: Db, op: Op)
    requires CodesUnique(db) && CanRedeem(db, op)
    ensures var held, db' := Holder(db, op.addCode), Apply(db, op);
            && held.Some? && Count(db'.rows, ByCode(op.addCode)) == 1
            && Holder(db', op.addCode) == Some(Row(db.next,
                 Request(op.requestId, AddContact, op.who.account, Some(held.value.req.src), op.addCode,
                         None, op.key, None)))
            && db'.rows == DeleteFirst(db.rows, ByCode(op.addCode)) + [Holder(db', op.addCode).value]
            && held.value !in DeleteFirst(db.rows, ByCode(op.addCode))
  {
    var code, db' := op.addCode, Apply(db, op);
    var q := ByCode(code);
    FindFacts(db.rows, ContactByCode(code));
    FindFacts(db.rows, q);
    SameHolder(db.rows, code);
    var kept := DeleteFirst(db.rows, q);
    CountAfterDelete(db.rows, q, q);
    var r := ContactRequest(op.requestId, op.who.account, Target(db.rows, op.dir, code, op.name), code, op.key.value);
    assert Handle(db.rows, op).insert == [r];
    assert Numbered([r], db.next) == [Row(db.next, r)];
    CountAppend(kept, [Row(db.next, r)], q);
    CountOne(r, db.next, q);
    FindFacts(kept, q);
    FindAtEnd(kept, Row(db.next, r), q);
  }

  /** With codes only on contact requests the two queries by code find the same row. */
  lemma {:induction false} SameHolder(rows: seq<Row>, code: string)
    requires code != "" && forall r :: r in rows && r.req.addCode != "" ==> r.req.kind.AddContact?
    ensures Find(rows, ContactByCode(code)) == Find(rows, ByCode(code))
  {
    if rows != [] {
      SameHolder(rows[1..], code);
    }
  }

  lemma {:induction false} FindAtEnd(rows: seq<Row>, last: Row, q: Query)
    requires Find(rows, q).None? && Matches(q, last.req)
    ensures Find(rows + [last], q) == Some(last)
  {
    if rows == [] {
      assert rows + [last] == [last];
    } else {
      assert (rows + [last])[1..] == rows[1..] + [last];
      FindAtEnd(rows[1..], last, q);
    }
  }

  /** What stands in the way of a second redemption is only what would stand in the way of any contact
      request to the first redeemer. */
  ghost predicate MayFollow(mid: Db, first: Op, second: Op)
    requires first.AddContactRequest? && second.AddContactRequest?
  {
    && second.who.loggedIn && second.key.Some? && second.stored && second.who.account != first.who.account
    && {first.who.account, second.who.account} <= second.dir.known
    && !Pending(mid.rows, ContactBetween(second.who.account, first.who.account))
  }

  /** A code is not used up by redeeming it: a second caller can redeem it if and only if it could
      send the first redeemer a contact request. Its request then goes to the first redeemer, and the
      first redeemer's own request is gone without an answer. */
  lemma SecondRedemption(db: Db, first: Op, second: Op)
    requires CodesUnique(db) && CanRedeem(db, first)
    requires second.AddContactRequest? && second.addCode == first.addCode
    ensures var mid := Apply(db, first);
            var end := Apply(mid, second);
            && (CanRedeem(mid, second) <==> MayFollow(mid, first, second))
            && (CanRedeem(mid, second) ==>
                  && Holder(end, first.addCode).Some?
                  && Holder(end, first.addCode).value.req.src == second.who.account
                  && Holder(end, first.addCode).value.req.dst == Some(first.who.account)
                  && Holder(mid, first.addCode).Some? && Holder(mid, first.addCode).value !in end.rows)
  {
    hide Handle;
    var mid := Apply(db, first);
    RedemptionPassesTheCode(db, first);
    StepKeepsCodesUnique(db, first);
    SameHolder(mid.rows, first.addCode);
    assert Find(mid.rows, ContactByCode(first.addCode)) == Holder(mid, first.addCode);
    assert CanRedeem(mid, second) <==> MayFollow(mid, first, second);
    if CanRedeem(mid, second) {
      RedemptionPassesTheCode(mid, second);
      assert Holder(Apply(mid, second), first.addCode).value.oid == mid.next;
      assert Holder(mid, first.addCode).value.oid == db.next;
      NextGrows(db, first);
    }
  }

  /** Unless the first redeemer's request was not stored, which nobody notices: then the code is gone,
      and every further redemption is refused. */
  lemma UnstoredRedemptionLosesTheCode(db: Db, first: Op, second: Op)
    requires CodesUnique(db) && Redeems(db, first) && !first.stored
    requires second.AddContactRequest? && second.addCode == first.addCode
    ensures var mid := Apply(db, first);
            && Holder(db, first.addCode).Some? && Holder(mid, first.addCode).None?
            && Handle(db.rows, first).reply == Success
            && Handle(mid.rows, second) == Refused(0)
  {
    var q, mid := ByCode(first.addCode), Apply(db, first);
    FindFacts(db.rows, ContactByCode(first.addCode));
    FindFacts(db.rows, q);
    CommitSmall(db, Handle(db.rows, first));
    CountAfterDelete(db.rows, q, q);
    FindFacts(mid.rows, q);
    FindFacts(mid.rows, ContactByCode(first.addCode));
  }

  lemma NextGrows(db: Db, op: Op)
    requires CanRedeem(db, op)
    ensures Apply(db, op).next == db.next + 1
  {
  }

  // ---------- Answers ----------

  /** The account that answers sees a request with that id, and an answer can be given. */
  ghost predicate CanAnswer(db: Db, op: Op) {
    && (op.Accept? || op.Reject?) && op.who.loggedIn && op.stored
    && Find(db.rows, ByIdDst(op.contactRequestId, op.who.account)).Some?
    && (op.Accept? ==>
          && op.who.account in op.dir.known && op.key.Some?
          && Find(db.rows, ByIdDst(op.contactRequestId, op.who.account)).value.req.publicKey.Some?)
  }

  function Addressed(db: Db, op: Op): Option<Row>
    requires op.Accept? || op.Reject?
  {
    Find(db.rows, ByIdDst(op.contactRequestId, op.who.account))
  }

  /** Deleting by id alone takes out the request that was answered if and only if no earlier request
      has the same id; otherwise it takes out somebody else's. Either way exactly one answer is
      added, from the answering account back to the source. */
  lemma AnswerReplacesExactlyTheFirst(db: Db, op: Op)
    requires CanAnswer(db, op)
    requires DistinctNumbers(db.rows)
    ensures var r, db' := Addressed(db, op).value, Apply(db, op);
            && |db'.rows| == |db.rows| && db'.next == db.next + 1
            && var answer := db'.rows[|db'.rows| - 1];
            && answer.oid == db.next && answer.req.src == op.who.account && answer.req.dst == Some(r.req.src)
            && answer.req.answers == Some(op.contactRequestId) && answer.req.id == op.requestId
            && answer.req.kind == (if op.Accept? then AcceptContact else RejectContact)
            && answer.req.publicKey == (if op.Accept? then op.key else None)
            && answer.req.addCode == "" && answer.req.data == None
            && db'.rows[..|db.rows| - 1] == DeleteFirst(db.rows, ById(op.contactRequestId))
            && (r !in DeleteFirst(db.rows, ById(op.contactRequestId))
                <==> forall e :: e in Before(db.rows, r) ==> e.req.id != op.contactRequestId)
  {
    var q, byId := ByIdDst(op.contactRequestId, op.who.account), ById(op.contactRequestId);
    FindFacts(db.rows, q);
    FindFacts(db.rows, byId);
    FirstById(db.rows, op.contactRequestId, op.who.account);
    var kept, e := DeleteFirst(db.rows, byId), Handle(db.rows, op);
    DeleteLength(db.rows, byId);
    assert |e.insert| == 1 && e.remove == Some(byId);
    assert Numbered(e.insert, db.next) == [Row(db.next, e.insert[0])];
    assert Apply(db, op).rows[..|kept|] == kept;
  }

  /** How an answer can hit somebody else's record: a push to two accounts is stored under one id
      twice, and when the second recipient names that id in a rejection, the first recipient's copy
      goes and its own stays. */
  lemma RejectionCanRemoveAnothersPush(sender: Caller, first: nat, second: nat, id: nat, answerId: nat,
                                       content: string, key: string)
    requires sender.loggedIn && sender.account != first && sender.account != second && first != second
    ensures var push := PushRequest(sender, id, content, [KeyEntry(first, key), KeyEntry(second, key)], [true, true]);
            var before := Apply(EmptyDb, push);
            var after := Apply(before, Reject(Caller(true, second), answerId, id, true));
            && |before.rows| == 2 && before.rows[0].req.id == before.rows[1].req.id == id
            && before.rows[0].req.dst == Some(first) && before.rows[1].req.dst == Some(second)
            && before.rows[0] !in after.rows && before.rows[1] in after.rows
  {
    var push := PushRequest(sender, id, content, [KeyEntry(first, key), KeyEntry(second, key)], [true, true]);
    var a, b := Pushed(push, push.keys[0]), Pushed(push, push.keys[1]);
    assert FanOut(push, 0) == [];
    assert FanOut(push, 1) == [a];
    assert FanOut(push, 2) == [a, b];
    var before := Apply(EmptyDb, push);
    NumberedFacts([a, b], 0);
    var rows := [Row(0, a), Row(1, b)];
    assert before == Db(rows, 2);
    assert rows[1..] == [Row(1, b)] && rows[1..][1..] == [];
    assert Find(rows, ByIdDst(id, second)) == Some(Row(1, b));
    assert DeleteFirst(rows, ById(id)) == [Row(1, b)];
    var op := Reject(Caller(true, second), answerId, id, true);
    var r := Rejection(op, b);
    assert Handle(rows, op).insert == [r];
    CommitSmall(before, Handle(rows, op));
    var after := Apply(before, op);
    assert after.rows == [Row(1, b), Row(2, r)];
  }

  /** The rows in front of a row. */
  function Before(rows: seq<Row>, r: Row): seq<Row> {
    if rows == [] || rows[0] == r then [] else [rows[0]] + Before(rows[1..], r)
  }

  lemma {:induction false} DeleteLength(rows: seq<Row>, q: Query)
    requires Find(rows, q).Some?
    ensures |DeleteFirst(rows, q)| == |rows| - 1
  {
    if !Matches(q, rows[0].req) {
      DeleteLength(rows[1..], q);
    }
  }

  ghost predicate DistinctNumbers(rows: seq<Row>) {
    forall i, j :: 0 <= i < j < |rows| ==> rows[i].oid != rows[j].oid
  }

  lemma TailDistinct(rows: seq<Row>)
    requires rows != [] && DistinctNumbers(rows)
    ensures DistinctNumbers(rows[1..]) && rows[0] !in rows[1..]
  {
    var rest := rows[1..];
    assert forall i :: 0 <= i < |rest| ==> rest[i] == rows[i + 1];
  }

  lemma {:induction false} FirstById(rows: seq<Row>, id: nat, dst: nat)
    requires Find(rows, ByIdDst(id, dst)).Some? && DistinctNumbers(rows)
    ensures var r := Find(rows, ByIdDst(id, dst)).value;
            r !in DeleteFirst(rows, ById(id)) <==> forall e :: e in Before(rows, r) ==> e.req.id != id
  {
    hide DistinctNumbers;
    var r, first, rest := Find(rows, ByIdDst(id, dst)).value, rows[0], rows[1..];
    TailDistinct(rows);
    if !Matches(ByIdDst(id, dst), first.req) {
      FindFacts(rest, ByIdDst(id, dst));
      FirstById(rest, id, dst);
      assert first in Before(rows, r);
    }
  }

  // ---------- Acknowledgements ----------

  /** The store after `n` sessions have reported status 1 for the same delivery. */
  function Acknowledge(db: Db, id: nat, account: nat, n: nat): Db {
    if n == 0 then db else Apply(Acknowledge(db, id, account, n - 1), Acknowledged(account, id))
  }

  /** The records that do not pass the test, in order. */
  function Others(rows: seq<Row>, p: Test): seq<Row> {
    if rows == [] then []
    else (if p(rows[0].req) then [] else [rows[0]]) + Others(rows[1..], p)
  }

  lemma {:induction false} DeleteKeepsOthers(rows: seq<Row>, q: Query, p: Test)
    requires forall r: Request :: p(r) <==> Matches(q, r)
    ensures Others(DeleteFirst(rows, q), p) == Others(rows, p)
  {
    if rows != [] {
      if Matches(q, rows[0].req) {
        assert [] + Others(rows[1..], p) == Others(rows[1..], p);
      } else {
        DeleteKeepsOthers(rows[1..], q, p);
        assert DeleteFirst(rows, q)[1..] == DeleteFirst(rows[1..], q);
      }
    }
  }

  lemma AckStep(db: Db, id: nat, account: nat)
    ensures var q, db' := ByIdDst(id, account), Apply(db, Acknowledged(account, id));
            && Count(db'.rows, q) == (if Count(db.rows, q) == 0 then 0 else Count(db.rows, q) - 1)
            && Others(db'.rows, WithIdFor(id, account)) == Others(db.rows, WithIdFor(id, account))
            && (Count(db.rows, q) == 0 ==> db' == db)
  {
    var q := ByIdDst(id, account);
    CommitSmall(db, Handle(db.rows, Acknowledged(account, id)));
    CountAfterDelete(db.rows, q, q);
    FindFacts(db.rows, q);
    DeleteKeepsOthers(db.rows, q, WithIdFor(id, account));
  }

  lemma {:induction false} AckCount(db: Db, id: nat, account: nat, n: nat)
    ensures var q, p, db' := ByIdDst(id, account), WithIdFor(id, account), Acknowledge(db, id, account, n);
            && Count(db'.rows, q) == (if Count(db.rows, q) < n then 0 else Count(db.rows, q) - n)
            && Others(db'.rows, p) == Others(db.rows, p)
  {
    hide Apply;
    if n > 0 {
      AckCount(db, id, account, n - 1);
      AckStep(Acknowledge(db, id, account, n - 1), id, account);
    }
  }

  /** Acknowledgements never touch anything but records of that id for that account; and repeating
      them is harmless, however many sessions do, if and only if there is at most one such record. */
  lemma RepeatedAcksHarmlessExactlyWhenUnique(db: Db, id: nat, account: nat)
    ensures forall n: nat :: Others(Acknowledge(db, id, account, n).rows, WithIdFor(id, account))
                          == Others(db.rows, WithIdFor(id, account))
    ensures (forall n: nat :: n >= 1 ==> Acknowledge(db, id, account, n) == Acknowledge(db, id, account, 1))
       <==> NonePasses(db.rows, WithIdFor(id, account)) || ExactlyOnePasses(db.rows, WithIdFor(id, account))
  {
    var q, p := ByIdDst(id, account), WithIdFor(id, account);
    PendingIsExactlyOne(db.rows, q, p);
    forall n: nat
      ensures Others(Acknowledge(db, id, account, n).rows, p) == Others(db.rows, p)
    {
      AckCount(db, id, account, n);
    }
    AckCount(db, id, account, 1);
    AckCount(db, id, account, 2);
    if Count(db.rows, q) <= 1 {
      forall n: nat | n >= 1
        ensures Acknowledge(db, id, account, n) == Acknowledge(db, id, account, 1)
      {
        NothingMoreToAck(db, id, account, n);
      }
    } else {
      assert Acknowledge(db, id, account, 2) != Acknowledge(db, id, account, 1);
    }
  }

  lemma {:induction false} NothingMoreToAck(db: Db, id: nat, account: nat, n: nat)
    requires n >= 1 && Count(db.rows, ByIdDst(id, account)) <= 1
    ensures Acknowledge(db, id, account, n) == Acknowledge(db, id, account, 1)
  {
    hide Apply;
    if n > 1 {
      NothingMoreToAck(db, id, account, n - 1);
      AckCount(db, id, account, n - 1);
      AckStep(Acknowledge(db, id, account, n - 1), id, account);
    }
  }
}

/** What each operation on the request store means, said of the fields of the records and of their
    places in the store alone: which record goes, what the new ones hold, how the client is answered
    and who is told. Nothing here speaks of queries or of the way a handler computes its effect. */
module RequestLaws {
  import opened Wrappers
  import opened RequestStore

  // ---------- Places in the store ----------

  type Test = Request -> bool

  ghost predicate FirstAt(rows: seq<Row>, k: nat, p: Test) {
    k < |rows| && p(rows[k].req) && forall j :: 0 <= j < k ==> !p(rows[j].req)
  }

  /** Row `r` is the first that passes the test. */
  ghost predicate FirstIs(rows: seq<Row>, r: Row, p: Test) {
    exists k: nat :: FirstAt(rows, k, p) && rows[k] == r
  }

  ghost predicate NonePasses(rows: seq<Row>, p: Test) {
    forall r :: r in rows ==> !p(r.req)
  }

  ghost predicate ExactlyOnePasses(rows: seq<Row>, p: Test) {
    exists k: nat :: k < |rows| && OnlyAt(rows, k, p)
  }

  ghost predicate OnlyAt(rows: seq<Row>, k: nat, p: Test) {
    forall j :: 0 <= j < |rows| ==> (p(rows[j].req) <==> j == k)
  }

  /** The first row that passes the test is gone, if there is one, and all others are still there, in
      the same order. */
  ghost predicate FirstLeaves(before: seq<Row>, after: seq<Row>, p: Test) {
    || (NonePasses(before, p) && after == before)
    || exists k: nat :: FirstAt(before, k, p) && after == before[..k] + before[k + 1..]
  }

  function WithId(id: nat): Test {
    (r: Request) => r.id == id
  }

  function WithIdFor(id: nat, account: nat): Test {
    (r: Request) => r.id == id && r.dst == Some(account)
  }

  function WithIdOfParty(id: nat, account: nat): Test {
    (r: Request) => r.id == id && (r.src == account || r.dst == Some(account))
  }

  function WithCode(code: string): Test {
    (r: Request) => r.addCode == code
  }

  function ContactWithCode(code: string): Test {
    (r: Request) => r.kind == AddContact && r.addCode == code
  }

  function ContactFromTo(src: nat, dst: nat): Test {
    (r: Request) => r.kind == AddContact && r.src == src && r.dst == Some(dst)
  }

  // ---------- Queries and tests ----------

  lemma LookupIsFirst(rows: seq<Row>, q: Query, p: Test)
    requires forall r: Request :: p(r) <==> Matches(q, r)
    ensures FirstLeaves(rows, DeleteFirst(rows, q), p)
    ensures Find(rows, q).None? <==> NonePasses(rows, p)
    ensures forall r :: FirstIs(rows, r, p) <==> Find(rows, q) == Some(r)
  {
    FindFacts(rows, q);
    if Find(rows, q).Some? {
      var k := DeleteFirstAt(rows, q);
      assert FirstAt(rows, k, p);
      forall r | FirstIs(rows, r, p)
        ensures r == rows[k]
      {
        var j: nat :| FirstAt(rows, j, p) && rows[j] == r;
        assert j == k;
      }
    }
  }

  /** Whether exactly one passes, seen from the first row. */
  lemma ExactlyOneStep(rows: seq<Row>, p: Test)
    requires rows != []
    ensures NonePasses(rows, p) <==> !p(rows[0].req) && NonePasses(rows[1..], p)
    ensures ExactlyOnePasses(rows, p) <==>
              if p(rows[0].req) then NonePasses(rows[1..], p) else ExactlyOnePasses(rows[1..], p)
  {
    var rest := rows[1..];
    assert forall j :: 0 <= j < |rest| ==> rest[j] == rows[j + 1];
    assert rows == [rows[0]] + rest;
    if k: nat :| k < |rows| && OnlyAt(rows, k, p) {
      if k == 0 {
        assert NonePasses(rest, p);
      } else {
        assert OnlyAt(rest, k - 1, p);
      }
    }
    if p(rows[0].req) && NonePasses(rest, p) {
      assert forall j :: 0 < j < |rows| ==> rows[j] in rest;
      assert OnlyAt(rows, 0, p);
    }
    if !p(rows[0].req) {
      if k: nat :| k < |rest| && OnlyAt(rest, k, p) {
        assert OnlyAt(rows, k + 1, p);
      }
    }
  }

  /** `requestPending` asks for exactly one. */
  lemma {:induction false} PendingIsExactlyOne(rows: seq<Row>, q: Query, p: Test)
    requires forall r: Request :: p(r) <==> Matches(q, r)
    ensures Pending(rows, q) <==> ExactlyOnePasses(rows, p)
    ensures Count(rows, q) == 0 <==> NonePasses(rows, p)
  {
    if rows != [] {
      PendingIsExactlyOne(rows[1..], q, p);
      ExactlyOneStep(rows, p);
      hide ExactlyOnePasses, NonePasses;
    }
  }

  // ---------- Dispatch, acknowledgement, upload ----------

  /** A dispatch takes out the first record of that id that the caller sent or is to receive. */
  lemma DispatchLaw(db: Db, who: Caller, id: Option<nat>)
    ensures var op := DispatchRequest(who, id);
            var db' := Apply(db, op);
            && (!who.loggedIn || id.None? ==> db' == db)
            && (who.loggedIn && id.Some? ==>
                  db'.next == db.next && FirstLeaves(db.rows, db'.rows, WithIdOfParty(id.value, who.account)))
            && Handle(db.rows, op).wake == []
            && Handle(db.rows, op).reply
                 == (if !who.loggedIn then Failure(0) else if id.None? then NoReply else Success)
  {
    CommitSmall(db, Handle(db.rows, DispatchRequest(who, id)));
    if id.Some? {
      LookupIsFirst(db.rows, ByIdParty(id.value, who.account), WithIdOfParty(id.value, who.account));
    }
  }

  /** A status-1 response takes out the first record of that id for the account that answered. */
  lemma AcknowledgementLaw(db: Db, account: nat, id: nat)
    ensures var db' := Apply(db, Acknowledged(account, id));
            db'.next == db.next && FirstLeaves(db.rows, db'.rows, WithIdFor(id, account))
  {
    CommitSmall(db, Handle(db.rows, Acknowledged(account, id)));
    LookupIsFirst(db.rows, ByIdDst(id, account), WithIdFor(id, account));
  }

  /** A complete upload leaves a dispatch record from nobody to its own account, under the stream's id. */
  lemma UploadLaw(db: Db, account: nat, streamId: nat, stored: bool)
    ensures var db' := Apply(db, UploadDone(account, streamId, stored));
            if stored then
              db' == Db(db.rows + [Row(db.next, Request(streamId, Dispatch, 0, Some(account), "", None, None, None))],
                        db.next + 1)
            else db' == db
  {
    CommitSmall(db, Handle(db.rows, UploadDone(account, streamId, stored)));
  }

  // ---------- Answers ----------

  /** `own` is the record that an answer is about, and the answer can be given. */
  ghost predicate Answerable(db: Db, op: Op, own: Row)
    requires op.Accept? || op.Reject?
  {
    && op.who.loggedIn && FirstIs(db.rows, own, WithIdFor(op.contactRequestId, op.who.account))
    && (op.Accept? ==> op.who.account in op.dir.known && own.req.publicKey.Some? && op.key.Some?)
  }

  /** What the answering account sends back: an acceptance carries its own public key. */
  function AnswerTo(op: Op, own: Request): Request
    requires op.Accept? || op.Reject?
  {
    Request(op.requestId, if op.Accept? then AcceptContact else RejectContact, op.who.account, Some(own.src), "",
            Some(op.contactRequestId), if op.Accept? then op.key else None, None)
  }

  lemma AnswerLaw(db: Db, op: Op, own: Row)
    requires (op.Accept? || op.Reject?) && Answerable(db, op, own)
    ensures var db', n := Apply(db, op), |db.rows| - 1;
            && |db'.rows| >= n >= 0
            && FirstLeaves(db.rows, db'.rows[..n], WithId(op.contactRequestId))
            && db'.rows[n..] == (if op.stored then [Row(db.next, AnswerTo(op, own.req))] else [])
            && db'.next == db.next + (if op.stored then 1 else 0)
            && Handle(db.rows, op).reply == Success && Handle(db.rows, op).wake == [own.req.src]
  {
    var id := op.contactRequestId;
    LookupIsFirst(db.rows, ByIdDst(id, op.who.account), WithIdFor(id, op.who.account));
    LookupIsFirst(db.rows, ById(id), WithId(id));
    FindFacts(db.rows, ByIdDst(id, op.who.account));
    FindFacts(db.rows, ById(id));
    CommitSmall(db, Handle(db.rows, op));
    var kept := DeleteFirst(db.rows, ById(id));
    var k := DeleteFirstAt(db.rows, ById(id));
    assert |kept| == |db.rows| - 1;
    assert Apply(db, op).rows[..|kept|] == kept;
  }

  lemma AnswerRefused(db: Db, op: Op)
    requires (op.Accept? || op.Reject?) && forall own :: !Answerable(db, op, own)
    ensures Apply(db, op) == db && Handle(db.rows, op).wake == []
    ensures var mine, reply := WithIdFor(op.contactRequestId, op.who.account), Handle(db.rows, op).reply;
            if !op.who.loggedIn then reply == Failure(0)
            else if NonePasses(db.rows, mine) then reply == Failure(1)
            else
              && op.Accept?
              && (exists own :: FirstIs(db.rows, own, mine)
                   && reply == (if op.who.account in op.dir.known && own.req.publicKey.None? then NoReply
                                else Failure(0)))
  {
    var id := op.contactRequestId;
    LookupIsFirst(db.rows, ByIdDst(id, op.who.account), WithIdFor(id, op.who.account));
    CommitSmall(db, Handle(db.rows, op));
    var found := Find(db.rows, ByIdDst(id, op.who.account));
    if found.Some? {
      assert FirstIs(db.rows, found.value, WithIdFor(id, op.who.account));
      assert !Answerable(db, op, found.value);
    }
  }

  // ---------- Contact requests and add codes ----------

  /** Account `t` is the one a contact request is for: with an add code the source of the first contact
      request that carries it, without one the account that can be found by the name. */
  ghost predicate IsTarget(rows: seq<Row>, dir: Directory, addCode: string, name: string, t: nat) {
    if addCode != "" then
      t in dir.known && exists held :: FirstIs(rows, held, ContactWithCode(addCode)) && held.req.src == t
    else
      name != "" && name in dir.labels && dir.labels[name] == t
  }

  lemma TargetLaw(rows: seq<Row>, dir: Directory, addCode: string, name: string)
    ensures forall t: nat :: IsTarget(rows, dir, addCode, name, t) <==> Target(rows, dir, addCode, name) == Some(t)
  {
    LookupIsFirst(rows, ContactByCode(addCode), ContactWithCode(addCode));
    var found := Find(rows, ContactByCode(addCode));
    forall t: nat | addCode != "" && Target(rows, dir, addCode, name) == Some(t)
      ensures IsTarget(rows, dir, addCode, name, t)
    {
      assert FirstIs(rows, found.value, ContactWithCode(addCode));
    }
  }

  ghost predicate ContactAllowed(db: Db, op: Op, t: nat)
    requires op.AddContactRequest?
  {
    && op.who.loggedIn && op.who.account in op.dir.known
    && IsTarget(db.rows, op.dir, op.addCode, op.name, t) && t != op.who.account
    && !ExactlyOnePasses(db.rows, ContactFromTo(op.who.account, t))
    && op.key.Some?
  }

  /** A contact request that is allowed is stored with its own source, target, code and key, takes out
      the first record with that code if it was made with one, and the target is told. */
  lemma ContactRequestLaw(db: Db, op: Op, t: nat)
    requires op.AddContactRequest? && ContactAllowed(db, op, t)
    ensures var db' := Apply(db, op);
            var n := |db.rows| - if op.addCode != "" then 1 else 0;
            && |db'.rows| >= n >= 0
            && (if op.addCode != "" then FirstLeaves(db.rows, db'.rows[..n], WithCode(op.addCode))
                else db'.rows[..n] == db.rows)
            && db'.rows[n..] == (if op.stored then
                 [Row(db.next, Request(op.requestId, AddContact, op.who.account, Some(t), op.addCode, None, op.key,
                                       None))]
                 else [])
            && db'.next == db.next + (if op.stored then 1 else 0)
            && Handle(db.rows, op).reply == Success && Handle(db.rows, op).wake == [t]
  {
    TargetLaw(db.rows, op.dir, op.addCode, op.name);
    PendingIsExactlyOne(db.rows, ContactBetween(op.who.account, t), ContactFromTo(op.who.account, t));
    CommitSmall(db, Handle(db.rows, op));
    if op.addCode != "" {
      var q := ByCode(op.addCode);
      FindFacts(db.rows, ContactByCode(op.addCode));
      FindFacts(db.rows, q);
      LookupIsFirst(db.rows, q, WithCode(op.addCode));
      var kept := DeleteFirst(db.rows, q);
      var k := DeleteFirstAt(db.rows, q);
      assert |kept| == |db.rows| - 1;
      assert Apply(db, op).rows[..|kept|] == kept;
    } else {
      assert Apply(db, op).rows[..|db.rows|] == db.rows;
    }
  }

  lemma ContactRequestRefused(db: Db, op: Op)
    requires op.AddContactRequest? && forall t: nat :: !ContactAllowed(db, op, t)
    ensures Apply(db, op) == db && Handle(db.rows, op) == Effect(None, [], Failure(0), [])
  {
    TargetLaw(db.rows, op.dir, op.addCode, op.name);
    CommitSmall(db, Handle(db.rows, op));
    var target := Target(db.rows, op.dir, op.addCode, op.name);
    if target.Some? {
      var t := target.value;
      PendingIsExactlyOne(db.rows, ContactBetween(op.who.account, t), ContactFromTo(op.who.account, t));
      assert IsTarget(db.rows, op.dir, op.addCode, op.name, t);
      assert !ContactAllowed(db, op, t);
    }
  }

  /** A new add code is a contact request of its creator to nobody, with the code and the creator's key. */
  lemma CreateAddCodeLaw(db: Db, op: Op)
    requires op.CreateAddCode?
    ensures var db', granted := Apply(db, op), op.who.loggedIn && op.key.Some? && op.who.account in op.dir.known;
            && (if granted && op.stored then
                  db' == Db(db.rows + [Row(db.next, Request(op.requestId, AddContact, op.who.account, None, op.code,
                                                            None, op.key, None))], db.next + 1)
                else db' == db)
            && Handle(db.rows, op).reply == (if granted then Success else Failure(0))
            && Handle(db.rows, op).wake == []
  {
    CommitSmall(db, Handle(db.rows, op));
  }

  // ---------- Push ----------

  /** How many of the first `n` entries pass. */
  function HowMany(n: nat, p: nat -> bool): nat {
    if n == 0 then 0 else HowMany(n - 1, p) + if p(n - 1) then 1 else 0
  }

  /** The entries of a push that leave a record: those for others than the sender, as far as they could
      be stored. */
  function Kept(op: Op): nat -> bool
    requires op.PushRequest?
  {
    (i: nat) => i < |op.keys| && op.keys[i].dst != op.who.account && (i < |op.storedEach| ==> op.storedEach[i])
  }

  lemma {:induction false} FanOutSize(op: Op, n: nat)
    requires op.PushRequest? && n <= |op.keys|
    ensures |FanOut(op, n)| == HowMany(n, Kept(op))
  {
    if n > 0 {
      FanOutSize(op, n - 1);
    }
  }

  /** The copy for one entry: its own recipient and key, everything else the same in all of them. */
  function CopyFor(op: Op, i: nat): Request
    requires op.PushRequest? && i < |op.keys|
  {
    Request(op.requestId, Push, op.who.account, Some(op.keys[i].dst), "", None, None,
            Some(Forward(op.requestId, op.who.account, op.content, op.keys[i].key)))
  }

  /** A push appends one record for each entry kept, in the order of the entries, and no other. */
  lemma PushLaw(db: Db, op: Op)
    requires op.PushRequest? && op.who.loggedIn
    ensures var db', all := Apply(db, op), HowMany(|op.keys|, Kept(op));
            && |db'.rows| == |db.rows| + all && db'.next == db.next + all
            && db'.rows[..|db.rows|] == db.rows
            && (forall i: nat :: i < |op.keys| && Kept(op)(i) ==>
                  var at := HowMany(i, Kept(op));
                  at < all && db'.rows[|db.rows| + at] == Row(db.next + at, CopyFor(op, i)))
            && Handle(db.rows, op).reply == Success && Handle(db.rows, op).wake == Recipients(op, |op.keys|)
  {
    var n, db' := |op.keys|, Apply(db, op);
    FanOutSize(op, n);
    NumberedFacts(FanOut(op, n), db.next);
    forall i: nat | i < |op.keys| && Kept(op)(i)
      ensures var at := HowMany(i, Kept(op));
              at < HowMany(n, Kept(op)) && db'.rows[|db.rows| + at] == Row(db.next + at, CopyFor(op, i))
    {
      CopyIsThere(op, i);
    }
  }

  lemma CopyIsThere(op: Op, i: nat)
    requires op.PushRequest? && i < |op.keys| && Kept(op)(i)
    ensures HowMany(i, Kept(op)) < |FanOut(op, |op.keys|)|
    ensures FanOut(op, |op.keys|)[HowMany(i, Kept(op))] == CopyFor(op, i)
  {
    FanOutSize(op, i);
    FanOutPrefix(op, i + 1, |op.keys|);
    assert FanOut(op, i + 1)[|FanOut(op, i)|] == CopyFor(op, i);
  }

  /** The entries that name an account. */
  function Naming(op: Op, account: nat): nat -> bool
    requires op.PushRequest?
  {
    (i: nat) => i < |op.keys| && op.keys[i].dst == account
  }

  function Times(list: seq<nat>, x: nat): nat {
    if list == [] then 0 else Times(list[..|list| - 1], x) + if list[|list| - 1] == x then 1 else 0
  }

  lemma RecipientsStep(op: Op, n: nat, account: nat)
    requires op.PushRequest? && n < |op.keys|
    ensures Times(Recipients(op, n + 1), account) == Times(Recipients(op, n), account)
            + if op.keys[n].dst == account && account != op.who.account then 1 else 0
  {
    var r, dst := Recipients(op, n), op.keys[n].dst;
    assert r + [] == r;
    assert (r + [dst])[..|r|] == r;
  }

  lemma NoRecipients(op: Op, account: nat)
    requires op.PushRequest?
    ensures Times(Recipients(op, 0), account) == 0
  {
  }

  /** Everybody else who is named in an entry is told, once for each, and the sender is not. */
  lemma {:induction false} PushWakes(op: Op, n: nat, account: nat)
    requires op.PushRequest? && n <= |op.keys|
    ensures Times(Recipients(op, n), account)
         == if account == op.who.account then 0 else HowMany(n, Naming(op, account))
  {
    hide Recipients, Times;
    if n == 0 {
      NoRecipients(op, account);
    } else {
      PushWakes(op, n - 1, account);
      RecipientsStep(op, n - 1, account);
    }
  }

  lemma PushRefused(db: Db, op: Op)
    requires op.PushRequest? && !op.who.loggedIn
    ensures Apply(db, op) == db && Handle(db.rows, op) == Effect(None, [], Failure(0), [])
  {
    CommitSmall(db, Handle(db.rows, op));
  }
}

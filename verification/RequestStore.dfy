/** The collection of requests that wait for their recipients, and what each handler does to it.

    Rows are kept in insertion order and carry the number under which the database filed them. A
    removal takes the first row that matches its query. */
module RequestStore {
  import opened Wrappers

  datatype Kind = AddContact | AcceptContact | RejectContact | Push | Dispatch

  /** The part of a pushed message that differs from recipient to recipient is its key. */
  datatype Forward = Forward(requestId: nat, src: nat, content: string, key: string)

  datatype Request = Request(
    id: nat,                      // chosen by the client
    kind: Kind,
    src: nat,
    dst: Option<nat>,             // missing on an add code
    addCode: string,              // "" if there is none
    answers: Option<nat>,         // contactRequestId of an acceptance or rejection
    publicKey: Option<string>,
    data: Option<Forward>)

  datatype Row = Row(oid: nat, req: Request)

  datatype Db = Db(rows: seq<Row>, next: nat)

  const EmptyDb := Db([], 0)

  // ---------- Queries ----------

  datatype Query =
    | ById(id: nat)
    | ByIdDst(id: nat, dst: nat)
    | ByIdParty(id: nat, account: nat)
    | ByCode(code: string)
    | ContactByCode(code: string)
    | ContactBetween(src: nat, to: nat)
    | To(dst: nat)
    | PushTo(dst: nat)

  predicate Matches(q: Query, r: Request) {
    match q
    case ById(id) => r.id == id
    case ByIdDst(id, dst) => r.id == id && r.dst == Some(dst)
    case ByIdParty(id, account) => r.id == id && (r.src == account || r.dst == Some(account))
    case ByCode(code) => r.addCode == code
    case ContactByCode(code) => r.kind.AddContact? && r.addCode == code
    case ContactBetween(src, to) => r.kind.AddContact? && r.src == src && r.dst == Some(to)
    case To(dst) => r.dst == Some(dst)
    case PushTo(dst) => r.dst == Some(dst) && r.kind.Push?
  }

  /** The first match. */
  function Find(rows: seq<Row>, q: Query): Option<Row> {
    if rows == [] then None
    else if Matches(q, rows[0].req) then Some(rows[0])
    else Find(rows[1..], q)
  }

  function Count(rows: seq<Row>, q: Query): nat {
    if rows == [] then 0 else (if Matches(q, rows[0].req) then 1 else 0) + Count(rows[1..], q)
  }

  function Select(rows: seq<Row>, q: Query): seq<Row> {
    if rows == [] then []
    else if Matches(q, rows[0].req) then [rows[0]] + Select(rows[1..], q)
    else Select(rows[1..], q)
  }

  function DeleteFirst(rows: seq<Row>, q: Query): seq<Row> {
    if rows == [] then []
    else if Matches(q, rows[0].req) then rows[1..]
    else [rows[0]] + DeleteFirst(rows[1..], q)
  }

  /** `requestPending` asks for exactly one match. */
  predicate Pending(rows: seq<Row>, q: Query) {
    Count(rows, q) == 1
  }

  /** New requests as rows, numbered from `next`. */
  function Numbered(reqs: seq<Request>, next: nat): seq<Row> {
    if reqs == [] then [] else [Row(next, reqs[0])] + Numbered(reqs[1..], next + 1)
  }

  // ---------- What happens to the store ----------

  datatype Caller = Caller(loggedIn: bool, account: nat)

  /** The accounts collection as a handler sees it: the ids that exist, and for each name that can be
      searched for the account it finds. */
  datatype Directory = Directory(known: set<nat>, labels: map<string, nat>)

  datatype KeyEntry = KeyEntry(dst: nat, key: string)

  /** One step of the server. `stored` is false when the insert throws inside the driver, which
      `addRequest` hides from its caller. */
  datatype Op =
    | DispatchRequest(who: Caller, dispatchId: Option<nat>)
    | AddContactRequest(who: Caller, dir: Directory, requestId: nat, addCode: string, name: string,
                        key: Option<string>, stored: bool)
    | CreateAddCode(who: Caller, dir: Directory, requestId: nat, key: Option<string>, code: string, stored: bool)
    | Accept(who: Caller, dir: Directory, requestId: nat, contactRequestId: nat, key: Option<string>, stored: bool)
    | Reject(who: Caller, requestId: nat, contactRequestId: nat, stored: bool)
    | PushRequest(who: Caller, requestId: nat, content: string, keys: seq<KeyEntry>, storedEach: seq<bool>)
    | Acknowledged(account: nat, id: nat)                       // a client's status 1 for a delivery
    | UploadDone(account: nat, streamId: nat, stored: bool)     // a stream has arrived completely

  datatype Reply = Success | Failure(code: nat) | NoReply

  /** What an operation does: at most one removal, some insertions, an answer to the client, and the
      accounts whose sessions are told to look for requests. */
  datatype Effect = Effect(remove: Option<Query>, insert: seq<Request>, reply: Reply, wake: seq<nat>)

  function Refused(code: nat): Effect {
    Effect(None, [], Failure(code), [])
  }

  function IfStored(stored: bool, r: Request): seq<Request> {
    if stored then [r] else []
  }

  /** The account a contact request is for: the source of the request with that add code, or the
      account with that name. */
  function Target(rows: seq<Row>, dir: Directory, addCode: string, name: string): Option<nat> {
    if addCode != "" then
      match Find(rows, ContactByCode(addCode))
      case None => None
      case Some(r) => if r.req.src in dir.known then Some(r.req.src) else None
    else if name != "" && name in dir.labels then Some(dir.labels[name])
    else None
  }

  function ContactRequest(requestId: nat, src: nat, dst: Option<nat>, addCode: string, key: string): Request {
    Request(requestId, AddContact, src, dst, addCode, None, Some(key), None)
  }

  function HandleAddContact(rows: seq<Row>, op: Op): Effect
    requires op.AddContactRequest?
  {
    var target := Target(rows, op.dir, op.addCode, op.name);
    if !op.who.loggedIn || op.who.account !in op.dir.known || target.None? then Refused(0)
    else if target.value == op.who.account then Refused(0)
    else if Pending(rows, ContactBetween(op.who.account, target.value)) then Refused(0)
    else if op.key.None? then Refused(0)
    else
      Effect(if op.addCode != "" then Some(ByCode(op.addCode)) else None,
             IfStored(op.stored, ContactRequest(op.requestId, op.who.account, target, op.addCode, op.key.value)),
             Success, [target.value])
  }

  function Acceptance(op: Op, request: Request): Request
    requires op.Accept? && op.key.Some?
  {
    Request(op.requestId, AcceptContact, op.who.account, Some(request.src), "",
            Some(op.contactRequestId), op.key, None)
  }

  function Rejection(op: Op, request: Request): Request
    requires op.Reject?
  {
    Request(op.requestId, RejectContact, op.who.account, Some(request.src), "",
            Some(op.contactRequestId), None, None)
  }

  /** Reading the public key of a request that has none throws out of the handler. */
  function HandleAccept(rows: seq<Row>, op: Op): Effect
    requires op.Accept?
  {
    if !op.who.loggedIn then Refused(0)
    else match Find(rows, ByIdDst(op.contactRequestId, op.who.account))
      case None => Refused(1)
      case Some(r) =>
        if op.who.account !in op.dir.known then Refused(0)
        else if r.req.publicKey.None? then Effect(None, [], NoReply, [])
        else if op.key.None? then Refused(0)
        else Effect(Some(ById(op.contactRequestId)), IfStored(op.stored, Acceptance(op, r.req)),
                    Success, [r.req.src])
  }

  function HandleReject(rows: seq<Row>, op: Op): Effect
    requires op.Reject?
  {
    if !op.who.loggedIn then Refused(0)
    else match Find(rows, ByIdDst(op.contactRequestId, op.who.account))
      case None => Refused(1)
      case Some(r) =>
        Effect(Some(ById(op.contactRequestId)), IfStored(op.stored, Rejection(op, r.req)),
               Success, [r.req.src])
  }

  function Pushed(op: Op, entry: KeyEntry): Request
    requires op.PushRequest?
  {
    Request(op.requestId, Push, op.who.account, Some(entry.dst), "", None, None,
            Some(Forward(op.requestId, op.who.account, op.content, entry.key)))
  }

  function StoredAt(op: Op, i: nat): bool
    requires op.PushRequest?
  {
    i < |op.storedEach| ==> op.storedEach[i]
  }

  /** The requests of a push: one for each of the first `n` entries that is not for the sender. */
  function FanOut(op: Op, n: nat): seq<Request>
    requires op.PushRequest? && n <= |op.keys|
  {
    if n == 0 then []
    else
      var entry := op.keys[n - 1];
      FanOut(op, n - 1)
      + if entry.dst != op.who.account && StoredAt(op, n - 1) then [Pushed(op, entry)] else []
  }

  function Recipients(op: Op, n: nat): seq<nat>
    requires op.PushRequest? && n <= |op.keys|
  {
    if n == 0 then []
    else
      Recipients(op, n - 1)
      + if op.keys[n - 1].dst != op.who.account then [op.keys[n - 1].dst] else []
  }

  function Handle(rows: seq<Row>, op: Op): Effect {
    match op
    case DispatchRequest(who, dispatchId) =>
      if !who.loggedIn then Refused(0)
      else if dispatchId.None? then Effect(None, [], NoReply, [])
      else Effect(Some(ByIdParty(dispatchId.value, who.account)), [], Success, [])
    case AddContactRequest(_, _, _, _, _, _, _) => HandleAddContact(rows, op)
    case CreateAddCode(who, dir, requestId, key, code, stored) =>
      if !who.loggedIn || key.None? || who.account !in dir.known then Refused(0)
      else Effect(None, IfStored(stored, ContactRequest(requestId, who.account, None, code, key.value)),
                  Success, [])
    case Accept(_, _, _, _, _, _) => HandleAccept(rows, op)
    case Reject(_, _, _, _) => HandleReject(rows, op)
    case PushRequest(who, _, _, keys, _) =>
      if !who.loggedIn then Refused(0)
      else Effect(None, FanOut(op, |keys|), Success, Recipients(op, |keys|))
    case Acknowledged(account, id) => Effect(Some(ByIdDst(id, account)), [], NoReply, [])
    case UploadDone(account, streamId, stored) =>
      Effect(None, IfStored(stored, Request(streamId, Dispatch, 0, Some(account), "", None, None, None)),
             NoReply, [])
  }

  function Removed(rows: seq<Row>, q: Option<Query>): seq<Row> {
    if q.Some? then DeleteFirst(rows, q.value) else rows
  }

  function Commit(db: Db, e: Effect): Db {
    Db(Removed(db.rows, e.remove) + Numbered(e.insert, db.next), db.next + |e.insert|)
  }

  function Apply(db: Db, op: Op): Db {
    Commit(db, Handle(db.rows, op))
  }

  /** The store after a run from the empty one. */
  function Exec(ops: seq<Op>): Db {
    if ops == [] then EmptyDb else Apply(Exec(ops[..|ops| - 1]), ops[|ops| - 1])
  }

  // ---------- Facts about queries ----------

  lemma {:induction false} CountAppend(a: seq<Row>, b: seq<Row>, q: Query)
    ensures Count(a + b, q) == Count(a, q) + Count(b, q)
  {
    if a == [] {
      assert a + b == b;
    } else {
      CountAppend(a[1..], b, q);
      assert (a + b)[1..] == a[1..] + b;
    }
  }

  lemma {:induction false} FindFacts(rows: seq<Row>, q: Query)
    ensures Find(rows, q).Some? <==> Count(rows, q) > 0
    ensures Find(rows, q).Some? ==> Find(rows, q).value in rows && Matches(q, Find(rows, q).value.req)
    ensures Find(rows, q).None? ==> DeleteFirst(rows, q) == rows
    ensures forall r :: r in rows && Matches(q, r.req) ==> Find(rows, q).Some?
  {
    if rows != [] {
      FindFacts(rows[1..], q);
      assert rows == [rows[0]] + rows[1..];
    }
  }

  /** What one removal does to any count. */
  lemma {:induction false} CountAfterDelete(rows: seq<Row>, q: Query, p: Query)
    ensures Count(DeleteFirst(rows, q), p) ==
              Count(rows, p) - (if Find(rows, q).Some? && Matches(p, Find(rows, q).value.req) then 1 else 0)
    ensures Find(rows, q).Some? && Matches(p, Find(rows, q).value.req) ==> Count(rows, p) > 0
    ensures forall r :: r in DeleteFirst(rows, q) ==> r in rows
  {
    if rows != [] {
      CountAfterDelete(rows[1..], q, p);
      assert rows == [rows[0]] + rows[1..];
      if !Matches(q, rows[0].req) {
        assert DeleteFirst(rows, q)[1..] == DeleteFirst(rows[1..], q);
      }
    }
  }

  /** A removal takes out one row, the first that matches, and leaves the order alone. */
  lemma {:induction false} DeleteFirstAt(rows: seq<Row>, q: Query) returns (k: nat)
    requires Find(rows, q).Some?
    ensures k < |rows| && Find(rows, q).value == rows[k] && Matches(q, rows[k].req)
    ensures DeleteFirst(rows, q) == rows[..k] + rows[k + 1..]
    ensures forall j :: 0 <= j < k ==> !Matches(q, rows[j].req)
  {
    if Matches(q, rows[0].req) {
      k := 0;
    } else {
      var i := DeleteFirstAt(rows[1..], q);
      k := i + 1;
      PutBack(rows, i);
      forall j | 0 <= j < k
        ensures !Matches(q, rows[j].req)
      {
        assert j > 0 ==> rows[j] == rows[1..][j - 1];
      }
    }
  }

  lemma PutBack(rows: seq<Row>, i: nat)
    requires i + 1 < |rows|
    ensures [rows[0]] + (rows[1..][..i] + rows[1..][i + 1..]) == rows[..i + 1] + rows[i + 2..]
  {
    assert [rows[0]] + rows[1..][..i] == rows[..i + 1];
    assert rows[1..][i + 1..] == rows[i + 2..];
  }

  lemma {:induction false} DeleteInFront(a: seq<Row>, b: seq<Row>, q: Query)
    requires Find(a, q).Some?
    ensures DeleteFirst(a + b, q) == DeleteFirst(a, q) + b
  {
    assert (a + b)[0] == a[0] && (a + b)[1..] == a[1..] + b;
    if !Matches(q, a[0].req) {
      DeleteInFront(a[1..], b, q);
      Associative([a[0]], DeleteFirst(a[1..], q), b);
    }
  }

  lemma Associative(x: seq<Row>, y: seq<Row>, z: seq<Row>)
    ensures (x + y) + z == x + (y + z)
  {
  }

  lemma {:induction false} NumberedFacts(reqs: seq<Request>, next: nat)
    ensures |Numbered(reqs, next)| == |reqs|
    ensures forall i :: 0 <= i < |reqs| ==> Numbered(reqs, next)[i] == Row(next + i, reqs[i])
  {
    if reqs != [] {
      NumberedFacts(reqs[1..], next + 1);
    }
  }

  /** Counting matches after an operation: those kept and those inserted. */
  lemma CountAfterCommit(db: Db, e: Effect, p: Query)
    ensures Count(Commit(db, e).rows, p) ==
              Count(Removed(db.rows, e.remove), p) + Count(Numbered(e.insert, db.next), p)
    ensures Count(Removed(db.rows, e.remove), p) <= Count(db.rows, p)
  {
    CountAppend(Removed(db.rows, e.remove), Numbered(e.insert, db.next), p);
    if e.remove.Some? {
      CountAfterDelete(db.rows, e.remove.value, p);
    }
  }

  /** A commit of at most one insertion, spelled out. */
  lemma CommitSmall(db: Db, e: Effect)
    requires |e.insert| <= 1
    ensures e.insert == [] ==> Commit(db, e) == Db(Removed(db.rows, e.remove), db.next)
    ensures e.insert != [] ==>
              Commit(db, e) == Db(Removed(db.rows, e.remove) + [Row(db.next, e.insert[0])], db.next + 1)
  {
    if e.insert == [] {
      assert Removed(db.rows, e.remove) + [] == Removed(db.rows, e.remove);
    } else {
      assert e.insert[1..] == [];
      assert Numbered(e.insert, db.next) == [Row(db.next, e.insert[0])];
    }
  }

  lemma CountOne(r: Request, next: nat, p: Query)
    ensures Count(Numbered([r], next), p) == if Matches(p, r) then 1 else 0
  {
    assert Numbered([r], next) == [Row(next, r)];
    assert [Row(next, r)][1..] == [];
  }

  lemma {:induction false} CountNone(rows: seq<Row>, p: Query)
    requires forall r :: r in rows ==> !Matches(p, r.req)
    ensures Count(rows, p) == 0
  {
    if rows != [] {
      CountNone(rows[1..], p);
    }
  }

  lemma {:induction false} FanOutIsPushes(op: Op, n: nat)
    requires op.PushRequest? && n <= |op.keys|
    ensures forall r :: r in FanOut(op, n) ==>
              r.kind.Push? && r.id == op.requestId && r.src == op.who.account && r.answers.None? && r.addCode == ""
  {
    if n > 0 {
      FanOutIsPushes(op, n - 1);
    }
  }

  lemma {:induction false} FanOutPrefix(op: Op, m: nat, n: nat)
    requires op.PushRequest? && m <= n <= |op.keys|
    ensures FanOut(op, m) <= FanOut(op, n)
    decreases n
  {
    if m < n {
      FanOutPrefix(op, m, n - 1);
    }
  }
}

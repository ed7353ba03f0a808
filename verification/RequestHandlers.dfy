/** The request collection as an object and the session handlers that work on it, each proved to do
    what `RequestStore` says of its operation. */
module RequestHandlers {
  import opened Wrappers
  import opened RequestStore

  // ---------- What an inbox is ----------

  datatype InboxEntry = InboxEntry(contactId: nat, requestIds: seq<nat>)

  /** The ids of the pushes from `src` to `account`, in the order in which they were stored. */
  function IdsFrom(rows: seq<Row>, account: nat, src: nat): seq<nat> {
    if rows == [] then []
    else FirstId(rows, account, src) + IdsFrom(rows[1..], account, src)
  }

  predicate FromTo(r: Request, src: nat, account: nat) {
    r.kind == Push && r.src == src && r.dst == Some(account)
  }

  /** One entry for each account with pushes waiting, in ascending order, with all its ids. */
  ghost predicate IsInbox(rows: seq<Row>, account: nat, inbox: seq<InboxEntry>) {
    && (forall i, j :: 0 <= i < j < |inbox| ==> inbox[i].contactId < inbox[j].contactId)
    && (forall e :: e in inbox ==> e.requestIds != [] && e.requestIds == IdsFrom(rows, account, e.contactId))
    && (forall src :: IdsFrom(rows, account, src) != [] ==> exists e :: e in inbox && e.contactId == src)
  }

  lemma AssociativeIds(x: seq<nat>, y: seq<nat>, z: seq<nat>)
    ensures (x + y) + z == x + (y + z)
  {
  }

  function FirstId(rows: seq<Row>, account: nat, src: nat): seq<nat>
    requires rows != []
  {
    if FromTo(rows[0].req, src, account) then [rows[0].req.id] else []
  }

  lemma {:induction false} IdsAppend(a: seq<Row>, b: seq<Row>, account: nat, src: nat)
    ensures IdsFrom(a + b, account, src) == IdsFrom(a, account, src) + IdsFrom(b, account, src)
  {
    hide FirstId;
    if a == [] {
      assert a + b == b;
    } else {
      IdsAppend(a[1..], b, account, src);
      assert (a + b)[1..] == a[1..] + b;
      SameFirst(a, a + b, account, src);
      AssociativeIds(FirstId(a, account, src), IdsFrom(a[1..], account, src), IdsFrom(b, account, src));
    }
  }

  lemma SameFirst(a: seq<Row>, b: seq<Row>, account: nat, src: nat)
    requires a != [] && b != [] && a[0] == b[0]
    ensures FirstId(a, account, src) == FirstId(b, account, src)
  {
  }

  lemma IdsOfOne(row: Row, account: nat, src: nat)
    ensures IdsFrom([row], account, src) == if FromTo(row.req, src, account) then [row.req.id] else []
  {
    assert [row][1..] == [];
  }

  lemma {:induction false} SelectFacts(rows: seq<Row>, q: Query)
    ensures forall r :: r in Select(rows, q) ==> Matches(q, r.req)
    ensures |Select(rows, q)| == Count(rows, q)
  {
    if rows != [] {
      SelectFacts(rows[1..], q);
    }
  }

  lemma {:induction false} SelectKeepsIds(rows: seq<Row>, account: nat, src: nat)
    ensures IdsFrom(Select(rows, PushTo(account)), account, src) == IdsFrom(rows, account, src)
  {
    if rows != [] {
      SelectKeepsIds(rows[1..], account, src);
      var s := Select(rows, PushTo(account));
      if Matches(PushTo(account), rows[0].req) {
        assert s[1..] == Select(rows[1..], PushTo(account));
      } else {
        assert [] + IdsFrom(rows[1..], account, src) == IdsFrom(rows[1..], account, src);
      }
    }
  }

  lemma {:induction false} Least(s: set<nat>) returns (least: nat)
    requires s != {}
    ensures least in s && forall other :: other in s ==> least <= other
    decreases s
  {
    least :| least in s;
    if s != {least} {
      var rest := s - {least};
      var y := Least(rest);
      assert forall other :: other in s ==> other == least || other in rest;
      if y < least {
        least := y;
      }
    }
  }

  // ---------- Building it ----------

  lemma IdsOneMore(cursor: seq<Row>, i: nat, account: nat, src: nat)
    requires i < |cursor| && Matches(PushTo(account), cursor[i].req)
    ensures IdsFrom(cursor[..i + 1], account, src)
         == IdsFrom(cursor[..i], account, src) + if cursor[i].req.src == src then [cursor[i].req.id] else []
  {
    assert cursor[..i + 1] == cursor[..i] + [cursor[i]];
    IdsAppend(cursor[..i], [cursor[i]], account, src);
    IdsOfOne(cursor[i], account, src);
  }

  /** The cursor loop. */
  method GroupBySource(cursor: seq<Row>, account: nat) returns (bySrc: map<nat, seq<nat>>)
    requires forall r :: r in cursor ==> Matches(PushTo(account), r.req)
    ensures forall src :: src in bySrc <==> IdsFrom(cursor, account, src) != []
    ensures forall src :: src in bySrc ==> bySrc[src] == IdsFrom(cursor, account, src)
  {
    bySrc := map[];
    for i := 0 to |cursor|
      invariant forall src :: src in bySrc <==> IdsFrom(cursor[..i], account, src) != []
      invariant forall src :: src in bySrc ==> bySrc[src] == IdsFrom(cursor[..i], account, src)
    {
      var r := cursor[i].req;
      forall src
        ensures IdsFrom(cursor[..i + 1], account, src)
             == IdsFrom(cursor[..i], account, src) + if r.src == src then [r.id] else []
      {
        IdsOneMore(cursor, i, account, src);
      }
      if r.src !in bySrc {
        bySrc := bySrc[r.src := [r.id]];
      } else {
        bySrc := bySrc[r.src := bySrc[r.src] + [r.id]];
      }
    }
    assert cursor[..|cursor|] == cursor;
  }

  /** The map is walked in ascending order of its keys. */
  method ListGroups(bySrc: map<nat, seq<nat>>) returns (inbox: seq<InboxEntry>)
    ensures forall i, j :: 0 <= i < j < |inbox| ==> inbox[i].contactId < inbox[j].contactId
    ensures forall e :: e in inbox ==> e.contactId in bySrc && e.requestIds == bySrc[e.contactId]
    ensures forall src :: src in bySrc ==> exists e :: e in inbox && e.contactId == src
  {
    inbox := [];
    var todo := bySrc.Keys;
    while todo != {}
      invariant todo <= bySrc.Keys && Listing(bySrc, todo, inbox)
      decreases |todo|
    {
      ghost var least := Least(todo);
      var src :| src in todo && forall other :: other in todo ==> src <= other;
      ListOneMore(bySrc, todo, inbox, src);
      inbox, todo := inbox + [InboxEntry(src, bySrc[src])], todo - {src};
    }
  }

  /** The groups not in `todo` are listed, and lie before those that are. */
  ghost predicate Listing(bySrc: map<nat, seq<nat>>, todo: set<nat>, inbox: seq<InboxEntry>) {
    && (forall e :: e in inbox ==> e.contactId in bySrc && e.requestIds == bySrc[e.contactId])
    && (forall src :: src in bySrc && src !in todo ==> exists e :: e in inbox && e.contactId == src)
    && (forall e, src :: e in inbox && src in todo ==> e.contactId < src)
    && (forall i, j :: 0 <= i < j < |inbox| ==> inbox[i].contactId < inbox[j].contactId)
  }

  lemma ListOneMore(bySrc: map<nat, seq<nat>>, todo: set<nat>, inbox: seq<InboxEntry>, src: nat)
    requires Listing(bySrc, todo, inbox) && src in todo && src in bySrc
    requires forall other :: other in todo ==> src <= other
    ensures Listing(bySrc, todo - {src}, inbox + [InboxEntry(src, bySrc[src])])
  {
    var entry, longer := InboxEntry(src, bySrc[src]), inbox + [InboxEntry(src, bySrc[src])];
    assert forall e :: e in longer <==> e in inbox || e == entry;
    forall other | other in bySrc && other !in todo - {src}
      ensures exists e :: e in longer && e.contactId == other
    {
      if other == src {
        assert entry in longer;
      } else {
        var e :| e in inbox && e.contactId == other;
        assert e in longer;
      }
    }
    forall i, j | 0 <= i < j < |longer|
      ensures longer[i].contactId < longer[j].contactId
    {
      assert inbox[i] in inbox;
    }
  }

  lemma NumberedAppend(reqs: seq<Request>, r: Request, next: nat)
    ensures Numbered(reqs + [r], next) == Numbered(reqs, next) + [Row(next + |reqs|, r)]
  {
    NumberedFacts(reqs, next);
    NumberedFacts(reqs + [r], next);
  }

  // ---------- The collection and its handlers ----------

  class RequestDb {
    var rows: seq<Row>
    var next: nat

    constructor ()
      ensures Model() == EmptyDb
    {
      rows, next := [], 0;
    }

    ghost function Model(): Db
      reads this
    {
      Db(rows, next)
    }

    /** Reports success even when the insert failed. */
    method AddRequest(r: Request, stored: bool) returns (ok: bool)
      modifies this
      ensures ok
      ensures stored ==> rows == old(rows) + [Row(old(next), r)] && next == old(next) + 1
      ensures !stored ==> unchanged(this)
    {
      if stored {
        rows, next := rows + [Row(next, r)], next + 1;
      }
      return true;
    }

    method DeleteRequest(q: Query) returns (ok: bool)
      modifies this`rows
      ensures ok && rows == DeleteFirst(old(rows), q)
    {
      rows := DeleteFirst(rows, q);
      return true;
    }

    method RequestPending(q: Query) returns (pending: bool)
      ensures pending <==> Pending(rows, q)
    {
      pending := Count(rows, q) == 1;
    }

    method GetRequest(q: Query) returns (r: Option<Request>)
      ensures r.Some? <==> Find(rows, q).Some?
      ensures r.Some? ==> r.value == Find(rows, q).value.req
    {
      var row := Find(rows, q);
      r := if row.Some? then Some(row.value.req) else None;
    }

    // ---------- The handlers ----------

    /** The object now is what `op` makes of `before`, and the client was answered accordingly. */
    ghost predicate Did(before: Db, op: Op, reply: Reply, wake: seq<nat>)
      reads this
    {
      && Model() == Apply(before, op)
      && reply == Handle(before.rows, op).reply
      && wake == Handle(before.rows, op).wake
    }

    method ProcessDispatchRequest(who: Caller, dispatchId: Option<nat>) returns (reply: Reply, wake: seq<nat>)
      modifies this
      ensures Did(old(Model()), DispatchRequest(who, dispatchId), reply, wake)
    {
      CommitSmall(Model(), Handle(rows, DispatchRequest(who, dispatchId)));
      if !who.loggedIn {
        return Failure(0), [];
      }
      if dispatchId.None? {
        return NoReply, [];
      }
      var _ := DeleteRequest(ByIdParty(dispatchId.value, who.account));
      return Success, [];
    }

    /** The account a contact request is for, by add code or by name. */
    method FindContact(dir: Directory, addCode: string, name: string) returns (contact: Option<nat>)
      ensures contact == Target(rows, dir, addCode, name)
    {
      if addCode != "" {
        var request := GetRequest(ContactByCode(addCode));
        if request.None? || request.value.src !in dir.known {
          return None;
        }
        return Some(request.value.src);
      }
      if name == "" || name !in dir.labels {
        return None;
      }
      return Some(dir.labels[name]);
    }

    method ProcessAddContactRequest(who: Caller, dir: Directory, requestId: nat, addCode: string, name: string,
                                    key: Option<string>, stored: bool) returns (reply: Reply, wake: seq<nat>)
      modifies this
      ensures Did(old(Model()), AddContactRequest(who, dir, requestId, addCode, name, key, stored), reply, wake)
    {
      CommitSmall(Model(), Handle(rows, AddContactRequest(who, dir, requestId, addCode, name, key, stored)));
      if !who.loggedIn || who.account !in dir.known {
        return Failure(0), [];
      }
      var contact := FindContact(dir, addCode, name);
      if contact.None? || contact.value == who.account {
        return Failure(0), [];
      }
      var pending := RequestPending(ContactBetween(who.account, contact.value));
      if pending || key.None? {
        return Failure(0), [];
      }
      var request := Request(requestId, AddContact, who.account, contact, addCode, None, key, None);
      if addCode == "" {
        var _ := AddRequest(request, stored);
      } else {
        FindFacts(rows, ContactByCode(addCode));
        FindFacts(rows, ByCode(addCode));
        ReplaceFirst(request, ByCode(addCode), stored);
      }
      return Success, [contact.value];
    }

    /** Stores a request and afterwards deletes the first that matches. The new row cannot be the one
        that is hit, because a match stands in front of it. */
    method ReplaceFirst(r: Request, q: Query, stored: bool)
      requires Find(rows, q).Some?
      modifies this
      ensures rows == DeleteFirst(old(rows), q) + if stored then [Row(old(next), r)] else []
      ensures next == old(next) + if stored then 1 else 0
    {
      ghost var before := rows;
      var _ := AddRequest(r, stored);
      if stored {
        DeleteInFront(before, [Row(next - 1, r)], q);
      }
      var _ := DeleteRequest(q);
    }

    method ProcessCreateAddCode(who: Caller, dir: Directory, requestId: nat, key: Option<string>, code: string,
                                stored: bool) returns (reply: Reply, wake: seq<nat>)
      modifies this
      ensures Did(old(Model()), CreateAddCode(who, dir, requestId, key, code, stored), reply, wake)
    {
      CommitSmall(Model(), Handle(rows, CreateAddCode(who, dir, requestId, key, code, stored)));
      if !who.loggedIn || key.None? || who.account !in dir.known {
        return Failure(0), [];
      }
      var _ := AddRequest(Request(requestId, AddContact, who.account, None, code, None, key, None), stored);
      return Success, [];
    }

    method ProcessAcceptContact(who: Caller, dir: Directory, requestId: nat, contactRequestId: nat,
                                key: Option<string>, stored: bool) returns (reply: Reply, wake: seq<nat>)
      modifies this
      ensures Did(old(Model()), Accept(who, dir, requestId, contactRequestId, key, stored), reply, wake)
    {
      CommitSmall(Model(), Handle(rows, Accept(who, dir, requestId, contactRequestId, key, stored)));
      if !who.loggedIn {
        return Failure(0), [];
      }
      var request := GetRequest(ByIdDst(contactRequestId, who.account));
      if request.None? {
        return Failure(1), [];
      }
      if who.account !in dir.known {
        return Failure(0), [];
      }
      if request.value.publicKey.None? {
        return NoReply, [];        // an exception leaves the handler here
      }
      if key.None? {
        return Failure(0), [];
      }
      FindFacts(rows, ByIdDst(contactRequestId, who.account));
      FindFacts(rows, ById(contactRequestId));
      ReplaceFirst(Request(requestId, AcceptContact, who.account, Some(request.value.src), "",
                           Some(contactRequestId), key, None),
                   ById(contactRequestId), stored);
      return Success, [request.value.src];
    }

    method ProcessRejectContact(who: Caller, requestId: nat, contactRequestId: nat, stored: bool)
      returns (reply: Reply, wake: seq<nat>)
      modifies this
      ensures Did(old(Model()), Reject(who, requestId, contactRequestId, stored), reply, wake)
    {
      CommitSmall(Model(), Handle(rows, Reject(who, requestId, contactRequestId, stored)));
      if !who.loggedIn {
        return Failure(0), [];
      }
      var request := GetRequest(ByIdDst(contactRequestId, who.account));
      if request.None? {
        return Failure(1), [];
      }
      FindFacts(rows, ByIdDst(contactRequestId, who.account));
      FindFacts(rows, ById(contactRequestId));
      ReplaceFirst(Request(requestId, RejectContact, who.account, Some(request.value.src), "",
                           Some(contactRequestId), None, None),
                   ById(contactRequestId), stored);
      return Success, [request.value.src];
    }

    /** One `forward` object is overwritten with the key of each entry in turn and copied into the
        stored request. */
    method ProcessPushRequest(who: Caller, requestId: nat, content: string, keys: seq<KeyEntry>, storedEach: seq<bool>)
      returns (reply: Reply, wake: seq<nat>)
      modifies this
      ensures Did(old(Model()), PushRequest(who, requestId, content, keys, storedEach), reply, wake)
    {
      wake := [];
      ghost var op := PushRequest(who, requestId, content, keys, storedEach);
      if !who.loggedIn {
        CommitSmall(Model(), Handle(rows, op));
        return Failure(0), [];
      }
      var forward := Forward(requestId, who.account, content, "");
      for i := 0 to |keys|
        invariant rows == old(rows) + Numbered(FanOut(op, i), old(next))
        invariant op == PushRequest(who, requestId, content, keys, storedEach)
        invariant next == old(next) + |FanOut(op, i)|
        invariant wake == Recipients(op, i)
        invariant forward == Forward(requestId, who.account, content, forward.key)
      {
        var it := keys[i];
        if it.dst != who.account {
          forward := forward.(key := it.key);
          var stored := i < |storedEach| ==> storedEach[i];
          ghost var sofar := Numbered(FanOut(op, i), old(next));
          NumberedAppend(FanOut(op, i), Pushed(op, it), old(next));
          Associative(old(rows), sofar, [Row(next, Pushed(op, it))]);
          var request := Request(requestId, Push, who.account, Some(it.dst), "", None, None, Some(forward));
          var _ := AddRequest(request, stored);
          wake := wake + [it.dst];
        }
        assert FanOut(op, i) + [] == FanOut(op, i) && Recipients(op, i) + [] == Recipients(op, i);
      }
      reply := Success;
    }

    /** `createStreamReceiver`: the last part of an upload has arrived. */
    method StreamReceived(account: nat, streamId: nat, stored: bool)
      modifies this
      ensures Did(old(Model()), UploadDone(account, streamId, stored), NoReply, [])
    {
      CommitSmall(Model(), Handle(rows, UploadDone(account, streamId, stored)));
      var _ := AddRequest(Request(streamId, Dispatch, 0, Some(account), "", None, None, None), stored);
    }

    // ---------- The inbox ----------

    /** Groups the ids of the waiting pushes by sender, senders in ascending order. */
    method GetInbox(account: nat) returns (inbox: seq<InboxEntry>)
      ensures IsInbox(rows, account, inbox)
    {
      var cursor := Select(rows, PushTo(account));
      SelectFacts(rows, PushTo(account));
      var bySrc := GroupBySource(cursor, account);
      forall src
        ensures IdsFrom(cursor, account, src) == IdsFrom(rows, account, src)
      {
        SelectKeepsIds(rows, account, src);
      }
      inbox := ListGroups(bySrc);
    }
  }

  // ---------- Nothing is lost between a push and the inbox ----------

  function TotalIds(inbox: seq<InboxEntry>): nat {
    if inbox == [] then 0 else |inbox[0].requestIds| + TotalIds(inbox[1..])
  }

  /** The rows that are not from `src`. */
  function NotFrom(rows: seq<Row>, src: nat): seq<Row> {
    if rows == [] then []
    else (if rows[0].req.src == src then [] else [rows[0]]) + NotFrom(rows[1..], src)
  }

  lemma {:induction false} NotFromFacts(rows: seq<Row>, account: nat, src: nat, other: nat)
    ensures Count(NotFrom(rows, src), PushTo(account)) + |IdsFrom(rows, account, src)| == Count(rows, PushTo(account))
    ensures IdsFrom(NotFrom(rows, src), account, other) == if other == src then [] else IdsFrom(rows, account, other)
  {
    if rows != [] {
      NotFromFacts(rows[1..], account, src, other);
      var s := NotFrom(rows, src);
      if rows[0].req.src != src {
        assert s[0] == rows[0] && s[1..] == NotFrom(rows[1..], src);
      } else {
        assert [] + NotFrom(rows[1..], src) == NotFrom(rows[1..], src);
        assert [] + IdsFrom(rows[1..], account, other) == IdsFrom(rows[1..], account, other);
      }
    }
  }

  lemma {:induction false} NoPushesLeft(rows: seq<Row>, account: nat)
    requires forall src :: IdsFrom(rows, account, src) == []
    ensures Count(rows, PushTo(account)) == 0
  {
    if rows != [] {
      assert IdsFrom(rows, account, rows[0].req.src) == [];
      forall src
        ensures IdsFrom(rows[1..], account, src) == []
      {
        assert IdsFrom(rows, account, src) == [];
      }
      NoPushesLeft(rows[1..], account);
    }
  }

  /** Without the first entry the rest is the inbox of the other senders' pushes. */
  lemma RestIsInbox(rows: seq<Row>, account: nat, inbox: seq<InboxEntry>)
    requires IsInbox(rows, account, inbox) && inbox != []
    ensures IsInbox(NotFrom(rows, inbox[0].contactId), account, inbox[1..])
  {
    hide IdsFrom, NotFrom;
    var first, rest := inbox[0], inbox[1..];
    var left := NotFrom(rows, first.contactId);
    assert inbox == [first] + rest;
    assert forall i :: 0 <= i < |rest| ==> rest[i] == inbox[i + 1];
    forall src
      ensures IdsFrom(left, account, src) == if src == first.contactId then [] else IdsFrom(rows, account, src)
    {
      NotFromFacts(rows, account, first.contactId, src);
    }
    forall e | e in rest
      ensures e.requestIds != [] && e.requestIds == IdsFrom(left, account, e.contactId)
    {
      assert e in inbox && e.contactId != first.contactId;
    }
    forall src | IdsFrom(left, account, src) != []
      ensures exists e :: e in rest && e.contactId == src
    {
      var e :| e in inbox && e.contactId == src;
      assert e in rest;
    }
  }

  /** The inbox is a partition of the waiting pushes: as many ids in all as there are pushes. */
  lemma {:induction false} InboxIsPartition(rows: seq<Row>, account: nat, inbox: seq<InboxEntry>)
    requires IsInbox(rows, account, inbox)
    ensures TotalIds(inbox) == Count(rows, PushTo(account))
    decreases |inbox|
  {
    hide IdsFrom, NotFrom, Count;
    if inbox == [] {
      NoPushesLeft(rows, account);
    } else {
      var first := inbox[0];
      assert first in inbox;
      RestIsInbox(rows, account, inbox);
      NotFromFacts(rows, account, first.contactId, first.contactId);
      InboxIsPartition(NotFrom(rows, first.contactId), account, inbox[1..]);
    }
  }

  function Repeat(id: nat, n: nat): seq<nat> {
    if n == 0 then [] else Repeat(id, n - 1) + [id]
  }

  /** How many of the first `n` entries of a push are for `account` and were stored. */
  function EntriesFor(op: Op, n: nat, account: nat): nat
    requires op.PushRequest? && n <= |op.keys|
  {
    if n == 0 then 0
    else
      EntriesFor(op, n - 1, account)
      + if Reaches(op, n - 1, account) then 1 else 0
  }

  lemma PushedIsFromTo(op: Op, entry: KeyEntry, account: nat, src: nat)
    requires op.PushRequest?
    ensures FromTo(Pushed(op, entry), src, account) <==> src == op.who.account && entry.dst == account
    ensures Pushed(op, entry).id == op.requestId
  {
  }

  predicate Reaches(op: Op, n: nat, account: nat)
    requires op.PushRequest? && n < |op.keys|
  {
    op.keys[n].dst == account && account != op.who.account && StoredAt(op, n)
  }

  lemma FanOutStep(op: Op, n: nat, next: nat, account: nat, src: nat)
    requires op.PushRequest? && n < |op.keys|
    ensures IdsFrom(Numbered(FanOut(op, n + 1), next), account, src)
         == IdsFrom(Numbered(FanOut(op, n), next), account, src)
            + if src == op.who.account && Reaches(op, n, account) then [op.requestId] else []
  {
    hide FromTo, Pushed, IdsFrom, Numbered;
    var entry, before := op.keys[n], FanOut(op, n);
    if entry.dst != op.who.account && StoredAt(op, n) {
      var row := Row(next + |before|, Pushed(op, entry));
      NumberedAppend(before, Pushed(op, entry), next);
      IdsAppend(Numbered(before, next), [row], account, src);
      IdsOfOne(row, account, src);
      PushedIsFromTo(op, entry, account, src);
    } else {
      assert before + [] == before;
    }
  }

  lemma {:induction false} FanOutIds(op: Op, n: nat, next: nat, account: nat, src: nat)
    requires op.PushRequest? && n <= |op.keys|
    ensures IdsFrom(Numbered(FanOut(op, n), next), account, src)
         == if src == op.who.account then Repeat(op.requestId, EntriesFor(op, n, account)) else []
  {
    hide IdsFrom, Numbered, FanOut, StoredAt;
    if n == 0 {
      NothingFannedOut(op, next, account, src);
    } else {
      FanOutIds(op, n - 1, next, account, src);
      FanOutStep(op, n - 1, next, account, src);
    }
  }

  lemma NothingFannedOut(op: Op, next: nat, account: nat, src: nat)
    requires op.PushRequest?
    ensures IdsFrom(Numbered(FanOut(op, 0), next), account, src) == []
  {
  }

  /** A push shows up in every recipient's inbox, under its sender, behind what was there, once for
      each key entry that names the recipient; nobody else's list changes. */
  lemma PushReachesInboxes(db: Db, op: Op, account: nat, src: nat)
    requires op.PushRequest? && op.who.loggedIn
    ensures IdsFrom(Apply(db, op).rows, account, src)
         == IdsFrom(db.rows, account, src)
            + if src == op.who.account then Repeat(op.requestId, EntriesFor(op, |op.keys|, account)) else []
  {
    FanOutIds(op, |op.keys|, db.next, account, src);
    IdsAppend(db.rows, Numbered(FanOut(op, |op.keys|), db.next), account, src);
  }

  /** Each entry that is not for the sender gets a record of its own, in the order of the entries,
      addressed to that entry's account and holding that entry's key. */
  lemma EachEntryItsOwnKey(op: Op, i: nat)
    requires op.PushRequest? && i < |op.keys| && op.keys[i].dst != op.who.account && StoredAt(op, i)
    ensures var all, at := FanOut(op, |op.keys|), |FanOut(op, i)|;
            && at < |all| && |FanOut(op, i + 1)| == at + 1
            && all[at].dst == Some(op.keys[i].dst) && all[at].src == op.who.account
            && all[at].data.Some? && all[at].data.value.key == op.keys[i].key
            && all[at].data.value.content == op.content
  {
    FanOutPrefix(op, i + 1, |op.keys|);
    assert FanOut(op, i + 1)[|FanOut(op, i)|] == Pushed(op, op.keys[i]);
  }
}

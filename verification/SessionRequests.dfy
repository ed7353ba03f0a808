/** A session's deliveries. Each pass over the store posts what the session has not yet posted; the
    client's response ends a post, and with status 1 deletes the record.

    Of the engine the model uses this: posting a request makes its type and id pending, and the
    response to it ends that before the callback runs. */
module SessionRequests {
  import opened Wrappers
  import opened RequestStore
  import opened RequestLaws
  import opened RequestHandlers

  datatype Post = Post(kind: Kind, id: nat)

  function PostOf(r: Request): Post {
    Post(r.kind, r.id)
  }

  /** What one pass over these rows posts when `pending` is what was posted before. */
  function NewPosts(rows: seq<Row>, pending: set<Post>): seq<Post> {
    if rows == [] then []
    else
      var p := PostOf(rows[0].req);
      if p in pending then NewPosts(rows[1..], pending) else [p] + NewPosts(rows[1..], pending + {p})
  }

  /** The accounts whose acceptances are among these posts; each becomes a contact of the session. */
  function Accepted(rows: seq<Row>, pending: set<Post>): set<nat> {
    if rows == [] then {}
    else
      var p := PostOf(rows[0].req);
      if p in pending then Accepted(rows[1..], pending)
      else (if p.kind.AcceptContact? then {rows[0].req.src} else {}) + Accepted(rows[1..], pending + {p})
  }

  ghost predicate NoDup(posts: seq<Post>) {
    forall i, j :: 0 <= i < j < |posts| ==> posts[i] != posts[j]
  }

  ghost function Elements(posts: seq<Post>): set<Post> {
    set p | p in posts
  }

  lemma {:induction false} NewPostsFacts(rows: seq<Row>, pending: set<Post>)
    ensures var added := NewPosts(rows, pending);
            && NoDup(added)
            && (forall p :: p in added ==> p !in pending)
            && (forall r :: r in rows ==> PostOf(r.req) in pending || PostOf(r.req) in added)
            && (forall p :: p in added ==> exists r :: r in rows && PostOf(r.req) == p)
  {
    if rows != [] {
      var p := PostOf(rows[0].req);
      assert rows == [rows[0]] + rows[1..];
      if p in pending {
        NewPostsFacts(rows[1..], pending);
      } else {
        NewPostsFacts(rows[1..], pending + {p});
      }
    }
  }

  // ---------- Any sequence of passes and responses ----------

  datatype Event = Pass(rows: seq<Row>) | Response(post: Post)

  datatype State = State(pending: set<Post>, posts: seq<Post>)

  function Drop(posts: seq<Post>, p: Post): seq<Post> {
    if posts == [] then []
    else if posts[0] == p then posts[1..]
    else [posts[0]] + Drop(posts[1..], p)
  }

  /** A response to a post that is not outstanding has no effect. */
  function After(s: State, e: Event): State {
    match e
    case Pass(rows) =>
      var added := NewPosts(rows, s.pending);
      State(s.pending + (set p | p in added), s.posts + added)
    case Response(p) => State(s.pending - {p}, Drop(s.posts, p))
  }

  function Run(s: State, es: seq<Event>): State
    decreases es
  {
    if es == [] then s else Run(After(s, es[0]), es[1..])
  }

  ghost predicate Inv(s: State) {
    NoDup(s.posts) && s.pending == Elements(s.posts)
  }

  lemma {:induction false} DropFacts(posts: seq<Post>, p: Post)
    requires NoDup(posts)
    ensures NoDup(Drop(posts, p))
    ensures forall x :: x in Drop(posts, p) <==> x in posts && x != p
  {
    if posts != [] {
      var rest := posts[1..];
      assert posts == [posts[0]] + rest;
      assert forall i :: 0 <= i < |rest| ==> rest[i] == posts[i + 1];
      DropFacts(rest, p);
      if posts[0] != p {
        assert posts[0] !in Drop(rest, p);
        assert Drop(posts, p)[1..] == Drop(rest, p);
        assert forall x :: x in Drop(posts, p) <==> x == posts[0] || x in Drop(rest, p);
      } else {
        assert p !in rest;
      }
    }
  }

  lemma NoDupAppend(a: seq<Post>, b: seq<Post>)
    requires NoDup(a) && NoDup(b) && forall p :: p in b ==> p !in a
    ensures NoDup(a + b)
  {
    forall i, j | 0 <= i < j < |a + b|
      ensures (a + b)[i] != (a + b)[j]
    {
      if i < |a| <= j {
        assert (a + b)[i] in a && (a + b)[j] in b;
      }
    }
  }

  lemma StepKeepsInv(s: State, e: Event)
    requires Inv(s)
    ensures Inv(After(s, e))
  {
    match e
    case Pass(rows) =>
      NewPostsFacts(rows, s.pending);
      var added := NewPosts(rows, s.pending);
      assert forall p :: p in s.posts ==> p in s.pending;
      NoDupAppend(s.posts, added);
      assert Elements(s.posts + added) == s.pending + set p | p in added;
    case Response(p) => DropFacts(s.posts, p);
  }

  lemma {:induction false} RunKeepsInv(s: State, es: seq<Event>)
    requires Inv(s)
    ensures Inv(Run(s, es))
    decreases es
  {
    hide Inv;
    if es != [] {
      StepKeepsInv(s, es[0]);
      RunKeepsInv(After(s, es[0]), es[1..]);
    }
  }

  lemma {:induction false} NothingNew(rows: seq<Row>, pending: set<Post>)
    requires forall r :: r in rows ==> PostOf(r.req) in pending
    ensures NewPosts(rows, pending) == []
  {
    if rows != [] {
      assert rows[0] in rows;
      NothingNew(rows[1..], pending);
    }
  }

  /** However passes and responses are mixed, a session never has two posts of the same type and id
      outstanding; after a pass everything addressed to it is outstanding; and a further pass over
      the same records posts nothing. */
  lemma DeliveredOnceAtATime(es: seq<Event>, rows: seq<Row>)
    ensures var s := After(Run(State({}, []), es), Pass(rows));
            && NoDup(s.posts)
            && (forall r :: r in rows ==> PostOf(r.req) in s.posts)
            && After(s, Pass(rows)) == s
  {
    var s0 := Run(State({}, []), es);
    RunKeepsInv(State({}, []), es);
    StepKeepsInv(s0, Pass(rows));
    NewPostsFacts(rows, s0.pending);
    var s := After(s0, Pass(rows));
    NothingNew(rows, s.pending);
    assert s.pending + (set p | p in []) == s.pending && s.posts + [] == s.posts;
  }

  // ---------- What a pass and a response mean ----------

  lemma {:induction false} SelectedAreAddressed(rows: seq<Row>, account: nat)
    ensures forall r :: r in Select(rows, To(account)) <==> r in rows && r.req.dst == Some(account)
  {
    if rows != [] {
      SelectedAreAddressed(rows[1..], account);
      assert rows == [rows[0]] + rows[1..];
      assert Select(rows, To(account)) == Select(rows[1..], To(account))
          || Select(rows, To(account)) == [rows[0]] + Select(rows[1..], To(account));
    }
  }

  /** The record is for the session's account and is delivered as this post. */
  predicate DeliveredAs(r: Request, account: nat, p: Post) {
    r.dst == Some(account) && r.kind == p.kind && r.id == p.id
  }

  /** Account `a` accepted a contact request, and that is not pending yet. */
  ghost predicate NewlyAccepted(rows: seq<Row>, pending: set<Post>, a: nat) {
    exists r :: r in rows && r.req.kind == AcceptContact && r.req.src == a && PostOf(r.req) !in pending
  }

  /** Some record delivered as `p` is from one of the contacts. */
  ghost predicate FromContact(rows: seq<Row>, contacts: set<nat>, p: Post) {
    exists r :: r in rows && PostOf(r.req) == p && r.req.src in contacts
  }

  lemma {:induction false} ContactsHaveAccepted(rows: seq<Row>, pending: set<Post>, a: nat)
    requires a in Accepted(rows, pending)
    ensures NewlyAccepted(rows, pending, a)
  {
    var p, rest := PostOf(rows[0].req), rows[1..];
    var after := if p in pending then pending else pending + {p};
    if a in Accepted(rest, after) {
      ContactsHaveAccepted(rest, after, a);
      var r :| r in rest && r.req.kind == AcceptContact && r.req.src == a && PostOf(r.req) !in after;
      assert r in rows;
    } else {
      assert rows[0] in rows;
    }
  }

  lemma {:induction false} AcceptancesMakeContacts(rows: seq<Row>, pending: set<Post>, r: Row)
    requires r in rows && r.req.kind == AcceptContact && PostOf(r.req) !in pending
    ensures FromContact(rows, Accepted(rows, pending), PostOf(r.req))
  {
    var p, rest := PostOf(rows[0].req), rows[1..];
    if PostOf(r.req) == p {
      assert rows[0] in rows && rows[0].req.src in Accepted(rows, pending);
    } else {
      var after := if p in pending then pending else pending + {p};
      assert r in rest;
      AcceptancesMakeContacts(rest, after, r);
      var s :| s in rest && PostOf(s.req) == PostOf(r.req) && s.req.src in Accepted(rest, after);
      assert s in rows;
    }
  }

  /** A new post is of a record addressed to the account; if that is an acceptance, its source, or that
      of one delivered as the same post, is a contact. */
  lemma NewPostIsDelivery(rows: seq<Row>, account: nat, pending: set<Post>, p: Post)
    requires p in NewPosts(Select(rows, To(account)), pending)
    ensures exists r :: r in rows && DeliveredAs(r.req, account, p)
    ensures p.kind == AcceptContact ==>
              exists r :: r in rows && DeliveredAs(r.req, account, p)
                && r.req.src in Accepted(Select(rows, To(account)), pending)
  {
    var mine := Select(rows, To(account));
    SelectedAreAddressed(rows, account);
    NewPostsFacts(mine, pending);
    var r :| r in mine && PostOf(r.req) == p;
    assert r in rows && DeliveredAs(r.req, account, p);
    if p.kind == AcceptContact {
      AcceptancesMakeContacts(mine, pending, r);
      var s :| s in mine && PostOf(s.req) == p && s.req.src in Accepted(mine, pending);
      assert s in rows && DeliveredAs(s.req, account, p);
    }
  }

  lemma NewContactHasAccepted(rows: seq<Row>, account: nat, pending: set<Post>, a: nat)
    requires a in Accepted(Select(rows, To(account)), pending)
    ensures exists r :: r in rows && r.req.dst == Some(account) && r.req.kind == AcceptContact
              && r.req.src == a && Post(AcceptContact, r.req.id) !in pending
  {
    var mine := Select(rows, To(account));
    SelectedAreAddressed(rows, account);
    ContactsHaveAccepted(mine, pending, a);
    var r :| r in mine && r.req.kind == AcceptContact && r.req.src == a && PostOf(r.req) !in pending;
    assert r in rows && Post(AcceptContact, r.req.id) !in pending;
  }

  lemma AddressedArePosted(rows: seq<Row>, account: nat, s: State)
    requires Inv(s)
    ensures var s' := After(s, Pass(Select(rows, To(account))));
            && Inv(s') && s.posts <= s'.posts
            && (forall r :: r in rows && r.req.dst == Some(account) ==> Post(r.req.kind, r.req.id) in s'.posts)
            && (forall p :: p in s'.posts && p !in s.posts ==> p in NewPosts(Select(rows, To(account)), s.pending))
  {
    var mine := Select(rows, To(account));
    SelectedAreAddressed(rows, account);
    NewPostsFacts(mine, s.pending);
    StepKeepsInv(s, Pass(mine));
    forall r | r in rows && r.req.dst == Some(account)
      ensures Post(r.req.kind, r.req.id) in After(s, Pass(mine)).posts
    {
      assert r in mine && PostOf(r.req) == Post(r.req.kind, r.req.id);
    }
  }

  lemma {:induction false} DropOne(posts: seq<Post>, p: Post) returns (k: nat)
    requires p in posts
    ensures k < |posts| && posts[k] == p && Drop(posts, p) == posts[..k] + posts[k + 1..]
  {
    if posts[0] == p {
      k := 0;
    } else {
      var rest := posts[1..];
      var i := DropOne(rest, p);
      k := i + 1;
      assert posts == [posts[0]] + rest;
      assert [posts[0]] + (rest[..i] + rest[i + 1..]) == posts[..k] + posts[k + 1..];
    }
  }

  // ---------- The session object ----------

  /** One round of the loop of a pass. */
  lemma TakeNext(r: Row, rest: seq<Row>, pending: set<Post>, posts: seq<Post>, contacts: set<nat>)
    ensures var p, all := PostOf(r.req), [r] + rest;
            if p in pending then
              NewPosts(all, pending) == NewPosts(rest, pending) && Accepted(all, pending) == Accepted(rest, pending)
            else
              var added := if p.kind.AcceptContact? then {r.req.src} else {};
              && posts + NewPosts(all, pending) == (posts + [p]) + NewPosts(rest, pending + {p})
              && pending + Elements(NewPosts(all, pending)) == (pending + {p}) + Elements(NewPosts(rest, pending + {p}))
              && contacts + Accepted(all, pending) == (contacts + added) + Accepted(rest, pending + {p})
  {
    var p := PostOf(r.req);
    assert ([r] + rest)[1..] == rest;
    if p !in pending {
      var added := NewPosts(rest, pending + {p});
      assert Elements([p] + added) == {p} + Elements(added);
    }
  }

  class Session {
    const db: RequestDb
    var accountId: nat
    var pending: set<Post>
    var posts: seq<Post>
    var contacts: set<nat>

    constructor (db: RequestDb, accountId: nat)
      ensures this.db == db && this.accountId == accountId && Model() == State({}, []) && contacts == {}
    {
      this.db, this.accountId, pending, posts, contacts := db, accountId, {}, [], {};
    }

    ghost function Model(): State
      reads this
    {
      State(pending, posts)
    }

    /** Nothing is outstanding twice, and what is pending is what is outstanding. */
    ghost predicate Valid()
      reads this
    {
      Inv(Model())
    }

    /** Everything addressed to the session is outstanding afterwards, each post that is new is of a
        record addressed to it, and so is the acceptance behind each new contact. */
    method ProcessRequests()
      requires Valid()
      modifies this`pending, this`posts, this`contacts
      ensures Valid() && Model() == After(old(Model()), Pass(Select(db.rows, To(accountId))))
      ensures old(posts) <= posts
      ensures forall r :: r in db.rows && r.req.dst == Some(accountId) ==> Post(r.req.kind, r.req.id) in posts
      ensures forall p :: p in posts && p !in old(posts) ==>
                exists r :: r in db.rows && DeliveredAs(r.req, accountId, p)
      ensures old(contacts) <= contacts
      ensures forall a :: a in contacts && a !in old(contacts) ==>
                exists r :: r in db.rows && r.req.dst == Some(accountId) && r.req.kind == AcceptContact
                  && r.req.src == a && Post(AcceptContact, r.req.id) !in old(posts)
      ensures forall p :: p in posts && p !in old(posts) && p.kind == AcceptContact ==>
                exists r :: r in db.rows && DeliveredAs(r.req, accountId, p) && r.req.src in contacts
    {
      ghost var was, rows, account := Model(), db.rows, accountId;
      AddressedArePosted(rows, account, was);
      PassLoop();
      hide After, Accepted, NewPosts;
      forall p | p in posts && p !in was.posts
        ensures exists r :: r in rows && DeliveredAs(r.req, account, p)
        ensures p.kind == AcceptContact ==>
                  exists r :: r in rows && DeliveredAs(r.req, account, p) && r.req.src in contacts
      {
        NewPostIsDelivery(rows, account, was.pending, p);
      }
      forall a | a in contacts && a !in old(contacts)
        ensures exists r :: r in rows && r.req.dst == Some(account) && r.req.kind == AcceptContact
                  && r.req.src == a && Post(AcceptContact, r.req.id) !in was.posts
      {
        NewContactHasAccepted(rows, account, was.pending, a);
      }
    }

    method PassLoop()
      modifies this`pending, this`posts, this`contacts
      ensures Model() == After(old(Model()), Pass(Select(db.rows, To(accountId))))
      ensures contacts == old(contacts) + Accepted(Select(db.rows, To(accountId)), old(pending))
    {
      var requests := Select(db.rows, To(accountId));
      ghost var was, wasContacts := Model(), contacts;
      for i := 0 to |requests|
        invariant posts + NewPosts(requests[i..], pending) == was.posts + NewPosts(requests, was.pending)
        invariant pending + Elements(NewPosts(requests[i..], pending))
               == was.pending + Elements(NewPosts(requests, was.pending))
        invariant contacts + Accepted(requests[i..], pending) == wasContacts + Accepted(requests, was.pending)
      {
        var p := Post(requests[i].req.kind, requests[i].req.id);
        assert requests[i..] == [requests[i]] + requests[i + 1..];
        TakeNext(requests[i], requests[i + 1..], pending, posts, contacts);
        if p in pending {
          continue;
        }
        pending := pending + {p};
        posts := posts + [p];
        if p.kind.AcceptContact? {
          contacts := contacts + {requests[i].req.src};
        }
      }
      assert requests[|requests|..] == [];
    }

    /** The client's response to an outstanding post ends that post and no other. With status 1 the first
        record of that id for this account is deleted, but a contact request stays in the store
        whatever the client says. */
    method OnResponse(p: Post, status: nat)
      requires Valid() && p in pending
      modifies this`pending, this`posts, db
      ensures Valid() && Model() == After(old(Model()), Response(p))
      ensures pending == old(pending) - {p}
      ensures exists k :: 0 <= k < |old(posts)| && old(posts)[k] == p
                && posts == old(posts)[..k] + old(posts)[k + 1..]
      ensures db.next == old(db.next)
      ensures if status == 1 && p.kind != AddContact
              then FirstLeaves(old(db.rows), db.rows, WithIdFor(p.id, accountId)) else db.rows == old(db.rows)
    {
      StepKeepsInv(Model(), Response(p));
      ghost var k := DropOne(posts, p);
      pending, posts := pending - {p}, Drop(posts, p);
      if status == 1 && !p.kind.AddContact? {
        LookupIsFirst(db.rows, ByIdDst(p.id, accountId), WithIdFor(p.id, accountId));
        var _ := db.DeleteRequest(ByIdDst(p.id, accountId));
      }
    }
  }
}

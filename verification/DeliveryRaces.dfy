/** Passes that overlap. Two workers may deliver to the same session at once, and a pass tests whether
    a request is pending and posts it in separate calls. This is the one step that can deliver a
    request twice, and what holds without it. */
module DeliveryRaces {
  import opened Wrappers
  import opened RequestStore
  import opened SessionRequests

  /** Where a worker is in a pass. */
  datatype Pc =
    | Scanning(rest: seq<Post>)           // about to test the first of these; done if there are none
    | Found(p: Post, rest: seq<Post>)     // has seen that `p` is not pending, about to post it

  datatype Shared = Shared(pending: set<Post>, posts: seq<Post>, workers: seq<Pc>)

  datatype Step =
    | Begin(w: nat, rows: seq<Row>)       // the query has returned
    | Test(w: nat)
    | Send(w: nat)
    | Respond(p: Post)

  function PostsOf(rows: seq<Row>): seq<Post> {
    if rows == [] then [] else [PostOf(rows[0].req)] + PostsOf(rows[1..])
  }

  predicate Enabled(s: Shared, step: Step) {
    match step
    case Begin(w, _) => w < |s.workers| && s.workers[w] == Scanning([])
    case Test(w) => w < |s.workers| && s.workers[w].Scanning? && s.workers[w].rest != []
    case Send(w) => w < |s.workers| && s.workers[w].Found?
    case Respond(p) => p in s.pending
  }

  function Apply(s: Shared, step: Step): Shared
    requires Enabled(s, step)
  {
    match step
    case Begin(w, rows) => s.(workers := s.workers[w := Scanning(PostsOf(rows))])
    case Test(w) =>
      var rest := s.workers[w].rest;
      s.(workers := s.workers[w := if rest[0] in s.pending then Scanning(rest[1..]) else Found(rest[0], rest[1..])])
    case Send(w) =>
      var p := s.workers[w].p;
      Shared(s.pending + {p}, s.posts + [p], s.workers[w := Scanning(s.workers[w].rest)])
    case Respond(p) => Shared(s.pending - {p}, Drop(s.posts, p), s.workers)
  }

  ghost predicate Runs(s: Shared, steps: seq<Step>)
    decreases steps
  {
    steps == [] || (Enabled(s, steps[0]) && Runs(Apply(s, steps[0]), steps[1..]))
  }

  ghost function Exec(s: Shared, steps: seq<Step>): Shared
    requires Runs(s, steps)
    decreases steps
  {
    if steps == [] then s else Exec(Apply(s, steps[0]), steps[1..])
  }

  function Init(workers: nat): Shared {
    Shared({}, [], seq(workers, i => Scanning([])))
  }

  // ---------- A pass that nobody interrupts ----------

  lemma {:induction false} UninterruptedScan(s: Shared, w: nat, rows: seq<Row>) returns (steps: seq<Step>)
    requires w < |s.workers| && s.workers[w] == Scanning(PostsOf(rows))
    ensures var added := NewPosts(rows, s.pending);
            && Runs(s, steps)
            && Exec(s, steps) == Shared(s.pending + Elements(added), s.posts + added, s.workers[w := Scanning([])])
    decreases |rows|
  {
    var added := NewPosts(rows, s.pending);
    if rows == [] {
      assert s.pending + Elements([]) == s.pending && s.posts + [] == s.posts;
      steps := [];
    } else {
      var p, s1 := PostOf(rows[0].req), Apply(s, Test(w));
      assert PostsOf(rows)[1..] == PostsOf(rows[1..]);
      if p in s.pending {
        steps := UninterruptedScan(s1, w, rows[1..]);
        assert s1.workers[w := Scanning([])] == s.workers[w := Scanning([])];
      } else {
        var s2, rest := Apply(s1, Send(w)), NewPosts(rows[1..], s.pending + {p});
        steps := UninterruptedScan(s2, w, rows[1..]);
        assert s2.workers[w := Scanning([])] == s.workers[w := Scanning([])];
        assert (s.posts + [p]) + rest == s.posts + ([p] + rest);
        assert (s.pending + {p}) + Elements(rest) == s.pending + Elements([p] + rest);
        steps := Prepend(s1, Send(w), steps);
      }
      steps := Prepend(s, Test(w), steps);
    }
  }

  lemma Prepend(s: Shared, step: Step, rest: seq<Step>) returns (steps: seq<Step>)
    requires Enabled(s, step) && Runs(Apply(s, step), rest)
    ensures steps == [step] + rest
    ensures Runs(s, steps) && Exec(s, steps) == Exec(Apply(s, step), rest)
  {
    steps := [step] + rest;
    assert steps[1..] == rest;
  }

  /** Without interruption a pass does what it does as one step. */
  lemma UninterruptedPass(s: Shared, w: nat, rows: seq<Row>) returns (steps: seq<Step>)
    requires w < |s.workers| && s.workers[w] == Scanning([])
    ensures var after := After(State(s.pending, s.posts), Pass(rows));
            Runs(s, steps) && Exec(s, steps) == Shared(after.pending, after.posts, s.workers)
  {
    var s1 := Apply(s, Begin(w, rows));
    steps := UninterruptedScan(s1, w, rows);
    assert s1.workers[w := Scanning([])] == s.workers;
    assert Elements(NewPosts(rows, s.pending)) == set p | p in NewPosts(rows, s.pending);
    steps := Prepend(s, Begin(w, rows), steps);
  }

  /** A response is a step in both. */
  lemma ResponseIsResponse(s: Shared, p: Post)
    requires Enabled(s, Respond(p)) && NoDup(s.posts)
    ensures var s', after := Apply(s, Respond(p)), After(State(s.pending, s.posts), Response(p));
            && s' == Shared(after.pending, after.posts, s.workers)
            && p !in s'.pending && p !in s'.posts && forall q :: q != p && q in s.posts ==> q in s'.posts
  {
    DropFacts(s.posts, p);
  }

  // ---------- The step that can deliver twice ----------

  function HoldsOne(pc: Pc, p: Post): nat {
    if pc.Found? && pc.p == p then 1 else 0
  }

  /** How many workers are about to post `p`. */
  function Holders(workers: seq<Pc>, p: Post): nat {
    if workers == [] then 0 else HoldsOne(workers[0], p) + Holders(workers[1..], p)
  }

  lemma {:induction false} HoldersUpdate(workers: seq<Pc>, w: nat, pc: Pc, p: Post)
    requires w < |workers|
    ensures Holders(workers[w := pc], p) + HoldsOne(workers[w], p) == Holders(workers, p) + HoldsOne(pc, p)
  {
    if w == 0 {
      assert workers[w := pc][1..] == workers[1..];
    } else {
      assert workers[w := pc][1..] == workers[1..][w - 1 := pc];
      HoldersUpdate(workers[1..], w - 1, pc, p);
    }
  }

  lemma {:induction false} SomebodyHolds(workers: seq<Pc>, p: Post) returns (w: nat)
    requires Holders(workers, p) > 0
    ensures w < |workers| && workers[w].Found? && workers[w].p == p
  {
    if HoldsOne(workers[0], p) > 0 {
      w := 0;
    } else {
      var v := SomebodyHolds(workers[1..], p);
      w := v + 1;
    }
  }

  lemma {:induction false} NobodyHolds(workers: seq<Pc>, p: Post)
    requires forall w :: 0 <= w < |workers| ==> workers[w].Scanning?
    ensures Holders(workers, p) == 0
  {
    if workers != [] {
      NobodyHolds(workers[1..], p);
    }
  }

  /** Post `p` is outstanding or about to be at most once, and pending exactly if it is outstanding. */
  ghost predicate AtMostOnce(s: Shared, p: Post) {
    && multiset(s.posts)[p] + Holders(s.workers, p) <= 1
    && (p in s.pending <==> p in s.posts)
  }

  ghost predicate Safe(s: Shared) {
    forall p :: AtMostOnce(s, p)
  }

  /** The racy step: the test finds a request not pending that another worker is about to post. */
  predicate Overlaps(s: Shared, step: Step)
    requires Enabled(s, step)
  {
    step.Test? && var p := s.workers[step.w].rest[0];
    p !in s.pending && Holders(s.workers, p) > 0
  }

  lemma {:induction false} DropCounts(posts: seq<Post>, p: Post)
    ensures multiset(Drop(posts, p)) == multiset(posts) - multiset{p}
  {
    if posts != [] {
      var rest := posts[1..];
      assert posts == [posts[0]] + rest;
      assert multiset(posts) == multiset{posts[0]} + multiset(rest);
      if posts[0] != p {
        DropCounts(rest, p);
        assert multiset(Drop(posts, p)) == multiset{posts[0]} + multiset(Drop(rest, p));
      }
    }
  }

  lemma PostAfterSend(s: Shared, step: Step, p: Post)
    requires step.Send? && Enabled(s, step) && AtMostOnce(s, p)
    ensures AtMostOnce(Apply(s, step), p)
  {
    var s', sent := Apply(s, step), s.workers[step.w].p;
    HoldersUpdate(s.workers, step.w, s'.workers[step.w], p);
    hide Holders;
    assert multiset(s'.posts) == multiset(s.posts) + multiset{sent};
    assert p in s'.posts <==> p in s.posts || p == sent;
  }

  lemma PostAfterResponse(s: Shared, step: Step, p: Post)
    requires step.Respond? && Enabled(s, step) && AtMostOnce(s, p)
    ensures AtMostOnce(Apply(s, step), p)
  {
    hide Holders;
    var s' := Apply(s, step);
    DropCounts(s.posts, step.p);
    assert p in s.posts <==> multiset(s.posts)[p] > 0;
    assert p in s'.posts <==> multiset(s'.posts)[p] > 0;
  }

  lemma PostAfterStep(s: Shared, step: Step, p: Post)
    requires Enabled(s, step) && AtMostOnce(s, p)
    ensures AtMostOnce(Apply(s, step), p) <==>
              !(Overlaps(s, step) && s.workers[step.w].rest[0] == p)
  {
    if step.Respond? {
      PostAfterResponse(s, step, p);
    } else if step.Send? {
      PostAfterSend(s, step, p);
    } else {
      var s' := Apply(s, step);
      HoldersUpdate(s.workers, step.w, s'.workers[step.w], p);
      assert s'.posts == s.posts;
      assert p in s.posts <==> multiset(s.posts)[p] > 0;
    }
  }

  /** A step keeps every request outstanding, or about to be, at most once if and only if it is not the
      racy step. */
  lemma SafeUnlessOverlap(s: Shared, step: Step)
    requires Safe(s) && Enabled(s, step)
    ensures Safe(Apply(s, step)) <==> !Overlaps(s, step)
  {
    hide Apply, AtMostOnce;
    forall p
      ensures AtMostOnce(Apply(s, step), p) <==> !(Overlaps(s, step) && s.workers[step.w].rest[0] == p)
    {
      assert AtMostOnce(s, p);
      PostAfterStep(s, step, p);
    }
    if Overlaps(s, step) {
      assert !AtMostOnce(Apply(s, step), s.workers[step.w].rest[0]);
    }
  }

  /** And the racy step does lead to a second post of the same request. */
  lemma OverlapPostsTwice(s: Shared, step: Step) returns (rest: seq<Step>)
    requires Enabled(s, step) && Overlaps(s, step)
    ensures var p := s.workers[step.w].rest[0];
            Runs(Apply(s, step), rest) && multiset(Exec(Apply(s, step), rest).posts)[p] >= 2
  {
    var p, w := s.workers[step.w].rest[0], step.w;
    var u := SomebodyHolds(s.workers, p);
    var s1 := Apply(s, step);
    var s2 := Apply(s1, Send(u));
    var s3 := Apply(s2, Send(w));
    assert s3.posts == s.posts + [p] + [p];
    assert multiset(s3.posts) == multiset(s.posts) + multiset{p, p};
    assert Exec(s3, []) == s3;
    rest := Prepend(s2, Send(w), []);
    rest := Prepend(s1, Send(u), rest);
  }

  ghost predicate NoOverlap(s: Shared, steps: seq<Step>)
    requires Runs(s, steps)
    decreases steps
  {
    steps == [] || (!Overlaps(s, steps[0]) && NoOverlap(Apply(s, steps[0]), steps[1..]))
  }

  lemma {:induction false} SafeRun(s: Shared, steps: seq<Step>)
    requires Safe(s) && Runs(s, steps) && NoOverlap(s, steps)
    ensures Safe(Exec(s, steps))
    decreases steps
  {
    hide Safe, Overlaps, Apply, Enabled;
    if steps != [] {
      SafeUnlessOverlap(s, steps[0]);
      SafeRun(Apply(s, steps[0]), steps[1..]);
    }
  }

  /** However passes of any number of workers and responses are interleaved, as long as no two workers
      stand between test and post for the same request, none is outstanding twice, and what is
      pending is what is outstanding. */
  lemma DeliveredOnceWithoutOverlap(workers: nat, steps: seq<Step>, p: Post)
    requires Runs(Init(workers), steps) && NoOverlap(Init(workers), steps)
    ensures var s := Exec(Init(workers), steps);
            multiset(s.posts)[p] == if p in s.pending then 1 else 0
  {
    forall r
      ensures AtMostOnce(Init(workers), r)
    {
      NobodyHolds(Init(workers).workers, r);
    }
    SafeRun(Init(workers), steps);
    var s := Exec(Init(workers), steps);
    assert AtMostOnce(s, p);
    assert p in s.posts <==> multiset(s.posts)[p] > 0;
  }
}

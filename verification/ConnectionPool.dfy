/** The pool of database connections that all worker threads share. `acquire` tries once, and when
    the pool is empty waits up to ten seconds for a connection to come back and tries once more; a
    second failure makes it return null, which its callers do not check. */
module ConnectionPool {
  import opened Wrappers

  type Connection = nat

  /** Where a thread is with respect to the pool. */
  datatype Pc =
    | Idle
    | Waiting                      // first try failed, waiting on the condition variable
    | Leased(con: Connection)      // inside a database function
    | GotNull                      // second try failed too

  datatype State = State(free: seq<Connection>, threads: seq<Pc>)

  datatype Step =
    | Acquire(t: nat)      // first getConnection of acquire
    | Retry(t: nat)        // notified, timed out or woken spuriously: the second getConnection
    | Unlock(t: nat)       // the lock object goes out of scope

  /** `startup` with `n` connections, then `m` threads. */
  function Init(n: nat, m: nat): State {
    State(seq(n, (i: nat) => i), seq(m, i => Idle))
  }

  predicate Enabled(s: State, step: Step) {
    step.t < |s.threads| &&
    match step
    case Acquire(t) => s.threads[t].Idle?
    case Retry(t) => s.threads[t].Waiting?
    case Unlock(t) => s.threads[t].Leased?
  }

  /** `getConnection`: the front of the queue, if there is one. */
  function Take(free: seq<Connection>): (Option<Connection>, seq<Connection>) {
    if free == [] then (None, []) else (Some(free[0]), free[1..])
  }

  function Apply(s: State, step: Step): State
    requires Enabled(s, step)
  {
    match step
    case Acquire(t) =>
      var (con, rest) := Take(s.free);
      State(rest, s.threads[t := if con.Some? then Leased(con.value) else Waiting])
    case Retry(t) =>
      var (con, rest) := Take(s.free);
      State(rest, s.threads[t := if con.Some? then Leased(con.value) else GotNull])
    case Unlock(t) =>
      State(s.free + [s.threads[t].con], s.threads[t := Idle])
  }

  ghost predicate Runs(s: State, steps: seq<Step>)
    decreases steps
  {
    steps == [] || (Enabled(s, steps[0]) && Runs(Apply(s, steps[0]), steps[1..]))
  }

  ghost function Exec(s: State, steps: seq<Step>): State
    requires Runs(s, steps)
    decreases steps
  {
    if steps == [] then s else Exec(Apply(s, steps[0]), steps[1..])
  }

  // ---------- Exclusivity ----------

  function Count(s: seq<Connection>, c: Connection): nat {
    if s == [] then 0 else (if s[0] == c then 1 else 0) + Count(s[1..], c)
  }

  function LeasesOf(ts: seq<Pc>, c: Connection): nat {
    if ts == [] then 0 else (if ts[0] == Leased(c) then 1 else 0) + LeasesOf(ts[1..], c)
  }

  function Leases(ts: seq<Pc>): nat {
    if ts == [] then 0 else (if ts[0].Leased? then 1 else 0) + Leases(ts[1..])
  }

  /** Connection `c` is in one place if it is one of the first `n`, and nowhere otherwise. */
  ghost predicate Placed(s: State, n: nat, c: Connection) {
    Count(s.free, c) + LeasesOf(s.threads, c) == if c < n then 1 else 0
  }

  lemma {:induction false} CountAppend(s: seq<Connection>, t: seq<Connection>, c: Connection)
    ensures Count(s + t, c) == Count(s, c) + Count(t, c)
  {
    if s == [] {
      assert s + t == t;
    } else {
      CountAppend(s[1..], t, c);
      assert (s + t)[1..] == s[1..] + t;
    }
  }

  lemma {:induction false} ThreadUpdate(ts: seq<Pc>, t: nat, pc: Pc, c: Connection)
    requires t < |ts|
    ensures LeasesOf(ts[t := pc], c) + (if ts[t] == Leased(c) then 1 else 0)
         == LeasesOf(ts, c) + (if pc == Leased(c) then 1 else 0)
    ensures Leases(ts[t := pc]) + (if ts[t].Leased? then 1 else 0)
         == Leases(ts) + (if pc.Leased? then 1 else 0)
  {
    if t == 0 {
      assert ts[t := pc][1..] == ts[1..];
    } else {
      assert ts[t := pc][1..] == ts[1..][t - 1 := pc];
      ThreadUpdate(ts[1..], t - 1, pc, c);
    }
  }

  lemma StepKeepsPlaced(s: State, step: Step, n: nat, c: Connection)
    requires Enabled(s, step) && Placed(s, n, c)
    ensures Placed(Apply(s, step), n, c)
    ensures |s.free| + Leases(s.threads) == |Apply(s, step).free| + Leases(Apply(s, step).threads)
  {
    var s', t := Apply(s, step), step.t;
    ThreadUpdate(s.threads, t, s'.threads[t], c);
    assert s'.threads == s.threads[t := s'.threads[t]];
    if step.Unlock? {
      CountAppend(s.free, [s.threads[t].con], c);
    }
  }

  lemma {:induction false} RunKeepsPlaced(s: State, steps: seq<Step>, n: nat, c: Connection)
    requires Runs(s, steps) && Placed(s, n, c)
    ensures Placed(Exec(s, steps), n, c)
    ensures |s.free| + Leases(s.threads) == |Exec(s, steps).free| + Leases(Exec(s, steps).threads)
    ensures |Exec(s, steps).threads| == |s.threads|
    decreases steps
  {
    if steps != [] {
      StepKeepsPlaced(s, steps[0], n, c);
      RunKeepsPlaced(Apply(s, steps[0]), steps[1..], n, c);
    }
  }

  lemma {:induction false} CountRange(n: nat, c: Connection)
    ensures Count(seq(n, (i: nat) => i), c) == if c < n then 1 else 0
  {
    if n > 0 {
      CountRange(n - 1, c);
      assert seq(n, (i: nat) => i) == seq(n - 1, (i: nat) => i) + [n - 1];
      CountAppend(seq(n - 1, (i: nat) => i), [n - 1], c);
    }
  }

  lemma {:induction false} NoLeases(ts: seq<Pc>, c: Connection)
    requires forall t :: 0 <= t < |ts| ==> ts[t].Idle?
    ensures LeasesOf(ts, c) == Leases(ts) == 0
  {
    if ts != [] {
      NoLeases(ts[1..], c);
    }
  }

  /** In every run the free connections and the leases together are the connections created at
      startup, each once: none is lost, none is handed to two threads. */
  lemma LeasesAreExclusive(n: nat, m: nat, steps: seq<Step>, c: Connection)
    requires Runs(Init(n, m), steps)
    ensures var s := Exec(Init(n, m), steps);
            && Count(s.free, c) + LeasesOf(s.threads, c) == (if c < n then 1 else 0)
            && |s.free| + Leases(s.threads) == n && |s.threads| == m
  {
    CountRange(n, c);
    NoLeases(Init(n, m).threads, c);
    RunKeepsPlaced(Init(n, m), steps, n, c);
  }

  lemma TwoThreadsTwoConnections(n: nat, m: nat, steps: seq<Step>, t: nat, u: nat)
    requires Runs(Init(n, m), steps) && t < m && u < m && t != u
    requires |Exec(Init(n, m), steps).threads| == m
    requires Exec(Init(n, m), steps).threads[t].Leased? && Exec(Init(n, m), steps).threads[u].Leased?
    ensures Exec(Init(n, m), steps).threads[t].con != Exec(Init(n, m), steps).threads[u].con
  {
    var ts := Exec(Init(n, m), steps).threads;
    if ts[t] == ts[u] {
      LeasesAreExclusive(n, m, steps, ts[t].con);
      ThreadUpdate(ts, t, Idle, ts[t].con);
      ThreadUpdate(ts[t := Idle], u, Idle, ts[t].con);
    }
  }

  // ---------- The order in which connections go round ----------

  /** The connection that a step hands to its thread, and the one it gives back. */
  function HandedOut(s: State, step: Step): seq<Connection>
    requires Enabled(s, step)
  {
    var pc := Apply(s, step).threads[step.t];
    if pc.Leased? then [pc.con] else []
  }

  function GivenBack(s: State, step: Step): seq<Connection>
    requires Enabled(s, step)
  {
    var pc := s.threads[step.t];
    if pc.Leased? then [pc.con] else []
  }

  ghost function AllHandedOut(s: State, steps: seq<Step>): seq<Connection>
    requires Runs(s, steps)
    decreases steps
  {
    if steps == [] then [] else HandedOut(s, steps[0]) + AllHandedOut(Apply(s, steps[0]), steps[1..])
  }

  ghost function AllGivenBack(s: State, steps: seq<Step>): seq<Connection>
    requires Runs(s, steps)
    decreases steps
  {
    if steps == [] then [] else GivenBack(s, steps[0]) + AllGivenBack(Apply(s, steps[0]), steps[1..])
  }

  /** A try gets the connection that has been free for longest if there is one; the first try waits, and
      the second returns null, only if there is none. */
  lemma TriesTakeWhatIsFree(s: State, step: Step)
    requires Enabled(s, step) && !step.Unlock?
    ensures var s', t := Apply(s, step), step.t;
            if s.free != [] then s'.threads == s.threads[t := Leased(s.free[0])] && s'.free == s.free[1..]
            else s' == s.(threads := s.threads[t := if step.Acquire? then Waiting else GotNull])
  {
  }

  lemma StepGoesRound(s: State, step: Step)
    requires Enabled(s, step)
    ensures HandedOut(s, step) + Apply(s, step).free == s.free + GivenBack(s, step)
  {
    assert s.free + [] == s.free;
  }

  /** Connections are handed out in the order in which they were created and came back. */
  lemma {:induction false} HandedOutInOrder(s: State, steps: seq<Step>)
    requires Runs(s, steps)
    ensures AllHandedOut(s, steps) + Exec(s, steps).free == s.free + AllGivenBack(s, steps)
    decreases steps
  {
    if steps == [] {
      assert [] + s.free == s.free == s.free + [];
    } else {
      var s' := Apply(s, steps[0]);
      StepGoesRound(s, steps[0]);
      HandedOutInOrder(s', steps[1..]);
      hide Apply, HandedOut, GivenBack;
      Regroup(HandedOut(s, steps[0]), AllHandedOut(s', steps[1..]), Exec(s', steps[1..]).free, s'.free, s.free,
              GivenBack(s, steps[0]), AllGivenBack(s', steps[1..]));
    }
  }

  lemma Regroup(out: seq<Connection>, outs: seq<Connection>, end: seq<Connection>, mid: seq<Connection>,
                free: seq<Connection>, back: seq<Connection>, backs: seq<Connection>)
    requires out + mid == free + back && outs + end == mid + backs
    ensures (out + outs) + end == free + (back + backs)
  {
    assert (out + outs) + end == out + (outs + end);
    assert out + (mid + backs) == (out + mid) + backs;
    assert (free + back) + backs == free + (back + backs);
  }

  // ---------- When `acquire` can return null ----------

  lemma {:induction false} OthersBound(ts: seq<Pc>, t: nat)
    requires t < |ts| && !ts[t].Leased?
    ensures Leases(ts) < |ts|
  {
    if t == 0 {
      LeasesBound(ts[1..]);
    } else {
      OthersBound(ts[1..], t - 1);
    }
  }

  lemma {:induction false} LeasesBound(ts: seq<Pc>)
    ensures Leases(ts) <= |ts|
  {
    if ts != [] {
      LeasesBound(ts[1..]);
    }
  }

  ghost predicate NobodyWaits(s: State) {
    forall t :: 0 <= t < |s.threads| ==> !s.threads[t].Waiting? && !s.threads[t].GotNull?
  }

  /** With no more threads than connections every first try succeeds. */
  lemma {:induction false} EnoughConnections(s: State, steps: seq<Step>)
    requires Runs(s, steps) && NobodyWaits(s)
    requires |s.threads| <= |s.free| + Leases(s.threads)
    ensures NobodyWaits(Exec(s, steps))
    decreases steps
  {
    if steps != [] {
      var step := steps[0];
      if step.Acquire? {
        OthersBound(s.threads, step.t);
      }
      ThreadUpdate(s.threads, step.t, Apply(s, step).threads[step.t], 0);
      EnoughConnections(Apply(s, step), steps[1..]);
    }
  }

  /** Some thread can be left without a connection. */
  ghost predicate NullPossible(n: nat, m: nat) {
    exists steps, t :: Runs(Init(n, m), steps)
                    && 0 <= t < |Exec(Init(n, m), steps).threads|
                    && Exec(Init(n, m), steps).threads[t].GotNull?
  }

  /** The state in which the first `k` threads hold the first `k` connections. */
  function Drained(n: nat, m: nat, k: nat): State
    requires k <= n && k <= m
  {
    State(seq(n - k, (i: nat) => i + k), seq(m, (i: nat) => if i < k then Leased(i) else Idle))
  }

  lemma RunOne(s: State, step: Step, rest: seq<Step>)
    requires Enabled(s, step) && Runs(Apply(s, step), rest)
    ensures Runs(s, [step] + rest) && Exec(s, [step] + rest) == Exec(Apply(s, step), rest)
  {
    assert ([step] + rest)[1..] == rest;
  }

  lemma {:induction false} DrainSteps(n: nat, m: nat, k: nat, rest: seq<Step>) returns (steps: seq<Step>)
    requires k <= n && k <= m && Runs(Drained(n, m, k), rest)
    ensures Runs(Init(n, m), steps) && Exec(Init(n, m), steps) == Exec(Drained(n, m, k), rest)
    decreases k
  {
    if k == 0 {
      assert Drained(n, m, 0) == Init(n, m);
      return rest;
    }
    var before, after := Drained(n, m, k - 1), Drained(n, m, k);
    var step := Acquire(k - 1);
    assert Apply(before, step).free == after.free;
    assert Apply(before, step).threads == after.threads;
    RunOne(before, step, rest);
    steps := DrainSteps(n, m, k - 1, [step] + rest);
  }

  /** `acquire` can return null if and only if there are more threads than connections. */
  lemma NullExactlyWhenTooFew(n: nat, m: nat)
    ensures NullPossible(n, m) <==> n < m
  {
    if n < m {
      var s0 := Drained(n, m, n);
      var s1 := Apply(s0, Acquire(n));
      var s2 := Apply(s1, Retry(n));
      assert Exec(s2, []) == s2;
      RunOne(s1, Retry(n), []);
      RunOne(s0, Acquire(n), [Retry(n)] + []);
      var steps := DrainSteps(n, m, n, [Acquire(n)] + ([Retry(n)] + []));
      assert Exec(Init(n, m), steps).threads[n].GotNull?;
    } else if NullPossible(n, m) {
      var steps, t :| Runs(Init(n, m), steps)
                   && 0 <= t < |Exec(Init(n, m), steps).threads|
                   && Exec(Init(n, m), steps).threads[t].GotNull?;
      NoLeases(Init(n, m).threads, 0);
      EnoughConnections(Init(n, m), steps);
      assert false;
    }
  }

  const ConnectionsAtStartup: nat := 25
  const MaxWorkers: nat := 50

  /** Threads that call database functions: the workers asked for on the command line, capped, and
      the main thread. A negative number is compared as unsigned, which makes it larger than the
      cap. */
  function DatabaseThreads(numWorkers: int): nat {
    (if 0 <= numWorkers < MaxWorkers then numWorkers else MaxWorkers) + 1
  }

  /** The server as configured never sees a null connection exactly for 0 to 24 workers. The default
      of 20 is safe, the permitted maximum of 50 is not. */
  lemma SafeWorkerCounts(numWorkers: int)
    ensures !NullPossible(ConnectionsAtStartup, DatabaseThreads(numWorkers)) <==> 0 <= numWorkers <= 24
  {
    NullExactlyWhenTooFew(ConnectionsAtStartup, DatabaseThreads(numWorkers));
  }

  // ---------- The pool object ----------

  /** The static queue of connections and the three operations on it. */
  class Pool {
    var connections: seq<Connection>

    constructor ()
      ensures connections == []
    {
      connections := [];
    }

    /** Creates connections one after the other and stops at the first that cannot be made; those
        made before stay in the queue. `failAt` is the index of that one. */
    method Startup(numConnections: nat, failAt: Option<nat>) returns (ok: bool)
      modifies this
      ensures ok <==> failAt.None? || numConnections <= failAt.value
      ensures connections == old(connections) + Init(if ok then numConnections else failAt.value, 0).free
    {
      var i := 0;
      while i < numConnections
        invariant 0 <= i <= numConnections
        invariant failAt.Some? ==> i <= failAt.value
        invariant connections == old(connections) + Init(i, 0).free
      {
        if failAt == Some(i) {
          return false;
        }
        connections := connections + [i];
        i := i + 1;
      }
      return true;
    }

    method GetConnection() returns (con: Option<Connection>)
      modifies this
      ensures (con, connections) == Take(old(connections))
      ensures if old(connections) == [] then con == None && connections == []
              else con == Some(old(connections)[0]) && connections == old(connections)[1..]
    {
      con := None;
      if connections != [] {
        con, connections := Some(connections[0]), connections[1..];
      }
    }

    method Unlock(con: Connection)
      modifies this
      ensures connections == old(connections) + [con]
    {
      connections := connections + [con];
    }
  }
}

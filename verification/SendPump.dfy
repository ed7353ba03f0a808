/** The send pump of a client session, one step per critical section.

    `sendPacket` looks at `m_sending` in one critical section, takes a packet from the queue in a
    second one and sets `m_sending` in a third, so any number of worker threads may be between
    these points at once. A state is therefore the shared fields together with the point each
    worker has reached. `pushed`, `popped`, `started`, `sent` and `failed` record history.

    Of the engine's stream senders the model uses this: asking them yields zero or more packets, and
    a call that yields none leaves nothing ready. `offered` says that one was added, or had more, and
    that they have not been asked since. */
module SendPump {
  import opened Framing

  /** Where a worker thread is. */
  datatype Pc =
    | Idle                     // not inside the pump
    | AtCheck                  // about to look at m_sending
    | AtPop                    // saw m_sending false, about to lock the queue
    | Holding(pkt: Packet)     // took a packet, about to set m_sending
    | WillWrite(pkt: Packet)   // set m_sending, about to call async_write
    | AtClear                  // in onPacketSent, about to clear m_sending

  datatype State = State(
    sending: bool,
    offered: bool,
    queue: seq<Packet>,
    threads: seq<Pc>,
    inFlight: multiset<Packet>,
    pushed: seq<Packet>,
    popped: seq<Packet>,
    started: seq<Packet>,       // in the order in which async_write was called
    sent: multiset<Packet>,
    failed: multiset<Packet>)

  datatype Step =
    | Post(t: nat, pkt: Packet)               // postPacket pushes
    | Kick(t: nat)                            // addStreamSender or the server timer
    | Check(t: nat)
    | Pop(t: nat, produced: seq<Packet>, more: bool)   // what the stream senders yield; is there more?
    | SetSending(t: nat)
    | StartWrite(t: nat)
    | Complete(t: nat, pkt: Packet, ok: bool) // a worker enters onPacketSent
    | Clear(t: nat)

  function Init(workers: nat): State {
    State(false, false, [], seq(workers, i => Idle), multiset{}, [], [], [], multiset{}, multiset{})
  }

  /** A step can be taken by a worker that is at the right point. The stream senders are asked for
      packets only when the queue is empty. */
  predicate Enabled(s: State, step: Step) {
    step.t < |s.threads| &&
    match step
    case Post(t, _) => s.threads[t].Idle?
    case Kick(t) => s.threads[t].Idle?
    case Check(t) => s.threads[t].AtCheck?
    case Pop(t, produced, more) =>
      s.threads[t].AtPop? && (s.queue != [] ==> produced == []) && (more ==> produced != [])
    case SetSending(t) => s.threads[t].Holding?
    case StartWrite(t) => s.threads[t].WillWrite?
    case Complete(t, pkt, _) => s.threads[t].Idle? && pkt in s.inFlight
    case Clear(t) => s.threads[t].AtClear?
  }

  function Apply(s: State, step: Step): State
    requires Enabled(s, step)
  {
    match step
    case Post(t, pkt) =>
      s.(queue := s.queue + [pkt], pushed := s.pushed + [pkt], threads := s.threads[t := AtCheck])
    case Kick(t) =>
      s.(offered := true, threads := s.threads[t := AtCheck])
    case Check(t) =>
      s.(threads := s.threads[t := if s.sending then Idle else AtPop])
    case Pop(t, produced, more) =>
      var q, offered := s.queue + produced, if s.queue == [] then more else s.offered;
      if q == [] then s.(offered := offered, threads := s.threads[t := Idle])
      else
        s.(offered := offered, queue := q[1..], pushed := s.pushed + produced, popped := s.popped + [q[0]],
           threads := s.threads[t := Holding(q[0])])
    case SetSending(t) =>
      s.(sending := true, threads := s.threads[t := WillWrite(s.threads[t].pkt)])
    case StartWrite(t) =>
      s.(inFlight := s.inFlight + multiset{s.threads[t].pkt}, started := s.started + [s.threads[t].pkt],
         threads := s.threads[t := Idle])
    case Complete(t, pkt, ok) =>
      s.(inFlight := s.inFlight - multiset{pkt},
         sent := if ok then s.sent + multiset{pkt} else s.sent,
         failed := if ok then s.failed else s.failed + multiset{pkt},
         threads := s.threads[t := AtClear])
    case Clear(t) =>
      s.(sending := false, threads := s.threads[t := AtCheck])
  }

  ghost predicate Runs(s: State, steps: seq<Step>)
    decreases steps
  {
    steps == [] || (Enabled(s, steps[0]) && Runs(Apply(s, steps[0]), steps[1..]))
  }

  ghost function Exec(s: State, steps: seq<Step>): State
    requires Runs(s, steps)
    decreases steps
  {
    if steps == [] then s else Exec(Apply(s, steps[0]), steps[1..])
  }

  // ---------- Nothing is stranded ----------

  /** A write is outstanding, about to be issued, or has completed with `m_sending` not yet cleared.
      Each of these ends in another round of `sendPacket`. */
  ghost predicate WriteUnderWay(s: State) {
    s.inFlight != multiset{} || exists t :: 0 <= t < |s.threads| && Writing(s.threads[t])
  }

  predicate Writing(pc: Pc) {
    pc.WillWrite? || pc.AtClear?
  }

  /** A worker is on its way to the queue or carries a packet away from it. */
  ghost predicate WorkerResponsible(s: State) {
    exists t :: 0 <= t < |s.threads| && Fetching(s.threads[t])
  }

  predicate Fetching(pc: Pc) {
    pc.AtCheck? || pc.AtPop? || pc.Holding?
  }

  /** How many copies of `p` workers carry between the queue and `async_write`. */
  function Carried(ts: seq<Pc>, p: Packet): nat {
    if ts == [] then 0 else CarriedBy(ts[0], p) + Carried(ts[1..], p)
  }

  function CarriedBy(pc: Pc, p: Packet): nat {
    if (pc.Holding? || pc.WillWrite?) && pc.pkt == p then 1 else 0
  }

  ghost predicate SomebodyComes(s: State) {
    && (s.sending ==> WriteUnderWay(s))
    && (s.queue != [] || s.offered ==> WriteUnderWay(s) || WorkerResponsible(s))
  }

  ghost predicate Accounted(s: State, p: Packet) {
    multiset(s.popped)[p] == Carried(s.threads, p) + s.inFlight[p] + s.sent[p] + s.failed[p]
  }

  ghost predicate StartedAccounted(s: State) {
    multiset(s.started) == s.inFlight + s.sent + s.failed
  }

  ghost predicate Inv(s: State) {
    && SomebodyComes(s)
    && s.popped + s.queue == s.pushed
    && StartedAccounted(s)
    && forall p :: Accounted(s, p)
  }

  lemma {:induction false} CarriedUpdate(ts: seq<Pc>, t: nat, pc: Pc, p: Packet)
    requires t < |ts|
    ensures Carried(ts[t := pc], p) + CarriedBy(ts[t], p) == Carried(ts, p) + CarriedBy(pc, p)
  {
    if t == 0 {
      assert ts[t := pc][1..] == ts[1..];
    } else {
      assert ts[t := pc][1..] == ts[1..][t - 1 := pc];
      CarriedUpdate(ts[1..], t - 1, pc, p);
    }
  }

  lemma {:induction false} NothingCarried(ts: seq<Pc>, p: Packet)
    requires forall t :: 0 <= t < |ts| ==> ts[t].Idle?
    ensures Carried(ts, p) == 0
  {
    if ts != [] {
      NothingCarried(ts[1..], p);
    }
  }

  lemma StepKeepsOrder(s: State, step: Step)
    requires Enabled(s, step) && s.popped + s.queue == s.pushed
    ensures var s' := Apply(s, step); s'.popped + s'.queue == s'.pushed
  {
    if step.Pop? {
      var q, s' := s.queue + step.produced, Apply(s, step);
      assert s.popped + q == s.pushed + step.produced;
      if q != [] {
        assert q == [q[0]] + q[1..];
        assert s'.popped + s'.queue == s.popped + q;
      }
    } else if step.Post? {
      assert s.popped + (s.queue + [step.pkt]) == s.pushed + [step.pkt];
    }
  }

  /** The moves of one worker, as far as carrying `p` is concerned. */
  lemma CarriedAfter(s: State, step: Step, p: Packet)
    requires Enabled(s, step)
    ensures var s', t := Apply(s, step), step.t;
            Carried(s'.threads, p) + CarriedBy(s.threads[t], p) == Carried(s.threads, p) + CarriedBy(s'.threads[t], p)
  {
    var s', t := Apply(s, step), step.t;
    assert s'.threads == s.threads[t := s'.threads[t]];
    CarriedUpdate(s.threads, t, s'.threads[t], p);
  }

  lemma PopAccounts(s: State, step: Step, p: Packet)
    requires step.Pop? && Enabled(s, step) && Accounted(s, p)
    ensures Accounted(Apply(s, step), p)
  {
    CarriedAfter(s, step, p);
    hide Carried;
    var s', q := Apply(s, step), s.queue + step.produced;
    if q != [] {
      assert multiset(s'.popped) == multiset(s.popped) + multiset{q[0]};
    }
  }

  lemma CompleteAccounts(s: State, step: Step, p: Packet)
    requires step.Complete? && Enabled(s, step) && Accounted(s, p)
    ensures Accounted(Apply(s, step), p)
  {
    CarriedAfter(s, step, p);
    hide Carried;
  }

  lemma StepAccounts(s: State, step: Step, p: Packet)
    requires Enabled(s, step) && Accounted(s, p)
    ensures Accounted(Apply(s, step), p)
  {
    if step.Pop? {
      PopAccounts(s, step, p);
    } else if step.Complete? {
      CompleteAccounts(s, step, p);
    } else {
      CarriedAfter(s, step, p);
      assert Apply(s, step).popped == s.popped;
    }
  }

  lemma StepKeepsStarted(s: State, step: Step)
    requires Enabled(s, step) && StartedAccounted(s)
    ensures StartedAccounted(Apply(s, step))
  {
    if step.StartWrite? {
      var pkt := s.threads[step.t].pkt;
      assert multiset(s.started + [pkt]) == multiset(s.started) + multiset{pkt};
    }
  }

  /** The write under way before a step is still under way after it, unless the step is the clear. */
  lemma WriteStaysUnderWay(s: State, step: Step)
    requires Enabled(s, step) && !step.Clear? && WriteUnderWay(s)
    ensures WriteUnderWay(Apply(s, step))
  {
    var s', t := Apply(s, step), step.t;
    if step.StartWrite? {
      assert s.threads[t].pkt in s'.inFlight;
    } else if step.Complete? {
      assert Writing(s'.threads[t]);
    } else if s.inFlight == multiset{} {
      var u :| 0 <= u < |s.threads| && Writing(s.threads[u]);
      assert u != t ==> s'.threads[u] == s.threads[u];
      assert Writing(s'.threads[u]);
    }
  }

  lemma StepKeepsSomebody(s: State, step: Step)
    requires SomebodyComes(s) && Enabled(s, step)
    ensures SomebodyComes(Apply(s, step))
  {
    var s', t := Apply(s, step), step.t;
    if WriteUnderWay(s) && !step.Clear? {
      WriteStaysUnderWay(s, step);
    } else if step.SetSending? {
      assert Writing(s'.threads[t]);
    } else if s'.queue != [] || s'.offered {
      assert Fetching(s'.threads[t]);
    }
  }

  lemma StepKeepsInv(s: State, step: Step)
    requires Enabled(s, step) && Inv(s)
    ensures Inv(Apply(s, step)) && |Apply(s, step).threads| == |s.threads|
  {
    assert |Apply(s, step).threads| == |s.threads|;
    StepKeepsSomebody(s, step);
    StepKeepsOrder(s, step);
    StepKeepsStarted(s, step);
    hide Apply, Enabled, SomebodyComes, Accounted, StartedAccounted;
    forall p
      ensures Accounted(Apply(s, step), p)
    {
      StepAccounts(s, step, p);
    }
  }

  lemma {:induction false} RunKeepsInv(s: State, steps: seq<Step>)
    requires Inv(s) && Runs(s, steps)
    ensures Inv(Exec(s, steps)) && |Exec(s, steps).threads| == |s.threads|
    decreases steps
  {
    hide Inv;
    if steps != [] {
      StepKeepsInv(s, steps[0]);
      RunKeepsInv(Apply(s, steps[0]), steps[1..]);
    }
  }

  lemma InitInv(workers: nat)
    ensures Inv(Init(workers))
  {
    forall p
      ensures Accounted(Init(workers), p)
    {
      NothingCarried(Init(workers).threads, p);
    }
  }

  ghost predicate Reachable(workers: nat, s: State) {
    exists steps :: Runs(Init(workers), steps) && Exec(Init(workers), steps) == s
  }

  lemma ReachableInv(workers: nat, s: State)
    requires Reachable(workers, s)
    ensures Inv(s) && |s.threads| == workers
  {
    var steps :| Runs(Init(workers), steps) && Exec(Init(workers), steps) == s;
    InitInv(workers);
    RunKeepsInv(Init(workers), steps);
  }

  /** In every reachable state a packet waiting in the queue, and a stream sender waiting to be asked,
      has somebody who will come for it; the packets taken so far followed by the queue are the
      packets pushed, in order; and each packet taken is in exactly one place: with a worker, in a
      write, or in a write that ended well or not. */
  lemma NoStrandedPacket(workers: nat, s: State)
    requires Reachable(workers, s)
    ensures s.queue != [] || s.offered ==> WriteUnderWay(s) || WorkerResponsible(s)
    ensures s.popped + s.queue == s.pushed
    ensures forall p :: multiset(s.popped)[p] == Carried(s.threads, p) + s.inFlight[p] + s.sent[p] + s.failed[p]
  {
    ReachableInv(workers, s);
    forall p
      ensures multiset(s.popped)[p] == Carried(s.threads, p) + s.inFlight[p] + s.sent[p] + s.failed[p]
    {
      assert Accounted(s, p);
    }
  }

  // ---------- What a run adds up to ----------

  function Pushes(step: Step): seq<Packet> {
    match step
    case Post(_, pkt) => [pkt]
    case Pop(_, produced, _) => produced
    case _ => []
  }

  /** What was posted and what the stream senders yielded, in order, read off the steps alone. */
  function PushLog(steps: seq<Step>): seq<Packet> {
    if steps == [] then [] else Pushes(steps[0]) + PushLog(steps[1..])
  }

  function Ends(step: Step, ok: bool): multiset<Packet> {
    if step.Complete? && step.ok == ok then multiset{step.pkt} else multiset{}
  }

  /** The packets whose writes ended, well or not. */
  function EndLog(steps: seq<Step>, ok: bool): multiset<Packet> {
    if steps == [] then multiset{} else Ends(steps[0], ok) + EndLog(steps[1..], ok)
  }

  lemma StepIsLogged(s: State, step: Step)
    requires Enabled(s, step)
    ensures var s' := Apply(s, step);
            && s'.pushed == s.pushed + Pushes(step)
            && s'.sent == s.sent + Ends(step, true) && s'.failed == s.failed + Ends(step, false)
  {
    assert s.pushed + [] == s.pushed;
  }

  lemma {:induction false} RunIsLogged(s: State, steps: seq<Step>)
    requires Runs(s, steps)
    ensures var end := Exec(s, steps);
            && end.pushed == s.pushed + PushLog(steps)
            && end.sent == s.sent + EndLog(steps, true) && end.failed == s.failed + EndLog(steps, false)
    decreases steps
  {
    hide Apply, Enabled, Pushes, Ends;
    if steps == [] {
      assert s.pushed + [] == s.pushed;
    } else {
      var step, rest := steps[0], steps[1..];
      StepIsLogged(s, step);
      RunIsLogged(Apply(s, step), rest);
      assert (s.pushed + Pushes(step)) + PushLog(rest) == s.pushed + (Pushes(step) + PushLog(rest));
      assert (s.sent + Ends(step, true)) + EndLog(rest, true) == s.sent + (Ends(step, true) + EndLog(rest, true));
      assert (s.failed + Ends(step, false)) + EndLog(rest, false)
          == s.failed + (Ends(step, false) + EndLog(rest, false));
    }
  }

  lemma TakenThenQueued(s: State)
    requires Inv(s)
    ensures s.popped + s.queue == s.pushed
  {
  }

  /** The packets taken from the queue so far, followed by those still in it, are those that were posted
      and produced, in that order; and what is recorded as sent or failed is what completed so. */
  lemma TakenThenQueuedIsPosted(workers: nat, steps: seq<Step>)
    requires Runs(Init(workers), steps)
    ensures var s := Exec(Init(workers), steps);
            && s.popped + s.queue == PushLog(steps)
            && s.sent == EndLog(steps, true) && s.failed == EndLog(steps, false)
  {
    hide Inv, Apply, Enabled, Exec, Runs, PushLog, EndLog;
    InitInv(workers);
    RunKeepsInv(Init(workers), steps);
    TakenThenQueued(Exec(Init(workers), steps));
    RunIsLogged(Init(workers), steps);
    assert [] + PushLog(steps) == PushLog(steps);
  }

  /** In the run some worker finds the queue empty and asks the stream senders. */
  ghost predicate Asks(s: State, steps: seq<Step>)
    requires Runs(s, steps)
    decreases steps
  {
    steps != [] && ((steps[0].Pop? && s.queue == []) || Asks(Apply(s, steps[0]), steps[1..]))
  }

  lemma {:induction false} OfferedUntilAsked(s: State, steps: seq<Step>)
    requires Runs(s, steps) && s.offered && !Exec(s, steps).offered
    ensures Asks(s, steps)
    decreases steps
  {
    if !(steps[0].Pop? && s.queue == []) {
      OfferedUntilAsked(Apply(s, steps[0]), steps[1..]);
    }
  }

  /** A kick is never lost: by the time the pump has come to rest, whatever else happened, the stream
      senders have been asked after it. */
  lemma KickIsAnswered(workers: nat, s: State, t: nat, after: seq<Step>)
    requires workers > 0 && Reachable(workers, s) && Enabled(s, Kick(t)) && Runs(Apply(s, Kick(t)), after)
    requires Quiet(Exec(Apply(s, Kick(t)), after))
    ensures Asks(Apply(s, Kick(t)), after)
  {
    var s' := Apply(s, Kick(t));
    ReachableInv(workers, s);
    StepKeepsInv(s, Kick(t));
    RunKeepsInv(s', after);
    RestMeansSent(Exec(s', after));
    OfferedUntilAsked(s', after);
  }

  // ---------- The pump drains ----------

  function Weight(pc: Pc): nat {
    match pc
    case Idle => 0
    case AtPop => 1
    case AtCheck => 2
    case AtClear => 3
    case WillWrite(_) => 5
    case Holding(_) => 6
  }

  function TotalWeight(ts: seq<Pc>): nat {
    if ts == [] then 0 else Weight(ts[0]) + TotalWeight(ts[1..])
  }

  /** Bounds the number of steps left when nobody adds work. */
  function Work(s: State): nat {
    6 * |s.queue| + 4 * |s.inFlight| + TotalWeight(s.threads)
  }

  /** A step of the pump itself, with no new packet and no new kick from outside. */
  predicate Internal(step: Step) {
    !step.Post? && !step.Kick? && (step.Pop? ==> step.produced == [])
  }

  lemma {:induction false} WeightUpdate(ts: seq<Pc>, t: nat, pc: Pc)
    requires t < |ts|
    ensures TotalWeight(ts[t := pc]) + Weight(ts[t]) == TotalWeight(ts) + Weight(pc)
  {
    if t == 0 {
      assert ts[t := pc][1..] == ts[1..];
    } else {
      assert ts[t := pc][1..] == ts[1..][t - 1 := pc];
      WeightUpdate(ts[1..], t - 1, pc);
    }
  }

  lemma InternalStepReducesWork(s: State, step: Step)
    requires Enabled(s, step) && Internal(step)
    ensures Work(Apply(s, step)) < Work(s)
  {
    WeightUpdate(s.threads, step.t, Apply(s, step).threads[step.t]);
  }

  lemma {:induction false} InternalRunIsBounded(s: State, steps: seq<Step>)
    requires Runs(s, steps) && forall i :: 0 <= i < |steps| ==> Internal(steps[i])
    ensures |steps| + Work(Exec(s, steps)) <= Work(s)
    decreases steps
  {
    hide Work, Apply, Enabled;
    if steps != [] {
      InternalStepReducesWork(s, steps[0]);
      InternalRunIsBounded(Apply(s, steps[0]), steps[1..]);
    }
  }

  /** Nothing is left to do: no worker is in the pump and no write is outstanding. */
  ghost predicate Quiet(s: State) {
    s.inFlight == multiset{} && forall t :: 0 <= t < |s.threads| ==> s.threads[t].Idle?
  }

  lemma BusyCanStep(s: State)
    requires |s.threads| > 0 && !Quiet(s)
    ensures exists step :: Internal(step) && Enabled(s, step)
  {
    if t :| 0 <= t < |s.threads| && !s.threads[t].Idle? {
      var step :=
        match s.threads[t]
        case AtCheck => Check(t)
        case AtPop => Pop(t, [], false)
        case Holding(_) => SetSending(t)
        case WillWrite(_) => StartWrite(t)
        case AtClear => Clear(t);
      assert Internal(step) && Enabled(s, step);
    } else {
      var pkt :| pkt in s.inFlight;
      assert Internal(Complete(0, pkt, true)) && Enabled(s, Complete(0, pkt, true));
    }
  }

  lemma QuietCannotStep(s: State, step: Step)
    requires Quiet(s) && Enabled(s, step)
    ensures !Internal(step)
  {
  }

  lemma RestMeansSent(s: State)
    requires Inv(s) && Quiet(s)
    ensures s.queue == [] && !s.offered
    ensures s.sent + s.failed == multiset(s.started) == multiset(s.pushed)
  {
    assert s.queue == [];
    assert s.popped + [] == s.popped;
    forall p
      ensures (s.sent + s.failed)[p] == multiset(s.started)[p] == multiset(s.pushed)[p]
    {
      assert Accounted(s, p);
      NothingCarried(s.threads, p);
    }
  }

  /** From any reachable state, when no more work arrives and as long as workers keep running and
      writes keep completing, the pump comes to rest after at most `Work` steps; it cannot rest
      earlier than with an empty queue and the stream senders asked, and then every packet ever pushed
      was handed to the socket, once. */
  lemma PumpDrains(workers: nat, s: State, after: seq<Step>)
    requires workers > 0 && Reachable(workers, s)
    requires Runs(s, after) && forall i :: 0 <= i < |after| ==> Internal(after[i])
    ensures var s' := Exec(s, after);
            && |after| <= Work(s)
            && ((exists step :: Internal(step) && Enabled(s', step)) <==> !Quiet(s'))
            && (Quiet(s') ==> s'.queue == [] && !s'.offered
                              && s'.sent + s'.failed == multiset(s'.started) == multiset(s.pushed))
  {
    hide Inv, Enabled, Apply, Work;
    ReachableInv(workers, s);
    RunKeepsInv(s, after);
    InternalRunIsBounded(s, after);
    InternalKeepsPushed(s, after);
    var s' := Exec(s, after);
    if Quiet(s') {
      RestMeansSent(s');
      forall step | Internal(step) && Enabled(s', step)
        ensures false
      {
        QuietCannotStep(s', step);
      }
    } else {
      BusyCanStep(s');
    }
  }

  lemma {:induction false} InternalKeepsPushed(s: State, steps: seq<Step>)
    requires Runs(s, steps) && forall i :: 0 <= i < |steps| ==> Internal(steps[i])
    ensures Exec(s, steps).pushed == s.pushed
    decreases steps
  {
    if steps != [] {
      InternalKeepsPushed(Apply(s, steps[0]), steps[1..]);
    }
  }

  // ---------- One write at a time: not in general, and exactly when ----------

  /** Two workers may both see `m_sending` false before either sets it, and then two writes are
      outstanding at once, and they may begin in the other order than the packets were posted. */
  lemma TwoWritesAtOnce(p: Packet, q: Packet) returns (steps: seq<Step>)
    ensures Runs(Init(2), steps)
    ensures var s := Exec(Init(2), steps);
            |s.inFlight| == 2 && s.pushed == [p, q] && s.started == [q, p]
  {
    steps := BothWrite(p, q);
    steps := BothTake(p, q, steps);
    steps := BothPass(p, q, steps);
  }

  /** Both packets wait, and both workers have seen the flag clear. */
  function BothPassed(p: Packet, q: Packet): State {
    Init(2).(queue := [p, q], pushed := [p, q], threads := [AtPop, AtPop])
  }

  /** Each worker has one of the packets, and the flag is set. */
  function BothTaken(p: Packet, q: Packet): State {
    Init(2).(sending := true, pushed := [p, q], popped := [p, q], threads := [WillWrite(p), WillWrite(q)])
  }

  lemma BothPass(p: Packet, q: Packet, rest: seq<Step>) returns (steps: seq<Step>)
    requires Runs(BothPassed(p, q), rest)
    ensures Runs(Init(2), steps) && Exec(Init(2), steps) == Exec(BothPassed(p, q), rest)
  {
    var s0 := Init(2);
    var s1 := Apply(s0, Post(0, p));
    var s2 := Apply(s1, Post(1, q));
    var s3 := Apply(s2, Check(0));
    assert Apply(s3, Check(1)) == BothPassed(p, q);
    steps := Prepend(s3, Check(1), rest);
    steps := Prepend(s2, Check(0), steps);
    steps := Prepend(s1, Post(1, q), steps);
    steps := Prepend(s0, Post(0, p), steps);
  }

  lemma BothTake(p: Packet, q: Packet, rest: seq<Step>) returns (steps: seq<Step>)
    requires Runs(BothTaken(p, q), rest)
    ensures Runs(BothPassed(p, q), steps) && Exec(BothPassed(p, q), steps) == Exec(BothTaken(p, q), rest)
  {
    var s4 := BothPassed(p, q);
    var s5 := Apply(s4, Pop(0, [], false));
    var s6 := Apply(s5, Pop(1, [], false));
    var s7 := Apply(s6, SetSending(0));
    assert Apply(s7, SetSending(1)) == BothTaken(p, q);
    steps := Prepend(s7, SetSending(1), rest);
    steps := Prepend(s6, SetSending(0), steps);
    steps := Prepend(s5, Pop(1, [], false), steps);
    steps := Prepend(s4, Pop(0, [], false), steps);
  }

  lemma BothWrite(p: Packet, q: Packet) returns (steps: seq<Step>)
    ensures Runs(BothTaken(p, q), steps)
    ensures var s := Exec(BothTaken(p, q), steps);
            |s.inFlight| == 2 && s.pushed == [p, q] && s.started == [q, p]
  {
    var s8 := BothTaken(p, q);
    var s9 := Apply(s8, StartWrite(1));
    var s10 := Apply(s9, StartWrite(0));
    assert s10.inFlight == multiset{p, q};
    assert Exec(s10, []) == s10;
    steps := Prepend(s9, StartWrite(0), []);
    steps := Prepend(s8, StartWrite(1), steps);
  }

  lemma Prepend(s: State, step: Step, rest: seq<Step>) returns (steps: seq<Step>)
    requires Enabled(s, step) && Runs(Apply(s, step), rest)
    ensures steps == [step] + rest
    ensures Runs(s, steps) && Exec(s, steps) == Exec(Apply(s, step), rest)
  {
    steps := [step] + rest;
    assert steps[1..] == rest;
  }

  /** A worker that gets through `sendPacket` without interruption, finding the flag clear, does in
      one go what the four steps do: the first packet leaves the queue, the flag is set and one more
      write is in flight. */
  lemma UninterruptedSend(s: State, t: nat, produced: seq<Packet>, more: bool) returns (s': State)
    requires t < |s.threads| && s.threads[t].AtCheck? && !s.sending
    requires (s.queue != [] ==> produced == []) && (more ==> produced != [])
    requires s.queue + produced != []
    ensures var steps := [Check(t), Pop(t, produced, more), SetSending(t), StartWrite(t)];
            Runs(s, steps) && Exec(s, steps) == s'
    ensures var q := s.queue + produced;
            s' == State(true, if s.queue == [] then more else s.offered, q[1..], s.threads[t := Idle],
                        s.inFlight + multiset{q[0]}, s.pushed + produced, s.popped + [q[0]],
                        s.started + [q[0]], s.sent, s.failed)
  {
    var s1 := Apply(s, Check(t));
    var s2 := Apply(s1, Pop(t, produced, more));
    var s3 := Apply(s2, SetSending(t));
    s' := Apply(s3, StartWrite(t));
    assert s'.threads == s.threads[t := Idle];
    assert Exec(s', []) == s';
    hide Apply, Enabled, Runs, Exec;
    var steps := Prepend(s3, StartWrite(t), []);
    steps := Prepend(s2, SetSending(t), steps);
    steps := Prepend(s1, Pop(t, produced, more), steps);
    steps := Prepend(s, Check(t), steps);
    assert steps == [Check(t), Pop(t, produced, more), SetSending(t), StartWrite(t)];
  }

  predicate Engaged(pc: Pc) {
    pc.AtPop? || pc.Holding? || pc.WillWrite? || pc.AtClear?
  }

  function CountEngaged(ts: seq<Pc>): nat {
    if ts == [] then 0 else (if Engaged(ts[0]) then 1 else 0) + CountEngaged(ts[1..])
  }

  /** One sender at a time, from passing the check to clearing the flag. */
  ghost predicate Exclusive(s: State) {
    && CountEngaged(s.threads) + |s.inFlight| <= 1
    && (s.sending <==> WriteUnderWay(s))
  }

  /** The racy step: the check passes while another worker has passed it and not yet set the flag. */
  ghost predicate Overlaps(s: State, step: Step) {
    step.Check? && !s.sending &&
    exists u :: 0 <= u < |s.threads| && (s.threads[u].AtPop? || s.threads[u].Holding?)
  }

  lemma {:induction false} EngagedUpdate(ts: seq<Pc>, t: nat, pc: Pc)
    requires t < |ts|
    ensures CountEngaged(ts[t := pc]) + (if Engaged(ts[t]) then 1 else 0)
         == CountEngaged(ts) + (if Engaged(pc) then 1 else 0)
  {
    if t == 0 {
      assert ts[t := pc][1..] == ts[1..];
    } else {
      assert ts[t := pc][1..] == ts[1..][t - 1 := pc];
      EngagedUpdate(ts[1..], t - 1, pc);
    }
  }

  lemma {:induction false} SomeEngaged(ts: seq<Pc>)
    ensures CountEngaged(ts) > 0 <==> exists t :: 0 <= t < |ts| && Engaged(ts[t])
  {
    if ts != [] {
      SomeEngaged(ts[1..]);
      assert forall t :: 0 < t < |ts| ==> ts[t] == ts[1..][t - 1];
      assert forall t :: 0 <= t < |ts| - 1 ==> ts[1..][t] == ts[t + 1];
    }
  }

  /** Two different engaged workers count as two. */
  lemma TwoEngaged(ts: seq<Pc>, t: nat, u: nat)
    requires t < |ts| && u < |ts| && t != u && Engaged(ts[t]) && Engaged(ts[u])
    ensures CountEngaged(ts) >= 2
  {
    EngagedUpdate(ts, t, Idle);
    assert Engaged(ts[t := Idle][u]);
    SomeEngaged(ts[t := Idle]);
  }

  lemma WriteUnderWayMoves(s: State, step: Step)
    requires Enabled(s, step) && CountEngaged(s.threads) + |s.inFlight| <= 1
    ensures var s' := Apply(s, step);
            WriteUnderWay(s') <==>
              step.SetSending? || (!step.Clear? && WriteUnderWay(s))
  {
    var s', t := Apply(s, step), step.t;
    forall u | 0 <= u < |s.threads| && u != t && Engaged(s.threads[t])
      ensures !Engaged(s.threads[u]) && s'.threads[u] == s.threads[u]
    {
      if Engaged(s.threads[u]) {
        TwoEngaged(s.threads, t, u);
      }
    }
    SomeEngaged(s.threads);
    if step.SetSending? {
      assert Writing(s'.threads[t]);
    } else if step.Clear? {
      assert Engaged(s.threads[t]);
      assert forall u :: 0 <= u < |s.threads| ==> !Writing(s'.threads[u]);
    } else if WriteUnderWay(s) {
      WriteStaysUnderWay(s, step);
    } else {
      assert s'.inFlight == multiset{};
      assert forall u :: 0 <= u < |s.threads| ==> !Writing(s.threads[u]);
      assert forall u :: 0 <= u < |s.threads| ==> !Writing(s'.threads[u]);
    }
  }

  /** A step keeps "one sender at a time" if and only if it is not the racy step. */
  lemma ExclusiveUnlessOverlap(s: State, step: Step)
    requires Exclusive(s) && Enabled(s, step)
    ensures Exclusive(Apply(s, step)) <==> !Overlaps(s, step)
  {
    var s', t := Apply(s, step), step.t;
    EngagedUpdate(s.threads, t, s'.threads[t]);
    assert s'.threads == s.threads[t := s'.threads[t]];
    SomeEngaged(s.threads);
    WriteUnderWayMoves(s, step);
    if step.Check? && !s.sending && !Overlaps(s, step) {
      assert forall u :: 0 <= u < |s.threads| ==> !Engaged(s.threads[u]);
    }
    if step.StartWrite? {
      assert |s'.inFlight| == |s.inFlight| + 1;
    }
  }

  ghost predicate NoOverlap(s: State, steps: seq<Step>)
    requires Runs(s, steps)
    decreases steps
  {
    steps == [] || (!Overlaps(s, steps[0]) && NoOverlap(Apply(s, steps[0]), steps[1..]))
  }

  /** The packets between the queue and `async_write`. */
  function InHand(ts: seq<Pc>): seq<Packet> {
    if ts == [] then [] else PacketOf(ts[0]) + InHand(ts[1..])
  }

  function PacketOf(pc: Pc): seq<Packet> {
    if pc.Holding? || pc.WillWrite? then [pc.pkt] else []
  }

  lemma {:induction false} SameInHand(ts: seq<Pc>, t: nat, pc: Pc)
    requires t < |ts| && PacketOf(ts[t]) == PacketOf(pc)
    ensures InHand(ts[t := pc]) == InHand(ts)
  {
    if t == 0 {
      assert ts[t := pc][1..] == ts[1..];
    } else {
      assert ts[t := pc][1..] == ts[1..][t - 1 := pc];
      SameInHand(ts[1..], t - 1, pc);
    }
  }

  lemma {:induction false} NothingInHand(ts: seq<Pc>)
    requires CountEngaged(ts) == 0
    ensures InHand(ts) == []
  {
    if ts != [] {
      NothingInHand(ts[1..]);
    }
  }

  lemma {:induction false} OneInHand(ts: seq<Pc>, t: nat)
    requires CountEngaged(ts) <= 1 && t < |ts| && Engaged(ts[t])
    ensures InHand(ts) == PacketOf(ts[t])
  {
    SomeEngaged(ts[1..]);
    if t == 0 {
      NothingInHand(ts[1..]);
    } else {
      assert Engaged(ts[1..][t - 1]);
      OneInHand(ts[1..], t - 1);
    }
  }

  /** Writes begin in the order in which packets were taken from the queue. */
  ghost predicate StartedInOrder(s: State) {
    s.popped == s.started + InHand(s.threads)
  }

  lemma StepKeepsStartOrder(s: State, step: Step)
    requires StartedInOrder(s) && Enabled(s, step)
    requires CountEngaged(s.threads) <= 1 && CountEngaged(Apply(s, step).threads) <= 1
    ensures StartedInOrder(Apply(s, step))
  {
    var s', t := Apply(s, step), step.t;
    assert s'.threads == s.threads[t := s'.threads[t]];
    EngagedUpdate(s.threads, t, s'.threads[t]);
    if step.Pop? && s'.threads[t].Holding? {
      OneInHand(s.threads, t);
      OneInHand(s'.threads, t);
      assert s.started + [] == s.started;
    } else if step.StartWrite? {
      OneInHand(s.threads, t);
      NothingInHand(s'.threads);
      assert s'.started + [] == s'.started;
    } else {
      SameInHand(s.threads, t, s'.threads[t]);
    }
  }

  lemma {:induction false} OrderedRun(s: State, steps: seq<Step>)
    requires Exclusive(s) && StartedInOrder(s) && Runs(s, steps) && NoOverlap(s, steps)
    ensures Exclusive(Exec(s, steps)) && StartedInOrder(Exec(s, steps))
    decreases steps
  {
    hide StartedInOrder, Overlaps;
    if steps != [] {
      ExclusiveUnlessOverlap(s, steps[0]);
      StepKeepsStartOrder(s, steps[0]);
      OrderedRun(Apply(s, steps[0]), steps[1..]);
    }
  }

  /** Runs in which no check races another have at most one write in flight throughout, and the
      writes begin in the order in which the packets were pushed. */
  lemma OneWriteWithoutOverlap(workers: nat, steps: seq<Step>)
    requires Runs(Init(workers), steps) && NoOverlap(Init(workers), steps)
    ensures var s := Exec(Init(workers), steps);
            |s.inFlight| <= 1 && s.started <= s.popped <= s.pushed
  {
    var ts := Init(workers).threads;
    SomeEngaged(ts);
    NothingInHand(ts);
    OrderedRun(Init(workers), steps);
    InitInv(workers);
    RunKeepsInv(Init(workers), steps);
  }
}

/** File-backed stream buffers: an upload appends to a file while downloads already read it. */
module StreamBuffers {
  import opened Wrappers

  const TwoTo32: nat := 0x1_0000_0000

  /** `bytesReadable()` returns the 64-bit counter as a 32-bit number. */
  function Narrow(n: nat): nat {
    n % TwoTo32
  }

  lemma NarrowStep(n: nat)
    ensures Narrow(Narrow(n) + 1) == Narrow(n + 1)
  {
  }

  /** How much of a request for `size` bytes at `offset` is served when `limit` bytes are readable. */
  function Clip(limit: nat, size: nat, offset: nat): nat {
    if offset < limit then (if limit - offset > size then size else limit - offset) else 0
  }

  /** The bytes `StreamBuffer::read` returns. */
  function ReadSlice(content: seq<byte>, readable: nat, size: nat, offset: nat): seq<byte>
    requires readable <= |content|
  {
    var n := Clip(Narrow(readable), size, offset);
    if n == 0 then [] else content[offset..offset + n]
  }

  /** A whole file is read in one piece if and only if it is shorter than 4 GiB. */
  lemma WholeFileReadExactlyBelow4GiB(content: seq<byte>)
    ensures ReadSlice(content, |content|, |content|, 0) == content <==> |content| < TwoTo32
  {
    if |content| >= TwoTo32 {
      assert |ReadSlice(content, |content|, |content|, 0)| < TwoTo32;
    }
  }

  // ---------- Reading while writing ----------

  /** A write reads the counter, appends under the file lock and adds to the counter, in three
      critical sections; a read reads the counter and then the file. */
  datatype Pc =
    | Idle
    | Appending(data: seq<byte>)
    | Counting(n: nat)
    | Reading(size: nat, offset: nat, limit: nat)

  datatype Result = Result(size: nat, offset: nat, limit: nat, data: seq<byte>)

  datatype State = State(file: seq<byte>, readable: nat, threads: seq<Pc>, results: seq<Result>)

  datatype Step =
    | BeginWrite(t: nat, data: seq<byte>)
    | AppendFile(t: nat)
    | Count(t: nat)
    | BeginRead(t: nat, size: nat, offset: nat)
    | FinishRead(t: nat)

  /** Writes of nothing fail before they change anything. */
  predicate Enabled(s: State, step: Step) {
    step.t < |s.threads| &&
    match step
    case BeginWrite(t, data) => s.threads[t].Idle? && data != []
    case AppendFile(t) => s.threads[t].Appending?
    case Count(t) => s.threads[t].Counting?
    case BeginRead(t, _, _) => s.threads[t].Idle?
    case FinishRead(t) => s.threads[t].Reading?
  }

  /** `fread` delivers the whole slice or nothing. */
  function Slice(file: seq<byte>, size: nat, offset: nat, limit: nat): seq<byte> {
    var n := Clip(limit, size, offset);
    if n == 0 || offset + n > |file| then [] else file[offset..offset + n]
  }

  function Apply(s: State, step: Step): State
    requires Enabled(s, step)
  {
    match step
    case BeginWrite(t, data) => s.(threads := s.threads[t := Appending(data)])
    case AppendFile(t) =>
      s.(file := s.file + s.threads[t].data, threads := s.threads[t := Counting(|s.threads[t].data|)])
    case Count(t) =>
      s.(readable := s.readable + s.threads[t].n, threads := s.threads[t := Idle])
    case BeginRead(t, size, offset) =>
      s.(threads := s.threads[t := Reading(size, offset, Narrow(s.readable))])
    case FinishRead(t) =>
      var r := s.threads[t];
      s.(threads := s.threads[t := Idle],
         results := s.results + [Result(r.size, r.offset, r.limit, Slice(s.file, r.size, r.offset, r.limit))])
  }

  ghost predicate Runs(s: State, steps: seq<Step>)
    decreases steps
  {
    steps == [] || (Enabled(s, steps[0]) && Runs(Apply(s, steps[0]), steps[1..]))
  }

  ghost function Exec(s: State, steps: seq<Step>): State
    requires Runs(s, steps)
    decreases steps
  {
    if steps == [] then s else Exec(Apply(s, steps[0]), steps[1..])
  }

  /** Bytes that are in the file and not yet counted. */
  function Uncounted(ts: seq<Pc>): nat {
    if ts == [] then 0 else (if ts[0].Counting? then ts[0].n else 0) + Uncounted(ts[1..])
  }

  ghost predicate GoodResult(file: seq<byte>, r: Result) {
    && r.limit <= |file|
    && |r.data| == Clip(r.limit, r.size, r.offset)
    && (r.data != [] ==> r.offset + |r.data| <= |file| && r.data == file[r.offset..r.offset + |r.data|])
  }

  ghost predicate Inv(s: State) {
    && s.readable + Uncounted(s.threads) == |s.file|
    && (forall t :: 0 <= t < |s.threads| && s.threads[t].Reading? ==> s.threads[t].limit <= |s.file|)
    && (forall r :: r in s.results ==> GoodResult(s.file, r))
  }

  lemma {:induction false} UncountedUpdate(ts: seq<Pc>, t: nat, pc: Pc)
    requires t < |ts|
    ensures Uncounted(ts[t := pc]) + (if ts[t].Counting? then ts[t].n else 0)
         == Uncounted(ts) + (if pc.Counting? then pc.n else 0)
  {
    if t == 0 {
      assert ts[t := pc][1..] == ts[1..];
    } else {
      assert ts[t := pc][1..] == ts[1..][t - 1 := pc];
      UncountedUpdate(ts[1..], t - 1, pc);
    }
  }

  lemma GrowthKeepsResult(file: seq<byte>, more: seq<byte>, r: Result)
    requires GoodResult(file, r)
    ensures GoodResult(file + more, r)
  {
    if r.data != [] {
      assert (file + more)[r.offset..r.offset + |r.data|] == file[r.offset..r.offset + |r.data|];
    }
  }

  lemma StepKeepsInv(s: State, step: Step)
    requires Inv(s) && Enabled(s, step)
    ensures Inv(Apply(s, step)) && s.readable <= Apply(s, step).readable && s.file <= Apply(s, step).file
  {
    var s', t := Apply(s, step), step.t;
    UncountedUpdate(s.threads, t, s'.threads[t]);
    assert s'.threads == s.threads[t := s'.threads[t]];
    match step
    case AppendFile(_) =>
      forall r | r in s'.results
        ensures GoodResult(s'.file, r)
      {
        GrowthKeepsResult(s.file, s.threads[t].data, r);
      }
    case FinishRead(_) =>
      assert GoodResult(s.file, s'.results[|s.results|]);
    case _ =>
  }

  lemma {:induction false} RunKeepsInv(s: State, steps: seq<Step>)
    requires Inv(s) && Runs(s, steps)
    ensures Inv(Exec(s, steps)) && s.readable <= Exec(s, steps).readable && s.file <= Exec(s, steps).file
    decreases steps
  {
    hide Inv;
    if steps != [] {
      StepKeepsInv(s, steps[0]);
      RunKeepsInv(Apply(s, steps[0]), steps[1..]);
    }
  }

  /** A buffer just created (empty) or just loaded, and threads that have not started. */
  function Opened(content: seq<byte>, threads: nat): State {
    State(content, |content|, seq(threads, i => Idle), [])
  }

  /** Under every interleaving of writers and readers, the counter never runs ahead of the file and
      never goes back, the file only grows at the end, and whatever a read returned is that slice of
      the final content, clipped to what was readable when it began. */
  lemma ReadsAreSlicesOfTheFinalContent(content: seq<byte>, threads: nat, before: seq<Step>, after: seq<Step>)
    requires Runs(Opened(content, threads), before)
    requires Runs(Exec(Opened(content, threads), before), after)
    ensures var mid := Exec(Opened(content, threads), before);
            var end := Exec(mid, after);
            && mid.readable <= |mid.file| && mid.readable <= end.readable && mid.file <= end.file
            && forall r :: r in mid.results ==> GoodResult(end.file, r)
  {
    var s := Opened(content, threads);
    NothingUncounted(s.threads);
    RunKeepsInv(s, before);
    var mid := Exec(s, before);
    RunKeepsInv(mid, after);
    var end := Exec(mid, after);
    var more := end.file[|mid.file|..];
    assert end.file == mid.file + more;
    forall r | r in mid.results
      ensures GoodResult(end.file, r)
    {
      GrowthKeepsResult(mid.file, more, r);
    }
  }

  // ---------- What the file holds ----------

  /** The data of the writes that reached the file, in the order in which they did, read off the steps
      alone: each thread appends what it began to write last. */
  function Written(begun: map<nat, seq<byte>>, steps: seq<Step>): seq<byte>
    decreases |steps|
  {
    if steps == [] then []
    else match steps[0]
      case BeginWrite(t, data) => Written(begun[t := data], steps[1..])
      case AppendFile(t) => (if t in begun then begun[t] else []) + Written(begun, steps[1..])
      case _ => Written(begun, steps[1..])
  }

  /** `begun` knows what every thread that is about to append has begun to write. */
  ghost predicate Knows(begun: map<nat, seq<byte>>, ts: seq<Pc>) {
    forall t :: 0 <= t < |ts| && ts[t].Appending? ==> t in begun && begun[t] == ts[t].data
  }

  lemma {:induction false} RunAppendsWritten(s: State, steps: seq<Step>, begun: map<nat, seq<byte>>)
    requires Runs(s, steps) && Knows(begun, s.threads)
    ensures Exec(s, steps).file == s.file + Written(begun, steps)
    decreases |steps|
  {
    if steps == [] {
      assert s.file + [] == s.file;
    } else {
      var s' := Apply(s, steps[0]);
      match steps[0]
      case BeginWrite(t, data) =>
        RunAppendsWritten(s', steps[1..], begun[t := data]);
      case AppendFile(t) =>
        RunAppendsWritten(s', steps[1..], begun);
        assert (s.file + begun[t]) + Written(begun, steps[1..]) == s.file + (begun[t] + Written(begun, steps[1..]));
      case _ =>
        RunAppendsWritten(s', steps[1..], begun);
    }
  }

  /** Under every interleaving the file is what it was opened with followed by the data of the writes,
      whole and in the order in which they reached it; and what any read returned is a slice of that. */
  lemma FileIsWhatWasWritten(content: seq<byte>, threads: nat, steps: seq<Step>)
    requires Runs(Opened(content, threads), steps)
    ensures var s := Exec(Opened(content, threads), steps);
            && s.file == content + Written(map[], steps)
            && forall r :: r in s.results && r.data != [] ==>
                 && r.offset + |r.data| <= |content + Written(map[], steps)|
                 && r.data == (content + Written(map[], steps))[r.offset..r.offset + |r.data|]
  {
    RunAppendsWritten(Opened(content, threads), steps, map[]);
    OpenedInv(content, threads);
    RunKeepsInv(Opened(content, threads), steps);
    forall r | r in Exec(Opened(content, threads), steps).results
      ensures GoodResult(Exec(Opened(content, threads), steps).file, r)
    {
    }
  }

  lemma RunOne(s: State, step: Step, rest: seq<Step>)
    requires Enabled(s, step) && Runs(Apply(s, step), rest)
    ensures Runs(s, [step] + rest) && Exec(s, [step] + rest) == Exec(Apply(s, step), rest)
  {
    assert ([step] + rest)[1..] == rest;
  }

  /** A write that nobody interrupts appends its data and counts it: what the write of a buffer that
      one thread uses does. */
  lemma UninterruptedWrite(s: State, t: nat, data: seq<byte>)
    requires t < |s.threads| && s.threads[t].Idle? && data != []
    ensures var steps := [BeginWrite(t, data), AppendFile(t), Count(t)];
            && Runs(s, steps)
            && Exec(s, steps) == s.(file := s.file + data, readable := s.readable + |data|)
  {
    var s1 := Apply(s, BeginWrite(t, data));
    var s2 := Apply(s1, AppendFile(t));
    var s3 := Apply(s2, Count(t));
    assert s3.threads == s.threads;
    assert Exec(s3, []) == s3;
    hide Apply, Enabled, Runs, Exec;
    RunOne(s2, Count(t), []);
    RunOne(s1, AppendFile(t), [Count(t)] + []);
    RunOne(s, BeginWrite(t, data), [AppendFile(t)] + ([Count(t)] + []));
    assert [BeginWrite(t, data), AppendFile(t), Count(t)]
        == [BeginWrite(t, data)] + ([AppendFile(t)] + ([Count(t)] + []));
  }

  lemma {:induction false} OthersLeaveThread(s: State, steps: seq<Step>, t: nat)
    requires Runs(s, steps) && t < |s.threads| && forall i :: 0 <= i < |steps| ==> steps[i].t != t
    ensures |Exec(s, steps).threads| == |s.threads| && Exec(s, steps).threads[t] == s.threads[t]
    decreases steps
  {
    if steps != [] {
      OthersLeaveThread(Apply(s, steps[0]), steps[1..], t);
    }
  }

  lemma SliceIsReadSlice(file: seq<byte>, final: seq<byte>, readable: nat, size: nat, offset: nat)
    requires readable <= |file| && file <= final
    ensures Slice(file, size, offset, Narrow(readable)) == ReadSlice(final, readable, size, offset)
  {
    var n := Clip(Narrow(readable), size, offset);
    if n != 0 {
      assert file[offset..offset + n] == final[offset..offset + n];
    }
  }

  /** A read that begins in any reachable state and ends after any number of steps of other threads
      returns what a single undisturbed read would have returned when it began, and would still
      return from the final file. */
  lemma OverlappedReadIsAtomic(content: seq<byte>, threads: nat, before: seq<Step>, t: nat, size: nat, offset: nat,
                               during: seq<Step>)
    requires Runs(Opened(content, threads), before)
    requires Enabled(Exec(Opened(content, threads), before), BeginRead(t, size, offset))
    requires Runs(Apply(Exec(Opened(content, threads), before), BeginRead(t, size, offset)), during)
    requires forall i :: 0 <= i < |during| ==> during[i].t != t
    ensures var start := Exec(Opened(content, threads), before);
            var end := Exec(Apply(start, BeginRead(t, size, offset)), during);
            && Enabled(end, FinishRead(t)) && start.readable <= |start.file| && start.readable <= |end.file|
            && var results := Apply(end, FinishRead(t)).results;
            && results != []
            && results[|results| - 1].data == ReadSlice(start.file, start.readable, size, offset)
            && results[|results| - 1].data == ReadSlice(end.file, start.readable, size, offset)
  {
    hide Inv;
    OpenedInv(content, threads);
    RunKeepsInv(Opened(content, threads), before);
    var start := Exec(Opened(content, threads), before);
    var begun := Apply(start, BeginRead(t, size, offset));
    StepKeepsInv(start, BeginRead(t, size, offset));
    RunKeepsInv(begun, during);
    OthersLeaveThread(begun, during, t);
    CounterBehindFile(start);
    var end := Exec(begun, during);
    SliceIsReadSlice(end.file, end.file, start.readable, size, offset);
    SliceIsReadSlice(start.file, end.file, start.readable, size, offset);
    SliceIsReadSlice(start.file, start.file, start.readable, size, offset);
  }

  lemma OpenedInv(content: seq<byte>, threads: nat)
    ensures Inv(Opened(content, threads))
  {
    NothingUncounted(Opened(content, threads).threads);
  }

  lemma CounterBehindFile(s: State)
    requires Inv(s)
    ensures s.readable <= |s.file|
  {
  }

  lemma {:induction false} NothingUncounted(ts: seq<Pc>)
    requires forall t :: 0 <= t < |ts| ==> ts[t].Idle?
    ensures Uncounted(ts) == 0
  {
    if ts != [] {
      NothingUncounted(ts[1..]);
    }
  }

  // ---------- The offset of a write ----------

  function Zeros(n: nat): seq<byte> {
    seq(n, i => 0)
  }

  /** A file that honours the offset of a write. */
  function RandomWrite(content: seq<byte>, data: seq<byte>, offset: nat): seq<byte> {
    var base := if offset <= |content| then content else content + Zeros(offset - |content|);
    base[..offset] + data + (if offset + |data| < |base| then base[offset + |data|..] else [])
  }

  function RandomRead(content: seq<byte>, size: nat, offset: nat): seq<byte> {
    if offset >= |content| then []
    else if offset + size <= |content| then content[offset..offset + size] else content[offset..]
  }

  lemma ReadIsRandomRead(content: seq<byte>, size: nat, offset: nat)
    requires |content| < TwoTo32
    ensures ReadSlice(content, |content|, size, offset) == RandomRead(content, size, offset)
  {
  }

  /** `write` ignores its offset and appends. That is what the caller asked for if and only if it
      asked for the end of the file. */
  lemma AppendingHonoursExactlyTheEnd(content: seq<byte>, data: seq<byte>, offset: nat)
    requires data != []
    ensures content + data == RandomWrite(content, data, offset) <==> offset == |content|
  {
    if offset > |content| {
      assert |RandomWrite(content, data, offset)| == offset + |data|;
    } else if offset < |content| {
      assert |RandomWrite(content, data, offset)| < |content| + |data|;
    } else {
      assert content[..offset] == content;
    }
  }

  datatype Access = Put(data: seq<byte>, offset: nat) | Get(size: nat, offset: nat)

  /** The results of a sequence of writes and reads on the buffer as it is. */
  function BufferRun(content: seq<byte>, ops: seq<Access>): seq<seq<byte>>
    decreases |ops|
  {
    if ops == [] then []
    else match ops[0]
      case Put(data, _) => BufferRun(content + data, ops[1..])
      case Get(size, offset) =>
        [ReadSlice(content, |content|, size, offset)] + BufferRun(content, ops[1..])
  }

  function RandomRun(content: seq<byte>, ops: seq<Access>): seq<seq<byte>>
    decreases |ops|
  {
    if ops == [] then []
    else match ops[0]
      case Put(data, offset) => RandomRun(RandomWrite(content, data, offset), ops[1..])
      case Get(size, offset) => [RandomRead(content, size, offset)] + RandomRun(content, ops[1..])
  }

  /** Each part arrives at the offset where the last one ended, and the total stays below 4 GiB. */
  predicate InOrder(length: nat, ops: seq<Access>)
    decreases |ops|
  {
    length < TwoTo32 &&
    (ops == [] ||
     match ops[0]
     case Put(data, offset) =>
       data != [] && offset == length && InOrder(length + |data|, ops[1..])
     case Get(_, _) => InOrder(length, ops[1..]))
  }

  /** For an upload that arrives in order the buffer cannot be told from a random-access file,
      whatever is read in between. */
  lemma {:induction false} InOrderUploadIsRandomAccess(content: seq<byte>, ops: seq<Access>)
    requires InOrder(|content|, ops)
    ensures BufferRun(content, ops) == RandomRun(content, ops)
    decreases |ops|
  {
    if ops != [] {
      match ops[0]
      case Put(data, offset) =>
        AppendingHonoursExactlyTheEnd(content, data, offset);
        InOrderUploadIsRandomAccess(content + data, ops[1..]);
      case Get(size, offset) =>
        ReadIsRandomRead(content, size, offset);
        InOrderUploadIsRandomAccess(content, ops[1..]);
    }
  }

  // ---------- Parts ----------

  /** The number of parts `load` computes from the length of the file; it is kept in 32 bits. */
  function PartCount(length: nat, max: nat): nat
    requires max > 0
  {
    Narrow(length / max + if length % max != 0 then 1 else 0)
  }

  /** The packets of an upload: full ones, and a last one that is not empty. */
  predicate Upload(parts: seq<seq<byte>>, max: nat) {
    parts == [] ||
    if |parts| == 1 then 0 < |parts[0]| <= max
    else |parts[0]| == max && Upload(parts[1..], max)
  }

  function Flatten(parts: seq<seq<byte>>): seq<byte> {
    if parts == [] then [] else parts[0] + Flatten(parts[1..])
  }

  function Split(content: seq<byte>, max: nat): seq<seq<byte>>
    requires max > 0
    decreases |content|
  {
    if content == [] then []
    else if |content| <= max then [content]
    else [content[..max]] + Split(content[max..], max)
  }

  lemma {:induction false} SplitUndoesFlatten(parts: seq<seq<byte>>, max: nat)
    requires max > 0 && Upload(parts, max)
    ensures Split(Flatten(parts), max) == parts
    ensures parts != [] ==> Flatten(parts) != []
    decreases |parts|
  {
    if |parts| == 1 {
      assert Flatten(parts[1..]) == [];
      assert parts[0] + [] == parts[0];
    } else if |parts| > 1 {
      SplitUndoesFlatten(parts[1..], max);
      var all := Flatten(parts);
      assert all[..max] == parts[0] && all[max..] == Flatten(parts[1..]);
      assert parts[1..] != [] && |all| > max;
    }
  }

  lemma {:induction false} FlattenUndoesSplit(content: seq<byte>, max: nat)
    requires max > 0
    ensures Flatten(Split(content, max)) == content && Upload(Split(content, max), max)
    ensures content != [] ==> Split(content, max) != []
    decreases |content|
  {
    if 0 < |content| <= max {
      assert [content][1..] == [] && content + [] == content;
    } else if |content| > max {
      var rest := Split(content[max..], max);
      FlattenUndoesSplit(content[max..], max);
      assert Split(content, max)[1..] == rest;
      assert content[..max] + content[max..] == content;
    }
  }

  lemma DivideStep(n: nat, max: nat)
    requires 0 < max <= n
    ensures n / max == (n - max) / max + 1 && n % max == (n - max) % max
  {
    var q, r := (n - max) / max, (n - max) % max;
    Distribute(max, q);
    DivisionUnique(n, max, q + 1, r);
  }

  lemma Distribute(d: nat, q: nat)
    ensures d * (q + 1) == d * q + d
  {
  }

  lemma {:induction false} DivisionUnique(n: nat, d: nat, q: nat, r: nat)
    requires d > 0 && r < d && n == d * q + r
    ensures n / d == q && n % d == r
  {
    var k := n / d - q;
    assert n == d * (n / d) + n % d;
    assert d * k == r - n % d;
    NoSmallMultiple(d, k);
  }

  lemma NoSmallMultiple(d: int, k: int)
    requires d > 0
    ensures k >= 1 ==> d * k >= d
    ensures k <= -1 ==> d * k <= -d
  {
    if k >= 1 {
      assert d * k == d + d * (k - 1);
    } else if k <= -1 {
      assert d * k == -d + d * (k + 1);
    }
  }

  lemma {:induction false} SplitLength(content: seq<byte>, max: nat)
    requires max > 0
    ensures |Split(content, max)| == |content| / max + if |content| % max != 0 then 1 else 0
    decreases |content|
  {
    if |content| < max {
      DivisionUnique(|content|, max, 0, |content|);
    } else {
      DivideStep(|content|, max);
      if |content| > max {
        SplitLength(content[max..], max);
      } else {
        DivisionUnique(0, max, 0, 0);
      }
    }
  }

  lemma ShiftedRead(content: seq<byte>, max: nat, o: nat)
    requires max <= |content|
    ensures RandomRead(content[max..], max, o) == RandomRead(content, max, o + max)
  {
    var rest := content[max..];
    if o + max <= |rest| {
      assert rest[o..o + max] == content[o + max..o + max + max];
    } else if o < |rest| {
      assert rest[o..] == content[o + max..];
    }
  }

  /** Where part `k` begins. */
  function PartOffset(k: nat, max: nat): nat {
    if k == 0 then 0 else PartOffset(k - 1, max) + max
  }

  lemma {:induction false} PartOffsetIsProduct(k: nat, max: nat)
    ensures PartOffset(k, max) == k * max
  {
    if k > 0 {
      PartOffsetIsProduct(k - 1, max);
      assert k * max == (k - 1) * max + max;
    }
  }

  lemma FirstPart(content: seq<byte>, max: nat)
    requires max > 0 && Split(content, max) != []
    ensures content != [] && Split(content, max)[0] == RandomRead(content, max, 0)
  {
    if |content| <= max {
      assert content[0..] == content;
    } else {
      assert content[0..max] == content[..max];
    }
  }

  lemma OtherParts(content: seq<byte>, max: nat)
    requires max > 0 && |Split(content, max)| > 1
    ensures |content| > max && Split(content, max)[1..] == Split(content[max..], max)
  {
  }

  lemma {:induction false} PartIsSlice(content: seq<byte>, max: nat, k: nat)
    requires max > 0 && k < |Split(content, max)|
    ensures PartOffset(k, max) < |content|
    ensures Split(content, max)[k] == RandomRead(content, max, PartOffset(k, max))
    decreases k
  {
    hide RandomRead, Split;
    if k == 0 {
      FirstPart(content, max);
    } else {
      OtherParts(content, max);
      PartIsSlice(content[max..], max, k - 1);
      ShiftedRead(content, max, PartOffset(k - 1, max));
    }
  }

  /** Below 4 GiB a loaded buffer has as many parts as were uploaded, and reading one full part at
      each multiple of the part size gives back exactly the parts, so that what one client sends
      another receives packet by packet. */
  lemma LoadedPartsAreUploadedParts(parts: seq<seq<byte>>, max: nat, k: nat)
    requires max > 0 && Upload(parts, max) && |Flatten(parts)| < TwoTo32 && k < |parts|
    ensures var content := Flatten(parts);
            && PartCount(|content|, max) == |parts|
            && ReadSlice(content, |content|, max, k * max) == parts[k]
  {
    hide Flatten, Upload, Split, ReadSlice, RandomRead, PartCount;
    var content := Flatten(parts);
    SplitUndoesFlatten(parts, max);
    PartCountIsSplitLength(content, max);
    PartIsSlice(content, max, k);
    PartOffsetIsProduct(k, max);
    ReadIsRandomRead(content, max, k * max);
  }

  lemma PartCountIsSplitLength(content: seq<byte>, max: nat)
    requires max > 0 && |content| < TwoTo32
    ensures PartCount(|content|, max) == |Split(content, max)|
  {
    SplitLength(content, max);
    PartsAtMostBytes(content, max);
  }

  lemma {:induction false} PartsAtMostBytes(content: seq<byte>, max: nat)
    requires max > 0
    ensures |Split(content, max)| <= |content|
    decreases |content|
  {
    if |content| > max {
      PartsAtMostBytes(content[max..], max);
    }
  }

  // ---------- The objects ----------

  /** The directory of upload files; the file of stream `id` is `tmp/<id>`. */
  class Disk {
    var files: map<nat, seq<byte>>

    constructor ()
      ensures files == map[]
    {
      files := map[];
    }
  }

  class StreamBuffer {
    const disk: Disk
    const streamId: nat
    const appendable: bool     // opened for an upload rather than for reading only
    var streamParts: nat
    var bytesReadable: nat
    var lastActivity: nat

    ghost predicate Valid()
      reads this, disk
    {
      streamId in disk.files && bytesReadable <= |disk.files[streamId]|
    }

    /** The buffer of a new upload, on a file that was just created. */
    constructor Create(disk: Disk, streamId: nat, parts: nat)
      requires streamId in disk.files
      ensures Valid() && this.disk == disk && this.streamId == streamId && appendable
      ensures bytesReadable == 0 && lastActivity == 0 && streamParts == parts
    {
      this.disk, this.streamId, appendable := disk, streamId, true;
      streamParts, bytesReadable, lastActivity := parts, 0, 0;
    }

    /** `load`: the buffer of a file that already exists. */
    constructor Load(disk: Disk, streamId: nat, max: nat)
      requires streamId in disk.files && max > 0
      ensures Valid() && this.disk == disk && this.streamId == streamId && !appendable
      ensures bytesReadable == |disk.files[streamId]| && lastActivity == 0
      ensures streamParts == PartCount(|disk.files[streamId]|, max)
    {
      this.disk, this.streamId, appendable := disk, streamId, false;
      var readable := |disk.files[streamId]|;
      var parts := Narrow(readable / max);
      NarrowStep(readable / max);
      if readable % max != 0 {
        parts := Narrow(parts + 1);
      }
      streamParts, bytesReadable, lastActivity := parts, readable, 0;
    }

    method Read(size: nat, offset: nat, now: nat) returns (data: seq<byte>)
      requires Valid()
      modifies this`lastActivity
      ensures Valid()
      ensures data == ReadSlice(disk.files[streamId], bytesReadable, size, offset)
      ensures lastActivity == now
    {
      var br := Narrow(bytesReadable);
      var bytesToRead := 0;
      if offset < br {
        bytesToRead := if br - offset > size then size else br - offset;
      }
      data := [];
      if bytesToRead != 0 {
        data := disk.files[streamId][offset..offset + bytesToRead];
      }
      lastActivity := now;
    }

    /** Appends, whatever the offset. Fails on a buffer opened for reading and on no data at all. */
    method Write(data: seq<byte>, offset: nat, now: nat) returns (ok: bool)
      requires Valid()
      modifies this`bytesReadable, this`lastActivity, disk
      ensures Valid()
      ensures ok <==> appendable && data != []
      ensures !ok ==> unchanged(this) && unchanged(disk)
      ensures ok ==> bytesReadable == old(bytesReadable) + |data| && lastActivity == now
      ensures ok ==> disk.files == old(disk.files)[streamId := old(disk.files)[streamId] + data]
    {
      if !appendable || data == [] {
        return false;
      }
      disk.files := disk.files[streamId := disk.files[streamId] + data];
      bytesReadable := bytesReadable + |data|;
      lastActivity := now;
      return true;
    }
  }
}

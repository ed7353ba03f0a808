/** The server's map from stream ids to open buffers: filled by uploads and by downloads that find
    the file on disk, swept every two seconds of buffers nobody has used for a minute. */
module BufferCache {
  import opened Wrappers
  import opened StreamBuffers

  /** The largest packet body is fixed by the packet library. */
  type Positive = n: nat | 0 < n witness 1

  const TwoTo64: nat := 0x1_0000_0000_0000_0000
  const IdleSeconds: nat := 60

  /** The sweep's test, in unsigned 64-bit arithmetic. */
  predicate Stale(now: nat, lastActivity: nat) {
    (now - lastActivity) % TwoTo64 > IdleSeconds
  }

  /** A buffer is swept if it was idle for more than a minute, and also if the clock was set back
      past its last use. A buffer that was never used counts as idle since time 0. */
  lemma StaleMeansIdleOrInTheFuture(now: nat, lastActivity: nat)
    requires now < TwoTo64 && lastActivity < TwoTo64 - IdleSeconds
    ensures Stale(now, lastActivity) <==> now - lastActivity > IdleSeconds || lastActivity > now
  {
    if lastActivity > now {
      assert (now - lastActivity) % TwoTo64 == TwoTo64 - (lastActivity - now);
    }
  }

  // ---------- Runs of the cache ----------

  /** A buffer object. It outlives its entry in the cache as long as an upload holds it. */
  datatype Object = Object(id: nat, appendable: bool, readable: nat, lastActivity: nat)

  /** Objects are identified by their index. */
  datatype CacheState = CacheState(files: map<nat, seq<byte>>, objects: seq<Object>, cache: map<nat, nat>)

  datatype Op =
    | Create(id: nat, received: bool)                   // createStreamReceiver; was a receiver made?
    | Write(o: nat, data: seq<byte>, now: nat)          // a part of the upload that holds object o
    | Fetch(id: nat)                                    // getStreamBuffer
    | Use(o: nat, now: nat)                             // a read through object o
    | Sweep(now: nat)                                   // the server timer

  /** A server that has just started, with whatever files an earlier one left. */
  function Started(files: map<nat, seq<byte>>): CacheState {
    CacheState(files, [], map[])
  }

  predicate Enabled(s: CacheState, op: Op) {
    match op
    case Write(o, data, _) => o < |s.objects| && s.objects[o].appendable && data != []
    case Use(o, _) => o < |s.objects|
    case _ => true
  }

  /** `addStreamBuffer`: an id that is cached keeps its buffer. */
  function AddEntry(cache: map<nat, nat>, id: nat, o: nat): map<nat, nat> {
    if id in cache then cache else cache[id := o]
  }

  function Perform(s: CacheState, op: Op): CacheState
    requires Enabled(s, op)
  {
    match op
    case Create(id, received) =>
      if id in s.files then s
      else CacheState(s.files[id := []], s.objects + [Object(id, true, 0, 0)],
                      if received then AddEntry(s.cache, id, |s.objects|) else s.cache)
    case Write(o, data, now) =>
      var b := s.objects[o];
      var content := if b.id in s.files then s.files[b.id] else [];
      s.(files := s.files[b.id := content + data],
         objects := s.objects[o := b.(readable := b.readable + |data|, lastActivity := now)])
    case Fetch(id) =>
      if id in s.cache || id !in s.files then s
      else s.(objects := s.objects + [Object(id, false, |s.files[id]|, 0)],
              cache := s.cache[id := |s.objects|])
    case Use(o, now) =>
      s.(objects := s.objects[o := s.objects[o].(lastActivity := now)])
    case Sweep(now) =>
      s.(cache := map id | id in s.cache
                        && !(s.cache[id] < |s.objects| && Stale(now, s.objects[s.cache[id]].lastActivity))
                      :: s.cache[id])
  }

  /** What `getStreamBuffer` hands out. */
  function Fetched(s: CacheState, id: nat): Option<nat> {
    var s' := Perform(s, Fetch(id));
    if id in s'.cache then Some(s'.cache[id]) else None
  }

  ghost predicate WellFormed(s: CacheState) {
    && (forall o :: 0 <= o < |s.objects| ==> s.objects[o].id in s.files)
    && (forall id :: id in s.cache ==> Backed(s, id))
  }

  ghost predicate Backed(s: CacheState, id: nat)
    requires id in s.cache
  {
    s.cache[id] < |s.objects| && s.objects[s.cache[id]].id == id && id in s.files
  }

  /** Every cached buffer knows the whole of its file. */
  ghost predicate Agrees(s: CacheState) {
    WellFormed(s) && forall id :: id in s.cache ==> UpToDate(s, id)
  }

  ghost predicate UpToDate(s: CacheState, id: nat)
    requires id in s.cache
  {
    Backed(s, id) && s.objects[s.cache[id]].readable == |s.files[id]|
  }

  /** A part is written through a buffer that was evicted while the file was opened again. */
  predicate WritesBehindCache(s: CacheState, op: Op)
    requires Enabled(s, op)
  {
    op.Write? && s.objects[op.o].id in s.cache && s.cache[s.objects[op.o].id] != op.o
  }

  lemma StepKeepsWellFormed(s: CacheState, op: Op)
    requires WellFormed(s) && Enabled(s, op)
    ensures WellFormed(Perform(s, op))
  {
    var s' := Perform(s, op);
    forall id | id in s'.cache
      ensures Backed(s', id)
    {
      assert id in s.cache ==> Backed(s, id);
    }
  }

  /** One step keeps the cache in agreement with the files if and only if it does not write behind
      the cache's back. */
  lemma AgreesUnlessWrittenBehind(s: CacheState, op: Op)
    requires Agrees(s) && Enabled(s, op)
    ensures Agrees(Perform(s, op)) <==> !WritesBehindCache(s, op)
  {
    StepKeepsWellFormed(s, op);
    var s' := Perform(s, op);
    if WritesBehindCache(s, op) {
      var id := s.objects[op.o].id;
      assert UpToDate(s, id);
      assert !UpToDate(s', id);
    } else {
      forall id | id in s'.cache
        ensures UpToDate(s', id)
      {
        assert id in s.cache ==> UpToDate(s, id);
        assert Backed(s', id);
      }
    }
  }

  ghost predicate Runs(s: CacheState, ops: seq<Op>)
    decreases ops
  {
    ops == [] || (Enabled(s, ops[0]) && Runs(Perform(s, ops[0]), ops[1..]))
  }

  ghost function Exec(s: CacheState, ops: seq<Op>): CacheState
    requires Runs(s, ops)
    decreases ops
  {
    if ops == [] then s else Exec(Perform(s, ops[0]), ops[1..])
  }

  ghost predicate NeverBehind(s: CacheState, ops: seq<Op>)
    requires Runs(s, ops)
    decreases ops
  {
    ops == [] || (!WritesBehindCache(s, ops[0]) && NeverBehind(Perform(s, ops[0]), ops[1..]))
  }

  lemma {:induction false} RunAgrees(s: CacheState, ops: seq<Op>)
    requires Agrees(s) && Runs(s, ops) && NeverBehind(s, ops)
    ensures Agrees(Exec(s, ops))
    decreases ops
  {
    hide Agrees;
    if ops != [] {
      AgreesUnlessWrittenBehind(s, ops[0]);
      RunAgrees(Perform(s, ops[0]), ops[1..]);
    }
  }

  /** What reading all of buffer `o` from the start returns. */
  function ReadAll(s: CacheState, o: nat): seq<byte>
    requires o < |s.objects| && s.objects[o].id in s.files
    requires s.objects[o].readable <= |s.files[s.objects[o].id]|
  {
    var content := s.files[s.objects[o].id];
    ReadSlice(content, s.objects[o].readable, |content|, 0)
  }

  /** After any run of uploads, downloads and sweeps in which no upload writes behind the cache,
      asking for a stream finds a buffer exactly if its file exists, and for files below 4 GiB that
      buffer reads as exactly the bytes of the file, whether it was still cached or was evicted and
      is opened again. */
  lemma FetchedBufferReadsTheFile(files: map<nat, seq<byte>>, ops: seq<Op>, id: nat)
    requires Runs(Started(files), ops) && NeverBehind(Started(files), ops)
    ensures var s := Exec(Started(files), ops);
            && (Fetched(s, id).Some? <==> id in s.files)
            && (id in s.files && |s.files[id]| < TwoTo32 ==>
                  var s', o := Perform(s, Fetch(id)), Fetched(s, id).value;
                  && s'.files == s.files && o < |s'.objects| && s'.objects[o].id == id
                  && s'.objects[o].readable == |s.files[id]| && ReadAll(s', o) == s.files[id])
  {
    RunAgrees(Started(files), ops);
    var s := Exec(Started(files), ops);
    AgreesUnlessWrittenBehind(s, Fetch(id));
    if id in s.files {
      assert UpToDate(Perform(s, Fetch(id)), id);
      WholeFileReadExactlyBelow4GiB(s.files[id]);
    }
  }

  // ---------- Writing behind the cache ----------

  /** The buffer that a fetch hands out knows the whole file. */
  ghost predicate FetchesWhole(s: CacheState, id: nat)
    requires WellFormed(s) && id in s.files
  {
    var o := Fetched(s, id).value;
    o < |Perform(s, Fetch(id)).objects| && Perform(s, Fetch(id)).objects[o].readable == |s.files[id]|
  }

  /** In any state, however it came about: the buffer handed out falls short of the file if and only
      if one is cached that does. */
  lemma FetchesWholeUnlessCachedShort(s: CacheState, id: nat)
    requires WellFormed(s) && id in s.files
    ensures FetchesWhole(s, id) <==> (id in s.cache ==> UpToDate(s, id))
  {
    if id in s.cache {
      assert Backed(s, id);
    }
  }

  /** So after a sweep the file is handed out whole if and only if the sweep evicted the buffer or the
      buffer was up to date. */
  lemma SweepRepairsWhatItEvicts(s: CacheState, id: nat, now: nat)
    requires WellFormed(s) && id in s.cache
    ensures WellFormed(Perform(s, Sweep(now)))
    ensures Backed(s, id)
    ensures FetchesWhole(Perform(s, Sweep(now)), id)
       <==> Stale(now, s.objects[s.cache[id]].lastActivity) || UpToDate(s, id)
  {
    assert Backed(s, id);
    StepKeepsWellFormed(s, Sweep(now));
    FetchesWholeUnlessCachedShort(Perform(s, Sweep(now)), id);
  }

  /** Object `o` stays in the cache for `id` throughout the run. */
  ghost predicate StaysCached(s: CacheState, ops: seq<Op>, id: nat, o: nat)
    requires Runs(s, ops)
    decreases ops
  {
    id in s.cache && s.cache[id] == o && (ops == [] || StaysCached(Perform(s, ops[0]), ops[1..], id, o))
  }

  /** How many bytes of its file an object does not know of. */
  function Missing(s: CacheState, o: nat): int
    requires o < |s.objects| && s.objects[o].id in s.files
  {
    |s.files[s.objects[o].id]| - s.objects[o].readable
  }

  /** But as long as a buffer stays cached it never catches up: what it misses of its file only grows,
      so once it is short of the file it is handed out short. */
  lemma {:induction false} ShortUntilEvicted(s: CacheState, ops: seq<Op>, id: nat, o: nat)
    requires WellFormed(s) && Runs(s, ops) && StaysCached(s, ops, id, o)
    requires id in s.cache && s.cache[id] == o && Backed(s, id) && Missing(s, o) > 0
    ensures var end := Exec(s, ops);
            && WellFormed(end) && id in end.cache && end.cache[id] == o && Backed(end, id)
            && Missing(end, o) >= Missing(s, o) && !FetchesWhole(end, id)
    decreases ops
  {
    if ops == [] {
      FetchesWholeUnlessCachedShort(s, id);
    } else {
      var s' := Perform(s, ops[0]);
      StepKeepsWellFormed(s, ops[0]);
      assert Backed(s', id);
      assert Missing(s', o) >= Missing(s, o);
      ShortUntilEvicted(s', ops[1..], id, o);
    }
  }

  /** How an upload comes to be missed: a new buffer has never been used, so the next sweep evicts it,
      and if a download opens the still empty file before the first part arrives, what it opened stays
      empty. A sweep at any later time evicts that too, unless somebody used it, and the next download
      finds the file. */
  lemma UploadCanBeMissed(id: nat, data: seq<byte>, now: nat, later: nat) returns (ops: seq<Op>)
    requires data != [] && IdleSeconds < now < TwoTo64 && IdleSeconds < later < TwoTo64
    ensures Runs(Started(map[]), ops)
    ensures var s := Exec(Started(map[]), ops);
            && WellFormed(s) && id in s.files && s.files[id] == data
            && Fetched(s, id).Some? && Fetched(s, id).value < |s.objects|
            && s.objects[Fetched(s, id).value].readable == 0
            && var swept := Perform(s, Sweep(later));
            WellFormed(swept) && swept.files == s.files && FetchesWhole(swept, id)
  {
    var s0 := Started(map[]);
    var s1 := Perform(s0, Create(id, true));
    var s2 := Perform(s1, Sweep(now));
    var s3 := Perform(s2, Fetch(id));
    var s4 := Perform(s3, Write(0, data, now));
    assert s1.objects == [Object(id, true, 0, 0)];
    assert now % TwoTo64 == now && later % TwoTo64 == later;
    assert id !in s2.cache;
    assert s3.objects == [Object(id, true, 0, 0), Object(id, false, 0, 0)];
    assert [] + data == data;
    assert WellFormed(s4);
    SweepRepairsWhatItEvicts(s4, id, later);
    assert Exec(s4, []) == s4;
    ops := After(s3, Write(0, data, now), []);
    ops := After(s2, Fetch(id), ops);
    ops := After(s1, Sweep(now), ops);
    ops := After(s0, Create(id, true), ops);
  }

  lemma After(s: CacheState, op: Op, rest: seq<Op>) returns (ops: seq<Op>)
    requires Enabled(s, op) && Runs(Perform(s, op), rest)
    ensures Runs(s, ops) && Exec(s, ops) == Exec(Perform(s, op), rest)
  {
    ops := [op] + rest;
    assert ops[1..] == rest;
  }

  // ---------- The objects ----------

  /** What `CacheState` records of a buffer object. */
  ghost function Seen(b: StreamBuffer): Object
    reads b
  {
    Object(b.streamId, b.appendable, b.bytesReadable, b.lastActivity)
  }

  ghost function AllSeen(bs: seq<StreamBuffer>): seq<Object>
    reads bs
  {
    seq(|bs|, i requires 0 <= i < |bs| reads bs => Seen(bs[i]))
  }

  lemma SeenOneMore(bs: seq<StreamBuffer>, b: StreamBuffer)
    ensures AllSeen(bs + [b]) == AllSeen(bs) + [Seen(b)]
  {
  }

  /** Erasing the stale entries is the sweep. */
  lemma ErasingIsSweeping(s: CacheState, gone: set<nat>, now: nat)
    requires forall id :: id in s.cache ==> s.cache[id] < |s.objects|
    requires forall id :: id in s.cache ==> (id in gone <==> Stale(now, s.objects[s.cache[id]].lastActivity))
    ensures Perform(s, Sweep(now)) == CacheState(s.files, s.objects, s.cache - gone)
  {
  }

  function Ids(bs: seq<StreamBuffer>): set<nat> {
    set b | b in bs :: b.streamId
  }

  class Cache {
    const disk: Disk
    const maxPacketBody: Positive
    var buffers: map<nat, StreamBuffer>
    ghost var objects: seq<StreamBuffer>    // every buffer ever made, cached or not
    ghost var places: map<nat, nat>         // where in `objects` each cached buffer is

    /** Every buffer is filed under its own stream id, and is one of the objects. */
    ghost predicate Valid()
      reads this, objects
    {
      && (forall i, j :: 0 <= i < j < |objects| ==> objects[i] != objects[j])
      && (forall i :: 0 <= i < |objects| ==> objects[i].disk == disk)
      && places.Keys == buffers.Keys
      && (forall id :: id in buffers ==>
            places[id] < |objects| && objects[places[id]] == buffers[id] && buffers[id].streamId == id)
    }

    /** The state that this cache, its buffers and the disk are in. */
    ghost function Model(): CacheState
      reads this, disk, objects
    {
      CacheState(disk.files, AllSeen(objects), places)
    }

    constructor (disk: Disk, maxPacketBody: Positive)
      ensures Valid() && Model() == Started(disk.files)
      ensures this.disk == disk && this.maxPacketBody == maxPacketBody && buffers == map[]
    {
      this.disk, this.maxPacketBody := disk, maxPacketBody;
      buffers, objects, places := map[], [], map[];
    }

    /** Files a buffer, which is object `o`, under its stream id. */
    method AddStreamBuffer(buffer: StreamBuffer, ghost o: nat) returns (added: bool)
      requires Valid() && o < |objects| && objects[o] == buffer
      modifies this`buffers, this`places
      ensures Valid()
      ensures added <==> buffer.streamId !in old(buffers)
      ensures buffers == if added then old(buffers)[buffer.streamId := buffer] else old(buffers)
      ensures places == AddEntry(old(places), buffer.streamId, o)
    {
      if buffer.streamId in buffers {
        return false;
      }
      buffers := buffers[buffer.streamId := buffer];
      places := places[buffer.streamId := o];
      return true;
    }

    method GetStreamBuffer(id: nat) returns (buffer: StreamBuffer?)
      requires Valid()
      modifies this`buffers, this`objects, this`places
      ensures Valid() && Model() == Perform(old(Model()), Fetch(id)) && disk.files == old(disk.files)
      ensures buffer == null <==> id !in old(buffers) && id !in disk.files
      ensures buffers == if buffer == null then old(buffers) else old(buffers)[id := buffer]
      ensures id in old(buffers) ==> buffer == old(buffers)[id]
      ensures buffer != null && id !in old(buffers) ==>
                && fresh(buffer) && buffer.disk == disk && buffer.streamId == id && !buffer.appendable
                && buffer.bytesReadable == |disk.files[id]| && buffer.lastActivity == 0
                && buffer.streamParts == PartCount(|disk.files[id]|, maxPacketBody)
      ensures old(objects) <= objects
    {
      if id in buffers {
        return buffers[id];
      }
      if id !in disk.files {
        return null;
      }
      buffer := new StreamBuffer.Load(disk, id, maxPacketBody);
      SeenOneMore(objects, buffer);
      hide AllSeen;
      objects, places := objects + [buffer], places[id := |objects|];
      buffers := buffers[id := buffer];
    }

    /** A new file and the buffer on it. */
    method CreateBuffer(id: nat, parts: nat) returns (buffer: StreamBuffer)
      requires Valid() && id !in disk.files
      modifies this`objects, disk
      ensures Valid() && fresh(buffer) && buffer.disk == disk && buffer.streamId == id && buffer.streamParts == parts
      ensures buffer.appendable && buffer.bytesReadable == 0 && buffer.lastActivity == 0
      ensures objects == old(objects) + [buffer] && disk.files == old(disk.files)[id := []]
      ensures AllSeen(objects) == old(AllSeen(objects)) + [Object(id, true, 0, 0)]
    {
      disk.files := disk.files[id := []];
      buffer := new StreamBuffer.Create(disk, id, parts);
      SeenOneMore(objects, buffer);
      hide AllSeen;
      objects := objects + [buffer];
    }

    /** An upload starts: the file must not exist. The buffer serves the upload even if the cache
        already had one under the same id; without a receiver it is dropped and not cached. */
    method CreateStreamReceiver(id: nat, parts: nat, received: bool) returns (buffer: StreamBuffer?)
      requires Valid()
      modifies this`buffers, this`objects, this`places, disk
      ensures Valid() && Model() == Perform(old(Model()), Create(id, received))
      ensures buffer == null <==> id in old(disk.files) || !received
      ensures disk.files == if id in old(disk.files) then old(disk.files) else old(disk.files)[id := []]
      ensures buffers == if buffer == null || id in old(buffers) then old(buffers) else old(buffers)[id := buffer]
      ensures buffer != null ==>
                && fresh(buffer) && objects == old(objects) + [buffer] && buffer.disk == disk && buffer.streamId == id
                && buffer.appendable && buffer.bytesReadable == 0 && buffer.lastActivity == 0
                && buffer.streamParts == parts
    {
      if id in disk.files {
        return null;
      }
      hide AllSeen;
      buffer := CreateBuffer(id, parts);
      if received {
        var _ := AddStreamBuffer(buffer, |objects| - 1);
      } else {
        buffer := null;
      }
    }

    /** When the state agrees with the files, so does every buffer object in the cache. */
    lemma CachedBufferReadsTheFile(id: nat)
      requires Valid() && Agrees(Model()) && id in buffers
      requires id in disk.files && |disk.files[id]| < TwoTo32
      ensures buffers[id].bytesReadable == |disk.files[id]|
      ensures ReadSlice(disk.files[id], buffers[id].bytesReadable, |disk.files[id]|, 0) == disk.files[id]
    {
      assert UpToDate(Model(), id);
      WholeFileReadExactlyBelow4GiB(disk.files[id]);
    }

    /** The buffer half of the server timer: the stale buffers are collected first and then erased. */
    method SweepBuffers(now: nat)
      requires Valid()
      modifies this`buffers, this`places
      ensures Valid() && Model() == Perform(old(Model()), Sweep(now))
      ensures buffers == map id | id in old(buffers) && !Stale(now, old(buffers)[id].lastActivity) :: old(buffers)[id]
    {
      var remove := CollectStale(now);
      forall id | id in buffers
        ensures id in Ids(remove) <==> Stale(now, buffers[id].lastActivity)
      {
        if Stale(now, buffers[id].lastActivity) {
          assert buffers[id] in remove;
        }
      }
      ErasingIsSweeping(Model(), Ids(remove), now);
      hide Perform, Stale;
      EraseAll(remove);
    }

    method CollectStale(now: nat) returns (remove: seq<StreamBuffer>)
      requires Valid()
      ensures forall b :: b in remove ==>
                b.streamId in buffers && buffers[b.streamId] == b && Stale(now, b.lastActivity)
      ensures forall id :: id in buffers && Stale(now, buffers[id].lastActivity) ==> buffers[id] in remove
    {
      remove := [];
      var todo := buffers.Keys;
      while todo != {}
        invariant todo <= buffers.Keys
        invariant forall b :: b in remove ==>
                    b.streamId in buffers && buffers[b.streamId] == b && Stale(now, b.lastActivity)
        invariant forall id :: id in buffers && id !in todo && Stale(now, buffers[id].lastActivity)
                    ==> buffers[id] in remove
        decreases |todo|
      {
        var id :| id in todo;
        if Stale(now, buffers[id].lastActivity) {
          remove := remove + [buffers[id]];
        }
        todo := todo - {id};
      }
    }

    method EraseAll(remove: seq<StreamBuffer>)
      requires Valid()
      modifies this`buffers, this`places
      ensures Valid() && objects == old(objects)
      ensures buffers == old(buffers) - Ids(remove) && places == old(places) - Ids(remove)
    {
      for i := 0 to |remove|
        invariant buffers == old(buffers) - Ids(remove[..i]) && places == old(places) - Ids(remove[..i])
      {
        assert remove[..i + 1] == remove[..i] + [remove[i]];
        assert Ids(remove[..i + 1]) == Ids(remove[..i]) + {remove[i].streamId};
        buffers, places := buffers - {remove[i].streamId}, places - {remove[i].streamId};
      }
      assert remove[..|remove|] == remove;
    }
  }

  /** What the engine's receiver does with a part of an upload: through any buffer of the cache,
      evicted or not, that is a `Write`. */
  method WritePart(cache: Cache, ghost o: nat, buffer: StreamBuffer, data: seq<byte>, offset: nat, now: nat)
    returns (ok: bool)
    requires cache.Valid() && WellFormed(cache.Model()) && buffer.Valid()
    requires o < |cache.objects| && cache.objects[o] == buffer
    modifies buffer`bytesReadable, buffer`lastActivity, cache.disk
    ensures cache.Valid() && ok == Enabled(old(cache.Model()), Write(o, data, now))
    ensures cache.Model() == if ok then Perform(old(cache.Model()), Write(o, data, now)) else old(cache.Model())
  {
    ok := buffer.Write(data, offset, now);
  }

  /** What the engine's sender does: a read is a `Use`, and returns the slice of the file that is
      there. */
  method ReadPart(cache: Cache, ghost o: nat, buffer: StreamBuffer, size: nat, offset: nat, now: nat)
    returns (data: seq<byte>)
    requires cache.Valid() && buffer.Valid() && o < |cache.objects| && cache.objects[o] == buffer
    modifies buffer`lastActivity
    ensures cache.Valid() && cache.Model() == Perform(old(cache.Model()), Use(o, now))
    ensures data == ReadSlice(cache.disk.files[buffer.streamId], buffer.bytesReadable, size, offset)
  {
    data := buffer.Read(size, offset, now);
  }

  /** A download of stream `id` that may start before the upload does. */
  class StreamBufferSender {
    const cache: Cache
    const id: nat
    var buffer: StreamBuffer?
    var parts: nat

    constructor (cache: Cache, id: nat)
      ensures this.cache == cache && this.id == id && buffer == null
    {
      this.cache, this.id, buffer, parts := cache, id, null, 0;
    }

    /** Binds to the buffer the first time there is one, and keeps it from then on, even if the cache
        evicts it. */
    method GetBuffer()
      requires cache.Valid()
      modifies this`buffer, this`parts, cache`buffers, cache`objects, cache`places
      ensures cache.Valid()
      ensures old(buffer) != null ==> unchanged(this) && unchanged(cache)
      ensures old(buffer) == null ==>
                && cache.Model() == Perform(old(cache.Model()), Fetch(id))
                && (buffer == null <==> id !in old(cache.buffers) && id !in cache.disk.files)
                && (buffer != null ==>
                      id in cache.buffers && buffer == cache.buffers[id] && parts == buffer.streamParts)
                && (buffer == null ==> parts == old(parts))
    {
      if buffer == null {
        var found := cache.GetStreamBuffer(id);
        if found != null {
          parts := found.streamParts;
          buffer := found;
        }
      }
    }

    /** Yes if the engine is to fill the packet from the buffer, no if there is nothing to send yet. */
    method PreparePacket() returns (fill: bool)
      requires cache.Valid()
      modifies this`buffer, this`parts, cache`buffers, cache`objects, cache`places
      ensures cache.Valid()
      ensures fill <==> old(buffer) != null || id in old(cache.buffers) || id in cache.disk.files
      ensures fill <==> buffer != null
      ensures old(buffer) != null ==> buffer == old(buffer)
    {
      GetBuffer();
      fill := buffer != null;
    }
  }
}

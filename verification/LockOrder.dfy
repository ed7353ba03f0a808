/** The server's mutexes and the order in which its threads take them.

    A scoped lock makes locking block-structured, so what a handler does to the mutexes is a tree
    of critical sections. `Program` gives that tree for every outermost critical section in the
    code; a handler is a sequence of them, with other work in between. */
module LockOrder {

  datatype Mutex =
    | Senders                 // Server::m_senders
    | Contacts(session: nat)  // ClientSession::m_contacts
    | Sessions                // Server::m_sessions
    | Status(session: nat)    // ClientSession::m_status
    | Sending(session: nat)   // ClientSession::m_sending
    | PacketQueue(session: nat)
    | Buffers                 // Server::m_buffers
    | Readable(buffer: nat)   // StreamBuffer::m_bytesReadable
    | FileHandle(buffer: nat) // FileBuffer::m_fh
    | Activity(buffer: nat)   // StreamBuffer::m_lastActivity
    | DbWait                  // DB::m_mutex
    | DbQueue                 // DB::m_connectionsMutex

  function Rank(m: Mutex): nat {
    match m
    case Senders => 0
    case Contacts(_) => 1
    case Sessions => 2
    case Status(_) => 3
    case Sending(_) => 4
    case PacketQueue(_) => 5
    case Buffers => 6
    case Readable(_) => 7
    case FileHandle(_) => 8
    case Activity(_) => 9
    case DbWait => 10
    case DbQueue => 11
  }

  const TopRank: nat := 11

  /** A scoped lock and what runs under it. */
  datatype Block = Crit(m: Mutex, body: seq<Block>)

  // ---------- What the code does ----------

  function Only(m: Mutex): seq<Block> {
    [Crit(m, [])]
  }

  /** `acquire` (waiting releases the mutex and takes it back), a query, and the unlock. */
  function DbCall(waited: bool): seq<Block> {
    Only(DbQueue)
    + (if waited then Only(DbWait) + [Crit(DbWait, Only(DbQueue))] else [])
    + Only(DbQueue) + Only(DbWait)
  }

  function DbCalls(waits: seq<bool>): seq<Block> {
    if waits == [] then [] else DbCall(waits[0]) + DbCalls(waits[1..])
  }

  function Locks(ms: seq<Mutex>): seq<Block> {
    if ms == [] then [] else Only(ms[0]) + Locks(ms[1..])
  }

  function ReadBuffer(b: nat): seq<Block> {
    Locks([Readable(b), FileHandle(b), Activity(b)])
  }

  function WriteBuffer(b: nat): seq<Block> {
    Locks([Readable(b), FileHandle(b), Readable(b), Activity(b)])
  }

  /** `getStreamBuffer`; a file that opens but does not load is released at once. */
  function Lookup(b: nat, released: bool): seq<Block> {
    [Crit(Buffers, if released then Only(FileHandle(b)) else [])]
  }

  /** A stream sender filling a packet: it may first have to find its buffer. */
  datatype Prepare = Prepare(b: nat, lookup: bool, released: bool, reading: bool)

  function PrepareOne(p: Prepare): seq<Block> {
    (if p.lookup then Lookup(p.b, p.released) else [])
    + (if p.reading then ReadBuffer(p.b) else [])
  }

  function Prepares(ps: seq<Prepare>): seq<Block> {
    if ps == [] then [] else PrepareOne(ps[0]) + Prepares(ps[1..])
  }

  function HandlesOf(bs: seq<nat>): seq<Mutex> {
    seq(|bs|, (i: nat) requires i < |bs| => FileHandle(bs[i]))
  }

  /** One call of `sendPacket`: turned away by the flag, or through to the queue, where stream senders
      that have finished may be dropped. */
  datatype Send = Send(session: nat, blocked: bool, prepares: seq<Prepare>, dropped: seq<nat>, took: bool)

  function UnderQueue(s: Send): seq<Block> {
    Prepares(s.prepares) + Locks(HandlesOf(s.dropped))
  }

  function SendPacket(s: Send): seq<Block> {
    Only(Sending(s.session))
    + (if s.blocked then [] else
         [Crit(PacketQueue(s.session), UnderQueue(s))]
         + (if s.took then Only(Sending(s.session)) else []))
  }

  function SendPackets(ss: seq<Send>): seq<Block> {
    if ss == [] then [] else SendPacket(ss[0]) + SendPackets(ss[1..])
  }

  /** A contact's sessions, each sent to; the list of them is dropped again, and with it perhaps the
      last reference to one. */
  datatype Notice = Notice(sends: seq<Send>, dropped: seq<nat>)

  function NotifyOne(n: Notice): seq<Block> {
    Only(Sessions) + SendPackets(n.sends) + Locks(HandlesOf(n.dropped))
  }

  /** Under the contacts lock: per contact, its sessions are looked up and each is sent to. */
  function Notify(contacts: seq<Notice>): seq<Block> {
    if contacts == [] then [] else NotifyOne(contacts[0]) + Notify(contacts[1..])
  }

  /** Under the contacts lock: per contact, its sessions are looked up, and the list is dropped again. */
  function LookUps(looked: seq<seq<nat>>): seq<Block> {
    if looked == [] then [] else Only(Sessions) + Locks(HandlesOf(looked[0])) + LookUps(looked[1..])
  }

  /** `close`: the session's status, and its place in the registry if `remove`. */
  function Close(session: nat, remove: bool): seq<Block> {
    Only(Status(session)) + (if remove then Only(Sessions) else [])
  }

  function CloseEach(sessions: seq<nat>, remove: bool): seq<Block> {
    if sessions == [] then [] else Close(sessions[0], remove) + CloseEach(sessions[1..], remove)
  }

  function ActivityOf(bs: seq<nat>): seq<Mutex> {
    seq(|bs|, (i: nat) requires i < |bs| => Activity(bs[i]))
  }

  /** The outermost critical sections of the server. Dropping the last reference to a buffer closes its
      file, which takes the file's lock; that can happen wherever objects are released. */
  datatype Piece =
    | Alone(m: Mutex)                               // one field read or written under its own lock
    | Database(waited: bool)
    | Pump(send: Send)
    | BroadcastStatus(session: nat, contacts: seq<Notice>)
    | ContactStatuses(session: nat, looked: seq<seq<nat>>)   // login, contact status request
    | GetStreamBuffer(b: nat, released: bool)
    | BufferRead(b: nat)
    | BufferWrite(b: nat)
    | RemoveSessions(listed: seq<nat>, dropped: seq<nat>)
    | Info(waits: seq<bool>)
    | TimerSenders(sends: seq<Send>, dropped: seq<nat>)
    | TimerBuffers(cached: seq<nat>, evicted: seq<nat>)

  function Program(p: Piece): seq<Block> {
    match p
    case Alone(m) => Only(m)
    case Database(waited) => DbCall(waited)
    case Pump(send) => SendPacket(send)
    case BroadcastStatus(s, contacts) => [Crit(Contacts(s), Notify(contacts))]
    case ContactStatuses(s, looked) => [Crit(Contacts(s), LookUps(looked))]
    case GetStreamBuffer(b, released) => Lookup(b, released)
    case BufferRead(b) => ReadBuffer(b)
    case BufferWrite(b) => WriteBuffer(b)
    case RemoveSessions(listed, dropped) =>
      [Crit(Sessions, CloseEach(listed, false) + Locks(HandlesOf(dropped)))]
    case Info(waits) => [Crit(Sessions, DbCalls(waits) + Only(Buffers))]
    case TimerSenders(sends, dropped) =>
      [Crit(Senders, SendPackets(sends) + Locks(HandlesOf(dropped)))]
    case TimerBuffers(cached, evicted) =>
      [Crit(Buffers, Locks(ActivityOf(cached)) + Locks(HandlesOf(evicted)))]
  }

  function Programs(ps: seq<Piece>): seq<Block> {
    if ps == [] then [] else Program(ps[0]) + Programs(ps[1..])
  }

  // ---------- The code respects the order ----------

  /** Every lock taken ranks above `floor`, and every lock taken under it ranks above it in turn. */
  predicate Ranked(p: seq<Block>, floor: int) {
    p == [] ||
    (&& floor < Rank(p[0].m)
     && Ranked(p[0].body, Rank(p[0].m))
     && Ranked(p[1..], floor))
  }

  lemma {:induction false} RankedConcat(p: seq<Block>, q: seq<Block>, floor: int)
    requires Ranked(p, floor) && Ranked(q, floor)
    ensures Ranked(p + q, floor)
  {
    if p == [] {
      assert p + q == q;
    } else {
      RankedConcat(p[1..], q, floor);
      assert (p + q)[0] == p[0] && (p + q)[1..] == p[1..] + q;
    }
  }

  lemma NestedRanked(m: Mutex, body: seq<Block>, floor: int)
    requires floor < Rank(m) && Ranked(body, Rank(m))
    ensures Ranked([Crit(m, body)], floor)
  {
    var p := [Crit(m, body)];
    assert p[1..] == [] && Ranked(p[1..], floor);
  }

  lemma OnlyRanked(m: Mutex, floor: int)
    requires floor < Rank(m)
    ensures Ranked(Only(m), floor)
  {
    assert Ranked([], Rank(m));
    NestedRanked(m, [], floor);
  }

  lemma {:induction false} LocksRanked(ms: seq<Mutex>, floor: int)
    requires forall m :: m in ms ==> floor < Rank(m)
    ensures Ranked(Locks(ms), floor)
  {
    if ms != [] {
      OnlyRanked(ms[0], floor);
      LocksRanked(ms[1..], floor);
      RankedConcat(Only(ms[0]), Locks(ms[1..]), floor);
    }
  }

  lemma DbCallRanked(waited: bool, floor: int)
    requires floor < Rank(DbWait)
    ensures Ranked(DbCall(waited), floor)
  {
    OnlyRanked(DbQueue, floor);
    OnlyRanked(DbWait, floor);
    OnlyRanked(DbQueue, Rank(DbWait));
    NestedRanked(DbWait, Only(DbQueue), floor);
    RankedConcat(Only(DbWait), [Crit(DbWait, Only(DbQueue))], floor);
    var middle := if waited then Only(DbWait) + [Crit(DbWait, Only(DbQueue))] else [];
    RankedConcat(Only(DbQueue), middle, floor);
    RankedConcat(Only(DbQueue) + middle, Only(DbQueue), floor);
    RankedConcat(Only(DbQueue) + middle + Only(DbQueue), Only(DbWait), floor);
  }

  lemma {:induction false} DbCallsRanked(waits: seq<bool>, floor: int)
    requires floor < Rank(DbWait)
    ensures Ranked(DbCalls(waits), floor)
  {
    if waits != [] {
      DbCallRanked(waits[0], floor);
      DbCallsRanked(waits[1..], floor);
      RankedConcat(DbCall(waits[0]), DbCalls(waits[1..]), floor);
    }
  }

  lemma LookupRanked(b: nat, released: bool, floor: int)
    requires floor < Rank(Buffers)
    ensures Ranked(Lookup(b, released), floor)
  {
    OnlyRanked(FileHandle(b), Rank(Buffers));
    NestedRanked(Buffers, if released then Only(FileHandle(b)) else [], floor);
  }

  lemma {:induction false} PreparesRanked(ps: seq<Prepare>, floor: int)
    requires floor < Rank(Buffers)
    ensures Ranked(Prepares(ps), floor)
  {
    if ps != [] {
      var p := ps[0];
      var find := if p.lookup then Lookup(p.b, p.released) else [];
      var read := if p.reading then ReadBuffer(p.b) else [];
      LookupRanked(p.b, p.released, floor);
      LocksRanked([Readable(p.b), FileHandle(p.b), Activity(p.b)], floor);
      PreparesRanked(ps[1..], floor);
      RankedConcat(find, read, floor);
      RankedConcat(find + read, Prepares(ps[1..]), floor);
    }
  }

  lemma SendPacketRanked(s: Send, floor: int)
    requires floor < Rank(Sending(s.session))
    ensures Ranked(SendPacket(s), floor)
  {
    var flag := Only(Sending(s.session));
    OnlyRanked(Sending(s.session), floor);
    PreparesRanked(s.prepares, Rank(PacketQueue(s.session)));
    LocksRanked(HandlesOf(s.dropped), Rank(PacketQueue(s.session)));
    RankedConcat(Prepares(s.prepares), Locks(HandlesOf(s.dropped)), Rank(PacketQueue(s.session)));
    var queue := [Crit(PacketQueue(s.session), UnderQueue(s))];
    NestedRanked(PacketQueue(s.session), UnderQueue(s), floor);
    var after := if s.took then flag else [];
    RankedConcat(queue, after, floor);
    RankedConcat(flag, if s.blocked then [] else queue + after, floor);
  }

  lemma {:induction false} SendPacketsRanked(ss: seq<Send>, floor: int)
    requires floor < 4
    ensures Ranked(SendPackets(ss), floor)
  {
    if ss != [] {
      SendPacketRanked(ss[0], floor);
      SendPacketsRanked(ss[1..], floor);
      RankedConcat(SendPacket(ss[0]), SendPackets(ss[1..]), floor);
    }
  }

  lemma NotifyOneRanked(n: Notice, floor: int)
    requires floor < Rank(Sessions)
    ensures Ranked(NotifyOne(n), floor)
  {
    OnlyRanked(Sessions, floor);
    SendPacketsRanked(n.sends, floor);
    LocksRanked(HandlesOf(n.dropped), floor);
    RankedConcat(Only(Sessions), SendPackets(n.sends), floor);
    RankedConcat(Only(Sessions) + SendPackets(n.sends), Locks(HandlesOf(n.dropped)), floor);
  }

  lemma {:induction false} NotifyRanked(contacts: seq<Notice>, floor: int)
    requires floor < Rank(Sessions)
    ensures Ranked(Notify(contacts), floor)
  {
    if contacts != [] {
      NotifyOneRanked(contacts[0], floor);
      NotifyRanked(contacts[1..], floor);
      RankedConcat(NotifyOne(contacts[0]), Notify(contacts[1..]), floor);
    }
  }

  lemma {:induction false} LookUpsRanked(looked: seq<seq<nat>>, floor: int)
    requires floor < Rank(Sessions)
    ensures Ranked(LookUps(looked), floor)
  {
    if looked != [] {
      var one, dropped := Only(Sessions), Locks(HandlesOf(looked[0]));
      OnlyRanked(Sessions, floor);
      LocksRanked(HandlesOf(looked[0]), floor);
      LookUpsRanked(looked[1..], floor);
      RankedConcat(one, dropped, floor);
      RankedConcat(one + dropped, LookUps(looked[1..]), floor);
    }
  }

  lemma {:induction false} CloseEachRanked(sessions: seq<nat>)
    ensures Ranked(CloseEach(sessions, false), Rank(Sessions))
  {
    if sessions != [] {
      OnlyRanked(Status(sessions[0]), Rank(Sessions));
      CloseEachRanked(sessions[1..]);
      assert Close(sessions[0], false) == Only(Status(sessions[0]));
      RankedConcat(Close(sessions[0], false), CloseEach(sessions[1..], false), Rank(Sessions));
    }
  }

  lemma NestedPairRanked(m: Mutex, a: seq<Block>, b: seq<Block>)
    requires Ranked(a, Rank(m)) && Ranked(b, Rank(m))
    ensures Ranked([Crit(m, a + b)], -1)
  {
    RankedConcat(a, b, Rank(m));
    NestedRanked(m, a + b, -1);
  }

  lemma PieceRanked(p: Piece)
    ensures Ranked(Program(p), -1)
  {
    hide Ranked, DbCall, DbCalls, SendPacket, SendPackets, Locks, CloseEach, Notify, LookUps, Lookup;
    match p
    case Alone(m) => OnlyRanked(m, -1);
    case Database(waited) => DbCallRanked(waited, -1);
    case Pump(send) => SendPacketRanked(send, -1);
    case BroadcastStatus(s, contacts) =>
      NotifyRanked(contacts, Rank(Contacts(s)));
      NestedRanked(Contacts(s), Notify(contacts), -1);
    case ContactStatuses(s, looked) =>
      LookUpsRanked(looked, Rank(Contacts(s)));
      NestedRanked(Contacts(s), LookUps(looked), -1);
    case GetStreamBuffer(b, released) => LookupRanked(b, released, -1);
    case BufferRead(b) => LocksRanked([Readable(b), FileHandle(b), Activity(b)], -1);
    case BufferWrite(b) => LocksRanked([Readable(b), FileHandle(b), Readable(b), Activity(b)], -1);
    case RemoveSessions(listed, dropped) =>
      CloseEachRanked(listed);
      LocksRanked(HandlesOf(dropped), Rank(Sessions));
      NestedPairRanked(Sessions, CloseEach(listed, false), Locks(HandlesOf(dropped)));
    case Info(waits) =>
      DbCallsRanked(waits, Rank(Sessions));
      OnlyRanked(Buffers, Rank(Sessions));
      NestedPairRanked(Sessions, DbCalls(waits), Only(Buffers));
    case TimerSenders(sends, dropped) =>
      SendPacketsRanked(sends, Rank(Senders));
      LocksRanked(HandlesOf(dropped), Rank(Senders));
      NestedPairRanked(Senders, SendPackets(sends), Locks(HandlesOf(dropped)));
    case TimerBuffers(cached, evicted) =>
      LocksRanked(ActivityOf(cached), Rank(Buffers));
      LocksRanked(HandlesOf(evicted), Rank(Buffers));
      NestedPairRanked(Buffers, Locks(ActivityOf(cached)), Locks(HandlesOf(evicted)));
  }

  lemma {:induction false} HandlerRanked(ps: seq<Piece>)
    ensures Ranked(Programs(ps), -1)
  {
    if ps != [] {
      PieceRanked(ps[0]);
      HandlerRanked(ps[1..]);
      RankedConcat(Program(ps[0]), Programs(ps[1..]), -1);
    }
  }

  // ---------- Which mutexes are taken under which ----------

  /** Mutex `m` is taken somewhere in the code. */
  predicate Takes(p: seq<Block>, m: Mutex) {
    p != [] && (p[0].m == m || Takes(p[0].body, m) || Takes(p[1..], m))
  }

  /** Mutex `m` is taken while `h` is held. */
  predicate Nests(p: seq<Block>, h: Mutex, m: Mutex) {
    p != [] && ((p[0].m == h && Takes(p[0].body, m)) || Nests(p[0].body, h, m) || Nests(p[1..], h, m))
  }

  predicate OfBuffer(m: Mutex, b: nat) {
    m == Buffers || m == Readable(b) || m == FileHandle(b) || m == Activity(b)
  }

  /** The nestings of the code: filling packets under the queue mutex, sending and notifying under those
      of the senders and the contacts, closing, counting and asking the database under that of the
      sessions, the sweep under that of the buffers, the retry under that of the pool. */
  predicate Nesting(h: Mutex, m: Mutex, session: nat, b: nat) {
    match h
    case Senders => m == Sending(session) || m == PacketQueue(session) || OfBuffer(m, b)
    case Contacts(_) => m == Sessions || m == Sending(session) || m == PacketQueue(session) || OfBuffer(m, b)
    case Sessions => m == Status(session) || m == FileHandle(b) || m == DbQueue || m == DbWait || m == Buffers
    case PacketQueue(s) => s == session && OfBuffer(m, b)
    case Buffers => m == Activity(b) || m == FileHandle(b)
    case DbWait => m == DbQueue
    case _ => false
  }

  lemma {:induction false} TakesConcat(p: seq<Block>, q: seq<Block>, m: Mutex)
    ensures Takes(p + q, m) <==> Takes(p, m) || Takes(q, m)
  {
    if p == [] {
      assert p + q == q;
    } else {
      TakesConcat(p[1..], q, m);
      assert (p + q)[0] == p[0] && (p + q)[1..] == p[1..] + q;
    }
  }

  lemma {:induction false} NestsConcat(p: seq<Block>, q: seq<Block>, h: Mutex, m: Mutex)
    ensures Nests(p + q, h, m) <==> Nests(p, h, m) || Nests(q, h, m)
  {
    if p == [] {
      assert p + q == q;
    } else {
      NestsConcat(p[1..], q, h, m);
      assert (p + q)[0] == p[0] && (p + q)[1..] == p[1..] + q;
    }
  }

  lemma OneBlock(h: Mutex, body: seq<Block>, m: Mutex)
    ensures Takes([Crit(h, body)], m) <==> m == h || Takes(body, m)
    ensures Takes(body, m) ==> Nests([Crit(h, body)], h, m)
  {
    assert [Crit(h, body)][1..] == [];
  }

  lemma {:induction false} LocksTake(ms: seq<Mutex>, m: Mutex)
    ensures Takes(Locks(ms), m) <==> m in ms
  {
    if ms != [] {
      LocksTake(ms[1..], m);
      OneBlock(ms[0], [], m);
      TakesConcat(Only(ms[0]), Locks(ms[1..]), m);
      assert ms == [ms[0]] + ms[1..];
    }
  }

  function FullPrepare(b: nat): Prepare {
    Prepare(b, true, true, true)
  }

  lemma PrepareTakes(b: nat, m: Mutex)
    ensures Takes(Prepares([FullPrepare(b)]), m) <==> OfBuffer(m, b)
  {
    var p := FullPrepare(b);
    OneBlock(FileHandle(b), [], m);
    OneBlock(Buffers, Only(FileHandle(b)), m);
    LocksTake([Readable(b), FileHandle(b), Activity(b)], m);
    TakesConcat(Lookup(b, true), ReadBuffer(b), m);
    assert [p][1..] == [];
    assert PrepareOne(p) + [] == PrepareOne(p);
  }

  function FullSend(session: nat, b: nat): Send {
    Send(session, false, [FullPrepare(b)], [], true)
  }

  lemma SendTakes(session: nat, b: nat, m: Mutex)
    ensures Takes(SendPackets([FullSend(session, b)]), m)
       <==> m == Sending(session) || m == PacketQueue(session) || OfBuffer(m, b)
    ensures OfBuffer(m, b) ==> Nests(SendPacket(FullSend(session, b)), PacketQueue(session), m)
  {
    var s := FullSend(session, b);
    var flag, under := Only(Sending(session)), UnderQueue(s);
    var queue := [Crit(PacketQueue(session), under)];
    assert HandlesOf([]) == [];
    assert under == Prepares(s.prepares) + [] == Prepares(s.prepares);
    PrepareTakes(b, m);
    OneBlock(PacketQueue(session), under, m);
    OneBlock(Sending(session), [], m);
    TakesConcat(queue, flag, m);
    TakesConcat(flag, queue + flag, m);
    NestsConcat(queue, flag, PacketQueue(session), m);
    NestsConcat(flag, queue + flag, PacketQueue(session), m);
    assert [s][1..] == [];
    assert SendPackets([s]) == SendPacket(s) + [] == SendPacket(s);
  }

  lemma NoticeTakes(session: nat, b: nat, m: Mutex)
    ensures Takes(Notify([Notice([FullSend(session, b)], [])]), m)
       <==> m == Sessions || m == Sending(session) || m == PacketQueue(session) || OfBuffer(m, b)
  {
    var n := Notice([FullSend(session, b)], []);
    SendTakes(session, b, m);
    OneBlock(Sessions, [], m);
    TakesConcat(Only(Sessions), SendPackets(n.sends), m);
    assert HandlesOf([]) == [];
    assert NotifyOne(n) == Only(Sessions) + SendPackets(n.sends) + [] == Only(Sessions) + SendPackets(n.sends);
    assert [n][1..] == [];
    assert Notify([n]) == NotifyOne(n) + [] == NotifyOne(n);
  }

  lemma DatabaseTakes(m: Mutex)
    ensures Takes(DbCall(true), m) <==> m == DbQueue || m == DbWait
    ensures Nests(DbCall(true), DbWait, DbQueue)
  {
    var retry := [Crit(DbWait, Only(DbQueue))];
    var middle := Only(DbWait) + retry;
    OneBlock(DbQueue, [], m);
    OneBlock(DbWait, [], m);
    OneBlock(DbWait, Only(DbQueue), m);
    TakesConcat(Only(DbWait), retry, m);
    TakesConcat(Only(DbQueue), middle, m);
    TakesConcat(Only(DbQueue) + middle, Only(DbQueue), m);
    TakesConcat(Only(DbQueue) + middle + Only(DbQueue), Only(DbWait), m);
    OneBlock(DbQueue, [], DbQueue);
    OneBlock(DbWait, Only(DbQueue), DbQueue);
    NestsConcat(Only(DbWait), retry, DbWait, DbQueue);
    NestsConcat(Only(DbQueue), middle, DbWait, DbQueue);
    NestsConcat(Only(DbQueue) + middle, Only(DbQueue), DbWait, DbQueue);
    NestsConcat(Only(DbQueue) + middle + Only(DbQueue), Only(DbWait), DbWait, DbQueue);
  }

  lemma ClosingTakes(session: nat, b: nat, m: Mutex)
    requires m == Status(session) || m == FileHandle(b)
    ensures Nests(Program(RemoveSessions([session], [b])), Sessions, m)
  {
    var closing, released := CloseEach([session], false), Locks(HandlesOf([b]));
    assert [session][1..] == [];
    assert Close(session, false) == Only(Status(session));
    assert CloseEach([session], false) == Close(session, false) + CloseEach([], false);
    assert HandlesOf([b]) == [FileHandle(b)];
    OneBlock(Status(session), [], m);
    LocksTake([FileHandle(b)], m);
    TakesConcat(Close(session, false), [], m);
    TakesConcat(closing, released, m);
    OneBlock(Sessions, closing + released, m);
  }

  lemma InfoTakes(m: Mutex)
    requires m == DbQueue || m == DbWait || m == Buffers
    ensures Nests(Program(Info([true])), Sessions, m)
  {
    var calls := DbCalls([true]);
    assert [true][1..] == [];
    assert DbCalls([true]) == DbCall(true) + DbCalls([]);
    DatabaseTakes(m);
    hide DbCall;
    TakesConcat(DbCall(true), [], m);
    OneBlock(Buffers, [], m);
    TakesConcat(calls, Only(Buffers), m);
    OneBlock(Sessions, calls + Only(Buffers), m);
  }

  /** Each of these nestings happens somewhere in the code, so any order in which the mutexes can be
      taken safely must put the outer before the inner: none of it could be left out. */
  lemma NestingsHappen(h: Mutex, m: Mutex, session: nat, b: nat)
    requires Nesting(h, m, session, b)
    ensures exists p :: Nests(Program(p), h, m)
  {
    hide SendPackets, SendPacket, Notify, DbCall, Locks, Takes;
    match h
    case Senders =>
      var sends := SendPackets([FullSend(session, b)]);
      SendTakes(session, b, m);
      NothingDropped();
      assert sends + [] == sends;
      OneBlock(Senders, sends, m);
      assert Nests(Program(TimerSenders([FullSend(session, b)], [])), h, m);
    case Contacts(s) =>
      var contacts := [Notice([FullSend(session, b)], [])];
      NoticeTakes(session, b, m);
      OneBlock(h, Notify(contacts), m);
      assert Nests(Program(BroadcastStatus(s, contacts)), h, m);
    case Sessions =>
      if m == Status(session) || m == FileHandle(b) {
        ClosingTakes(session, b, m);
      } else {
        InfoTakes(m);
      }
    case PacketQueue(_) =>
      SendTakes(session, b, m);
      assert Nests(Program(Pump(FullSend(session, b))), h, m);
    case Buffers =>
      var body := Locks(ActivityOf([b])) + Locks(HandlesOf([b]));
      assert ActivityOf([b]) == [Activity(b)] && HandlesOf([b]) == [FileHandle(b)];
      LocksTake([Activity(b)], m);
      LocksTake([FileHandle(b)], m);
      TakesConcat(Locks([Activity(b)]), Locks([FileHandle(b)]), m);
      OneBlock(Buffers, body, m);
      assert Nests(Program(TimerBuffers([b], [b])), h, m);
    case DbWait =>
      DatabaseTakes(m);
      assert Nests(Program(Database(true)), h, m);
  }

  lemma NothingDropped()
    ensures Locks(HandlesOf([])) == []
  {
    assert HandlesOf([]) == [];
  }

  // ---------- Threads running such code ----------

  datatype Event = Acquire(m: Mutex) | Release(m: Mutex)

  /** What running `p` and then `rest` does to the mutexes. */
  function Events(p: seq<Block>, rest: seq<Event>): seq<Event> {
    if p == [] then rest
    else
      [Acquire(p[0].m)] + Events(p[0].body, [Release(p[0].m)] + Events(p[1..], rest))
  }

  /** The mutexes a thread holds, in the order taken, and what it has still to do. */
  datatype Thread = Thread(held: seq<Mutex>, todo: seq<Event>)

  type System = seq<Thread>

  ghost predicate Free(st: System, m: Mutex) {
    forall t :: 0 <= t < |st| ==> m !in st[t].held
  }

  /** The mutexes are not recursive: a thread that holds one cannot take it again. */
  ghost predicate CanStep(st: System, t: nat) {
    t < |st| && st[t].todo != [] && (st[t].todo[0].Acquire? ==> Free(st, st[t].todo[0].m))
  }

  function Stepped(th: Thread): Thread
    requires th.todo != []
  {
    match th.todo[0]
    case Acquire(m) => Thread(th.held + [m], th.todo[1..])
    case Release(_) => Thread(if th.held == [] then [] else th.held[..|th.held| - 1], th.todo[1..])
  }

  ghost predicate Runs(st: System, schedule: seq<nat>)
    decreases schedule
  {
    schedule == [] ||
    (CanStep(st, schedule[0]) && Runs(st[schedule[0] := Stepped(st[schedule[0]])], schedule[1..]))
  }

  ghost function Exec(st: System, schedule: seq<nat>): System
    requires Runs(st, schedule)
    decreases schedule
  {
    if schedule == [] then st
    else Exec(st[schedule[0] := Stepped(st[schedule[0]])], schedule[1..])
  }

  function Start(code: seq<seq<Block>>): System {
    seq(|code|, (t: nat) requires t < |code| => Thread([], Events(code[t], [])))
  }

  /** What is left to do takes mutexes above those held, and releases the last one held first. */
  predicate Orderly(held: seq<Mutex>, todo: seq<Event>)
    decreases todo
  {
    if todo == [] then held == []
    else match todo[0]
      case Acquire(m) =>
        (forall h :: h in held ==> Rank(h) < Rank(m)) && Orderly(held + [m], todo[1..])
      case Release(m) =>
        held != [] && held[|held| - 1] == m && Orderly(held[..|held| - 1], todo[1..])
  }

  ghost predicate Inv(st: System) {
    forall t :: 0 <= t < |st| ==> Orderly(st[t].held, st[t].todo)
  }

  lemma {:induction false} RankedIsOrderly(p: seq<Block>, floor: int, held: seq<Mutex>, rest: seq<Event>)
    requires Ranked(p, floor) && Orderly(held, rest)
    requires forall h :: h in held ==> Rank(h) <= floor
    ensures Orderly(held, Events(p, rest))
    decreases p
  {
    if p != [] {
      var m := p[0].m;
      RankedIsOrderly(p[1..], floor, held, rest);
      var after := [Release(m)] + Events(p[1..], rest);
      assert after[0] == Release(m) && after[1..] == Events(p[1..], rest);
      assert (held + [m])[..|held|] == held;
      assert Orderly(held + [m], after);
      RankedIsOrderly(p[0].body, Rank(m), held + [m], after);
      assert Events(p, rest)[0] == Acquire(m) && Events(p, rest)[1..] == Events(p[0].body, after);
    }
  }

  lemma {:induction false} RunKeepsInv(st: System, schedule: seq<nat>)
    requires Inv(st) && Runs(st, schedule)
    ensures Inv(Exec(st, schedule)) && |Exec(st, schedule)| == |st|
    decreases schedule
  {
    if schedule != [] {
      RunKeepsInv(st[schedule[0] := Stepped(st[schedule[0]])], schedule[1..]);
    }
  }

  /** Any number of threads, each running any sequence of the server's critical sections, after any
      schedule. */
  ghost predicate Reachable(st: System) {
    exists handlers: seq<seq<Piece>>, schedule ::
      Runs(Start(Code(handlers)), schedule) && Exec(Start(Code(handlers)), schedule) == st
  }

  function Code(handlers: seq<seq<Piece>>): seq<seq<Block>> {
    seq(|handlers|, (t: nat) requires t < |handlers| => Programs(handlers[t]))
  }

  lemma ReachableInv(st: System)
    requires Reachable(st)
    ensures Inv(st)
  {
    var handlers: seq<seq<Piece>>, schedule :|
      Runs(Start(Code(handlers)), schedule) && Exec(Start(Code(handlers)), schedule) == st;
    var s0 := Start(Code(handlers));
    forall t | 0 <= t < |s0|
      ensures Orderly(s0[t].held, s0[t].todo)
    {
      HandlerRanked(handlers[t]);
      RankedIsOrderly(Programs(handlers[t]), -1, [], []);
    }
    RunKeepsInv(s0, schedule);
  }

  // ---------- No deadlock ----------

  /** Thread `t` is stopped at a mutex that thread `u` holds. */
  ghost predicate WaitsFor(st: System, t: nat, u: nat) {
    && t < |st| && u < |st|
    && st[t].todo != [] && st[t].todo[0].Acquire? && st[t].todo[0].m in st[u].held
  }

  lemma WaitingClimbs(st: System, t: nat, u: nat)
    requires Inv(st) && WaitsFor(st, t, u)
    ensures st[u].todo != []
    ensures st[u].todo[0].Acquire? ==> Rank(st[t].todo[0].m) < Rank(st[u].todo[0].m)
  {
    assert Orderly(st[u].held, st[u].todo);
  }

  /** Following who waits for whom from any unfinished thread ends at one that can run. */
  lemma {:induction false} ChaseToRunnable(st: System, t: nat) returns (u: nat)
    requires Inv(st) && t < |st| && st[t].todo != []
    ensures CanStep(st, u)
    decreases if st[t].todo[0].Acquire? then 1 + TopRank - Rank(st[t].todo[0].m) else 0
  {
    u := t;
    if !CanStep(st, t) {
      var v :| 0 <= v < |st| && st[t].todo[0].m in st[v].held;
      WaitingClimbs(st, t, v);
      u := ChaseToRunnable(st, v);
    }
  }

  /** The server does not deadlock: in every reachable state in which some thread has not finished,
      some thread can go on. */
  lemma SomebodyCanAlwaysRun(st: System)
    requires Reachable(st)
    ensures (exists t :: 0 <= t < |st| && st[t].todo != []) <==> (exists u :: CanStep(st, u))
  {
    ReachableInv(st);
    if t :| 0 <= t < |st| && st[t].todo != [] {
      var u := ChaseToRunnable(st, t);
    }
  }

  ghost predicate Link(st: System, walk: seq<nat>, i: nat) {
    i + 1 < |walk| && WaitsFor(st, walk[i], walk[i + 1])
  }

  /** Nor does a part of it: in no reachable state does a chain of threads, each waiting for the
      next, come back to where it began, whatever the other threads do. */
  lemma NoWaitingCycle(st: System, walk: seq<nat>)
    requires Reachable(st) && |walk| >= 2
    requires forall i: nat :: i < |walk| - 1 ==> Link(st, walk, i)
    ensures walk[0] != walk[|walk| - 1]
  {
    hide Inv, Orderly, Reachable, Rank;
    ReachableInv(st);
    var last := |walk| - 1;
    Climb(st, walk, last - 1);
    assert Link(st, walk, last - 1);
    WaitingClimbs(st, walk[last - 1], walk[last]);
  }

  lemma {:induction false} Climb(st: System, walk: seq<nat>, k: nat)
    requires Inv(st) && k + 1 < |walk|
    requires forall i: nat :: i < |walk| - 1 ==> Link(st, walk, i)
    ensures Link(st, walk, 0) && Link(st, walk, k)
    ensures Rank(st[walk[0]].todo[0].m) + k <= Rank(st[walk[k]].todo[0].m)
  {
    assert Link(st, walk, 0) && Link(st, walk, k);
    if k > 0 {
      Climb(st, walk, k - 1);
      WaitingClimbs(st, walk[k - 1], walk[k]);
    }
  }

  // ---------- What the order rests on ----------

  /** Were `removeSessions` to close its sessions with their removal from the registry, a single
      thread would stop for ever at the registry mutex it already holds. */
  lemma ClosingWithRemovalStops(session: nat)
    ensures var st := Start([[Crit(Sessions, CloseEach([session], true))]]);
            var schedule := [0, 0, 0];
            && Runs(st, schedule)
            && WaitsFor(Exec(st, schedule), 0, 0)
            && !CanStep(Exec(st, schedule), 0)
  {
    hide Events, CloseEach;
    var todo := RemovalEvents(session);
    var st0 := Start([[Crit(Sessions, CloseEach([session], true))]]);
    assert st0 == [Thread([], todo)];
    var st1 := [Thread([Sessions], todo[1..])];
    var st2 := [Thread([Sessions, Status(session)], todo[2..])];
    var st3 := [Thread([Sessions], todo[3..])];
    assert st3[0].held == [Sessions, Status(session)][..1];
    assert [Sessions] + [Status(session)] == [Sessions, Status(session)];
    assert Exec(st3, []) == st3;
    assert todo[1..][0] == Acquire(Status(session)) && todo[1..][1..] == todo[2..];
    assert todo[2..][0] == Release(Status(session)) && todo[2..][1..] == todo[3..];
    assert Stepped(st2[0]) == st3[0] && Stepped(st1[0]) == st2[0] && Stepped(st0[0]) == st1[0];
    RunOne(st2, 0, st3, []);
    RunOne(st1, 0, st2, [0]);
    RunOne(st0, 0, st1, [0, 0]);
    assert [0] + [0, 0] == [0, 0, 0] && [0] + [0] == [0, 0] && [0] + [] == [0];
    assert Sessions in st3[0].held;
  }

  lemma RemovalEvents(session: nat) returns (todo: seq<Event>)
    ensures todo == [Acquire(Sessions), Acquire(Status(session)), Release(Status(session)),
                     Acquire(Sessions), Release(Sessions), Release(Sessions)]
    ensures todo == Events([Crit(Sessions, CloseEach([session], true))], [])
  {
    var body := [Crit(Status(session), []), Crit(Sessions, [])];
    assert [session][1..] == [];
    assert CloseEach([session], true) == body;
    EventsOfOne(Sessions, body, []);
    assert [Release(Sessions)] + [] == [Release(Sessions)];
    EventsOfTwo(Status(session), Sessions, [Release(Sessions)]);
    todo := [Acquire(Sessions)] + ([Acquire(Status(session)), Release(Status(session)),
                                    Acquire(Sessions), Release(Sessions)] + [Release(Sessions)]);
  }

  lemma RunOne(st: System, t: nat, st': System, rest: seq<nat>)
    requires CanStep(st, t) && st' == st[t := Stepped(st[t])] && Runs(st', rest)
    ensures Runs(st, [t] + rest) && Exec(st, [t] + rest) == Exec(st', rest)
  {
    assert ([t] + rest)[1..] == rest;
  }

  lemma NestedEvents(m: Mutex, n: Mutex)
    ensures Events([Crit(m, Only(n))], []) == [Acquire(m), Acquire(n), Release(n), Release(m)]
  {
    EventsOfOne(m, Only(n), []);
    assert [Release(m)] + [] == [Release(m)];
    EventsOfOne(n, [], [Release(m)]);
  }

  lemma EventsOfOne(m: Mutex, body: seq<Block>, rest: seq<Event>)
    ensures Events([Crit(m, body)], rest) == [Acquire(m)] + Events(body, [Release(m)] + rest)
  {
    assert [Crit(m, body)][1..] == [];
  }

  lemma EventsOfTwo(m: Mutex, n: Mutex, rest: seq<Event>)
    ensures Events([Crit(m, []), Crit(n, [])], rest)
         == [Acquire(m), Release(m), Acquire(n), Release(n)] + rest
  {
    var two := [Crit(m, []), Crit(n, [])];
    assert two[1..] == [Crit(n, [])];
    EventsOfOne(n, [], rest);
  }

  /** Were the pool's unlock to notify while it still holds the queue mutex, it could stop against a
      thread that retries under the other one. */
  lemma NotifyingUnderTheQueueStops()
    ensures var st := Start([[Crit(DbQueue, Only(DbWait))], [Crit(DbWait, Only(DbQueue))]]);
            var schedule := [0, 1];
            && Runs(st, schedule)
            && WaitsFor(Exec(st, schedule), 0, 1) && WaitsFor(Exec(st, schedule), 1, 0)
            && forall t :: !CanStep(Exec(st, schedule), t)
  {
    var a := [Acquire(DbQueue), Acquire(DbWait), Release(DbWait), Release(DbQueue)];
    var b := [Acquire(DbWait), Acquire(DbQueue), Release(DbQueue), Release(DbWait)];
    NestedEvents(DbQueue, DbWait);
    NestedEvents(DbWait, DbQueue);
    var st0 := Start([[Crit(DbQueue, Only(DbWait))], [Crit(DbWait, Only(DbQueue))]]);
    assert st0 == [Thread([], a), Thread([], b)];
    var st1 := [Thread([DbQueue], a[1..]), Thread([], b)];
    var st2 := [Thread([DbQueue], a[1..]), Thread([DbWait], b[1..])];
    assert Exec(st2, []) == st2;
    assert Stepped(st0[0]) == st1[0] && Stepped(st1[1]) == st2[1];
    RunOne(st1, 1, st2, []);
    RunOne(st0, 0, st1, [1]);
    assert [0] + [1] == [0, 1] && [1] + [] == [1];
    assert DbQueue in st2[0].held && DbWait in st2[1].held;
  }
}

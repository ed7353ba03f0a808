/** The receive chain of a client session: fixed-size head, then a body whose size the head
    announces, each read by `async_read_some` in pieces of any size.

    The layout of the head belongs to the packet library, so it is a parameter: a `Codec` says
    how long a head is and how to read the stream id and body size out of one. */
module Framing {
  import opened Wrappers

  datatype Packet = Packet(head: seq<byte>, body: seq<byte>)

  datatype Codec = Codec(headSize: nat, bodySize: seq<byte> -> nat, streamId: seq<byte> -> nat)

  /** What a sender hands to the socket: a head of the right length that announces its body. */
  ghost predicate WellFormed(c: Codec, p: Packet) {
    |p.head| == c.headSize && c.bodySize(p.head) == |p.body|
  }

  ghost predicate AllWellFormed(c: Codec, ps: seq<Packet>) {
    forall p :: p in ps ==> WellFormed(c, p)
  }

  function Frame(p: Packet): seq<byte> {
    p.head + p.body
  }

  function Serialise(ps: seq<Packet>): seq<byte> {
    if ps == [] then [] else Frame(ps[0]) + Serialise(ps[1..])
  }

  // ---------- The receiver as a state machine ----------

  /** The read that is outstanding. `Stopped` keeps the bytes of the packet that was abandoned. */
  datatype Mode =
    | AwaitHead
    | AwaitBody(head: seq<byte>, got: seq<byte>)
    | Stopped(closed: bool, left: seq<byte>)

  /** How a read ends: with bytes, or with an error. */
  datatype Completion =
    | Data(chunk: seq<byte>)
    | PeerGone          // connection aborted, connection reset, end of file, short TLS close
    | OtherError        // operation aborted, and everything else

  datatype Receiver = Receiver(mode: Mode, received: seq<Packet>)

  const Start := Receiver(AwaitHead, [])

  /** Length of the buffer given to the outstanding read. */
  function Requested(c: Codec, r: Receiver): nat {
    match r.mode
    case AwaitHead => c.headSize
    case AwaitBody(head, got) => if |got| < c.bodySize(head) then c.bodySize(head) - |got| else 0
    case Stopped(_, _) => 0
  }

  function Leftover(m: Mode): seq<byte> {
    match m
    case AwaitHead => []
    case AwaitBody(head, got) => head + got
    case Stopped(_, left) => left
  }

  function OnHead(c: Codec, r: Receiver, e: Completion): Receiver
    requires r.mode.AwaitHead?
  {
    match e
    case Data(chunk) =>
      if |chunk| == c.headSize then
        if c.bodySize(chunk) > 0 then r.(mode := AwaitBody(chunk, []))
        else r.(received := r.received + [Packet(chunk, [])])
      else if |chunk| == 0 then r
      else r.(mode := Stopped(false, chunk))
    case PeerGone => r.(mode := Stopped(true, []))
    case OtherError => r.(mode := Stopped(false, []))
  }

  function OnBody(c: Codec, r: Receiver, e: Completion): Receiver
    requires r.mode.AwaitBody?
  {
    var head, got := r.mode.head, r.mode.got;
    match e
    case Data(chunk) =>
      if |got| + |chunk| < c.bodySize(head) then r.(mode := AwaitBody(head, got + chunk))
      else if |got| + |chunk| == c.bodySize(head) then
        Receiver(AwaitHead, r.received + [Packet(head, got + chunk)])
      else r.(mode := Stopped(false, head + got))
    case PeerGone => r.(mode := Stopped(true, head + got))
    case OtherError => r.(mode := Stopped(false, head + got))
  }

  function Step(c: Codec, r: Receiver, e: Completion): Receiver {
    match r.mode
    case AwaitHead => OnHead(c, r, e)
    case AwaitBody(_, _) => OnBody(c, r, e)
    case Stopped(_, _) => r
  }

  /** A run the socket can produce: completions only of reads that are outstanding, and never more
      bytes than the read asked for. */
  ghost predicate ValidRun(c: Codec, r: Receiver, es: seq<Completion>)
    decreases es
  {
    es == [] ||
    (!r.mode.Stopped?
     && (es[0].Data? ==> |es[0].chunk| <= Requested(c, r))
     && ValidRun(c, Step(c, r, es[0]), es[1..]))
  }

  function Exec(c: Codec, r: Receiver, es: seq<Completion>): Receiver
    decreases es
  {
    if es == [] then r else Exec(c, Step(c, r, es[0]), es[1..])
  }

  function BytesOf(e: Completion): seq<byte> {
    if e.Data? then e.chunk else []
  }

  function Consumed(es: seq<Completion>): seq<byte> {
    if es == [] then [] else BytesOf(es[0]) + Consumed(es[1..])
  }

  // ---------- What every step keeps ----------

  /** A byte string that ends before the packet it starts does. */
  ghost predicate Incomplete(c: Codec, left: seq<byte>) {
    |left| < c.headSize || |left| < c.headSize + c.bodySize(left[..c.headSize])
  }

  ghost predicate Inv(c: Codec, r: Receiver, consumed: seq<byte>) {
    && AllWellFormed(c, r.received)
    && Serialise(r.received) + Leftover(r.mode) == consumed
    && Incomplete(c, Leftover(r.mode))
    && (r.mode.AwaitBody? ==> |r.mode.head| == c.headSize && |r.mode.got| < c.bodySize(r.mode.head))
  }

  lemma Associative(x: seq<byte>, y: seq<byte>, z: seq<byte>)
    ensures (x + y) + z == x + (y + z)
  {
  }

  lemma {:induction false} SerialiseAppend(ps: seq<Packet>, qs: seq<Packet>)
    ensures Serialise(ps + qs) == Serialise(ps) + Serialise(qs)
  {
    if ps == [] {
      assert ps + qs == qs;
    } else {
      SerialiseAppend(ps[1..], qs);
      assert (ps + qs)[0] == ps[0] && (ps + qs)[1..] == ps[1..] + qs;
      Associative(Frame(ps[0]), Serialise(ps[1..]), Serialise(qs));
    }
  }

  lemma SerialiseOne(ps: seq<Packet>, p: Packet)
    ensures Serialise(ps + [p]) == Serialise(ps) + Frame(p)
  {
    SerialiseAppend(ps, [p]);
    assert Serialise([p]) == Frame(p) + [];
  }

  lemma HeadKeepsInv(c: Codec, r: Receiver, e: Completion, consumed: seq<byte>)
    requires c.headSize > 0
    requires Inv(c, r, consumed) && r.mode.AwaitHead?
    requires e.Data? ==> |e.chunk| <= c.headSize
    ensures Inv(c, OnHead(c, r, e), consumed + BytesOf(e))
  {
    if e.Data? && |e.chunk| == c.headSize {
      if c.bodySize(e.chunk) == 0 {
        SerialiseOne(r.received, Packet(e.chunk, []));
        assert e.chunk + [] == e.chunk;
      } else {
        assert (e.chunk + []) == e.chunk && e.chunk[..c.headSize] == e.chunk;
      }
    }
  }

  lemma BodyKeepsInv(c: Codec, r: Receiver, e: Completion, consumed: seq<byte>)
    requires c.headSize > 0
    requires Inv(c, r, consumed) && r.mode.AwaitBody?
    requires e.Data? ==> |e.chunk| <= Requested(c, r)
    ensures Inv(c, OnBody(c, r, e), consumed + BytesOf(e))
  {
    var head, got := r.mode.head, r.mode.got;
    assert (head + got)[..c.headSize] == head;
    if e.Data? {
      var all := got + e.chunk;
      Associative(head, got, e.chunk);
      Associative(Serialise(r.received), head + got, e.chunk);
      assert (head + all)[..c.headSize] == head;
      if |all| == c.bodySize(head) {
        SerialiseOne(r.received, Packet(head, all));
      }
    }
  }

  lemma StepKeepsInv(c: Codec, r: Receiver, e: Completion, consumed: seq<byte>)
    requires c.headSize > 0
    requires Inv(c, r, consumed) && !r.mode.Stopped?
    requires e.Data? ==> |e.chunk| <= Requested(c, r)
    ensures Inv(c, Step(c, r, e), consumed + BytesOf(e))
  {
    if r.mode.AwaitHead? {
      HeadKeepsInv(c, r, e, consumed);
    } else {
      BodyKeepsInv(c, r, e, consumed);
    }
  }

  lemma {:induction false} RunKeepsInv(c: Codec, r: Receiver, es: seq<Completion>, consumed: seq<byte>)
    requires c.headSize > 0
    requires Inv(c, r, consumed) && ValidRun(c, r, es)
    ensures Inv(c, Exec(c, r, es), consumed + Consumed(es))
    decreases es
  {
    hide Inv, Step;
    if es == [] {
      assert consumed + [] == consumed;
    } else {
      StepKeepsInv(c, r, es[0], consumed);
      RunKeepsInv(c, Step(c, r, es[0]), es[1..], consumed + BytesOf(es[0]));
      Associative(consumed, BytesOf(es[0]), Consumed(es[1..]));
    }
  }

  // ---------- Unique parsing ----------

  /** Cancelling a common first packet on both sides of a prefix relation. */
  lemma FirstPacketAgrees(c: Codec, p: Packet, q: Packet, x: seq<byte>, y: seq<byte>)
    requires WellFormed(c, p) && WellFormed(c, q)
    requires Frame(p) + x <= Frame(q) + y
    ensures p == q && x <= y
  {
    var left, right := Frame(p) + x, Frame(q) + y;
    assert left[..c.headSize] == p.head;
    assert right[..c.headSize] == q.head;
    assert p.head == left[..c.headSize] == right[..c.headSize] == q.head;
    var n := c.headSize + |p.body|;
    assert left[c.headSize..n] == p.body;
    assert right[c.headSize..n] == q.body;
    assert left[n..] == x && right[n..] == y;
    assert x == left[n..] <= right[n..] == y;
  }

  lemma {:induction false} UniqueParse(c: Codec, rs: seq<Packet>, left: seq<byte>, ps: seq<Packet>)
    requires c.headSize > 0
    requires AllWellFormed(c, rs) && AllWellFormed(c, ps)
    requires Serialise(rs) + left <= Serialise(ps)
    ensures rs <= ps && left <= Serialise(ps[|rs|..])
  {
    if rs == [] {
      assert ps[0..] == ps && [] + left == left;
    } else {
      var p := rs[0];
      assert WellFormed(c, p) && |Serialise(rs)| >= |p.head|;
      assert ps != [];
      var x, y := Serialise(rs[1..]) + left, Serialise(ps[1..]);
      Associative(Frame(p), Serialise(rs[1..]), left);
      FirstPacketAgrees(c, p, ps[0], x, y);
      UniqueParse(c, rs[1..], left, ps[1..]);
      assert rs == [p] + rs[1..] && ps == [p] + ps[1..];
      assert ps[1..][|rs| - 1..] == ps[|rs|..];
    }
  }

  lemma {:induction false} PrefixIsShorter(ps: seq<Packet>, j: nat, k: nat)
    requires j <= k <= |ps|
    ensures |Serialise(ps[..j])| <= |Serialise(ps[..k])|
  {
    SerialiseAppend(ps[..j], ps[j..k]);
    assert ps[..j] + ps[j..k] == ps[..k];
  }

  // ---------- Main results ----------

  lemma ParseIsMaximal(c: Codec, got: seq<Packet>, left: seq<byte>, ps: seq<Packet>, k: nat)
    requires c.headSize > 0 && AllWellFormed(c, got) && AllWellFormed(c, ps) && Incomplete(c, left)
    requires Serialise(got) + left <= Serialise(ps) && k <= |ps|
    ensures got <= ps
    ensures k <= |got| <==> |Serialise(ps[..k])| <= |Serialise(got)| + |left|
  {
    UniqueParse(c, got, left, ps);
    assert got == ps[..|got|];
    if k <= |got| {
      PrefixIsShorter(ps, k, |got|);
    } else {
      NextPacketDoesNotFit(c, ps, |got|, left);
      PrefixIsShorter(ps, |got| + 1, k);
    }
  }

  /** However the byte stream of a packet list is cut up, and however far reading got, what reached
      `onPacketRecv` is a prefix of the list, and it is exactly the packets whose last byte has
      been consumed: the k-th packet is there if and only if the stream up to its end was read. */
  lemma DeliveredExactlyWhenComplete(c: Codec, ps: seq<Packet>, es: seq<Completion>)
    requires c.headSize > 0 && AllWellFormed(c, ps)
    requires ValidRun(c, Start, es) && Consumed(es) <= Serialise(ps)
    ensures var got := Exec(c, Start, es).received;
            && got <= ps
            && forall k: nat :: k <= |ps| ==> (k <= |got| <==> |Serialise(ps[..k])| <= |Consumed(es)|)
  {
    hide Exec, ValidRun, Consumed, Incomplete, AllWellFormed;
    RunInv(c, es);
    var r := Exec(c, Start, es);
    ParseIsMaximal(c, r.received, Leftover(r.mode), ps, 0);
    forall k: nat | k <= |ps|
      ensures k <= |r.received| <==> |Serialise(ps[..k])| <= |Consumed(es)|
    {
      ParseIsMaximal(c, r.received, Leftover(r.mode), ps, k);
    }
  }

  lemma StartInv(c: Codec)
    requires c.headSize > 0
    ensures Inv(c, Start, [])
  {
  }

  lemma RunInv(c: Codec, es: seq<Completion>)
    requires c.headSize > 0 && ValidRun(c, Start, es)
    ensures Inv(c, Exec(c, Start, es), Consumed(es))
  {
    RunKeepsInv(c, Start, es, []);
    assert [] + Consumed(es) == Consumed(es);
  }

  lemma NextPacketDoesNotFit(c: Codec, ps: seq<Packet>, n: nat, left: seq<byte>)
    requires n < |ps| && AllWellFormed(c, ps)
    requires Incomplete(c, left) && left <= Serialise(ps[n..])
    ensures |Serialise(ps[..n])| + |left| < |Serialise(ps[..n + 1])|
  {
    var p, rest := ps[n], Serialise(ps[n + 1..]);
    assert ps[..n + 1] == ps[..n] + [p];
    SerialiseOne(ps[..n], p);
    assert ps[n..][1..] == ps[n + 1..];
    var all := Serialise(ps[n..]);
    assert all == Frame(p) + rest;
    assert WellFormed(c, p);
    if |left| >= c.headSize {
      assert left[..c.headSize] == all[..c.headSize] == p.head;
    }
  }

  /** Nothing is lost: once every byte has been read, every packet has been delivered, in order,
      and the receiver is waiting for the next head (unless a later read failed on it). */
  lemma AllDelivered(c: Codec, ps: seq<Packet>, es: seq<Completion>)
    requires c.headSize > 0 && AllWellFormed(c, ps)
    requires ValidRun(c, Start, es) && Consumed(es) == Serialise(ps)
    ensures Exec(c, Start, es).received == ps
    ensures !Exec(c, Start, es).mode.AwaitBody?
  {
    DeliveredExactlyWhenComplete(c, ps, es);
    assert ps[..|ps|] == ps;
    RunInv(c, es);
  }

  // ---------- When the receiver goes on reading ----------

  /** A read completion after which the code posts no further read: an error, or a head that
      arrived in part. */
  ghost predicate Breaks(c: Codec, r: Receiver, e: Completion) {
    !e.Data? || (r.mode.AwaitHead? && 0 < |e.chunk| < c.headSize)
  }

  /** The receiver has stopped reading if and only if some completion broke it. In particular
      cutting a body anywhere is harmless and cutting a head is not. */
  lemma {:induction false} StopsExactlyWhenBroken(c: Codec, r: Receiver, es: seq<Completion>, consumed: seq<byte>)
    requires c.headSize > 0
    requires Inv(c, r, consumed) && ValidRun(c, r, es) && !r.mode.Stopped?
    ensures Exec(c, r, es).mode.Stopped?
       <==> exists i :: 0 <= i < |es| && Breaks(c, Exec(c, r, es[..i]), es[i])
    decreases es
  {
    if es == [] {
      return;
    }
    var r' := Step(c, r, es[0]);
    StepKeepsInv(c, r, es[0], consumed);
    assert Exec(c, r, es[..0]) == r;
    assert r'.mode.Stopped? <==> Breaks(c, r, es[0]);
    if r'.mode.Stopped? {
      assert es[1..] == [];
      assert Breaks(c, Exec(c, r, es[..0]), es[0]);
    } else {
      StopsExactlyWhenBroken(c, r', es[1..], consumed + BytesOf(es[0]));
      forall i | 0 <= i < |es| - 1
        ensures Exec(c, r', es[1..][..i]) == Exec(c, r, es[..i + 1]) && es[1..][i] == es[i + 1]
      {
        assert es[..i + 1][1..] == es[1..][..i];
      }
      if exists i :: 0 <= i < |es| && Breaks(c, Exec(c, r, es[..i]), es[i]) {
        var i :| 0 <= i < |es| && Breaks(c, Exec(c, r, es[..i]), es[i]);
        assert i != 0;
        assert Breaks(c, Exec(c, r', es[1..][..i - 1]), es[1..][i - 1]);
      }
    }
  }

  /** The session is closed if and only if the last completion said that the peer is gone. */
  lemma {:induction false} ClosedExactlyWhenPeerGone(c: Codec, r: Receiver, es: seq<Completion>)
    requires ValidRun(c, r, es) && !r.mode.Stopped?
    ensures var end := Exec(c, r, es).mode;
            (end.Stopped? && end.closed) <==> es != [] && es[|es| - 1] == PeerGone
    decreases es
  {
    if es != [] {
      var r' := Step(c, r, es[0]);
      if es[1..] == [] {
        assert Exec(c, r', es[1..]) == r';
      } else {
        assert es[1..][|es| - 2] == es[|es| - 1];
        ClosedExactlyWhenPeerGone(c, r', es[1..]);
      }
    }
  }

  /** Where a receiver stands in the stream of `ps`: before the packet `ps[n]`, of which it has read
      `left`. */
  lemma WithinPacket(c: Codec, got: seq<Packet>, left: seq<byte>, ps: seq<Packet>)
    requires c.headSize > 0 && AllWellFormed(c, got) && AllWellFormed(c, ps)
    requires Serialise(got) + left < Serialise(ps)
    ensures var n := |got|;
            && n < |ps| && left <= Serialise(ps[n..])
            && |Serialise(ps)| == |Serialise(got)| + |Serialise(ps[n..])|
            && WellFormed(c, ps[n]) && Frame(ps[n]) <= Serialise(ps[n..])
  {
    UniqueParse(c, got, left, ps);
    var n := |got|;
    assert ps[..n] == got && ps == ps[..n] + ps[n..];
    SerialiseAppend(ps[..n], ps[n..]);
    assert |Serialise(ps[n..])| > |left|;
  }

  /** While bytes are still to come the outstanding read asks for no more than is coming, so a peer
      that has sent the packets always completes it, and each byte read brings the end closer. */
  lemma OutstandingReadCanComplete(c: Codec, ps: seq<Packet>, es: seq<Completion>)
    requires c.headSize > 0 && AllWellFormed(c, ps)
    requires ValidRun(c, Start, es) && Consumed(es) < Serialise(ps)
    requires forall i :: 0 <= i < |es| ==> !Breaks(c, Exec(c, Start, es[..i]), es[i])
    ensures var r := Exec(c, Start, es);
            && !r.mode.Stopped?
            && 0 < Requested(c, r) <= |Serialise(ps)| - |Consumed(es)|
  {
    hide ValidRun, Exec, Consumed, AllWellFormed, Serialise;
    RunInv(c, es);
    StartInv(c);
    StopsExactlyWhenBroken(c, Start, es, []);
    var r := Exec(c, Start, es);
    WithinPacket(c, r.received, Leftover(r.mode), ps);
    if r.mode.AwaitBody? {
      var p, all := ps[|r.received|], Serialise(ps[|r.received|..]);
      assert p.head == Frame(p)[..c.headSize] == all[..c.headSize];
      assert r.mode.head == Leftover(r.mode)[..c.headSize] == all[..c.headSize];
    }
  }

  // ---------- The session's receive methods ----------

  /** The packets that `onPacketRecv` passes on to the engine; the others are only logged. */
  function Processed(c: Codec, ps: seq<Packet>): seq<Packet> {
    if ps == [] then []
    else
      var p := ps[|ps| - 1];
      var rest := Processed(c, ps[..|ps| - 1]);
      if c.streamId(p.head) != 0 && c.bodySize(p.head) != 0 then rest + [p] else rest
  }

  predicate ForEngine(c: Codec, p: Packet) {
    c.streamId(p.head) != 0 && c.bodySize(p.head) != 0
  }

  lemma {:induction false} ProcessedAppend(c: Codec, ps: seq<Packet>, qs: seq<Packet>)
    ensures Processed(c, ps + qs) == Processed(c, ps) + Processed(c, qs)
  {
    if qs == [] {
      assert ps + qs == ps && Processed(c, ps) + [] == Processed(c, ps);
    } else {
      var n := |qs| - 1;
      assert (ps + qs)[..|ps| + n] == ps + qs[..n];
      ProcessedAppend(c, ps, qs[..n]);
      var last := if c.streamId(qs[n].head) != 0 && c.bodySize(qs[n].head) != 0 then [qs[n]] else [];
      assert Processed(c, ps) + (Processed(c, qs[..n]) + last) == (Processed(c, ps) + Processed(c, qs[..n])) + last;
    }
  }

  lemma ProcessedSplit(c: Codec, ps: seq<Packet>, k: nat)
    requires k <= |ps|
    ensures Processed(c, ps) == Processed(c, ps[..k]) + Processed(c, ps[k..])
  {
    hide Processed;
    ProcessedAppend(c, ps[..k], ps[k..]);
    assert ps[..k] + ps[k..] == ps;
  }

  function Times(ps: seq<Packet>, p: Packet): nat {
    if ps == [] then 0 else Times(ps[..|ps| - 1], p) + if ps[|ps| - 1] == p then 1 else 0
  }

  lemma TimesOneMore(ps: seq<Packet>, last: Packet, p: Packet)
    ensures Times(ps + [last], p) == Times(ps, p) + if last == p then 1 else 0
  {
    assert (ps + [last])[..|ps|] == ps;
  }

  lemma {:induction false} TimesProcessed(c: Codec, ps: seq<Packet>, p: Packet)
    ensures Times(Processed(c, ps), p) == if ForEngine(c, p) then Times(ps, p) else 0
  {
    if ps != [] {
      var front, last := ps[..|ps| - 1], ps[|ps| - 1];
      TimesProcessed(c, front, p);
      TimesOneMore(Processed(c, front), last, p);
    }
  }

  /** A packet reaches the engine as often as it was received if it has a stream id and a body, and
      never otherwise; and of two lists received one after the other, what the first brings comes
      first. */
  lemma EngineGetsStreamPackets(c: Codec, ps: seq<Packet>, p: Packet)
    ensures Times(Processed(c, ps), p) == if c.streamId(p.head) != 0 && c.bodySize(p.head) != 0 then Times(ps, p) else 0
    ensures forall k :: 0 <= k <= |ps| ==> Processed(c, ps) == Processed(c, ps[..k]) + Processed(c, ps[k..])
  {
    hide Processed, Times;
    TimesProcessed(c, ps, p);
    forall k | 0 <= k <= |ps|
      ensures Processed(c, ps) == Processed(c, ps[..k]) + Processed(c, ps[k..])
    {
      ProcessedSplit(c, ps, k);
    }
  }

  /** When all bytes of a packet list have been read, the engine has had each of its packets that has a
      stream id and a body, and no others. */
  lemma EngineGetsAll(c: Codec, ps: seq<Packet>, es: seq<Completion>, p: Packet)
    requires c.headSize > 0 && AllWellFormed(c, ps)
    requires ValidRun(c, Start, es) && Consumed(es) == Serialise(ps)
    ensures Processed(c, Exec(c, Start, es).received) == Processed(c, ps)
    ensures WellFormed(c, p) ==>
              Times(Processed(c, Exec(c, Start, es).received), p)
                == if c.streamId(p.head) != 0 && p.body != [] then Times(ps, p) else 0
  {
    AllDelivered(c, ps, es);
    TimesProcessed(c, ps, p);
  }

  /** The receiving half of a client session. The body of the packet being read is a buffer of the
      announced size that successive reads fill from `offset` on. */
  class PacketReceiver {
    const codec: Codec
    var mode: ReadMode
    var head: seq<byte>
    var body: array<byte>
    var offset: nat
    var received: seq<Packet>
    var processed: seq<Packet>
    ghost var abandoned: seq<byte>

    ghost predicate Valid()
      reads this, body
    {
      && (mode == ReadingBody ==> offset < body.Length == codec.bodySize(head))
      && processed == Processed(codec, received)
    }

    /** The state machine state this object stands for. */
    ghost function Model(): Receiver
      reads this, body
      requires Valid()
    {
      Receiver(
        match mode
        case ReadingHead => AwaitHead
        case ReadingBody => AwaitBody(head, body[..offset])
        case NotReading => Stopped(false, abandoned)
        case Closed => Stopped(true, abandoned),
        received)
    }

    constructor (codec: Codec)
      ensures Valid() && Model() == Start && this.codec == codec
    {
      this.codec := codec;
      mode, head, body, offset := ReadingHead, [], new byte[0], 0;
      received, processed, abandoned := [], [], [];
    }

    /** Completion of the head read. */
    method OnPacketHeadRecv(e: Completion)
      requires Valid() && mode == ReadingHead
      requires e.Data? ==> |e.chunk| <= codec.headSize
      modifies this
      ensures Valid()
      ensures Model() == OnHead(codec, old(Model()), e)
    {
      match e
      case Data(chunk) =>
        if |chunk| == codec.headSize {
          head := chunk;
          if codec.bodySize(chunk) > 0 {
            RecvPacketBody();
            assert body[..0] == [];
          } else {
            OnPacketRecv(Packet(chunk, []));
          }
        } else if |chunk| != 0 {
          mode, abandoned := NotReading, chunk;
        }
      case PeerGone =>
        mode, abandoned := Closed, [];
      case OtherError =>
        mode, abandoned := NotReading, [];
    }

    method RecvPacketBody()
      requires codec.bodySize(head) > 0
      modifies this`mode, this`body, this`offset
      ensures mode == ReadingBody && offset == 0 && fresh(body) && body.Length == codec.bodySize(head)
    {
      body := new byte[codec.bodySize(head)];
      mode, offset := ReadingBody, 0;
    }

    /** Completion of a body read that was given the buffer from `offset` on. */
    method OnPacketBodyRecv(e: Completion)
      requires Valid() && mode == ReadingBody
      requires e.Data? ==> |e.chunk| <= body.Length - offset
      modifies this, body
      ensures Valid()
      ensures Model() == OnBody(codec, old(Model()), e)
      ensures mode == ReadingBody ==> offset >= old(offset)
    {
      match e
      case Data(chunk) =>
        ghost var got := body[..offset];
        forall i | 0 <= i < |chunk| {
          body[offset + i] := chunk[i];
        }
        assert body[..offset + |chunk|] == got + chunk;
        if offset + |chunk| < body.Length {
          offset := offset + |chunk|;
        } else {
          assert body[..] == body[..offset + |chunk|];
          OnPacketRecv(Packet(head, body[..]));
        }
      case PeerGone =>
        mode, abandoned := Closed, head + body[..offset];
      case OtherError =>
        mode, abandoned := NotReading, head + body[..offset];
    }

    /** A whole packet is in: pass it on and read the next head. */
    method OnPacketRecv(pkt: Packet)
      requires processed == Processed(codec, received)
      modifies this`received, this`processed, this`mode
      ensures received == old(received) + [pkt] && processed == Processed(codec, received)
      ensures processed == old(processed)
                + if codec.streamId(pkt.head) != 0 && codec.bodySize(pkt.head) != 0 then [pkt] else []
      ensures mode == ReadingHead
    {
      received := received + [pkt];
      assert received[..|received| - 1] == old(received);
      if codec.streamId(pkt.head) != 0 && codec.bodySize(pkt.head) != 0 {
        processed := processed + [pkt];
      }
      mode := ReadingHead;
    }
  }

  datatype ReadMode = ReadingHead | ReadingBody | NotReading | Closed
}

/** The sending half of a client session when `sendPacket` runs as one step, as it does on a session
    that one worker serves at a time. Together with the receive chain this gives what a peer on the
    other end of the connection sees. */
module PacketSender {
  import opened Wrappers
  import opened Framing

  lemma TakeFirst(popped: seq<Packet>, queue: seq<Packet>)
    requires queue != []
    ensures (popped + [queue[0]]) + queue[1..] == popped + queue
  {
  }

  class PacketSender {
    var sending: bool
    var queue: seq<Packet>
    var inFlight: seq<Packet>       // writes handed to the socket that have not completed
    var wire: seq<byte>             // everything handed to the socket so far
    var numPacketsSent: nat
    ghost var pushed: seq<Packet>
    ghost var popped: seq<Packet>

    ghost predicate Valid()
      reads this
    {
      && popped + queue == pushed
      && wire == Serialise(popped)
      && |inFlight| <= 1
      && (sending <==> inFlight != [])
      && (inFlight != [] ==> popped != [] && inFlight[0] == popped[|popped| - 1])
    }

    constructor ()
      ensures Valid() && pushed == [] && !sending && queue == [] && wire == []
    {
      sending, queue, inFlight, wire, numPacketsSent := false, [], [], [], 0;
      pushed, popped := [], [];
    }

    /** The stream senders are asked only when the queue is empty. */
    method Refill(produced: seq<Packet>)
      requires Valid()
      modifies this`queue, this`pushed
      ensures Valid() && old(pushed) <= pushed
      ensures queue == if old(queue) == [] then produced else old(queue)
      ensures queue == old(queue) ==> pushed == old(pushed)
    {
      if queue == [] {
        queue, pushed := produced, pushed + produced;
        assert popped + queue == pushed;
        assert produced == [] ==> pushed == old(pushed);
      }
    }

    /** Hands the first waiting packet to the socket, unless a write is outstanding. */
    method SendPacket(produced: seq<Packet>) returns (started: bool)
      requires Valid()
      modifies this
      ensures Valid()
      ensures started <==> !old(sending) && (if old(queue) == [] then produced else old(queue)) != []
      ensures !started ==> unchanged(this)
      ensures started ==>
                var q := if old(queue) == [] then produced else old(queue);
                && queue == q[1..] && sending && inFlight == [q[0]]
                && popped == old(popped) + [q[0]] && old(pushed) <= pushed
                && wire == old(wire) + q[0].head + q[0].body
      ensures numPacketsSent == old(numPacketsSent)
    {
      if sending {
        return false;
      }
      Refill(produced);
      if queue == [] {
        return false;
      }
      var pkt := queue[0];
      SerialiseOne(popped, pkt);
      TakeFirst(popped, queue);
      hide Serialise;
      assert wire + pkt.head + pkt.body == wire + Frame(pkt);
      queue, popped := queue[1..], popped + [pkt];
      wire := wire + pkt.head + pkt.body;
      sending, inFlight := true, [pkt];
      return true;
    }

    /** `postPacket`: a missing packet is refused, any other is queued behind those already there. */
    method PostPacket(pkt: Option<Packet>, produced: seq<Packet>) returns (accepted: bool)
      requires Valid()
      modifies this
      ensures Valid() && accepted == pkt.Some?
      ensures !accepted ==> unchanged(this)
      ensures accepted && old(sending) ==> queue == old(queue) + [pkt.value] && wire == old(wire)
      ensures accepted && !old(sending) ==>
                var q := old(queue) + [pkt.value];
                queue == q[1..] && popped == old(popped) + [q[0]]
      ensures accepted ==> old(pushed) + [pkt.value] <= pushed
    {
      if pkt.None? {
        return false;
      }
      assert popped + (queue + [pkt.value]) == pushed + [pkt.value];
      queue, pushed := queue + [pkt.value], pushed + [pkt.value];
      var _ := SendPacket(produced);
      return true;
    }

    /** Completion of the outstanding write; the next packet follows whether it failed or not. */
    method OnPacketSent(error: bool, produced: seq<Packet>)
      requires Valid() && inFlight != []
      modifies this
      ensures Valid() && old(pushed) <= pushed
      ensures sending <==> (if old(queue) == [] then produced else old(queue)) != []
      ensures sending ==>
                var q := if old(queue) == [] then produced else old(queue);
                queue == q[1..] && popped == old(popped) + [q[0]]
      ensures numPacketsSent == old(numPacketsSent) + if error then 0 else 1
    {
      if !error {
        numPacketsSent := numPacketsSent + 1;
      }
      inFlight, sending := [], false;
      var _ := SendPacket(produced);
    }

    /** A peer that reads any part of what this session wrote, in any pieces, receives packets that
        were posted, in the order in which they were posted; if it read everything, all that were
        taken from the queue. */
    lemma PeerReceivesInOrder(c: Codec, es: seq<Completion>)
      requires Valid() && c.headSize > 0 && AllWellFormed(c, popped)
      requires ValidRun(c, Start, es) && Consumed(es) <= wire
      ensures Exec(c, Start, es).received <= pushed
      ensures Consumed(es) == wire ==> Exec(c, Start, es).received == popped
    {
      DeliveredExactlyWhenComplete(c, popped, es);
      if Consumed(es) == wire {
        AllDelivered(c, popped, es);
      }
    }
  }
}

/** One turn of the receive loop of the simulator's two kinds of node. */
module UdpNodes {
  import opened Packets
  import Ring = CircularBuffer

  /** The packet a relay sends out on a reception, if any: it remembers the hash whether it forwards or
      not. */
  function Rebroadcast(accepted: seq<Hash>, received: Packet): Option<Packet> {
    if Ring.Seen(accepted, received.sig) then None else Forward(received)
  }

  class RelayNode {
    const cache: Ring.CircularBuffer

    constructor ()
      ensures cache.Valid() && fresh(cache) && fresh(cache.buff) && cache.accepted == []
    {
      cache := new Ring.CircularBuffer();
    }

    /** The packet to send out of every interface but the loopback, if any. The hash is cached before
        the time to live is looked at. */
    method Receive(received: Packet) returns (sent: Option<Packet>)
      requires cache.Valid()
      modifies cache`next, cache`accepted, cache.buff
      ensures cache.Valid() && cache.accepted == Ring.Remember(old(cache.accepted), received.sig)
      ensures sent == Rebroadcast(old(cache.accepted), received)
    {
      sent := None;
      var packet := received;
      var location := cache.ContainsBuff(packet.sig);
      if location == -1 {
        var _ := cache.AddToBuff(packet.sig);
        var ttl := Ttl(packet.flags);
        if ttl > 0 {
          ttl := ttl - 1;
          if ttl != 0 {
            packet := packet.(flags := WithTtl(packet.flags, ttl));
            sent := Some(packet);
          }
        }
      }
    }
  }

  class ExitNode {
    const cache: Ring.CircularBuffer

    constructor ()
      ensures cache.Valid() && fresh(cache) && fresh(cache.buff) && cache.accepted == []
    {
      cache := new Ring.CircularBuffer();
    }

    /** The packet to hand to the servers, if any, its time to live cleared. */
    method Receive(received: Packet) returns (finished: Option<Packet>)
      requires cache.Valid()
      modifies cache`next, cache`accepted, cache.buff
      ensures cache.Valid() && cache.accepted == Ring.Remember(old(cache.accepted), received.sig)
      ensures finished ==
        if Ring.Seen(old(cache.accepted), received.sig) then None
        else Some(received.(flags := Upper(received.flags)))
    {
      finished := None;
      var packet := received;
      var location := cache.ContainsBuff(packet.sig);
      if location == -1 {
        var _ := cache.AddToBuff(packet.sig);
        packet := packet.(flags := Upper(packet.flags));
        finished := Some(packet);
      }
    }
  }
}

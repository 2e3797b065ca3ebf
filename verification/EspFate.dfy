/** What becomes of an accepted packet: when its entry is marked as done, and the one way it is given up
    without a reason. */
module EspFate {
  import opened Packets
  import opened TimeAwareCache
  import opened EspRelay
  import opened EspInvariants

  // ----- Receptions -----

  /** The entry still belongs to the acceptance it belonged to. It can go out of use when its time is over,
      and count one sender more; it is neither marked nor changed otherwise. */
  ghost predicate StaysPut(e: Entry, f: Entry, now: UInt32) {
    && f == e.(active := f.active, seenMacs := f.seenMacs, rxCount := f.rxCount)
    && (f.active ==> e.active) && (IsLive(e, now) ==> f.active)
  }

  /** The entry was taken for the packet just received, marked exactly if a gateway handed that on. It was
      free, or there was none. */
  ghost predicate TakenOver(st: State, t: State, k: nat, hmac: Hash, now: UInt32, connected: bool)
    requires st.Shaped() && t.Shaped() && k < CACHE_SIZE
  {
    && t.owner[k] == |st.log| && t.entries[k].hmac == hmac
    && (t.entries[k].active <==> !connected || now + 2000 < 0x1_0000_0000)
    && (t.entries[k].active ==> (t.entries[k].broadcasted <==> connected))
    && (IsLive(st.entries[k], now) ==> forall j | 0 <= j < CACHE_SIZE :: IsLive(st.entries[j], now))
  }

  /** What a reception does to each entry. */
  lemma ReceptionExactly(st: State, packet: Packet, mac: Mac, now: UInt32, connected: bool, jitter: nat, k: nat)
    requires Inv(st) && k < CACHE_SIZE
    ensures var t := OnPacket(st, packet, mac, now, connected, jitter);
      && t.Shaped()
      && if t.owner[k] == st.owner[k] then StaysPut(st.entries[k], t.entries[k], now)
         else TakenOver(st, t, k, packet.sig, now, connected)
  {
    CheckStays(st, packet.sig, now, mac, k);
    if FirstHit(st.entries, packet.sig, now) == CACHE_SIZE {
      if connected {
        HandedOn(st, packet, mac, now, k);
      } else if Forward(packet).Some? {
        Queued(st, packet.sig, Forward(packet).value, mac, now, jitter, k);
      }
    }
  }

  lemma HandedOn(st: State, packet: Packet, mac: Mac, now: UInt32, k: nat)
    requires Inv(st) && k < CACHE_SIZE && FirstHit(st.entries, packet.sig, now) == CACHE_SIZE
    ensures var t := MarkHit(Accept(Check(st, packet.sig, now, mac), packet, now, 0, mac, true), packet.sig, now, mac);
      && t.Shaped()
      && if t.owner[k] == st.owner[k] then StaysPut(st.entries[k], t.entries[k], now)
         else TakenOver(st, t, k, packet.sig, now, true)
  {
    var checked := Check(st, packet.sig, now, mac);
    CheckStays(st, packet.sig, now, mac, k);
    CheckKeeps(st, packet.sig, now, mac);
    MissClears(st, packet.sig, now, mac);
    MissSlot(st, packet.sig, now, mac);
    AcceptStays(checked, packet, now, 0, mac, true, k);
    GatewayMarks(checked, packet, now, mac, k);
  }

  lemma Queued(st: State, hmac: Hash, packet: Packet, mac: Mac, now: UInt32, jitter: nat, k: nat)
    requires Inv(st) && k < CACHE_SIZE && FirstHit(st.entries, hmac, now) == CACHE_SIZE && packet.sig == hmac
    ensures var t := Accept(Check(st, hmac, now, mac), packet, now, jitter, mac, false);
      && t.Shaped()
      && if t.owner[k] == st.owner[k] then StaysPut(st.entries[k], t.entries[k], now)
         else TakenOver(st, t, k, hmac, now, false)
  {
    CheckStays(st, hmac, now, mac, k);
    CheckKeeps(st, hmac, now, mac);
    MissSlot(st, hmac, now, mac);
    AcceptStays(Check(st, hmac, now, mac), packet, now, jitter, mac, false, k);
  }

  lemma CheckStays(st: State, hmac: Hash, now: UInt32, mac: Mac, k: nat)
    requires st.Shaped() && k < CACHE_SIZE
    ensures var t := Check(st, hmac, now, mac);
      t.Shaped() && t.owner == st.owner && |t.log| == |st.log| && StaysPut(st.entries[k], t.entries[k], now)
  {}

  /** After a miss an entry is live if it was before. */
  lemma MissSlot(st: State, hmac: Hash, now: UInt32, mac: Mac)
    requires st.Shaped() && FirstHit(st.entries, hmac, now) == CACHE_SIZE
    ensures var t := Check(st, hmac, now, mac);
      t.Shaped() && forall j | 0 <= j < CACHE_SIZE :: IsLive(t.entries[j], now) <==> IsLive(st.entries[j], now)
  {}

  lemma AcceptStays(st: State, packet: Packet, now: UInt32, jitter: nat, mac: Mac, gateway: bool, k: nat)
    requires Inv(st) && k < CACHE_SIZE
    ensures var u, t := Accept(st, packet, now, jitter, mac, gateway), Slot(st.entries, now);
      && u.Shaped() && (k != t ==> u.owner[k] == st.owner[k] && StaysPut(st.entries[k], u.entries[k], now))
      && u.owner[t] == |st.log| != st.owner[t] && u.entries[t].hmac == packet.sig
      && u.entries[t].active && !u.entries[t].broadcasted
      && (IsLive(st.entries[t], now) ==> forall j | 0 <= j < CACHE_SIZE :: IsLive(st.entries[j], now))
  {
    OthersStay(st, packet, now, jitter, mac, gateway);
    AcceptHere(st, packet, now, jitter, mac, gateway);
  }

  /** A gateway's second look-up and mark touch no entry but the new one. */
  lemma GatewayMarks(st: State, packet: Packet, now: UInt32, mac: Mac, k: nat)
    requires Inv(st) && Absent(st.entries, packet.sig) && k < CACHE_SIZE
    ensures var added, t := Accept(st, packet, now, 0, mac, true), Slot(st.entries, now);
      var end := MarkHit(added, packet.sig, now, mac);
      && added.Shaped() && end.Shaped() && end.owner == added.owner
      && (k != t ==> StaysPut(added.entries[k], end.entries[k], now))
      && end.entries[t].hmac == packet.sig
      && (end.entries[t].active <==> now + 2000 < 0x1_0000_0000)
      && (end.entries[t].active ==> end.entries[t].broadcasted)
  {
    var added, t := Accept(st, packet, now, 0, mac, true), Slot(st.entries, now);
    GatewayExactly(st, packet, now, mac);
    AcceptHere(st, packet, now, 0, mac, true);
    CheckStays(added, packet.sig, now, mac, k);
  }

  // ----- Given up -----

  /** Marked as done, though no gateway handed the packet on, it was never burst, and fewer than four
      senders were heard. */
  ghost predicate GivenUp(st: State, k: nat)
    requires st.Shaped() && k < CACHE_SIZE
  {
    && st.entries[k].active && st.entries[k].broadcasted && Waits(st, k)
  }

  /** No gateway's, never burst, and heard from fewer than four senders. */
  ghost predicate Waits(st: State, k: nat)
    requires st.Shaped() && k < CACHE_SIZE
  {
    && Owned(st, k)
    && var a := st.log[st.owner[k]]; !a.gateway && a.bursts == [] && |Senders(a.heard)| < 4
  }

  /** The turn ends a burst whose entry meanwhile went to a packet that waits for its own. */
  ghost predicate EndsReused(st: State, e: Event)
    requires st.Shaped()
  {
    && e.Loop? && st.isBroadcasting && e.now >= st.endTime
    && st.entries[st.current].active && Waits(st, st.current)
  }

  ghost predicate SomeGivenUp(st: State)
    requires st.Shaped()
  {
    exists k: nat :: k < CACHE_SIZE && GivenUp(st, k)
  }

  lemma SendersGrow(before: seq<Mac>, after: seq<Mac>)
    requires after == before || (after != [] && after[..|after| - 1] == before)
    ensures |Senders(before)| <= |Senders(after)|
  {}

  /** Every look-up adds at most one sender. */
  lemma CheckWaits(st: State, hmac: Hash, now: UInt32, mac: Mac, k: nat)
    requires st.Shaped() && k < CACHE_SIZE
    ensures var t := Check(st, hmac, now, mac); t.Shaped() && (Waits(t, k) ==> Waits(st, k))
  {
    var t, hit := Check(st, hmac, now, mac), FirstHit(st.entries, hmac, now);
    if Owned(t, k) {
      var a, b := st.log[st.owner[k]], t.log[t.owner[k]];
      assert b == a || b == a.(heard := a.heard + [mac]);
      SendersGrow(a.heard, b.heard);
    }
  }

  lemma AcceptWaits(st: State, packet: Packet, now: UInt32, jitter: nat, mac: Mac, gateway: bool, k: nat)
    requires Inv(st) && k < CACHE_SIZE
    ensures var u := Accept(st, packet, now, jitter, mac, gateway);
      && u.Shaped() && (u.owner[k] == st.owner[k] && Waits(u, k) ==> Waits(st, k))
      && (u.owner[k] != st.owner[k] && Waits(u, k) ==> !gateway)
  {
    OthersStay(st, packet, now, jitter, mac, gateway);
    AcceptHere(st, packet, now, jitter, mac, gateway);
  }

  lemma GatewayWaits(st: State, packet: Packet, now: UInt32, mac: Mac, k: nat)
    requires Inv(st) && k < CACHE_SIZE
    ensures var t := MarkHit(Accept(st, packet, now, 0, mac, true), packet.sig, now, mac);
      && t.Shaped() && (t.owner[k] == st.owner[k] && Waits(t, k) ==> Waits(st, k))
      && (t.owner[k] != st.owner[k] ==> !Waits(t, k))
  {
    AcceptWaits(st, packet, now, 0, mac, true, k);
    CheckWaits(Accept(st, packet, now, 0, mac, true), packet.sig, now, mac, k);
  }

  lemma PacketWaits(st: State, packet: Packet, mac: Mac, now: UInt32, connected: bool, jitter: nat, k: nat)
    requires Inv(st) && k < CACHE_SIZE
    ensures var t := OnPacket(st, packet, mac, now, connected, jitter);
      && t.Shaped() && (t.owner[k] == st.owner[k] && Waits(t, k) ==> Waits(st, k))
      && (t.owner[k] != st.owner[k] && Waits(t, k) ==> !connected)
  {
    var checked := Check(st, packet.sig, now, mac);
    CheckWaits(st, packet.sig, now, mac, k);
    if FirstHit(st.entries, packet.sig, now) == CACHE_SIZE {
      CheckKeeps(st, packet.sig, now, mac);
      if connected {
        GatewayWaits(checked, packet, now, mac, k);
      } else if Forward(packet).Some? {
        AcceptWaits(checked, Forward(packet).value, now, jitter, mac, false, k);
      }
    }
  }

  /** Receptions give nothing up. */
  lemma ReceptionGivesNoneUp(st: State, packet: Packet, mac: Mac, now: UInt32, connected: bool, jitter: nat, k: nat)
    requires Inv(st) && k < CACHE_SIZE
    ensures var t := OnPacket(st, packet, mac, now, connected, jitter);
      t.Shaped() && (GivenUp(t, k) ==> GivenUp(st, k))
  {
    ReceptionExactly(st, packet, mac, now, connected, jitter, k);
    PacketWaits(st, packet, mac, now, connected, jitter, k);
  }

  /** A turn gives up what waits on the entry whose burst it ends, and nothing else. */
  lemma TurnGivesUp(st: State, now: UInt32, k: nat)
    requires Inv(st) && GatewayDone(st) && k < CACHE_SIZE
    ensures var t := OnLoop(st, now);
      t.Shaped() && (GivenUp(t, k) <==> GivenUp(st, k) || (EndsReused(st, Loop(now)) && k == st.current))
  {
    MarkedExactly(st, now, k);
    TurnWaits(st, now, k);
    if st.entries[k].active { assert Matches(st.entries[k], st.log[st.owner[k]]); }
  }

  lemma TurnWaits(st: State, now: UInt32, k: nat)
    requires Inv(st) && GatewayDone(st) && k < CACHE_SIZE
    ensures var t := OnLoop(st, now);
      && t.Shaped() && (Waits(t, k) ==> Waits(st, k))
      && (Waits(st, k) && !Waits(t, k) ==>
            !st.isBroadcasting && !st.entries[k].broadcasted && !t.entries[k].broadcasted)
  {
    LoopOnlyMarks(st, now);
    if !st.isBroadcasting && FirstBurst(st.entries, now) < CACHE_SIZE {
      BurstStart(st, now);
      if k != FirstBurst(st.entries, now) && Owned(st, k) { OwnersDiffer(st, k, FirstBurst(st.entries, now)); }
    }
  }

  /** Something is given up after a step if it was before, and else exactly if the step ends the burst of
      a reused entry. */
  lemma StepGivesUp(st: State, e: Event)
    requires Inv(st) && GatewayDone(st)
    ensures Step(st, e).Shaped()
    ensures EndsReused(st, e) ==> SomeGivenUp(Step(st, e))
    ensures SomeGivenUp(Step(st, e)) ==> SomeGivenUp(st) || EndsReused(st, e)
  {
    ShapedStep(st, e);
    if SomeGivenUp(Step(st, e)) {
      var k: nat :| k < CACHE_SIZE && GivenUp(Step(st, e), k);
      match e {
        case Receive(packet, mac, now, connected, jitter) =>
          ReceptionGivesNoneUp(st, packet, mac, now, connected, jitter, k);
        case Loop(now) => TurnGivesUp(st, now, k);
      }
    }
    if EndsReused(st, e) {
      TurnGivesUp(st, e.now, st.current);
      assert GivenUp(Step(st, e), st.current);
    }
  }

  ghost predicate ReusedAt(states: seq<State>, events: seq<Event>, n: nat)
    requires n < |states| && n < |events|
  {
    states[n].Shaped() && EndsReused(states[n], events[n])
  }

  lemma StateOf(states: seq<State>, events: seq<Event>, n: nat)
    requires IsRun(states, events) && n <= |events|
    ensures Inv(states[n]) && GatewayDone(states[n])
  {
    RunPrefix(states, events, n);
    EveryState(states[..n + 1], events[..n]);
  }

  ghost predicate GivenUpAt(states: seq<State>, n: nat)
    requires n < |states|
  {
    states[n].Shaped() && SomeGivenUp(states[n])
  }

  lemma GivesUpAt(states: seq<State>, events: seq<Event>, n: nat)
    requires IsRun(states, events) && n < |events|
    ensures ReusedAt(states, events, n) ==> GivenUpAt(states, n + 1)
    ensures GivenUpAt(states, n + 1) ==> GivenUpAt(states, n) || ReusedAt(states, events, n)
  {
    assert StepAt(states, events, n);
    StateOf(states, events, n);
    StepGivesUp(states[n], events[n]);
  }

  lemma {:induction false} GivenUpBefore(states: seq<State>, events: seq<Event>, n: nat) returns (i: nat)
    requires IsRun(states, events) && n <= |events| && GivenUpAt(states, n)
    ensures i < n && ReusedAt(states, events, i)
  {
    if n == 0 {
      assert false;
    } else {
      GivesUpAt(states, events, n - 1);
      i := n - 1;
      if !ReusedAt(states, events, i) { i := GivenUpBefore(states, events, n - 1); }
    }
  }

  /** An accepted packet is marked as done only when a gateway handed it on, when it was burst, or when it
      was heard from four senders - in all states of a run, exactly if no turn of it ends the burst of an
      entry that was reused for a waiting packet. */
  lemma GivenUpExactly(states: seq<State>, events: seq<Event>)
    requires IsRun(states, events)
    ensures (exists n: nat :: n < |states| && GivenUpAt(states, n)) <==>
      exists n: nat :: n < |events| && ReusedAt(states, events, n)
  {
    if n: nat :| n < |states| && GivenUpAt(states, n) { var i := GivenUpBefore(states, events, n); }
    if n: nat :| n < |events| && ReusedAt(states, events, n) { GivesUpAt(states, events, n); }
  }

  // ----- It happens -----

  /** A packet with this signature, received at `now` with the shortest jitter. */
  function Heard(h: Hash, now: UInt32): Event {
    Receive(BLANK.(flags := START_TTL, sig := h), 0, now, false, 50)
  }

  /** Where nothing is live, a packet received goes to entry 0. */
  lemma FirstEntry(st: State, h: Hash, now: UInt32)
    requires st.Shaped() && now + 2000 < 0x1_0000_0000 && forall j | 0 <= j < CACHE_SIZE :: !IsLive(st.entries[j], now)
    ensures var t := Step(st, Heard(h, now));
      && t.Shaped() && t.owner[0] == |st.log| == |t.log| - 1
      && t.log[|st.log|].heard == [0] && t.log[|st.log|].bursts == [] && !t.log[|st.log|].gateway
      && t == st.(entries := t.entries, log := t.log, owner := t.owner)
      && (forall j | 0 < j < CACHE_SIZE :: !t.entries[j].active)
      && var e := t.entries[0];
         && e.active && !e.broadcasted && e.rxCount == 1
         && e.broadcastTime == now + 50 && e.expiresAt == now + 2000
  {
    var event := Heard(h, now);
    assert Forward(event.packet).Some? && Forward(event.packet).value.sig == h;
    NoHit(st.entries, h, now);
    var checked := Check(st, h, now, 0);
    MissSlot(st, h, now, 0);
    assert !IsLive(checked.entries[0], now);
  }

  lemma BurstOfFirst(st: State, now: UInt32)
    requires st.Shaped() && !st.isBroadcasting && now + 500 < 0x1_0000_0000
    requires IsDue(st.entries[0], now) && st.entries[0].rxCount < 4
    ensures var t := OnLoop(st, now);
      t.Shaped() && t.isBroadcasting && t.current == 0 && t.endTime == now + 500 && t.entries == st.entries
  {
    var k := FirstBurst(st.entries, now);
    assert k == 0;
    assert Cancelled(st.entries, now) == st.entries;
  }

  lemma OneMore(states: seq<State>, events: seq<Event>, e: Event) returns (more: seq<State>)
    requires IsRun(states, events) && IsEvent(e)
    ensures IsRun(more, events + [e])
  {
    RunExtends(states, events, e);
    more := states + [Step(states[|events|], e)];
  }

  lemma FourMore(a: Event, b: Event, c: Event, d: Event) returns (states: seq<State>)
    requires IsEvent(a) && IsEvent(b) && IsEvent(c) && IsEvent(d)
    ensures IsRun(states, [a, b, c, d])
  {
    states := OneMore([Boot()], [], a);
    states := OneMore(states, [] + [a], b);
    states := OneMore(states, [] + [a] + [b], c);
    states := OneMore(states, [] + [a] + [b] + [c], d);
    assert [] + [a] + [b] + [c] + [d] == [a, b, c, d];
  }

  /** A packet comes 200 milliseconds into a burst that began 1900 after its reception: the entry is free
      by then, and goes to the new packet, which is given up when the burst ends. */
  lemma GivingUpHappens(h: Hash, g: Hash) returns (states: seq<State>)
    ensures IsRun(states, [Heard(h, 0), Loop(1900), Heard(g, 2100), Loop(2400)])
    ensures GivenUpAt(states, 4)
  {
    var events := [Heard(h, 0), Loop(1900), Heard(g, 2100), Loop(2400)];
    states := FourMore(Heard(h, 0), Loop(1900), Heard(g, 2100), Loop(2400));
    assert StepAt(states, events, 0) && StepAt(states, events, 1) && StepAt(states, events, 2);
    assert StepAt(states, events, 3);
    FirstEntry(states[0], h, 0);
    BurstOfFirst(states[1], 1900);
    FirstEntry(states[2], g, 2100);
    assert Senders([0]) == [0];
    assert EndsReused(states[3], events[3]);
    GivesUpAt(states, events, 3);
  }
}

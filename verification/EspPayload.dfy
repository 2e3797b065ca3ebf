/** What the ESP32 relay puts on the air: the packet it accepted, with one hop less. */
module EspPayload {
  import opened Packets
  import opened TimeAwareCache
  import opened EspRelay
  import opened EspInvariants
  import opened EspHeard
  import opened Signatures

  /** Whoever hears a transmission reads the packet back. */
  lemma AdvertisementAccepted(p: Packet)
    ensures Accepted(Some(Advertisement(p))) == Some(p)
  {
    assert Advertisement(p)[2..] == Pack(p);
    UnpackPack(p);
  }

  /** Advertisements with the bytes of company 0xFFFF in front and a packet behind are ours, no others. */
  lemma AcceptedExactly(manufacturerData: Option<seq<Byte>>, p: Packet)
    ensures Accepted(manufacturerData) == Some(p) <==> manufacturerData == Some([0xFF, 0xFF] + Pack(p))
  {
    AdvertisementAccepted(p);
    if Accepted(manufacturerData) == Some(p) {
      var raw := manufacturerData.value;
      PackUnpack(raw[2..]);
      assert raw == [0xFF, 0xFF] + raw[2..];
    }
  }

  /** Every transmission carries the packet of its acceptance. */
  ghost predicate Carries(log: seq<Acceptance>) {
    forall a, b | a in log && b in a.bursts :: b.payload == Advertisement(a.packet)
  }

  lemma LoopCarries(st: State, now: UInt32)
    requires Inv(st) && GatewayDone(st) && Carries(st.log)
    ensures Carries(OnLoop(st, now).log)
  {
    if !st.isBroadcasting && FirstBurst(st.entries, now) < CACHE_SIZE {
      BurstStart(st, now);
      var k, t := FirstBurst(st.entries, now), OnLoop(st, now);
      var a := st.log[st.owner[k]];
      assert Matches(st.entries[k], a);
      forall b | b in t.log ensures b == a.(bursts := [Burst(now, Advertisement(a.packet))]) || b in st.log {
        var i :| 0 <= i < |t.log| && t.log[i] == b;
      }
    }
  }

  lemma AddsCarries(before: seq<Acceptance>, after: seq<Acceptance>, one: bool, a: Acceptance)
    requires Carries(before) && Adds(before, after, one, a) && a.bursts == []
    ensures Carries(after)
  {}

  lemma CarriesStep(st: State, e: Event)
    requires Inv(st) && GatewayDone(st) && Carries(st.log)
    ensures Carries(Step(st, e).log)
  {
    match e
    case Loop(now) => LoopCarries(st, now);
    case Receive(packet, mac, now, connected, jitter) =>
      var one := FirstHit(st.entries, packet.sig, now) == CACHE_SIZE && (connected || Forward(packet).Some?);
      LogGrows(st, packet, mac, now, connected, jitter);
      AddsCarries(st.log, Step(st, e).log, one, Recorded(packet, now, connected, jitter));
  }

  lemma {:induction false} AlwaysCarries(states: seq<State>, events: seq<Event>)
    requires IsRun(states, events)
    ensures Carries(states[|events|].log)
  {
    if events != [] {
      var n := |events| - 1;
      RunPrefix(states, events, n);
      AlwaysCarries(states[..n + 1], events[..n]);
      EveryState(states[..n + 1], events[..n]);
      assert StepAt(states, events, n);
      CarriesStep(states[n], events[n]);
    }
  }

  // ----- Back to the reception -----

  /** All on record but the senders and the transmissions. */
  ghost predicate SameOrigin(a: Acceptance, b: Acceptance) {
    a.(heard := [], bursts := []) == b.(heard := [], bursts := [])
  }

  /** The acceptance is what this reception is recorded as. */
  ghost predicate StemsFrom(a: Acceptance, e: Event) {
    && e.Receive? && (e.connected || Forward(e.packet).Some?)
    && SameOrigin(a, Recorded(e.packet, e.now, e.connected, e.jitter))
  }

  lemma StepOrigins(st: State, e: Event)
    requires st.Shaped()
    ensures var t := Step(st, e);
      && |st.log| <= |t.log| && (forall i | 0 <= i < |st.log| :: SameOrigin(st.log[i], t.log[i]))
      && (|t.log| > |st.log| ==> StemsFrom(t.log[|st.log|], e))
  {
    match e
    case Loop(now) => LoopOnlyMarks(st, now);
    case Receive(packet, mac, now, connected, jitter) => LogGrows(st, packet, mac, now, connected, jitter);
  }

  lemma {:induction false} OriginStays(states: seq<State>, events: seq<Event>, b: nat, n: nat, i: nat)
    requires IsRun(states, events) && b < n <= |events| && Accepts(states, b, i)
    ensures i < |states[n].log| && StemsFrom(states[n].log[i], events[b])
    decreases n
  {
    assert StepAt(states, events, n - 1);
    StepOrigins(states[n - 1], events[n - 1]);
    if b < n - 1 { OriginStays(states, events, b, n - 1, i); }
  }

  // ----- Main results -----

  /** Each acceptance stems from the one event that made it, and what its transmissions carry is that
      reception's packet with one hop less. */
  lemma BurstsForward(states: seq<State>, events: seq<Event>, i: nat) returns (b: nat)
    requires IsRun(states, events) && i < |states[|events|].log|
    ensures b < |events| && Accepts(states, b, i) && StemsFrom(states[|events|].log[i], events[b])
    ensures forall burst | burst in states[|events|].log[i].bursts ::
      && !events[b].connected && Forward(events[b].packet).Some?
      && burst.payload == Advertisement(Forward(events[b].packet).value)
  {
    b := AcceptedOnce(states, events, i);
    OriginStays(states, events, b, |events|, i);
    AlwaysCarries(states, events);
    BurstSafety(states, events);
    var a := states[|events|].log[i];
    assert a in states[|events|].log;
  }

  /** While the radio advertises, its data is that of the last burst, on record with some acceptance. */
  ghost predicate OnAir(st: State) {
    st.advertising ==> st.starts != [] && exists i: nat :: LastBurst(st, i)
  }

  ghost predicate LastBurst(st: State, i: nat)
    requires st.starts != []
  {
    && i < |st.log| && st.log[i].bursts != []
    && st.log[i].bursts[|st.log[i].bursts| - 1] == Burst(st.starts[|st.starts| - 1], st.advData)
  }

  lemma OnAirStep(st: State, e: Event)
    requires Inv(st) && GatewayDone(st) && RadioExclusive(st) && OnAir(st)
    ensures OnAir(Step(st, e))
  {
    match e {
      case Receive(packet, mac, now, connected, jitter) =>
        PacketKeepsRadio(st, packet, mac, now, connected, jitter);
        LogGrows(st, packet, mac, now, connected, jitter);
        StillOnAir(st, Step(st, e));
      case Loop(now) =>
        if !st.isBroadcasting && FirstBurst(st.entries, now) < CACHE_SIZE { NowOnAir(st, now); }
    }
  }

  lemma StillOnAir(st: State, t: State)
    requires OnAir(st) && t.advertising == st.advertising && t.advData == st.advData && t.starts == st.starts
    requires |st.log| <= |t.log| && forall i | 0 <= i < |st.log| :: t.log[i].bursts == st.log[i].bursts
    ensures OnAir(t)
  {
    if st.advertising {
      var i: nat :| LastBurst(st, i);
      assert LastBurst(t, i);
    }
  }

  lemma NowOnAir(st: State, now: UInt32)
    requires Inv(st) && GatewayDone(st) && !st.isBroadcasting && FirstBurst(st.entries, now) < CACHE_SIZE
    ensures OnAir(OnLoop(st, now))
  {
    BurstStart(st, now);
    assert LastBurst(OnLoop(st, now), st.owner[FirstBurst(st.entries, now)]);
  }

  lemma {:induction false} AlwaysOnAir(states: seq<State>, events: seq<Event>)
    requires IsRun(states, events)
    ensures OnAir(states[|events|])
  {
    if events != [] {
      var n := |events| - 1;
      RunPrefix(states, events, n);
      AlwaysOnAir(states[..n + 1], events[..n]);
      EveryState(states[..n + 1], events[..n]);
      assert StepAt(states, events, n);
      OnAirStep(states[n], events[n]);
    }
  }

  /** While the radio advertises, what it sends is the packet of one reception, queued and not a gateway's,
      with one hop less; and that acceptance is the one whose burst began last. */
  lemma OnAirIsForwarded(states: seq<State>, events: seq<Event>) returns (i: nat, b: nat)
    requires IsRun(states, events) && states[|events|].advertising
    ensures states[|events|].starts != [] && LastBurst(states[|events|], i)
    ensures b < |events| && Accepts(states, b, i) && StemsFrom(states[|events|].log[i], events[b])
    ensures !events[b].connected && Forward(events[b].packet).Some?
    ensures states[|events|].advData == Advertisement(Forward(events[b].packet).value)
  {
    AlwaysOnAir(states, events);
    var st := states[|events|];
    i :| LastBurst(st, i);
    assert st.log[i].bursts[|st.log[i].bursts| - 1] in st.log[i].bursts;
    b := BurstsForward(states, events, i);
  }

  /** So a victim's packet goes from relay to relay as it should: where the reception was of the packet
      after `n` forwards, the burst carries it after `n + 1`, at most 19, and it still verifies. */
  lemma NextHop(p: Packet, data: seq<Byte>, u: Packet, mac: Signer, signs: bool, n: nat)
    requires Ttl(u.flags) == 0 && u.sig == 0 && Relayed(Sign(u, mac, signs), n) == Some(p)
    requires Forward(p).Some? && data == Advertisement(Forward(p).value)
    ensures Relayed(Sign(u, mac, signs), n + 1) == Forward(p) && n + 1 <= 19
    ensures Accepted(Some(data)) == Forward(p)
    ensures signs ==> Verifies(mac, Forward(p).value)
  {
    AdvertisementAccepted(Forward(p).value);
    SignatureSurvives(u, mac, signs, n + 1);
  }
}

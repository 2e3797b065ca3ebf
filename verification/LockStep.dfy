/** The flood when it spreads in lock step, copies with more hops left arriving first: its exact radius,
    and how each zone first carries the packet. */
module LockStep {
  import opened Packets
  import opened Topology
  import opened CircularBuffer
  import opened Flood
  import opened Delivery

  ghost predicate InLockStep(s: State, e: Event, h: Hash)
    requires Enabled(s, e)
  {
    e.Deliver? && s.flight[e.i].packet.sig == h ==>
      forall c | c in s.flight && c.packet.sig == h :: Ttl(c.packet.flags) <= Ttl(s.flight[e.i].packet.flags)
  }

  /** A relay that has accepted the packet broadcast it with all the hops its own depth leaves. */
  ghost predicate Prompt(mesh: Mesh, s: State, h: Hash, start: Zone)
    requires WellFormed(mesh, s)
  {
    forall n, z, d: nat | 0 <= n < |mesh.relays| && h in s.histories[n] && z in mesh.relays[n]
        && d <= START_TTL - 2 && NodeWithin(mesh, start, n, d) ::
      AiredBy(s, z, h, START_TTL - 1 - d)
  }

  /** Once no copy has more than `level` hops left, all nodes nearer than that have the packet. */
  lemma {:induction false} NearerHaveIt(mesh: Mesh, s: State, h: Hash, start: Zone, level: nat, m: nat, d: nat)
    requires WellFormed(mesh, s) && Covered(mesh, s, h) && Prompt(mesh, s, h, start)
    requires AiredBy(s, start, h, START_TTL)
    requires forall c | c in s.flight && c.packet.sig == h :: Ttl(c.packet.flags) <= level
    requires m < |s.histories| && level + d < START_TTL && NodeWithin(mesh, start, m, d)
    ensures h in s.histories[m]
    decreases d
  {
    var z :| z in mesh.Nodes()[m] && Within(mesh.relays, start, z, d);
    if d == 0 {
      HeardFrom(mesh, s, h, level, m, z, START_TTL);
    } else if Within(mesh.relays, start, z, d - 1) {
      NearerHaveIt(mesh, s, h, start, level, m, d - 1);
    } else {
      var n, y := LastRelay(mesh.relays, start, z, d);
      assert y in mesh.Nodes()[n];
      NearerHaveIt(mesh, s, h, start, level, n, d - 1);
      assert AiredBy(s, z, h, START_TTL - d);
      HeardFrom(mesh, s, h, level, m, z, START_TTL - d);
    }
  }

  lemma HeardFrom(mesh: Mesh, s: State, h: Hash, level: nat, m: nat, z: Zone, ttl: nat)
    requires WellFormed(mesh, s) && Covered(mesh, s, h) && AiredBy(s, z, h, ttl) && ttl > level
    requires forall c | c in s.flight && c.packet.sig == h :: Ttl(c.packet.flags) <= level
    requires m < |s.histories| && z in mesh.Nodes()[m]
    ensures h in s.histories[m]
  {}

  lemma PromptStep(mesh: Mesh, s: State, e: Event, h: Hash, start: Zone)
    requires WellFormed(mesh, s) && AcceptsOnce(s, h) && Begun(s, h, start)
    requires Covered(mesh, s, h) && Prompt(mesh, s, h, start)
    requires Enabled(s, e) && InLockStep(s, e, h)
    ensures WellFormed(mesh, Step(mesh, s, e)) && Prompt(mesh, Step(mesh, s, e), h, start)
  {
    var t := Step(mesh, s, e);
    WellFormedStep(mesh, s, e);
    if e.Deliver? { ArrivalFacts(mesh, s, e.i); }
    AiredByStays(s, t, h);
    forall n, z, d: nat | 0 <= n < |mesh.relays| && h in t.histories[n] && z in mesh.relays[n]
        && d <= START_TTL - 2 && NodeWithin(mesh, start, n, d)
      ensures AiredBy(t, z, h, START_TTL - 1 - d) {
      if h in s.histories[n] {
        assert AiredBy(s, z, h, START_TTL - 1 - d);
      } else {
        PromptArrival(mesh, s, e.i, h, start, z, d);
      }
    }
  }

  /** In lock step the first copy to arrive has lost no hop to a detour. */
  lemma PromptArrival(mesh: Mesh, s: State, i: nat, h: Hash, start: Zone, z: Zone, d: nat)
    requires WellFormed(mesh, s) && AcceptsOnce(s, h) && Begun(s, h, start)
    requires Covered(mesh, s, h) && Prompt(mesh, s, h, start)
    requires Enabled(s, Deliver(i)) && InLockStep(s, Deliver(i), h)
    requires s.flight[i].packet.sig == h && h !in s.histories[s.flight[i].dest] && s.flight[i].dest < |mesh.relays|
    requires z in mesh.relays[s.flight[i].dest] && d <= START_TTL - 2 && NodeWithin(mesh, start, s.flight[i].dest, d)
    ensures AiredBy(Arrive(mesh, s, i), z, h, START_TTL - 1 - d)
  {
    var c := s.flight[i];
    assert c in s.flight;
    var ttl := Ttl(c.packet.flags);
    if ttl + d < START_TTL {
      NearerHaveIt(mesh, s, h, start, ttl, c.dest, d);
    }
    SeenIffAccepted(s, c.dest, h);
    ArrivalFacts(mesh, s, i);
    assert Airing(z, Forward(c.packet).value) in Arrive(mesh, s, i).aired;
  }

  // ----- The first airing -----

  /** Airing `i` is the first of the packet in this zone. */
  ghost predicate FirstIn(s: State, i: nat, z: Zone, h: Hash) {
    && i < |s.aired| && s.aired[i].zone == z && s.aired[i].packet.sig == h
    && forall j | 0 <= j < i && s.aired[j].zone == z :: s.aired[j].packet.sig != h
  }

  /** Each zone first carries the packet with all the hops its depth leaves. */
  ghost predicate FirstIsBest(mesh: Mesh, s: State, h: Hash, start: Zone) {
    forall i, z, d: nat | 0 <= i && FirstIn(s, i, z, h) && IsDepth(mesh.relays, start, z, d) ::
      Ttl(s.aired[i].packet.flags) + d == START_TTL
  }

  lemma FirstStep(mesh: Mesh, s: State, e: Event, h: Hash, start: Zone)
    requires WellFormed(mesh, s) && AcceptsOnce(s, h) && Begun(s, h, start) && Near(mesh, s, h, start)
    requires Covered(mesh, s, h) && Prompt(mesh, s, h, start) && FirstIsBest(mesh, s, h, start)
    requires Enabled(s, e) && InLockStep(s, e, h) && SentFrom(e, h, start)
    ensures FirstIsBest(mesh, Step(mesh, s, e), h, start)
  {
    var t := Step(mesh, s, e);
    AiredGrows(mesh, s, e);
    forall i, z, d: nat | 0 <= i && FirstIn(t, i, z, h) && IsDepth(mesh.relays, start, z, d)
      ensures Ttl(t.aired[i].packet.flags) + d == START_TTL {
      if i < |s.aired| {
        assert FirstIn(s, i, z, h);
      } else {
        NotYetAired(s, t, i, z, h);
        NewFirst(mesh, s, e, h, start, i, z, d);
      }
    }
  }

  lemma AiredGrows(mesh: Mesh, s: State, e: Event)
    requires Enabled(s, e)
    ensures s.aired <= Step(mesh, s, e).aired
  {}

  lemma NotYetAired(s: State, t: State, i: nat, z: Zone, h: Hash)
    requires s.aired <= t.aired && |s.aired| <= i && FirstIn(t, i, z, h)
    ensures !IsAired(s, z, h)
  {
    forall a | a in s.aired && a.zone == z ensures a.packet.sig != h {
      var j :| 0 <= j < |s.aired| && s.aired[j] == a;
      assert t.aired[j] == a;
    }
  }

  lemma NewFirst(mesh: Mesh, s: State, e: Event, h: Hash, start: Zone, i: nat, z: Zone, d: nat)
    requires WellFormed(mesh, s) && AcceptsOnce(s, h) && Begun(s, h, start) && Near(mesh, s, h, start)
    requires Covered(mesh, s, h) && Prompt(mesh, s, h, start)
    requires Enabled(s, e) && InLockStep(s, e, h) && SentFrom(e, h, start)
    requires |s.aired| <= i < |Step(mesh, s, e).aired| && !IsAired(s, z, h) && IsDepth(mesh.relays, start, z, d)
    requires var a := Step(mesh, s, e).aired[i]; a.zone == z && a.packet.sig == h
    ensures Ttl(Step(mesh, s, e).aired[i].packet.flags) + d == START_TTL
  {
    var t := Step(mesh, s, e);
    NearStep(mesh, s, e, h, start);
    assert t.aired[i] in t.aired;
    DepthDecides(mesh.relays, start, z, d, START_TTL - Ttl(t.aired[i].packet.flags));
    if e.Send? {
      assert Within(mesh.relays, start, start, 0);
      DepthDecides(mesh.relays, start, z, d, 0);
    } else if Ttl(t.aired[i].packet.flags) + d < START_TTL {
      FirstArrival(mesh, s, e.i, h, start, t.aired[i], z, d);
    }
  }

  /** A zone that hears the packet with fewer hops than its depth leaves has heard it before. */
  lemma FirstArrival(mesh: Mesh, s: State, i: nat, h: Hash, start: Zone, a: Airing, z: Zone, d: nat)
    requires WellFormed(mesh, s) && AcceptsOnce(s, h) && Begun(s, h, start)
    requires Covered(mesh, s, h) && Prompt(mesh, s, h, start)
    requires Enabled(s, Deliver(i)) && InLockStep(s, Deliver(i), h)
    requires Forwards(mesh, s, s.flight[i]) && Forward(s.flight[i].packet) == Some(a.packet)
    requires a.zone == z && a.packet.sig == h && IsDepth(mesh.relays, start, z, d)
    requires Ttl(a.packet.flags) + d < START_TTL
    ensures IsAired(s, z, h)
  {
    var c := s.flight[i];
    assert c in s.flight && AiredBy(s, start, h, START_TTL);
    if d > 0 {
      var n, y := LastRelay(mesh.relays, start, z, d);
      assert y in mesh.Nodes()[n] && NodeWithin(mesh, start, n, d - 1);
      NearerHaveIt(mesh, s, h, start, Ttl(c.packet.flags), n, d - 1);
      assert AiredBy(s, z, h, START_TTL - d);
    }
  }

  // ----- Whole runs -----

  ghost predicate IsLockStep(mesh: Mesh, states: seq<State>, events: seq<Event>, h: Hash) {
    && IsRun(mesh, states, events)
    && forall k {:trigger events[k]} | 0 <= k < |events| :: InLockStep(states[k], events[k], h)
  }

  lemma {:induction false} Invariant(mesh: Mesh, states: seq<State>, events: seq<Event>, h: Hash, start: Zone)
    requires FaithfulRun(mesh, states, events, h, start)
    requires IsLockStep(mesh, states, events, h)
    ensures WellFormed(mesh, states[|events|]) && Prompt(mesh, states[|events|], h, start)
    ensures FirstIsBest(mesh, states[|events|], h, start)
  {
    if events != [] {
      var n := |events| - 1;
      Invariant(mesh, states[..n + 1], events[..n], h, start);
      FaithfulInvariants(mesh, states[..n + 1], events[..n], h, start);
      assert InLockStep(states[n], events[n], h);
      assert Faithful(states[n], events[n], h, start);
      FirstStep(mesh, states[n], events[n], h, start);
      PromptStep(mesh, states[n], events[n], h, start);
    }
  }

  // ----- Main results -----

  /** Any number of relays, in lock step: once the flood is over, exactly the nodes within 19 relays of
      the victim's zone have accepted the packet, once each ... */
  lemma Radius(mesh: Mesh, states: seq<State>, events: seq<Event>, h: Hash, start: Zone)
    requires FaithfulRun(mesh, states, events, h, start)
    requires IsLockStep(mesh, states, events, h)
    requires Over(states[|events|], h, start)
    ensures var s := states[|events|];
      && |s.histories| == |mesh.Nodes()|
      && forall m | 0 <= m < |s.histories| ::
           multiset(s.histories[m])[h] == if NodeWithin(mesh, start, m, 19) then 1 else 0
  {
    Invariant(mesh, states, events, h, start);
    FaithfulInvariants(mesh, states, events, h, start);
    var s := states[|events|];
    StartFirst(mesh, s, h, start);
    forall m | 0 <= m < |s.histories|
      ensures multiset(s.histories[m])[h] == if NodeWithin(mesh, start, m, 19) then 1 else 0 {
      SeenIffAccepted(s, m, h);
      if NodeWithin(mesh, start, m, 19) { NearerHaveIt(mesh, s, h, start, 0, m, 19); }
    }
  }

  /** ... and a zone of depth `d` carries it, at best with `20 - d` hops left, if `d <= 19`, and never
      otherwise. */
  lemma ZoneAtDepth(mesh: Mesh, states: seq<State>, events: seq<Event>,
                    h: Hash, start: Zone, z: Zone, d: nat)
    requires FaithfulRun(mesh, states, events, h, start)
    requires IsLockStep(mesh, states, events, h)
    requires Over(states[|events|], h, start)
    requires IsDepth(mesh.relays, start, z, d)
    ensures forall ttl: nat | ttl > 0 :: AiredBy(states[|events|], z, h, ttl) <==> ttl + d <= START_TTL
    ensures IsAired(states[|events|], z, h) <==> d <= 19
    ensures d <= 19 ==> exists i: nat :: (FirstIn(states[|events|], i, z, h)
      && Ttl(states[|events|].aired[i].packet.flags) == START_TTL - d)
  {
    Invariant(mesh, states, events, h, start);
    FaithfulInvariants(mesh, states, events, h, start);
    var s := states[|events|];
    AiringsAtMost(mesh, s, h, start, z, d);
    StartFirst(mesh, s, h, start);
    if d <= 19 {
      AiredAtDepth(mesh, s, h, start, z, d);
      var a :| a in s.aired && a.zone == z && a.packet.sig == h && Ttl(a.packet.flags) >= START_TTL - d;
      assert IsAired(s, z, h);
      var i := FirstExists(s, z, h, |s.aired|);
      assert FirstIn(s, i, z, h);
    }
  }

  lemma {:induction false} FirstExists(s: State, z: Zone, h: Hash, n: nat) returns (i: nat)
    requires n <= |s.aired| && exists j :: 0 <= j < n && s.aired[j].zone == z && s.aired[j].packet.sig == h
    ensures FirstIn(s, i, z, h)
  {
    if j :| 0 <= j < n - 1 && s.aired[j].zone == z && s.aired[j].packet.sig == h {
      i := FirstExists(s, z, h, n - 1);
    } else {
      i := n - 1;
    }
  }

  /** The victim's zone carried it first with all 20 hops. */
  lemma StartFirst(mesh: Mesh, s: State, h: Hash, start: Zone)
    requires FirstIsBest(mesh, s, h, start) && IsAired(s, start, h)
    ensures AiredBy(s, start, h, START_TTL)
  {
    var i := FirstExists(s, start, h, |s.aired|);
    assert IsDepth(mesh.relays, start, start, 0);
  }

  /** At any time: where the packet has been aired, its first airing had all the hops the depth of the
      zone leaves. */
  lemma FirstAiring(mesh: Mesh, states: seq<State>, events: seq<Event>,
                    h: Hash, start: Zone, i: nat, z: Zone, d: nat)
    requires FaithfulRun(mesh, states, events, h, start) && IsLockStep(mesh, states, events, h)
    requires FirstIn(states[|events|], i, z, h) && IsDepth(mesh.relays, start, z, d)
    ensures Ttl(states[|events|].aired[i].packet.flags) == START_TTL - d
  {
    Invariant(mesh, states, events, h, start);
  }

  lemma AiringsAtMost(mesh: Mesh, s: State, h: Hash, start: Zone, z: Zone, d: nat)
    requires Near(mesh, s, h, start) && IsDepth(mesh.relays, start, z, d)
    ensures forall ttl: nat | AiredBy(s, z, h, ttl) :: ttl + d <= START_TTL
    ensures IsAired(s, z, h) ==> d <= 19
  {
    forall a | a in s.aired && a.zone == z && a.packet.sig == h ensures 1 <= Ttl(a.packet.flags) <= START_TTL - d {
      DepthDecides(mesh.relays, start, z, d, START_TTL - Ttl(a.packet.flags));
    }
  }

  lemma AiredAtDepth(mesh: Mesh, s: State, h: Hash, start: Zone, z: Zone, d: nat)
    requires WellFormed(mesh, s) && Covered(mesh, s, h) && Prompt(mesh, s, h, start) && Quiet(s, h)
    requires AiredBy(s, start, h, START_TTL) && IsDepth(mesh.relays, start, z, d) && d <= 19
    ensures AiredBy(s, z, h, START_TTL - d)
  {
    if d > 0 {
      var n, y := LastRelay(mesh.relays, start, z, d);
      assert y in mesh.Nodes()[n];
      NearerHaveIt(mesh, s, h, start, 0, n, d - 1);
      assert NodeWithin(mesh, start, n, d - 1);
    }
  }
}

/** What the order of arrival can make of a flood: its outcomes are exactly the spreads of the topology.
    So both delivery and its failure are matters of the topology alone. */
module Outcomes {
  import opened Distinct
  import opened Packets
  import opened Topology
  import opened CircularBuffer
  import opened Flood
  import opened Spread
  import opened Delivery

  // ----- Runs made to a plan -----

  /** The node has accepted the packet, or a copy with just this time to live is on its way. */
  ghost predicate Coming(s: State, m: nat, h: Hash, ttl: nat)
    requires m < |s.histories|
  {
    || h in s.histories[m]
    || exists c :: c in s.flight && c.dest == m && c.packet.sig == h && Ttl(c.packet.flags) == ttl
  }

  /** Only this packet is about; it is where the plan has it, and coming where the plan will have it. */
  ghost predicate Pursues(mesh: Mesh, s: State, h: Hash, start: Zone, hops: seq<nat>) {
    && WellFormed(mesh, s) && IsPlan(mesh.relays, start, hops)
    && (forall m | 0 <= m < |s.histories| :: s.histories[m] == [] || s.histories[m] == [h])
    && (forall c | c in s.flight :: c.packet.sig == h && Reached(mesh.relays, start, hops, mesh.Nodes()[c.dest]))
    && (forall m | 0 <= m < |s.histories| && h in s.histories[m] :: Reached(mesh.relays, start, hops, mesh.Nodes()[m]))
    && (forall n | 0 <= n < |mesh.relays| && h in s.histories[n] :: hops[n] > 0)
    && Comes(mesh, s, h, start, hops)
  }

  ghost predicate Comes(mesh: Mesh, s: State, h: Hash, start: Zone, hops: seq<nat>)
    requires WellFormed(mesh, s)
  {
    && (forall m | 0 <= m < |s.histories| && start in mesh.Nodes()[m] :: Coming(s, m, h, START_TTL))
    && (forall n: nat, m | n < |mesh.relays| && h in s.histories[n] && 0 <= m < |s.histories|
            && Passes(mesh.relays, hops, n, mesh.Nodes()[m]) ::
          Coming(s, m, h, START_TTL - hops[n]))
  }

  /** A faithful run, with no traffic but the packet, in pursuit of the plan. */
  ghost predicate Pursuit(mesh: Mesh, states: seq<State>, events: seq<Event>, h: Hash, start: Zone, hops: seq<nat>) {
    && FaithfulRun(mesh, states, events, h, start) && Pursues(mesh, states[|events|], h, start, hops)
    && IsAired(states[|events|], start, h)
  }

  lemma SeenOnce(h: Hash)
    requires h != 0
    ensures !Seen([], h) && Seen([h], h)
  {
    SeenExactly([], h);
    SeenExactly([h], h);
    assert [h][0] == h;
  }

  lemma OnlyPacketRemembered(s: State, h: Hash)
    requires h != 0 && forall m | 0 <= m < |s.histories| :: s.histories[m] == [] || s.histories[m] == [h]
    ensures Remembers(s, h)
  {
    SeenOnce(h);
  }

  lemma RunExtends(mesh: Mesh, states: seq<State>, events: seq<Event>, e: Event,
                   h: Hash, start: Zone)
    requires FaithfulRun(mesh, states, events, h, start)
    requires Enabled(states[|events|], e) && Faithful(states[|events|], e, h, start)
    requires Remembers(Step(mesh, states[|events|], e), h)
    ensures FaithfulRun(mesh, states + [Step(mesh, states[|events|], e)], events + [e], h, start)
  {}

  lemma Begin(mesh: Mesh, h: Hash, start: Zone, hops: seq<nat>) returns (states: seq<State>, events: seq<Event>)
    requires h != 0 && IsPlan(mesh.relays, start, hops)
    ensures Pursuit(mesh, states, events, h, start, hops)
  {
    var boot := State(seq(|mesh.Nodes()|, _ => []), [], []);
    var p := Packet(0, 0, START_TTL, [0, 0, 0, 0, 0, 0, 0, 0], h);
    var s := Step(mesh, boot, Send(start, p));
    OnlyPacketRemembered(boot, h);
    OnlyPacketRemembered(s, h);
    assert FaithfulRun(mesh, [boot], [], h, start);
    RunExtends(mesh, [boot], [], Send(start, p), h, start);
    states, events := [boot] + [s], [] + [Send(start, p)];
    BroadcastCopies(mesh.Nodes(), start, p);
    assert states[|events|] == s && Airing(start, p) in s.aired;
    forall m | 0 <= m < |s.histories| && start in mesh.Nodes()[m] ensures Coming(s, m, h, START_TTL) {
      assert Copy(m, p) in s.flight;
    }
  }

  /** Copy `k` reaches a relay that has yet to take the packet, in its place in the plan. */
  ghost predicate InPlace(mesh: Mesh, s: State, h: Hash, hops: seq<nat>, k: nat) {
    && k < |s.flight| && s.flight[k].dest < |mesh.relays| && |hops| == |mesh.relays| && |s.histories| >= |mesh.relays|
    && h !in s.histories[s.flight[k].dest]
    && 1 <= hops[s.flight[k].dest] == START_TTL + 1 - Ttl(s.flight[k].packet.flags)
  }

  lemma Takes(mesh: Mesh, s: State, h: Hash, start: Zone, hops: seq<nat>, k: nat)
    requires h != 0 && Pursues(mesh, s, h, start, hops) && InPlace(mesh, s, h, hops, k)
    ensures Pursues(mesh, Arrive(mesh, s, k), h, start, hops)
    ensures var n := s.flight[k].dest; Arrive(mesh, s, k).histories == s.histories[n := [h]]
  {
    var c, t := s.flight[k], Arrive(mesh, s, k);
    assert c in s.flight;
    WellFormedStep(mesh, s, Deliver(k));
    SeenOnce(h);
    TakenComes(mesh, s, h, start, hops, k);
    ArrivalFacts(mesh, s, k);
    forall x | x in t.flight ensures x.packet.sig == h && Reached(mesh.relays, start, hops, mesh.Nodes()[x.dest]) {
      if x !in s.flight { assert Passes(mesh.relays, hops, c.dest, mesh.Nodes()[x.dest]); }
    }
  }

  lemma TakenComes(mesh: Mesh, s: State, h: Hash, start: Zone, hops: seq<nat>, k: nat)
    requires h != 0 && Pursues(mesh, s, h, start, hops) && InPlace(mesh, s, h, hops, k)
    ensures WellFormed(mesh, Arrive(mesh, s, k)) && Comes(mesh, Arrive(mesh, s, k), h, start, hops)
  {
    var c, t := s.flight[k], Arrive(mesh, s, k);
    assert c in s.flight;
    WellFormedStep(mesh, s, Deliver(k));
    SeenOnce(h);
    ArrivalFacts(mesh, s, k);
    forall m, ttl: nat | 0 <= m < |s.histories| && Coming(s, m, h, ttl) ensures Coming(t, m, h, ttl) {}
    forall m | 0 <= m < |s.histories| && Passes(mesh.relays, hops, c.dest, mesh.Nodes()[m])
      ensures Coming(t, m, h, START_TTL - hops[c.dest]) {
      assert Offspring(mesh, c, Copy(m, Forward(c.packet).value));
    }
  }

  /** While some planned relay waits, there is one whose copy is in flight. */
  lemma {:induction false} NextInPlace(mesh: Mesh, s: State, h: Hash, start: Zone, hops: seq<nat>, n: nat)
    returns (k: nat)
    requires Pursues(mesh, s, h, start, hops) && n < |mesh.relays| && hops[n] > 0 && h !in s.histories[n]
    ensures InPlace(mesh, s, h, hops, k)
    decreases hops[n]
  {
    assert mesh.Nodes()[n] == mesh.relays[n] && IsPlanned(mesh.relays, start, hops, n);
    if hops[n] == 1 {
      assert Coming(s, n, h, START_TTL);
      var c :| c in s.flight && c.dest == n && c.packet.sig == h && Ttl(c.packet.flags) == START_TTL;
      k :| 0 <= k < |s.flight| && s.flight[k] == c;
    } else {
      var p: nat :| Passes(mesh.relays, hops, p, mesh.relays[n]) && hops[p] + 1 == hops[n];
      if h in s.histories[p] {
        assert Coming(s, n, h, START_TTL - hops[p]);
        var c :| c in s.flight && c.dest == n && c.packet.sig == h && Ttl(c.packet.flags) == START_TTL - hops[p];
        k :| 0 <= k < |s.flight| && s.flight[k] == c;
      } else {
        k := NextInPlace(mesh, s, h, start, hops, p);
      }
    }
  }

  /** The planned relays that have yet to take the packet. */
  ghost function Waiting(s: State, h: Hash, hops: seq<nat>): set<nat> {
    set n | n in Below(|hops|) && n < |s.histories| && hops[n] > 0 && h !in s.histories[n]
  }

  lemma FewerWait(mesh: Mesh, s: State, h: Hash, start: Zone, hops: seq<nat>, k: nat)
    requires h != 0 && Pursues(mesh, s, h, start, hops) && InPlace(mesh, s, h, hops, k)
    ensures Pursues(mesh, Arrive(mesh, s, k), h, start, hops)
    ensures |Waiting(Arrive(mesh, s, k), h, hops)| < |Waiting(s, h, hops)|
  {
    Takes(mesh, s, h, start, hops, k);
    SmallerSet(Waiting(Arrive(mesh, s, k), h, hops), Waiting(s, h, hops), s.flight[k].dest);
  }

  lemma {:induction false} Pursue(mesh: Mesh, states0: seq<State>, events0: seq<Event>,
                                  h: Hash, start: Zone, hops: seq<nat>)
    returns (states: seq<State>, events: seq<Event>)
    requires h != 0 && Pursuit(mesh, states0, events0, h, start, hops)
    ensures Pursuit(mesh, states, events, h, start, hops) && Waiting(states[|events|], h, hops) == {}
    decreases |Waiting(states0[|events0|], h, hops)|
  {
    var s := states0[|events0|];
    if n :| n in Waiting(s, h, hops) {
      var k := NextInPlace(mesh, s, h, start, hops, n);
      FewerWait(mesh, s, h, start, hops, k);
      StillAired(mesh, s, k, h, start);
      OnlyPacketRemembered(Arrive(mesh, s, k), h);
      RunExtends(mesh, states0, events0, Deliver(k), h, start);
      states, events := Pursue(mesh, states0 + [Arrive(mesh, s, k)], events0 + [Deliver(k)], h, start, hops);
    } else {
      states, events := states0, events0;
    }
  }

  lemma StillAired(mesh: Mesh, s: State, k: nat, h: Hash, start: Zone)
    requires k < |s.flight| && s.flight[k].dest < |s.histories| && IsAired(s, start, h)
    ensures IsAired(Arrive(mesh, s, k), start, h)
  {
    ArrivalFacts(mesh, s, k);
    AiredStays(s, Arrive(mesh, s, k), h);
  }

  /** Once all of a spread have the packet, what is still in flight sets off nothing. */
  lemma PassedOver(mesh: Mesh, s: State, h: Hash, start: Zone, hops: seq<nat>)
    requires h != 0 && Pursues(mesh, s, h, start, hops) && IsSpread(mesh.relays, start, hops)
    requires Waiting(s, h, hops) == {} && s.flight != []
    ensures var t := Arrive(mesh, s, 0);
      Pursues(mesh, t, h, start, hops) && Waiting(t, h, hops) == {} && |t.flight| < |s.flight|
  {
    var c, t := s.flight[0], Arrive(mesh, s, 0);
    assert c in s.flight;
    WellFormedStep(mesh, s, Deliver(0));
    SeenOnce(h);
    if c.dest < |mesh.relays| {
      assert mesh.Nodes()[c.dest] == mesh.relays[c.dest];
      assert c.dest !in Waiting(s, h, hops);
      assert s.histories[c.dest] == [h];
    }
    ArrivalFacts(mesh, s, 0);
    forall m, ttl: nat | 0 <= m < |s.histories| && Coming(s, m, h, ttl) ensures Coming(t, m, h, ttl) {}
    assert Waiting(t, h, hops) == {};
  }

  lemma {:induction false} Settle(mesh: Mesh, states0: seq<State>, events0: seq<Event>,
                                  h: Hash, start: Zone, hops: seq<nat>)
    returns (states: seq<State>, events: seq<Event>)
    requires h != 0 && Pursuit(mesh, states0, events0, h, start, hops) && IsSpread(mesh.relays, start, hops)
    requires Waiting(states0[|events0|], h, hops) == {}
    ensures Pursuit(mesh, states, events, h, start, hops) && Waiting(states[|events|], h, hops) == {}
    ensures states[|events|].flight == []
    decreases |states0[|events0|].flight|
  {
    var s := states0[|events0|];
    if s.flight == [] {
      states, events := states0, events0;
    } else {
      assert s.flight[0] in s.flight;
      PassedOver(mesh, s, h, start, hops);
      StillAired(mesh, s, 0, h, start);
      OnlyPacketRemembered(Arrive(mesh, s, 0), h);
      RunExtends(mesh, states0, events0, Deliver(0), h, start);
      states, events := Settle(mesh, states0 + [Arrive(mesh, s, 0)], events0 + [Deliver(0)], h, start, hops);
    }
  }

  // ----- Outcomes -----

  /** Some lossless run ends with just these nodes having accepted the packet. */
  ghost predicate IsOutcome(mesh: Mesh, h: Hash, start: Zone, heard: set<int>) {
    exists states, events :: EndsWith(mesh, states, events, h, start, heard)
  }

  ghost predicate EndsWith(mesh: Mesh, states: seq<State>, events: seq<Event>,
                           h: Hash, start: Zone, heard: set<int>)
  {
    && FaithfulRun(mesh, states, events, h, start) && Over(states[|events|], h, start)
    && HeardBy(states[|events|], h) == heard
  }

  /** Some spread of the topology reaches just these nodes. */
  ghost predicate IsReach(mesh: Mesh, start: Zone, heard: set<int>) {
    exists hops :: IsSpread(mesh.relays, start, hops) && ReachedBy(mesh, start, hops) == heard
  }

  lemma SpreadHappens(mesh: Mesh, h: Hash, start: Zone, hops: seq<nat>)
    requires h != 0 && IsSpread(mesh.relays, start, hops)
    ensures IsOutcome(mesh, h, start, ReachedBy(mesh, start, hops))
  {
    var states, events := Begin(mesh, h, start, hops);
    states, events := Pursue(mesh, states, events, h, start, hops);
    states, events := Settle(mesh, states, events, h, start, hops);
    AllReachedHeard(mesh, states[|events|], h, start, hops);
    assert EndsWith(mesh, states, events, h, start, ReachedBy(mesh, start, hops));
  }

  lemma AllReachedHeard(mesh: Mesh, s: State, h: Hash, start: Zone, hops: seq<nat>)
    requires Pursues(mesh, s, h, start, hops) && Waiting(s, h, hops) == {} && s.flight == []
    ensures HeardBy(s, h) == ReachedBy(mesh, start, hops)
  {
    forall m | 0 <= m < |mesh.Nodes()| && Reached(mesh.relays, start, hops, mesh.Nodes()[m])
      ensures h in s.histories[m] {
      if start in mesh.Nodes()[m] {
        assert Coming(s, m, h, START_TTL);
      } else {
        var p: nat :| Passes(mesh.relays, hops, p, mesh.Nodes()[m]);
        assert p !in Waiting(s, h, hops);
        assert Coming(s, m, h, START_TTL - hops[p]);
      }
    }
  }

  /** The order of arrival can bring about exactly what the spreads of the topology allow. */
  lemma OutcomesExactly(mesh: Mesh, h: Hash, start: Zone, heard: set<int>)
    requires h != 0
    ensures IsOutcome(mesh, h, start, heard) <==> IsReach(mesh, start, heard)
  {
    if IsOutcome(mesh, h, start, heard) {
      var states, events :| EndsWith(mesh, states, events, h, start, heard);
      var hops := EverySpread(mesh, states, events, h, start);
    }
    if IsReach(mesh, start, heard) {
      var hops :| IsSpread(mesh.relays, start, hops) && ReachedBy(mesh, start, hops) == heard;
      SpreadHappens(mesh, h, start, hops);
    }
  }

  /** Whatever the order of arrival, the packet gets to all that is connected. */
  ghost predicate AlwaysDelivers(mesh: Mesh, h: Hash, start: Zone) {
    forall states, events |
      FaithfulRun(mesh, states, events, h, start) && Over(states[|events|], h, start) ::
      Delivered(mesh, states[|events|], h, start)
  }

  /** A mesh always delivers exactly if each of its spreads reaches all that is connected. */
  lemma DeliveryExactly(mesh: Mesh, h: Hash, start: Zone)
    requires h != 0
    ensures AlwaysDelivers(mesh, h, start) <==>
      forall hops | IsSpread(mesh.relays, start, hops) :: ReachesAll(mesh, start, hops)
  {
    if AlwaysDelivers(mesh, h, start) {
      forall hops | IsSpread(mesh.relays, start, hops) ensures ReachesAll(mesh, start, hops) {
        SpreadHappens(mesh, h, start, hops);
        var states, events :| EndsWith(mesh, states, events, h, start, ReachedBy(mesh, start, hops));
        SpreadDelivers(mesh, states, events, h, start, hops);
      }
    }
    if forall hops | IsSpread(mesh.relays, start, hops) :: ReachesAll(mesh, start, hops) {
      forall states, events |
        FaithfulRun(mesh, states, events, h, start) && Over(states[|events|], h, start)
        ensures Delivered(mesh, states[|events|], h, start) {
        var hops := EverySpread(mesh, states, events, h, start);
        SpreadDelivers(mesh, states, events, h, start, hops);
      }
    }
  }

  // ----- Hop exhaustion -----

  ghost predicate NeverDies(mesh: Mesh, h: Hash, start: Zone) {
    forall states, events, c | FaithfulRun(mesh, states, events, h, start) ::
      !Dies(mesh, states[|events|], h, c)
  }

  /** Copies never die short of a relay that has not seen the packet exactly if no 20 relays form a chain. */
  lemma HopExhaustionExactly(mesh: Mesh, h: Hash, start: Zone)
    requires h != 0
    ensures NeverDies(mesh, h, start) <==> NoLongChain(mesh.relays, start)
  {
    if NoLongChain(mesh.relays, start) {
      forall states, events, c | FaithfulRun(mesh, states, events, h, start)
        ensures !Dies(mesh, states[|events|], h, c) {
        NoHopExhaustion(mesh, states, events, h, start, c);
      }
    } else {
      var chain :| IsChain(mesh.relays, start, chain) && |chain| >= START_TTL;
      ChainPrefix(mesh.relays, start, chain, START_TTL);
      var states, events, c := DiesAtEnd(mesh, h, start, chain[..START_TTL]);
    }
  }

  /** The packet can go down a chain of 20 until its copies die at the last relay. */
  lemma DiesAtEnd(mesh: Mesh, h: Hash, start: Zone, chain: seq<nat>)
    returns (states: seq<State>, events: seq<Event>, c: Copy)
    requires h != 0 && IsChain(mesh.relays, start, chain) && |chain| == START_TTL
    ensures FaithfulRun(mesh, states, events, h, start) && Dies(mesh, states[|events|], h, c)
  {
    var hops := Along(mesh.relays, chain[..START_TTL - 1]);
    AllButLast(mesh.relays, start, chain);
    states, events := Begin(mesh, h, start, hops);
    states, events := Pursue(mesh, states, events, h, start, hops);
    c := LastHopComes(mesh, states[|events|], h, start, hops, chain[START_TTL - 2], chain[START_TTL - 1]);
  }

  lemma AllButLast(relays: Relays, start: Zone, chain: seq<nat>)
    requires IsChain(relays, start, chain) && |chain| == START_TTL
    ensures var hops, p, last := Along(relays, chain[..START_TTL - 1]), chain[START_TTL - 2], chain[START_TTL - 1];
      && IsPlan(relays, start, hops) && p < |relays| && last < |relays|
      && hops[p] == START_TTL - 1 && hops[last] == 0 && Passes(relays, hops, p, relays[last])
  {
    var rest := chain[..START_TTL - 1];
    ChainPrefix(relays, start, chain, START_TTL - 1);
    ChainIsPlan(relays, start, rest);
    assert rest[START_TTL - 2] == chain[START_TTL - 2];
    assert IsLink(relays, chain, START_TTL - 2);
  }

  lemma LastHopComes(mesh: Mesh, s: State, h: Hash, start: Zone, hops: seq<nat>, p: nat, last: nat) returns (c: Copy)
    requires h != 0 && Pursues(mesh, s, h, start, hops) && Waiting(s, h, hops) == {}
    requires p < |mesh.relays| && last < |mesh.relays| && hops[p] == START_TTL - 1 && hops[last] == 0
    requires Passes(mesh.relays, hops, p, mesh.relays[last])
    ensures Dies(mesh, s, h, c)
  {
    assert p !in Waiting(s, h, hops);
    assert mesh.Nodes()[last] == mesh.relays[last];
    assert Coming(s, last, h, START_TTL - hops[p]);
    c :| c in s.flight && c.dest == last && c.packet.sig == h && Ttl(c.packet.flags) == 1;
    SeenOnce(h);
  }

  // ----- A node cut off -----

  /** A node whose only zone hangs on a relay that is twentieth on some chain, however near the victim,
      can be left without the packet. */
  lemma CanBeCutOff(mesh: Mesh, h: Hash, start: Zone, chain: seq<nat>, z: Zone, m: nat)
    requires h != 0 && IsChain(mesh.relays, start, chain) && |chain| == START_TTL
    requires z != start && forall n | 0 <= n < |mesh.relays| && z in mesh.relays[n] :: n == chain[START_TTL - 1]
    requires m < |mesh.Nodes()| && forall y | y in mesh.Nodes()[m] :: y == z
    ensures exists heard :: IsOutcome(mesh, h, start, heard) && m !in heard
  {
    var hops := ChainCutsOff(mesh.relays, start, chain, z, mesh.Nodes()[m]);
    SpreadHappens(mesh, h, start, hops);
    assert m !in ReachedBy(mesh, start, hops);
  }
}

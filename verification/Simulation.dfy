/** The generator and the flood together: which exits of a generated mesh hear the victim, and two
    meshes where delivery fails. */
module Simulation {
  import opened Packets
  import opened Topology
  import opened Flood
  import opened Spread
  import opened Delivery
  import opened LockStep
  import opened Outcomes
  import opened MeshGenerator

  /** A generated mesh: each exit is on one zone. */
  function MeshOf(relays: Relays, exits: seq<Zone>): Mesh {
    Mesh(relays, seq(|exits|, j requires 0 <= j < |exits| => [exits[j]]))
  }

  /** The node of exit `j`. */
  lemma ExitNode(relays: Relays, exits: seq<Zone>, j: nat, k: nat)
    requires j < |exits|
    ensures |MeshOf(relays, exits).Nodes()| == |relays| + |exits|
    ensures var mesh, m := MeshOf(relays, exits), |relays| + j;
      && (NodeWithin(mesh, VICTIM_ZONE, m, k) <==> Within(relays, VICTIM_ZONE, exits[j], k))
      && (Connected(mesh, VICTIM_ZONE, m) <==> Reachable(relays, VICTIM_ZONE, exits[j]))
  {
    var node := MeshOf(relays, exits).Nodes()[|relays| + j];
    assert node == [exits[j]] && exits[j] in node;
  }

  /** In lock step an exit hears the victim exactly if the generator's depth of its zone is at most 19. */
  lemma ExitHearsWithinDepth(relays: Relays, exits: seq<Zone>, depths: Depths, numExits: nat, j: nat,
                             states: seq<State>, events: seq<Event>, h: Hash)
    requires AreDepths(relays, depths) && WellPlaced(depths, exits, numExits) && j < numExits
    requires var mesh := MeshOf(relays, exits);
      && FaithfulRun(mesh, states, events, h, VICTIM_ZONE)
      && IsLockStep(mesh, states, events, h)
      && Over(states[|events|], h, VICTIM_ZONE)
    ensures var s := states[|events|];
      && |s.histories| == |relays| + numExits && exits[j] in depths
      && multiset(s.histories[|relays| + j])[h] == if depths[exits[j]] <= 19 then 1 else 0
  {
    var mesh, m := MeshOf(relays, exits), |relays| + j;
    Radius(mesh, states, events, h, VICTIM_ZONE);
    DepthDecides(relays, VICTIM_ZONE, exits[j], depths[exits[j]], 19);
    ExitNode(relays, exits, j, 19);
  }

  /** Where no 20 relays form a chain every exit hears it, once, whatever the order of arrival. */
  lemma EveryExitHears(relays: Relays, exits: seq<Zone>, depths: Depths, numExits: nat, j: nat,
                       states: seq<State>, events: seq<Event>, h: Hash)
    requires AreDepths(relays, depths) && WellPlaced(depths, exits, numExits) && j < numExits
    requires NoLongChain(relays, VICTIM_ZONE)
    requires FaithfulRun(MeshOf(relays, exits), states, events, h, VICTIM_ZONE)
    requires Over(states[|events|], h, VICTIM_ZONE)
    ensures var s := states[|events|];
      |s.histories| == |relays| + numExits && multiset(s.histories[|relays| + j])[h] == 1
  {
    var mesh, m := MeshOf(relays, exits), |relays| + j;
    DeliveredInAnyOrder(mesh, states, events, h, VICTIM_ZONE);
    ExitNode(relays, exits, j, 0);
    assert exits[j] in exits;
  }

  // ----- 20 relays are too many: a line -----

  /** Relay `i` bridges zones `i + 1` and `i + 2`; one exit at the far end. */
  function Line(r: nat): Mesh {
    Mesh(seq(r, i requires 0 <= i => [i + 1, i + 2]), [[r + 1]])
  }

  lemma {:induction false} LineWithin(r: nat, z: Zone, k: nat)
    ensures Within(Line(r).relays, 1, z, k) <==> 1 <= z <= k + 1 && z <= r + 1
    decreases k
  {
    if k != 0 {
      LineWithin(r, z, k - 1);
      forall y ensures Bridged(Line(r).relays, y, z) && Within(Line(r).relays, 1, y, k - 1) ==>
          1 <= z <= k + 1 && z <= r + 1 {
        LineWithin(r, y, k - 1);
      }
      if z == k + 1 && z <= r + 1 {
        LineWithin(r, k, k - 1);
        assert Line(r).relays[k - 1] == [k, k + 1];
        assert Bridged(Line(r).relays, k, z);
      }
    }
  }

  /** The far exit is connected, over all `r` relays. */
  lemma LineEnd(r: nat)
    ensures |Line(r).Nodes()| == r + 1 && Connected(Line(r), 1, r)
    ensures NodeWithin(Line(r), 1, r, 19) <==> r <= 19
  {
    assert Line(r).Nodes()[r] == [r + 1];
    assert r + 1 in Line(r).Nodes()[r];
    LineWithin(r, r + 1, r);
    assert Reachable(Line(r).relays, 1, r + 1);
    LineWithin(r, r + 1, 19);
  }

  /** From 20 relays on there are meshes with a connected exit that no run reaches. */
  lemma LineNeverHeard(r: nat, states: seq<State>, events: seq<Event>, h: Hash)
    requires r >= 20 && IsRun(Line(r), states, events) && WellFormed(Line(r), states[0]) && Unknown(states[0], h)
    requires forall e | e in events :: SentFrom(e, h, 1)
    ensures Connected(Line(r), 1, r)
    ensures |states[|events|].histories| == r + 1 && h !in states[|events|].histories[r]
  {
    LineEnd(r);
    NeverBeyondRadius(Line(r), states, events, h, 1);
  }

  // ----- ... and a nearby exit can be shadowed by a detour -----

  /** Relays 0 to 18 form a line over zones 1 to 20. Relay 19 is on both its ends and on zone 21, where
      the exit is: one relay away from the victim. */
  function Detour(): Mesh {
    Mesh(seq(20, i requires 0 <= i => if i < 19 then [i + 1, i + 2] else [1, 20, 21]), [[21]])
  }

  /** The packet can go round the detour, to arrive at relay 19 with one hop left before the direct copy
      does. */
  lemma DetourIsChain()
    ensures IsChain(Detour().relays, 1, seq(20, i => i))
  {
    var relays, chain := Detour().relays, seq(20, i => i);
    forall i: nat | i < 19 ensures IsLink(relays, chain, i) {
      assert i + 2 in relays[i] && i + 2 in relays[i + 1];
    }
  }

  /** With 20 relays, a lossless run can end without an exit one relay from the victim having heard it. */
  lemma ShadowedExit(h: Hash)
    requires h != 0
    ensures |Detour().relays| == 20 && NodeWithin(Detour(), 1, 20, 1)
    ensures exists heard :: IsOutcome(Detour(), h, 1, heard) && 20 !in heard
  {
    assert Detour().Nodes()[20] == [21] && Detour().relays[19] == [1, 20, 21];
    assert Bridged(Detour().relays, 1, 21);
    assert Within(Detour().relays, 1, 1, 0) && Within(Detour().relays, 1, 21, 1);
    assert 21 in Detour().Nodes()[20];
    DetourIsChain();
    CanBeCutOff(Detour(), h, 1, seq(20, i => i), 21, 20);
  }
}

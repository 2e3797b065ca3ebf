/** The ways a packet can spread over a topology, whatever the order of arrival: which relays take it, and
    after how many others. */
module Spread {
  import opened Distinct
  import opened Packets
  import opened Topology

  /** Relay `p` forwards the packet, and a node attached to `zones` hears it. The twentieth relay on the
      packet's way no longer forwards it. */
  ghost predicate Passes(relays: Relays, hops: seq<nat>, p: nat, zones: seq<Zone>) {
    p < |relays| && p < |hops| && 1 <= hops[p] < START_TTL && Share(relays[p], zones)
  }

  /** `hops[n]` counts the relays on the way the packet takes to relay `n`, itself included; 0 means that
      it never gets there. Each relay takes it from the victim or from one that comes just before. */
  ghost predicate IsPlan(relays: Relays, start: Zone, hops: seq<nat>) {
    && |hops| == |relays|
    && forall n {:trigger IsPlanned(relays, start, hops, n)} | 0 <= n < |relays| && hops[n] > 0 ::
         IsPlanned(relays, start, hops, n)
  }

  ghost predicate IsPlanned(relays: Relays, start: Zone, hops: seq<nat>, n: nat)
    requires n < |relays| && n < |hops|
  {
    if hops[n] == 1 then start in relays[n]
    else exists p: nat :: Passes(relays, hops, p, relays[n]) && hops[p] + 1 == hops[n]
  }

  /** A node attached to `zones` hears the victim or a relay. */
  ghost predicate Reached(relays: Relays, start: Zone, hops: seq<nat>, zones: seq<Zone>) {
    start in zones || exists p: nat :: Passes(relays, hops, p, zones)
  }

  /** A plan that leaves out no relay that would hear the packet. */
  ghost predicate IsSpread(relays: Relays, start: Zone, hops: seq<nat>) {
    && IsPlan(relays, start, hops)
    && forall n | 0 <= n < |relays| && hops[n] == 0 :: !Reached(relays, start, hops, relays[n])
  }

  /** Distinct relays, the first on `start`, each sharing a zone with the next. */
  ghost predicate IsChain(relays: Relays, start: Zone, chain: seq<nat>) {
    && NoRepeats(chain) && (forall i | 0 <= i < |chain| :: chain[i] < |relays|)
    && (chain != [] ==> start in relays[chain[0]])
    && forall i: nat | i + 1 < |chain| :: IsLink(relays, chain, i)
  }

  ghost predicate IsLink(relays: Relays, chain: seq<nat>, i: nat)
    requires i + 1 < |chain| && chain[i] < |relays| && chain[i + 1] < |relays|
  {
    Share(relays[chain[i]], relays[chain[i + 1]])
  }

  lemma ChainPrefix(relays: Relays, start: Zone, chain: seq<nat>, n: nat)
    requires IsChain(relays, start, chain) && n <= |chain|
    ensures IsChain(relays, start, chain[..n])
  {
    var first := chain[..n];
    forall i: nat | i + 1 < n ensures IsLink(relays, first, i) { assert IsLink(relays, chain, i); }
  }

  lemma ChainExtends(relays: Relays, start: Zone, chain: seq<nat>, n: nat)
    requires IsChain(relays, start, chain) && chain != [] && n < |relays| && n !in chain
    requires Share(relays[chain[|chain| - 1]], relays[n])
    ensures IsChain(relays, start, chain + [n])
  {
    var more := chain + [n];
    forall i: nat | i + 1 < |more| ensures IsLink(relays, more, i) {
      if i + 1 < |chain| { assert IsLink(relays, chain, i); }
    }
  }

  ghost predicate NoLongChain(relays: Relays, start: Zone) {
    forall chain | IsChain(relays, start, chain) :: |chain| < START_TTL
  }

  lemma FewRelays(relays: Relays, start: Zone)
    requires |relays| < START_TTL
    ensures NoLongChain(relays, start)
  {
    forall chain | IsChain(relays, start, chain) ensures |chain| < START_TTL {
      forall n | n in chain ensures n in Below(|relays|) {}
      DistinctFit(chain, Below(|relays|));
    }
  }

  // ----- Plans and chains -----

  /** The relays a planned packet came through. */
  lemma {:induction false} PlannedChain(relays: Relays, start: Zone, hops: seq<nat>, n: nat) returns (chain: seq<nat>)
    requires IsPlan(relays, start, hops) && n < |relays| && hops[n] > 0
    ensures IsChain(relays, start, chain) && |chain| == hops[n] && chain[|chain| - 1] == n
    ensures forall i | 0 <= i < |chain| :: chain[i] < |hops| && hops[chain[i]] == i + 1
    decreases hops[n]
  {
    assert IsPlanned(relays, start, hops, n);
    if hops[n] == 1 {
      chain := [n];
    } else {
      var p: nat :| Passes(relays, hops, p, relays[n]) && hops[p] + 1 == hops[n];
      var rest := PlannedChain(relays, start, hops, p);
      ChainExtends(relays, start, rest, n);
      chain := rest + [n];
    }
  }

  /** So where chains are short every planned relay has a hop to spare. */
  lemma ShortPlan(relays: Relays, start: Zone, hops: seq<nat>)
    requires IsPlan(relays, start, hops) && NoLongChain(relays, start)
    ensures forall n | 0 <= n < |relays| :: hops[n] < START_TTL
  {
    forall n | 0 <= n < |relays| ensures hops[n] < START_TTL {
      if hops[n] > 0 { var _ := PlannedChain(relays, start, hops, n); }
    }
  }

  /** 1 for the first of the chain, and so on; 0 for those not on it. */
  function Place(chain: seq<nat>, n: nat): (d: nat)
    ensures d <= |chain| && (d > 0 ==> chain[d - 1] == n) && (d == 0 ==> n !in chain)
  {
    if chain == [] then 0
    else if chain[|chain| - 1] == n then |chain|
    else Place(chain[..|chain| - 1], n)
  }

  /** The packet goes along the chain, and nowhere else. */
  function Along(relays: Relays, chain: seq<nat>): (hops: seq<nat>)
    ensures |hops| == |relays|
  {
    seq(|relays|, n requires 0 <= n => Place(chain, n))
  }

  lemma ChainIsPlan(relays: Relays, start: Zone, chain: seq<nat>)
    requires IsChain(relays, start, chain) && |chain| <= START_TTL
    ensures IsPlan(relays, start, Along(relays, chain))
    ensures forall i | 0 <= i < |chain| :: chain[i] < |relays| && Along(relays, chain)[chain[i]] == i + 1
  {
    var hops := Along(relays, chain);
    forall i | 0 <= i < |chain| ensures chain[i] < |relays| && hops[chain[i]] == i + 1 {
      assert chain[i] in chain;
    }
    forall n | 0 <= n < |relays| && hops[n] > 0 ensures IsPlanned(relays, start, hops, n) {
      var i := hops[n] - 1;
      assert chain[i] == n;
      if i > 0 {
        assert IsLink(relays, chain, i - 1);
        assert Passes(relays, hops, chain[i - 1], relays[n]);
      }
    }
  }

  // ----- Plans and spreads -----

  /** `more` plans for further relays. */
  ghost predicate Refines(hops: seq<nat>, more: seq<nat>) {
    |more| == |hops| && forall n | 0 <= n < |hops| && hops[n] > 0 :: more[n] == hops[n]
  }

  /** Planning for one more relay takes nothing back. */
  lemma PlanExtends(relays: Relays, start: Zone, hops: seq<nat>, n: nat, d: nat)
    requires IsPlan(relays, start, hops) && n < |relays| && hops[n] == 0 && d > 0
    requires if d == 1 then start in relays[n]
      else exists p: nat :: Passes(relays, hops, p, relays[n]) && hops[p] + 1 == d
    ensures IsPlan(relays, start, hops[n := d]) && Refines(hops, hops[n := d])
  {
    var more := hops[n := d];
    forall m | 0 <= m < |relays| && more[m] > 0 ensures IsPlanned(relays, start, more, m) {
      if m != n { assert IsPlanned(relays, start, hops, m); }
      if more[m] > 1 {
        var p: nat :| Passes(relays, hops, p, relays[m]) && hops[p] + 1 == more[m];
        assert Passes(relays, more, p, relays[m]);
      }
    }
  }

  lemma ReachedStays(relays: Relays, start: Zone, hops: seq<nat>, more: seq<nat>, zones: seq<Zone>)
    requires Refines(hops, more) && Reached(relays, start, hops, zones)
    ensures Reached(relays, start, more, zones)
  {
    if start !in zones {
      var p: nat :| Passes(relays, hops, p, zones);
      assert Passes(relays, more, p, zones);
    }
  }

  ghost function Unplanned(hops: seq<nat>): set<nat> {
    set n | n in Below(|hops|) && hops[n] == 0
  }

  /** Every plan can be followed until nobody is left out who would hear the packet. */
  lemma {:induction false} PlanCompletes(relays: Relays, start: Zone, hops: seq<nat>) returns (spread: seq<nat>)
    requires IsPlan(relays, start, hops)
    ensures IsSpread(relays, start, spread) && Refines(hops, spread)
    decreases |Unplanned(hops)|
  {
    if n :| 0 <= n < |relays| && hops[n] == 0 && Reached(relays, start, hops, relays[n]) {
      var d: nat := 1;
      if start !in relays[n] {
        var p: nat :| Passes(relays, hops, p, relays[n]);
        d := hops[p] + 1;
      }
      PlanExtends(relays, start, hops, n, d);
      SmallerSet(Unplanned(hops[n := d]), Unplanned(hops), n);
      spread := PlanCompletes(relays, start, hops[n := d]);
    } else {
      spread := hops;
    }
  }

  // ----- Who is reached -----

  /** Only what is connected to the victim's zone. */
  lemma ReachedIsConnected(relays: Relays, start: Zone, hops: seq<nat>, zones: seq<Zone>)
    requires IsPlan(relays, start, hops) && Reached(relays, start, hops, zones)
    ensures exists z :: z in zones && Reachable(relays, start, z)
  {
    if start in zones {
      assert Within(relays, start, start, 0) && Reachable(relays, start, start);
    } else {
      var p: nat :| Passes(relays, hops, p, zones);
      var z :| z in relays[p] && z in zones;
      PlannedWithin(relays, start, hops, p, z);
      assert Reachable(relays, start, z);
    }
  }

  lemma {:induction false} PlannedWithin(relays: Relays, start: Zone, hops: seq<nat>, n: nat, z: Zone)
    requires IsPlan(relays, start, hops) && n < |relays| && hops[n] > 0 && z in relays[n]
    ensures Within(relays, start, z, hops[n])
    decreases hops[n]
  {
    assert IsPlanned(relays, start, hops, n);
    if hops[n] == 1 {
      assert Within(relays, start, start, 0) && Bridged(relays, start, z);
    } else {
      var p: nat :| Passes(relays, hops, p, relays[n]) && hops[p] + 1 == hops[n];
      var y :| y in relays[p] && y in relays[n];
      PlannedWithin(relays, start, hops, p, y);
      assert Bridged(relays, y, z);
    }
  }

  /** All of it, where every relay that takes the packet has a hop to spare. */
  lemma {:induction false} ConnectedIsReached(relays: Relays, start: Zone, hops: seq<nat>,
                                              zones: seq<Zone>, z: Zone, k: nat)
    requires IsSpread(relays, start, hops) && forall n | 0 <= n < |relays| :: hops[n] < START_TTL
    requires z in zones && Within(relays, start, z, k)
    ensures Reached(relays, start, hops, zones)
    decreases k
  {
    if k == 0 {
    } else if Within(relays, start, z, k - 1) {
      ConnectedIsReached(relays, start, hops, zones, z, k - 1);
    } else {
      var n, y := LastRelay(relays, start, z, k);
      ConnectedIsReached(relays, start, hops, relays[n], y, k - 1);
      PassedOn(relays, start, hops, n, z, zones);
    }
  }

  lemma PassedOn(relays: Relays, start: Zone, hops: seq<nat>, n: nat, z: Zone, zones: seq<Zone>)
    requires IsSpread(relays, start, hops) && n < |relays| && hops[n] < START_TTL
    requires Reached(relays, start, hops, relays[n]) && z in relays[n] && z in zones
    ensures Reached(relays, start, hops, zones)
  {
    assert Share(relays[n], zones);
    assert Passes(relays, hops, n, zones);
  }

  /** A relay that is twentieth on some chain, and alone on a zone, can keep that zone from being reached. */
  lemma ChainCutsOff(relays: Relays, start: Zone, chain: seq<nat>, z: Zone, zones: seq<Zone>)
    returns (spread: seq<nat>)
    requires IsChain(relays, start, chain) && |chain| == START_TTL
    requires z != start && forall n | 0 <= n < |relays| && z in relays[n] :: n == chain[START_TTL - 1]
    requires forall y | y in zones :: y == z
    ensures IsSpread(relays, start, spread) && !Reached(relays, start, spread, zones)
  {
    ChainIsPlan(relays, start, chain);
    spread := PlanCompletes(relays, start, Along(relays, chain));
  }
}

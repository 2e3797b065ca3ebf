/** The topology generator of the simulator. Random choices are arbitrary here: what is proved holds
    for every outcome of each of them. */
module MeshGenerator {
  import opened Distinct
  import opened Arithmetic
  import opened Topology

  const VICTIM_ZONE: Zone := 1

  // ----- Random choices -----

  /** `random.sample(list(pool), k)` */
  method Sample(pool: set<Zone>, k: nat) returns (chosen: set<Zone>)
    requires k <= |pool|
    ensures chosen <= pool && |chosen| == k
  {
    chosen := {};
    while |chosen| < k
      invariant chosen <= pool && |chosen| <= k
    {
      assert pool == chosen + (pool - chosen);
      var z :| z in pool - chosen;
      chosen := chosen + {z};
    }
  }

  /** A set as a list, in any order. */
  method List(zones: set<Zone>) returns (list: seq<Zone>)
    ensures forall z :: z in list <==> z in zones
    ensures |list| == |zones| && NoRepeats(list)
  {
    list := [];
    var rest := zones;
    while rest != {}
      invariant rest <= zones && |list| + |rest| == |zones| && NoRepeats(list)
      invariant forall z :: z in list <==> z in zones - rest
    {
      var z :| z in rest;
      assert z !in list;
      list, rest := list + [z], rest - {z};
    }
  }

  /** `range(2, total + 1)` as a set. */
  function Pool(total: nat): (pool: set<Zone>)
    ensures forall z: Zone :: z in pool <==> 2 <= z <= total
    ensures |pool| == if total >= 2 then total - 1 else 0
  {
    if total < 2 then {} else Pool(total - 1) + {total}
  }

  // ----- Relays -----

  ghost predicate AllReachable(relays: Relays, zones: set<Zone>) {
    forall z | z in zones :: Reachable(relays, VICTIM_ZONE, z)
  }

  /** `zones` are those of some relay. */
  ghost predicate ZonesOf(relays: Relays, zones: set<Zone>) {
    forall z :: z in zones <==> exists n :: 0 <= n < |relays| && z in relays[n]
  }

  /** What an island relay draws from: the inactive zones, or all if those are too few. */
  function IslandPool(active: set<Zone>, totalNetworks: nat, numExtra: nat): set<Zone> {
    var inactivePool := Pool(totalNetworks) - active;
    if |inactivePool| < numExtra + 1 then Pool(totalNetworks) else inactivePool
  }

  /** The random choices for one relay: whether it joins the main mesh, and how many networks it draws
      beyond one. */
  datatype Draw = Draw(main: bool, extra: nat)

  /** `nets` are networks that a relay so drawn may have, where `active` are in use. */
  ghost predicate Drawn(nets: set<Zone>, draw: Draw, active: set<Zone>, totalNetworks: nat) {
    if draw.main then
      && |nets * active| == 1 && nets <= active + Pool(totalNetworks)
      && |nets| == 1 + Min(draw.extra, |Pool(totalNetworks) - active|)
    else
      var pool := IslandPool(active, totalNetworks, draw.extra);
      nets <= pool && |nets| == Min(draw.extra + 1, |pool|)
  }

  /** The networks of the next relay. In the main mesh one of them, `anchor`, is already active. */
  method ChooseNetworks(active: set<Zone>, totalNetworks: nat, maxExtraInterfaces: nat)
    returns (nets: set<Zone>, isMainMesh: bool, ghost anchor: Zone, ghost draw: Draw)
    requires active != {} && totalNetworks >= 2 && maxExtraInterfaces >= 1
    ensures nets != {} && forall z | z in nets :: z in active || 2 <= z <= totalNetworks
    ensures isMainMesh ==> anchor in active && nets * active == {anchor}
    ensures draw.main == isMainMesh && 1 <= draw.extra <= maxExtraInterfaces
    ensures Drawn(nets, draw, active, totalNetworks)
    ensures !isMainMesh ==> VICTIM_ZONE !in nets
  {
    anchor := 0;
    isMainMesh := *;
    var numExtra: nat :| 1 <= numExtra <= maxExtraInterfaces;
    draw := Draw(isMainMesh, numExtra);
    if isMainMesh {
      nets, anchor := MainNetworks(active, totalNetworks, numExtra);
    } else {
      nets := IslandNetworks(active, totalNetworks, numExtra);
    }
  }

  /** One active network, and some inactive ones if there are any. */
  method MainNetworks(active: set<Zone>, totalNetworks: nat, numExtra: nat)
    returns (nets: set<Zone>, ghost anchor: Zone)
    requires active != {}
    ensures anchor in active && nets * active == {anchor}
    ensures nets <= {anchor} + Pool(totalNetworks) && |nets| == 1 + Min(numExtra, |Pool(totalNetworks) - active|)
  {
    var choice :| choice in active;
    anchor := choice;
    nets := {choice};
    var inactivePool := Pool(totalNetworks) - active;
    if inactivePool != {} {
      var chosenExtras := Sample(inactivePool, Min(numExtra, |inactivePool|));
      assert choice !in chosenExtras;
      nets := nets + chosenExtras;
    }
  }

  method IslandNetworks(active: set<Zone>, totalNetworks: nat, numExtra: nat) returns (nets: set<Zone>)
    ensures var pool := IslandPool(active, totalNetworks, numExtra);
      nets <= pool && |nets| == Min(numExtra + 1, |pool|)
  {
    nets := {};
    var inactivePool := Pool(totalNetworks) - active;
    if |inactivePool| < numExtra + 1 {
      inactivePool := Pool(totalNetworks);
    }
    if inactivePool != {} {
      nets := Sample(inactivePool, Min(numExtra + 1, |inactivePool|));
    }
  }

  /** What holds of the relays generated so far with these draws. */
  ghost predicate Generated(relays: Relays, active: set<Zone>, all: set<Zone>, draws: seq<Draw>) {
    && (forall n | 0 <= n < |relays| :: relays[n] != [])
    && ZonesOf(relays, all)
    && VICTIM_ZONE in active && AllReachable(relays, active)
    && MainActive(relays, active, draws)
    && (VICTIM_ZONE in all || (active == {VICTIM_ZONE} && forall n | 0 <= n < |relays| :: !draws[n].main))
  }

  /** The zones in use once the first `n` relays are there. */
  ghost function ActiveAfter(relays: Relays, draws: seq<Draw>, n: nat): set<Zone>
    requires n <= |relays| == |draws|
  {
    if n == 0 then {VICTIM_ZONE}
    else
      var before := ActiveAfter(relays, draws, n - 1);
      if draws[n - 1].main then before + Members(relays[n - 1]) else before
  }

  ghost function Members(nets: seq<Zone>): set<Zone> {
    set z | z in nets
  }

  /** Relay `n` has networks that its draw allows, none twice. */
  ghost predicate DrawnAt(relays: Relays, draws: seq<Draw>, n: nat, totalNetworks: nat, maxExtra: nat)
    requires n < |relays| == |draws|
  {
    && NoRepeats(relays[n]) && |relays[n]| == |Members(relays[n])|
    && 1 <= draws[n].extra <= maxExtra
    && Drawn(Members(relays[n]), draws[n], ActiveAfter(relays, draws, n), totalNetworks)
  }

  ghost predicate AllDrawn(relays: Relays, active: set<Zone>, draws: seq<Draw>, totalNetworks: nat, maxExtra: nat) {
    && |draws| == |relays| && active == ActiveAfter(relays, draws, |relays|)
    && forall n | 0 <= n < |relays| :: DrawnAt(relays, draws, n, totalNetworks, maxExtra)
  }

  /** The relays before a new one are as they were. */
  lemma {:induction false} ActiveAfterPrefix(relays: Relays, draws: seq<Draw>, nets: seq<Zone>, draw: Draw, n: nat)
    requires n <= |relays| == |draws|
    ensures ActiveAfter(relays + [nets], draws + [draw], n) == ActiveAfter(relays, draws, n)
  {
    if n != 0 { ActiveAfterPrefix(relays, draws, nets, draw, n - 1); }
  }

  lemma DrawnExtends(relays: Relays, active: set<Zone>, draws: seq<Draw>, nets: seq<Zone>, draw: Draw,
                     totalNetworks: nat, maxExtra: nat)
    requires AllDrawn(relays, active, draws, totalNetworks, maxExtra)
    requires NoRepeats(nets) && |nets| == |Members(nets)| && 1 <= draw.extra <= maxExtra
    requires Drawn(Members(nets), draw, active, totalNetworks)
    ensures AllDrawn(relays + [nets], if draw.main then active + Members(nets) else active, draws + [draw],
                     totalNetworks, maxExtra)
  {
    ActiveAfterPrefix(relays, draws, nets, draw, |relays|);
    forall n | 0 <= n < |relays| + 1 ensures DrawnAt(relays + [nets], draws + [draw], n, totalNetworks, maxExtra) {
      ActiveAfterPrefix(relays, draws, nets, draw, n);
      if n < |relays| { assert DrawnAt(relays, draws, n, totalNetworks, maxExtra); }
    }
  }

  /** What the draws come to. A relay has at most three interfaces, or one and a tenth of the number of
      relays; it has two at least, except an only relay, and one that joins when all zones are in use; an
      island is on a zone in use only when there are too few others. */
  ghost predicate Equipped(relays: Relays, draws: seq<Draw>, n: nat)
    requires n < |relays| == |draws|
  {
    var active, size := ActiveAfter(relays, draws, n), |relays[n]|;
    && NoRepeats(relays[n])
    && (size <= 3 || 10 * (size - 1) <= |relays|)
    && (size >= 2 || (size == 1 && (|relays| == 1 || (draws[n].main && Pool(2 * |relays|) <= active))))
    && (draws[n].main ==> |Members(relays[n]) * active| == 1)
    && (!draws[n].main && Members(relays[n]) * active != {} ==> |Pool(2 * |relays|) - active| <= draws[n].extra)
  }

  lemma WellEquipped(relays: Relays, active: set<Zone>, draws: seq<Draw>, maxExtra: nat, n: nat)
    requires AllDrawn(relays, active, draws, 2 * |relays|, maxExtra) && n < |relays|
    requires maxExtra == if |relays| / 10 > 2 then |relays| / 10 else 2
    ensures Equipped(relays, draws, n)
  {
    var nets, before, pool := Members(relays[n]), ActiveAfter(relays, draws, n), Pool(2 * |relays|);
    assert DrawnAt(relays, draws, n, 2 * |relays|, maxExtra);
    if pool - before == {} { assert pool <= before; }
  }

  ghost predicate Numbered(zones: set<Zone>, totalNetworks: nat) {
    forall z | z in zones :: 1 <= z <= totalNetworks
  }

  method GenerateRelays(numRelays: nat)
    returns (relays: Relays, active: set<Zone>, all: set<Zone>, ghost draws: seq<Draw>)
    requires numRelays > 0
    ensures |relays| == numRelays && Generated(relays, active, all, draws)
    ensures Numbered(all, 2 * numRelays)
    ensures active == ActiveAfter(relays, draws, numRelays)
    ensures forall n | 0 <= n < numRelays :: Equipped(relays, draws, n)
  {
    var totalNetworks := numRelays * 2;
    relays, active, all, draws := [], {VICTIM_ZONE}, {}, [];
    var maxExtraInterfaces := if numRelays / 10 > 2 then numRelays / 10 else 2;
    assert Within(relays, VICTIM_ZONE, VICTIM_ZONE, 0);
    for i := 0 to numRelays
      invariant |relays| == i && Generated(relays, active, all, draws)
      invariant Numbered(active, totalNetworks) && Numbered(all, totalNetworks)
      invariant AllDrawn(relays, active, draws, totalNetworks, maxExtraInterfaces)
    {
      relays, active, all, draws := AddRelay(relays, active, all, draws, totalNetworks, maxExtraInterfaces);
    }
    forall n | 0 <= n < numRelays ensures Equipped(relays, draws, n) {
      WellEquipped(relays, active, draws, maxExtraInterfaces, n);
    }
  }

  /** One turn of the loop. */
  method AddRelay(relays0: Relays, active0: set<Zone>, all0: set<Zone>, ghost draws0: seq<Draw>,
                  totalNetworks: nat, maxExtraInterfaces: nat)
    returns (relays: Relays, active: set<Zone>, all: set<Zone>, ghost draws: seq<Draw>)
    requires Generated(relays0, active0, all0, draws0) && totalNetworks >= 2 && maxExtraInterfaces >= 1
    requires Numbered(active0, totalNetworks) && Numbered(all0, totalNetworks)
    requires AllDrawn(relays0, active0, draws0, totalNetworks, maxExtraInterfaces)
    ensures Generated(relays, active, all, draws) && |relays| == |relays0| + 1 && relays[..|relays0|] == relays0
    ensures Numbered(active, totalNetworks) && Numbered(all, totalNetworks)
    ensures AllDrawn(relays, active, draws, totalNetworks, maxExtraInterfaces)
  {
    var nets, isMainMesh, anchor, draw := ChooseNetworks(active0, totalNetworks, maxExtraInterfaces);
    var networks := List(nets);
    assert Members(networks) == nets;
    GeneratedExtends(relays0, active0, all0, draws0, networks, nets, draw, anchor);
    DrawnExtends(relays0, active0, draws0, networks, draw, totalNetworks, maxExtraInterfaces);
    active := if isMainMesh then active0 + nets else active0;
    all := all0 + nets;
    relays, draws := relays0 + [networks], draws0 + [draw];
  }

  lemma GeneratedExtends(relays: Relays, active: set<Zone>, all: set<Zone>, draws: seq<Draw>,
                         networks: seq<Zone>, nets: set<Zone>, draw: Draw, anchor: Zone)
    requires Generated(relays, active, all, draws)
    requires nets != {} && |networks| == |nets| && forall z :: z in networks <==> z in nets
    requires draw.main ==> anchor in active && nets * active == {anchor}
    ensures Generated(relays + [networks], if draw.main then active + nets else active,
                      all + nets, draws + [draw])
  {
    var active' := if draw.main then active + nets else active;
    if draw.main { assert anchor in nets * active; }
    ReachableExtends(relays, networks, active, active', anchor);
    ZonesExtend(relays, all, networks, nets);
    MainExtends(relays, active, draws, networks, active', draw);
  }

  ghost predicate MainActive(relays: Relays, active: set<Zone>, draws: seq<Draw>) {
    && |draws| == |relays|
    && forall n, z | 0 <= n < |relays| && draws[n].main && z in relays[n] :: z in active
  }

  lemma MainExtends(relays: Relays, active: set<Zone>, draws: seq<Draw>, networks: seq<Zone>,
                    active': set<Zone>, draw: Draw)
    requires MainActive(relays, active, draws) && active <= active'
    requires draw.main ==> forall z | z in networks :: z in active'
    ensures MainActive(relays + [networks], active', draws + [draw])
  {}

  lemma ZonesExtend(relays: Relays, all: set<Zone>, networks: seq<Zone>, nets: set<Zone>)
    requires ZonesOf(relays, all) && forall z :: z in networks <==> z in nets
    ensures ZonesOf(relays + [networks], all + nets)
  {
    var more := relays + [networks];
    forall z ensures z in all + nets <==> exists n :: 0 <= n < |more| && z in more[n] {
      if z in nets { assert z in more[|relays|]; }
      if z in all {
        var n :| 0 <= n < |relays| && z in relays[n];
        assert z in more[n];
      }
      if n :| 0 <= n < |more| && z in more[n] {
        if n < |relays| { assert z in relays[n]; }
      }
    }
  }

  lemma {:induction false} WithinExtends(relays: Relays, networks: seq<Zone>, start: Zone, z: Zone, k: nat)
    requires Within(relays, start, z, k)
    ensures Within(relays + [networks], start, z, k)
    decreases k
  {
    if k != 0 {
      if Within(relays, start, z, k - 1) {
        WithinExtends(relays, networks, start, z, k - 1);
      } else {
        var y :| Bridged(relays, y, z) && Within(relays, start, y, k - 1);
        var n :| 0 <= n < |relays| && y in relays[n] && z in relays[n];
        assert y in (relays + [networks])[n] && z in (relays + [networks])[n];
        assert Bridged(relays + [networks], y, z);
        WithinExtends(relays, networks, start, y, k - 1);
      }
    }
  }

  /** A relay anchored in the mesh makes its other zones part of it. */
  lemma ReachableExtends(relays: Relays, networks: seq<Zone>, before: set<Zone>, active: set<Zone>, anchor: Zone)
    requires AllReachable(relays, before)
    requires active == before || (anchor in before && anchor in networks)
    requires forall z | z in active - before :: z in networks
    ensures AllReachable(relays + [networks], active)
  {
    var more := relays + [networks];
    forall z | z in active ensures Reachable(more, VICTIM_ZONE, z) {
      var y := if z in before then z else anchor;
      var k: nat :| Within(relays, VICTIM_ZONE, y, k);
      WithinExtends(relays, networks, VICTIM_ZONE, y, k);
      if z !in before {
        assert more[|relays|] == networks;
        assert Bridged(more, anchor, z);
        assert Within(more, VICTIM_ZONE, z, k + 1);
      }
    }
  }

  // ----- Adjacency -----

  /** A `defaultdict(set)`. */
  type Graph = map<Zone, set<Zone>>

  function Neighbours(graph: Graph, z: Zone): set<Zone> {
    if z in graph then graph[z] else {}
  }

  predicate HasEdge(graph: Graph, y: Zone, z: Zone) {
    z in Neighbours(graph, y)
  }

  function AddEdge(graph: Graph, y: Zone, z: Zone): (g: Graph)
    ensures forall u, v :: HasEdge(g, u, v) <==> HasEdge(graph, u, v) || (u == y && v == z)
  {
    graph[y := Neighbours(graph, y) + {z}]
  }

  /** One of the first `n` networks of the list. */
  ghost predicate Among(nets: seq<Zone>, n: nat, z: Zone)
    requires n <= |nets|
  {
    exists k :: 0 <= k < n && nets[k] == z
  }

  method BuildGraph(relays: Relays) returns (graph: Graph)
    ensures forall y, z :: HasEdge(graph, y, z) <==> y != z && Bridged(relays, y, z)
  {
    graph := map[];
    for r := 0 to |relays|
      invariant forall y, z :: HasEdge(graph, y, z) <==> y != z && Bridged(relays[..r], y, z)
    {
      var nets := relays[r];
      ghost var before := graph;
      for i := 0 to |nets|
        invariant forall y, z :: HasEdge(graph, y, z) <==>
          HasEdge(before, y, z) || (y != z && Among(nets, i, y) && z in nets)
      {
        ghost var half := graph;
        for j := 0 to |nets|
          invariant forall y, z :: HasEdge(graph, y, z) <==>
            HasEdge(half, y, z) || (y != z && y == nets[i] && Among(nets, j, z))
        {
          if nets[i] != nets[j] {
            graph := AddEdge(graph, nets[i], nets[j]);
          }
        }
      }
      BridgedExtends(relays, r);
    }
    assert relays[..|relays|] == relays;
  }

  lemma BridgedExtends(relays: Relays, r: nat)
    requires r < |relays|
    ensures forall y, z :: Bridged(relays[..r + 1], y, z) <==>
      Bridged(relays[..r], y, z) || (y in relays[r] && z in relays[r])
  {}

  // ----- Breadth-first search -----

  function AllZones(relays: Relays): (zones: set<Zone>)
    ensures ZonesOf(relays, zones)
  {
    if relays == [] then {}
    else
      var last := relays[|relays| - 1];
      AllZones(relays[..|relays| - 1]) + set z | z in last
  }

  type Depths = map<Zone, nat>

  /** Exactly the zones reachable from zone 1, with their distances. */
  ghost predicate AreDepths(relays: Relays, depths: Depths) {
    && (forall z :: z in depths <==> Reachable(relays, VICTIM_ZONE, z))
    && (forall z | z in depths :: IsDepth(relays, VICTIM_ZONE, z, depths[z]))
  }

  ghost predicate IsGraphOf(graph: Graph, relays: Relays) {
    forall y, z :: HasEdge(graph, y, z) <==> y != z && Bridged(relays, y, z)
  }

  /** The state of the search while zones of depth `level` are taken from the queue, which is the end
      of `order`. */
  ghost predicate Searching(relays: Relays, depths: Depths, order: seq<Zone>, taken: nat, level: nat) {
    && taken <= |order| && NoRepeats(order)
    && (forall z :: z in order <==> z in depths)
    && VICTIM_ZONE in depths && depths[VICTIM_ZONE] == 0
    && (forall z | z in depths :: Within(relays, VICTIM_ZONE, z, depths[z]))
    && (forall i, j | 0 <= i < j < |order| :: depths[order[i]] <= depths[order[j]])
    && (forall i | 0 <= i < taken :: depths[order[i]] <= level)
    && (forall i | taken <= i < |order| :: level <= depths[order[i]] <= level + 1)
  }

  /** All bridges out of `y` were followed. */
  ghost predicate Expanded(relays: Relays, depths: Depths, y: Zone) {
    y in depths && forall z | Bridged(relays, y, z) :: z in depths && depths[z] <= depths[y] + 1
  }

  lemma SearchStart(relays: Relays)
    ensures Searching(relays, map[VICTIM_ZONE := 0], [VICTIM_ZONE], 0, 0)
    ensures AllExpanded(relays, map[VICTIM_ZONE := 0], [])
  {}

  /** A newly found zone goes to the end of the queue, one level below. */
  lemma Found(relays: Relays, depths: Depths, order: seq<Zone>, taken: nat, level: nat, y: Zone, z: Zone)
    requires Searching(relays, depths, order, taken, level)
    requires y in depths && depths[y] == level && Bridged(relays, y, z) && z !in depths
    ensures Searching(relays, depths[z := depths[y] + 1], order + [z], taken, level)
  {}

  /** Taking the next zone from the queue may move on to the next level. */
  lemma Taken(relays: Relays, depths: Depths, order: seq<Zone>, taken: nat, level: nat)
    requires Searching(relays, depths, order, taken, level) && taken < |order|
    ensures order[taken] in depths && Searching(relays, depths, order, taken + 1, depths[order[taken]])
  {
    assert order[taken] in order;
  }

  /** No zone found so far is deeper than the next level. */
  lemma AtMostNextLevel(relays: Relays, depths: Depths, order: seq<Zone>, taken: nat, level: nat, z: Zone)
    requires Searching(relays, depths, order, taken, level) && z in depths
    ensures depths[z] <= level + 1
  {}

  /** Where every found zone is expanded, every reachable zone is found, at no more than its distance. */
  lemma {:induction false} AllFound(relays: Relays, depths: Depths, z: Zone, k: nat)
    requires VICTIM_ZONE in depths && depths[VICTIM_ZONE] == 0
    requires forall y | y in depths :: Expanded(relays, depths, y)
    requires Within(relays, VICTIM_ZONE, z, k)
    ensures z in depths && depths[z] <= k
    decreases k
  {
    if k != 0 {
      if Within(relays, VICTIM_ZONE, z, k - 1) {
        AllFound(relays, depths, z, k - 1);
      } else {
        var y :| Bridged(relays, y, z) && Within(relays, VICTIM_ZONE, y, k - 1);
        AllFound(relays, depths, y, k - 1);
        assert Expanded(relays, depths, y);
      }
    }
  }

  lemma SearchComplete(relays: Relays, depths: Depths, order: seq<Zone>, level: nat)
    requires Searching(relays, depths, order, |order|, level) && AllExpanded(relays, depths, order)
    ensures AreDepths(relays, depths)
  {
    forall z, k: nat | Within(relays, VICTIM_ZONE, z, k) ensures z in depths && depths[z] <= k {
      AllFound(relays, depths, z, k);
    }
  }

  /** So the queue cannot grow for ever. */
  lemma FewFound(relays: Relays, depths: Depths, order: seq<Zone>, taken: nat, level: nat)
    requires Searching(relays, depths, order, taken, level)
    ensures |order| <= |AllZones(relays) + {VICTIM_ZONE}|
  {
    forall z | z in order ensures z in AllZones(relays) + {VICTIM_ZONE} {
      OfSomeRelay(relays, z, depths[z]);
    }
    DistinctFit(order, AllZones(relays) + {VICTIM_ZONE});
  }

  lemma {:induction false} OfSomeRelay(relays: Relays, z: Zone, k: nat)
    requires Within(relays, VICTIM_ZONE, z, k)
    ensures z in AllZones(relays) + {VICTIM_ZONE}
    decreases k
  {
    if k != 0 && Within(relays, VICTIM_ZONE, z, k - 1) { OfSomeRelay(relays, z, k - 1); }
  }

  ghost predicate Extends(more: Depths, depths: Depths) {
    forall z | z in depths :: z in more && more[z] == depths[z]
  }

  ghost predicate AllExpanded(relays: Relays, depths: Depths, zones: seq<Zone>) {
    forall z | z in zones :: Expanded(relays, depths, z)
  }

  lemma NextExpanded(relays: Relays, before: Depths, after: Depths, order0: seq<Zone>, order: seq<Zone>, taken: nat)
    requires taken < |order0| && AllExpanded(relays, before, order0[..taken]) && Extends(after, before)
    requires order0 <= order && Expanded(relays, after, order0[taken])
    ensures AllExpanded(relays, after, order[..taken + 1])
  {
    forall x | x in order[..taken + 1] ensures Expanded(relays, after, x) {
      var i :| 0 <= i <= taken && order[i] == x;
      if i < taken { assert order0[..taken][i] == x && Expanded(relays, before, x); }
    }
  }

  lemma QueueGrows(order: seq<Zone>, taken: nat, z: Zone)
    requires taken <= |order|
    ensures (order + [z])[taken..] == order[taken..] + [z]
  {}

  /** Finds the depth of every zone. The source asks whether a zone found again should keep the lesser
      depth: `lesser` tells whether that would ever have changed one. */
  method Search(graph: Graph, relays: Relays) returns (depths: Depths, order: seq<Zone>, ghost lesser: bool)
    requires IsGraphOf(graph, relays)
    ensures AreDepths(relays, depths)
    ensures NoRepeats(order) && forall z :: z in order <==> z in depths
    ensures !lesser
  {
    depths, order := map[VICTIM_ZONE := 0], [VICTIM_ZONE];
    var queue := [VICTIM_ZONE];
    lesser := false;
    ghost var taken, level := 0, 0;
    SearchStart(relays);
    while queue != []
      invariant Searching(relays, depths, order, taken, level)
      invariant queue == order[taken..] && AllExpanded(relays, depths, order[..taken])
      invariant !lesser
      decreases |AllZones(relays) + {VICTIM_ZONE}| - taken
    {
      FewFound(relays, depths, order, taken, level);
      Taken(relays, depths, order, taken, level);
      var current := queue[0];
      queue := queue[1..];
      level := depths[current];
      taken := taken + 1;
      ghost var depths0, order0 := depths, order;
      depths, queue, order, lesser := Expand(graph, relays, depths, queue, order, taken, current);
      NextExpanded(relays, depths0, depths, order0, order, taken - 1);
    }
    assert order[..taken] == order;
    SearchComplete(relays, depths, order, level);
  }

  /** The loop over the neighbours of one zone. */
  method Expand(graph: Graph, relays: Relays, depths0: Depths, queue0: seq<Zone>, order0: seq<Zone>,
                ghost taken: nat, current: Zone)
    returns (depths: Depths, queue: seq<Zone>, order: seq<Zone>, ghost lesser: bool)
    requires IsGraphOf(graph, relays) && current in depths0
    requires Searching(relays, depths0, order0, taken, depths0[current]) && queue0 == order0[taken..]
    ensures Extends(depths, depths0) && order0 <= order
    ensures Searching(relays, depths, order, taken, depths0[current]) && queue == order[taken..]
    ensures Expanded(relays, depths, current)
    ensures !lesser
  {
    depths, queue, order, lesser := depths0, queue0, order0, false;
    ghost var level := depths0[current];
    var rest := Neighbours(graph, current);
    while rest != {}
      invariant Extends(depths, depths0) && order0 <= order
      invariant Searching(relays, depths, order, taken, level) && queue == order[taken..]
      invariant rest <= Neighbours(graph, current)
      invariant forall z | z in Neighbours(graph, current) - rest :: z in depths
      invariant !lesser
    {
      var neighbour :| neighbour in rest;
      rest := rest - {neighbour};
      assert HasEdge(graph, current, neighbour);
      if neighbour !in depths {
        Found(relays, depths, order, taken, level, current, neighbour);
        QueueGrows(order, taken, neighbour);
        depths := depths[neighbour := depths[current] + 1];
        queue := queue + [neighbour];
        order := order + [neighbour];
      } else {
        AtMostNextLevel(relays, depths, order, taken, level, neighbour);
        lesser := lesser || depths[current] + 1 < depths[neighbour];
      }
    }
    AllFollowed(graph, relays, depths, order, taken, level, current);
  }

  lemma AllFollowed(graph: Graph, relays: Relays, depths: Depths, order: seq<Zone>, taken: nat, level: nat, y: Zone)
    requires IsGraphOf(graph, relays) && Searching(relays, depths, order, taken, level)
    requires y in depths && depths[y] == level && forall z | z in Neighbours(graph, y) :: z in depths
    ensures Expanded(relays, depths, y)
  {}

  // ----- Exits -----

  ghost predicate Descending(depths: Depths, zones: seq<Zone>) {
    && (forall z | z in zones :: z in depths)
    && forall i, j | 0 <= i < j < |zones| :: depths[zones[i]] >= depths[zones[j]]
  }

  /** Puts a zone behind the last one at least as deep. */
  function Insert(depths: Depths, sorted: seq<Zone>, z: Zone): (r: seq<Zone>)
    requires z in depths && forall y | y in sorted :: y in depths
    ensures multiset(r) == multiset(sorted) + multiset{z}
    ensures forall y :: y in r <==> y == z || y in sorted
  {
    if sorted == [] || depths[sorted[|sorted| - 1]] >= depths[z] then
      sorted + [z]
    else
      var n := |sorted| - 1;
      assert sorted == sorted[..n] + [sorted[n]];
      Insert(depths, sorted[..n], z) + [sorted[n]]
  }

  /** The zones of one depth, in the order they come. */
  function AtDepth(depths: Depths, zones: seq<Zone>, d: nat): seq<Zone>
    requires forall z | z in zones :: z in depths
  {
    if zones == [] then []
    else
      var n := |zones| - 1;
      AtDepth(depths, zones[..n], d) + if depths[zones[n]] == d then [zones[n]] else []
  }

  lemma {:induction false} InsertIsStable(depths: Depths, sorted: seq<Zone>, z: Zone, d: nat)
    requires z in depths && forall y | y in sorted :: y in depths
    ensures AtDepth(depths, Insert(depths, sorted, z), d) ==
      AtDepth(depths, sorted, d) + if depths[z] == d then [z] else []
  {
    if sorted != [] && depths[sorted[|sorted| - 1]] < depths[z] {
      var n := |sorted| - 1;
      InsertIsStable(depths, sorted[..n], z, d);
      AtDepthAppend(depths, Insert(depths, sorted[..n], z), sorted[n], d);
    } else {
      AtDepthAppend(depths, sorted, z, d);
    }
  }

  lemma AtDepthAppend(depths: Depths, zones: seq<Zone>, z: Zone, d: nat)
    requires z in depths && forall y | y in zones :: y in depths
    ensures AtDepth(depths, zones + [z], d) == AtDepth(depths, zones, d) + if depths[z] == d then [z] else []
  {
    assert (zones + [z])[..|zones|] == zones;
  }

  lemma {:induction false} InsertKeepsOrder(depths: Depths, sorted: seq<Zone>, z: Zone)
    requires Descending(depths, sorted) && z in depths
    ensures Descending(depths, Insert(depths, sorted, z))
  {
    if sorted != [] && depths[sorted[|sorted| - 1]] < depths[z] {
      var n := |sorted| - 1;
      InsertKeepsOrder(depths, sorted[..n], z);
      LastIsLeast(depths, sorted, sorted[n]);
      AppendKeepsOrder(depths, Insert(depths, sorted[..n], z), sorted[n]);
    } else {
      LastIsLeast(depths, sorted, z);
      AppendKeepsOrder(depths, sorted, z);
    }
  }

  lemma LastIsLeast(depths: Depths, sorted: seq<Zone>, z: Zone)
    requires Descending(depths, sorted) && z in depths
    requires sorted == [] || depths[sorted[|sorted| - 1]] >= depths[z]
    ensures forall y | y in sorted :: depths[y] >= depths[z]
  {}

  lemma AppendKeepsOrder(depths: Depths, sorted: seq<Zone>, z: Zone)
    requires Descending(depths, sorted) && z in depths && forall y | y in sorted :: depths[y] >= depths[z]
    ensures Descending(depths, sorted + [z])
  {}

  /** `sorted(depths.keys(), key=…, reverse=True)`, which leaves zones of one depth in their order. */
  method SortByDepth(depths: Depths, order: seq<Zone>) returns (sorted: seq<Zone>)
    requires forall z | z in order :: z in depths
    ensures Descending(depths, sorted) && multiset(sorted) == multiset(order)
    ensures forall d: nat :: AtDepth(depths, sorted, d) == AtDepth(depths, order, d)
  {
    sorted := [];
    for i := 0 to |order|
      invariant Descending(depths, sorted) && multiset(sorted) == multiset(order[..i])
      invariant forall d: nat :: AtDepth(depths, sorted, d) == AtDepth(depths, order[..i], d)
    {
      assert order[..i + 1] == order[..i] + [order[i]];
      InsertKeepsOrder(depths, sorted, order[i]);
      forall d: nat
        ensures AtDepth(depths, Insert(depths, sorted, order[i]), d) == AtDepth(depths, order[..i + 1], d) {
        InsertIsStable(depths, sorted, order[i], d);
        AtDepthAppend(depths, order[..i], order[i], d);
      }
      sorted := Insert(depths, sorted, order[i]);
    }
    assert order[..|order|] == order;
  }

  /** The target of exit `i`. */
  function Target(targets: seq<Zone>, i: nat): Zone
    requires targets != []
  {
    targets[i % |targets|]
  }

  /** After `q` rounds and `r` turns. */
  ghost predicate Rounds(targets: seq<Zone>, exits: seq<Zone>, q: nat, r: nat) {
    && r < |targets| && |exits| == q * |targets| + r
    && (forall i | 0 <= i < |exits| :: exits[i] == Target(targets, i))
    && forall j | 0 <= j < |targets| :: multiset(exits)[targets[j]] == q + (if j < r then 1 else 0)
  }

  /** One exit more, and one turn further. */
  lemma Turn(targets: seq<Zone>, exits: seq<Zone>, q: nat, r: nat) returns (q': nat, r': nat)
    requires targets != [] && NoRepeats(targets) && Rounds(targets, exits, q, r)
    ensures Rounds(targets, exits + [Target(targets, |exits|)], q', r')
  {
    Quotient(|exits|, |targets|, q, r);
    OneMoreExit(targets, exits, r);
    q', r' := NextTurn(|exits|, |targets|, q, r);
  }

  lemma NextTurn(n: nat, size: nat, q: nat, r: nat) returns (q': nat, r': nat)
    requires r < size && n == q * size + r
    ensures r' < size && n + 1 == q' * size + r'
    ensures if r + 1 < size then q' == q && r' == r + 1 else q' == q + 1 && r' == 0
  {
    Successor(size, q);
    q', r' := if r + 1 < size then q else q + 1, if r + 1 < size then r + 1 else 0;
  }

  lemma OneMoreExit(targets: seq<Zone>, exits: seq<Zone>, r: nat)
    requires NoRepeats(targets) && r < |targets|
    ensures forall j | 0 <= j < |targets| ::
      multiset(exits + [targets[r]])[targets[j]] == multiset(exits)[targets[j]] + if j == r then 1 else 0
  {}

  /** No zone has two exits more than another. */
  ghost predicate Even(exits: seq<Zone>, zones: seq<Zone>) {
    forall y, z | y in zones && z in zones :: multiset(exits)[y] <= multiset(exits)[z] + 1
  }

  /** No zone has more exits than one before it. */
  ghost predicate FirstServed(exits: seq<Zone>, zones: seq<Zone>) {
    forall i, j | 0 <= i < j < |zones| :: multiset(exits)[zones[i]] >= multiset(exits)[zones[j]]
  }

  /** Exits go round the targets. Each target gets its share, the first ones perhaps one more. */
  method RoundRobin(targets: seq<Zone>, numExits: nat) returns (exits: seq<Zone>)
    requires targets != [] && NoRepeats(targets)
    ensures |exits| == numExits && forall i | 0 <= i < numExits :: exits[i] == Target(targets, i)
    ensures Even(exits, targets) && FirstServed(exits, targets)
  {
    exits := [];
    ghost var q: nat, r: nat := 0, 0;
    for i := 0 to numExits
      invariant |exits| == i && Rounds(targets, exits, q, r)
    {
      q, r := Turn(targets, exits, q, r);
      var targetNet := Target(targets, i);
      exits := exits + [targetNet];
    }
    RoundsAreEven(targets, exits, q, r);
  }

  lemma RoundsAreEven(targets: seq<Zone>, exits: seq<Zone>, q: nat, r: nat)
    requires Rounds(targets, exits, q, r)
    ensures Even(exits, targets) && FirstServed(exits, targets)
  {}

  /** Where the exits may be: on reachable zones, the deepest first, spread evenly, no more on a zone
      than on a deeper one, and on a zone each while there are enough. */
  ghost predicate WellPlaced(depths: Depths, exits: seq<Zone>, numExits: nat) {
    && |exits| == numExits
    && (forall e | e in exits :: e in depths)
    && (forall e, z | e in exits && z in depths && z !in exits :: depths[z] <= depths[e])
    && Even(exits, exits)
    && (forall y, z | y in depths && z in depths && depths[y] > depths[z] ::
          multiset(exits)[y] >= multiset(exits)[z])
    && (numExits <= |depths| ==> NoRepeats(exits))
    && (numExits >= |depths| ==> forall z | z in depths :: z in exits)
  }

  /** The zones from the deepest on. */
  ghost predicate Ranking(depths: Depths, ranked: seq<Zone>) {
    Descending(depths, ranked) && NoRepeats(ranked) && forall z :: z in ranked <==> z in depths
  }

  /** Each exit is on the zone whose turn it is, going round the first zones, as many as there are exits. */
  ghost predicate InTurn(exits: seq<Zone>, ranked: seq<Zone>)
    requires ranked != []
  {
    forall i | 0 <= i < |exits| :: exits[i] == ranked[i % Min(|exits|, |ranked|)]
  }

  method PlaceExits(depths: Depths, order: seq<Zone>, numExits: nat)
    returns (exits: seq<Zone>, ghost ranked: seq<Zone>)
    requires numExits > 0 && order != []
    requires NoRepeats(order) && forall z :: z in order <==> z in depths
    ensures WellPlaced(depths, exits, numExits)
    ensures Ranking(depths, ranked) && ranked != [] && InTurn(exits, ranked)
    ensures forall d: nat :: AtDepth(depths, ranked, d) == AtDepth(depths, order, d)
  {
    var reachableNetworks := SortByDepth(depths, order);
    SortedCopy(depths, order, reachableNetworks);
    ranked := reachableNetworks;
    var targetNetworks := if numExits < |reachableNetworks| then reachableNetworks[..numExits] else reachableNetworks;
    exits := RoundRobin(targetNetworks, numExits);
    PlacedWell(depths, reachableNetworks, targetNetworks, exits, numExits);
  }

  lemma SortedCopy(depths: Depths, order: seq<Zone>, sorted: seq<Zone>)
    requires NoRepeats(order) && multiset(sorted) == multiset(order)
    requires forall z :: z in order <==> z in depths
    ensures NoRepeats(sorted) && |sorted| == |order| == |depths|
    ensures forall z :: z in sorted <==> z in depths
  {
    forall z ensures z in sorted <==> z in depths {
      assert z in sorted <==> z in multiset(sorted);
      assert z in order <==> z in multiset(order);
    }
    assert |sorted| == |multiset(sorted)| == |multiset(order)| == |order|;
    forall i, j | 0 <= i < j < |sorted| ensures sorted[i] != sorted[j] {
      if sorted[i] == sorted[j] { TwiceCounted(sorted, i, j); CountDistinct(order, sorted[i]); }
    }
    SizeOf(order, depths.Keys);
  }

  lemma TwiceCounted(xs: seq<Zone>, i: nat, j: nat)
    requires i < j < |xs| && xs[i] == xs[j]
    ensures multiset(xs)[xs[i]] >= 2
  {
    assert xs == xs[..j] + ([xs[j]] + xs[j + 1..]);
    assert xs[..j][i] == xs[i];
    assert multiset(xs)[xs[i]] == multiset(xs[..j])[xs[i]] + multiset([xs[j]] + xs[j + 1..])[xs[i]];
  }

  lemma {:induction false} SizeOf(xs: seq<Zone>, s: set<Zone>)
    requires NoRepeats(xs) && forall x :: x in xs <==> x in s
    ensures |xs| == |s|
  {
    if xs != [] {
      var n := |xs| - 1;
      SizeOf(xs[..n], s - {xs[n]});
    }
  }

  lemma PlacedWell(depths: Depths, sorted: seq<Zone>, targets: seq<Zone>, exits: seq<Zone>, numExits: nat)
    requires numExits > 0 && Descending(depths, sorted) && NoRepeats(sorted) && |sorted| == |depths|
    requires forall z :: z in sorted <==> z in depths
    requires targets == (if numExits < |sorted| then sorted[..numExits] else sorted) && targets != []
    requires |exits| == numExits && forall i | 0 <= i < numExits :: exits[i] == Target(targets, i)
    requires Even(exits, targets) && FirstServed(exits, targets)
    ensures WellPlaced(depths, exits, numExits)
  {
    SameMembers(targets, exits, numExits);
    EvenEverywhere(exits, targets);
    AloneOrAll(sorted, targets, exits, numExits);
    forall e, z | e in exits && z in depths && z !in exits ensures depths[z] <= depths[e] {
      DeepestFirst(depths, sorted, |targets|, e, z);
    }
    forall y, z | y in depths && z in depths && depths[y] > depths[z]
      ensures multiset(exits)[y] >= multiset(exits)[z] {
      DeeperServed(depths, sorted, targets, exits, y, z);
    }
  }

  lemma DeeperServed(depths: Depths, sorted: seq<Zone>, targets: seq<Zone>, exits: seq<Zone>, y: Zone, z: Zone)
    requires Descending(depths, sorted) && targets <= sorted && FirstServed(exits, targets)
    requires forall x :: x in exits <==> x in targets
    requires y in sorted && z in sorted && depths[y] > depths[z]
    ensures multiset(exits)[y] >= multiset(exits)[z]
  {
    if z in targets {
      var i, j :| 0 <= i < |sorted| && sorted[i] == y && 0 <= j < |targets| && targets[j] == z;
      assert sorted[j] == z;
      assert i < j && targets[i] == y;
    }
  }

  lemma EvenEverywhere(exits: seq<Zone>, targets: seq<Zone>)
    requires Even(exits, targets) && forall z :: z in exits <==> z in targets
    ensures Even(exits, exits)
  {}

  lemma AloneOrAll(sorted: seq<Zone>, targets: seq<Zone>, exits: seq<Zone>, numExits: nat)
    requires NoRepeats(sorted) && |exits| == numExits
    requires targets == (if numExits < |sorted| then sorted[..numExits] else sorted)
    requires |targets| <= |exits| && exits[..|targets|] == targets
    ensures numExits <= |sorted| ==> NoRepeats(exits)
    ensures numExits >= |sorted| ==> forall z | z in sorted :: z in exits
  {}

  lemma SameMembers(targets: seq<Zone>, exits: seq<Zone>, numExits: nat)
    requires targets != [] && |targets| <= numExits && |exits| == numExits
    requires forall i | 0 <= i < numExits :: exits[i] == Target(targets, i)
    ensures forall z :: z in exits <==> z in targets
    ensures exits[..|targets|] == targets
  {
    forall i | 0 <= i < |targets| ensures exits[i] == targets[i] { Quotient(i, |targets|, 0, i); }
  }

  lemma DeepestFirst(depths: Depths, sorted: seq<Zone>, n: nat, e: Zone, z: Zone)
    requires Descending(depths, sorted) && n <= |sorted| && e in sorted[..n] && z in sorted && z !in sorted[..n]
    ensures depths[z] <= depths[e]
  {}

  // ----- The whole generator -----

  method BuildMesh(numRelays: nat, numExits: nat)
    returns (relays: Relays, exits: seq<Zone>, networks: set<Zone>, depths: Depths,
             ghost draws: seq<Draw>, ghost ranked: seq<Zone>)
    requires numRelays > 0 && numExits > 0
    ensures |relays| == |draws| == numRelays && forall n | 0 <= n < numRelays :: Equipped(relays, draws, n)
    ensures AreDepths(relays, depths)
    ensures WellPlaced(depths, exits, numExits)
    ensures Ranking(depths, ranked) && ranked != [] && InTurn(exits, ranked)
    ensures forall z :: z in networks <==> z in exits || exists n :: 0 <= n < numRelays && z in relays[n]
    ensures VICTIM_ZONE in networks
  {
    ghost var active, lesser;
    relays, active, networks, draws := GenerateRelays(numRelays);
    var graph := BuildGraph(relays);
    var order;
    depths, order, lesser := Search(graph, relays);
    assert Within(relays, VICTIM_ZONE, VICTIM_ZONE, 0);
    exits, ranked := PlaceExits(depths, order, numExits);
    if VICTIM_ZONE !in networks {
      VictimAlone(relays, networks, depths);
      assert exits[0] in exits;
    }
    networks := networks + set e | e in exits;
  }

  /** If no relay is on the victim's zone, that zone is all the victim can reach. */
  lemma VictimAlone(relays: Relays, all: set<Zone>, depths: Depths)
    requires ZonesOf(relays, all) && VICTIM_ZONE !in all
    requires forall z | z in depths :: Reachable(relays, VICTIM_ZONE, z)
    ensures forall z | z in depths :: z == VICTIM_ZONE
  {
    forall z | z in depths ensures z == VICTIM_ZONE {
      var k: nat :| Within(relays, VICTIM_ZONE, z, k);
      NoWayOut(relays, all, z, k);
    }
  }

  lemma {:induction false} NoWayOut(relays: Relays, all: set<Zone>, z: Zone, k: nat)
    requires ZonesOf(relays, all) && VICTIM_ZONE !in all && Within(relays, VICTIM_ZONE, z, k)
    ensures z == VICTIM_ZONE
    decreases k
  {
    if k != 0 {
      if Within(relays, VICTIM_ZONE, z, k - 1) {
        NoWayOut(relays, all, z, k - 1);
      } else {
        var y :| Bridged(relays, y, z) && Within(relays, VICTIM_ZONE, y, k - 1);
        NoWayOut(relays, all, y, k - 1);
      }
    }
  }
}

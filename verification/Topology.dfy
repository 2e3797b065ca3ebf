/** Zones, the relays that bridge them, and how many relays away a zone is. */
module Topology {

  type Zone = nat

  /** The interface list of every relay. */
  type Relays = seq<seq<Zone>>

  /** Two nodes are attached to a common zone. */
  ghost predicate Share(zones: seq<Zone>, others: seq<Zone>) {
    exists z :: z in zones && z in others
  }

  /** Some relay has an interface on both zones. */
  ghost predicate Bridged(relays: Relays, y: Zone, z: Zone) {
    exists n :: 0 <= n < |relays| && y in relays[n] && z in relays[n]
  }

  /** `z` can be reached from `start` over at most `k` relays. */
  ghost predicate Within(relays: Relays, start: Zone, z: Zone, k: nat)
    decreases k
  {
    if k == 0 then
      z == start
    else
      || Within(relays, start, z, k - 1)
      || exists y :: Bridged(relays, y, z) && Within(relays, start, y, k - 1)
  }

  ghost predicate Reachable(relays: Relays, start: Zone, z: Zone) {
    exists k: nat :: Within(relays, start, z, k)
  }

  /** The distance from `start`, in relays. */
  ghost predicate IsDepth(relays: Relays, start: Zone, z: Zone, d: nat) {
    Within(relays, start, z, d) && (d > 0 ==> !Within(relays, start, z, d - 1))
  }

  /** A route, each zone bridged to the next. */
  ghost predicate IsRoute(relays: Relays, route: seq<Zone>, start: Zone, z: Zone) {
    && |route| > 0 && route[0] == start && route[|route| - 1] == z
    && forall i | 0 <= i < |route| - 1 :: Bridged(relays, route[i], route[i + 1])
  }

  lemma {:induction false} WithinMonotone(relays: Relays, start: Zone, z: Zone, j: nat, k: nat)
    requires j <= k && Within(relays, start, z, j)
    ensures Within(relays, start, z, k)
    decreases k
  {
    if j < k { WithinMonotone(relays, start, z, j, k - 1); }
  }

  /** The last relay on the way to a zone. */
  lemma LastRelay(relays: Relays, start: Zone, z: Zone, k: nat) returns (n: nat, y: Zone)
    requires k > 0 && Within(relays, start, z, k) && !Within(relays, start, z, k - 1)
    ensures n < |relays| && y in relays[n] && z in relays[n] && Within(relays, start, y, k - 1)
  {
    y :| Bridged(relays, y, z) && Within(relays, start, y, k - 1);
    n :| 0 <= n < |relays| && y in relays[n] && z in relays[n];
  }

  /** A zone of depth `d` is within `k` exactly if `d <= k`. */
  lemma DepthDecides(relays: Relays, start: Zone, z: Zone, d: nat, k: nat)
    requires IsDepth(relays, start, z, d)
    ensures Within(relays, start, z, k) <==> d <= k
  {
    if d <= k {
      WithinMonotone(relays, start, z, d, k);
    } else if Within(relays, start, z, k) {
      WithinMonotone(relays, start, z, k, d - 1);
    }
  }

  /** Being within `k` relays means having a route of at most `k` bridges. */
  lemma {:induction false} WithinIffRoute(relays: Relays, start: Zone, z: Zone, k: nat)
    ensures Within(relays, start, z, k) <==> exists route :: IsRoute(relays, route, start, z) && |route| <= k + 1
    decreases k
  {
    if Within(relays, start, z, k) {
      if k == 0 {
        assert IsRoute(relays, [start], start, z);
      } else if Within(relays, start, z, k - 1) {
        WithinIffRoute(relays, start, z, k - 1);
      } else {
        var y :| Bridged(relays, y, z) && Within(relays, start, y, k - 1);
        WithinIffRoute(relays, start, y, k - 1);
        var route :| IsRoute(relays, route, start, y) && |route| <= k;
        assert IsRoute(relays, route + [z], start, z);
      }
    }
    if route :| IsRoute(relays, route, start, z) && |route| <= k + 1 {
      RouteWithin(relays, route, start, z, k);
    }
  }

  lemma {:induction false} RouteWithin(relays: Relays, route: seq<Zone>, start: Zone, z: Zone, k: nat)
    requires IsRoute(relays, route, start, z) && |route| <= k + 1
    ensures Within(relays, start, z, k)
    decreases |route|
  {
    if |route| == 1 {
      WithinMonotone(relays, start, z, 0, k);
    } else {
      var y, rest := route[|route| - 2], route[..|route| - 1];
      assert Bridged(relays, route[|rest| - 1], route[|rest| - 1 + 1]);
      RouteWithin(relays, rest, start, y, k - 1);
    }
  }
}

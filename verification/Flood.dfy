/** The flood as a distributed protocol: copies in flight, one deduplication history per node, and an
    arbitrary choice of which copy arrives, or is lost, next. */
module Flood {
  import opened Packets
  import opened Topology
  import opened CircularBuffer
  import opened UdpNodes

  /** Nodes are numbered, relays first. An exit listens on its zones and sends nothing. */
  datatype Mesh = Mesh(relays: Relays, exits: seq<seq<Zone>>) {
    function Nodes(): seq<seq<Zone>> { relays + exits }
  }

  /** A datagram on its way to one node. */
  datatype Copy = Copy(dest: nat, packet: Packet)

  datatype Airing = Airing(zone: Zone, packet: Packet)

  /** `aired` logs the broadcasts made so far. */
  datatype State = State(histories: seq<seq<Hash>>, flight: seq<Copy>, aired: seq<Airing>)

  datatype Event =
    | Deliver(i: nat)
    | Lose(i: nat)
    | Send(zone: Zone, packet: Packet)  // a victim broadcasts

  // ----- One step -----

  /** A datagram sent to the broadcast address of `zone` reaches every node attached to it, the
      sender included. */
  function Broadcast(nodes: seq<seq<Zone>>, zone: Zone, p: Packet): seq<Copy> {
    if nodes == [] then []
    else
      var last := |nodes| - 1;
      Broadcast(nodes[..last], zone, p) + (if zone in nodes[last] then [Copy(last, p)] else [])
  }

  function BroadcastAll(nodes: seq<seq<Zone>>, zones: seq<Zone>, p: Packet): seq<Copy> {
    if zones == [] then []
    else Broadcast(nodes, zones[0], p) + BroadcastAll(nodes, zones[1..], p)
  }

  function Airings(zones: seq<Zone>, p: Packet): seq<Airing> {
    seq(|zones|, i requires 0 <= i < |zones| => Airing(zones[i], p))
  }

  function Without(flight: seq<Copy>, i: nat): seq<Copy>
    requires i < |flight|
  {
    flight[..i] + flight[i + 1..]
  }

  ghost predicate WellFormed(mesh: Mesh, s: State) {
    |s.histories| == |mesh.Nodes()| && forall c | c in s.flight :: c.dest < |mesh.Nodes()|
  }

  /** What the arrival of copy `i` makes of the state: one turn of the receive loop of its node. */
  function Arrive(mesh: Mesh, s: State, i: nat): State
    requires i < |s.flight| && s.flight[i].dest < |s.histories|
  {
    var c := s.flight[i];
    var known := s.histories[c.dest];
    var t := State(s.histories[c.dest := Remember(known, c.packet.sig)], Without(s.flight, i), s.aired);
    if c.dest < |mesh.relays| && Rebroadcast(known, c.packet).Some? then
      var p, zones := Rebroadcast(known, c.packet).value, mesh.relays[c.dest];
      t.(flight := t.flight + BroadcastAll(mesh.Nodes(), zones, p), aired := t.aired + Airings(zones, p))
    else t
  }

  ghost predicate Enabled(s: State, e: Event) {
    match e
    case Deliver(i) => i < |s.flight| && s.flight[i].dest < |s.histories|
    case Lose(i) => i < |s.flight|
    case Send(_, _) => true
  }

  ghost function Step(mesh: Mesh, s: State, e: Event): State
    requires Enabled(s, e)
  {
    match e
    case Deliver(i) => Arrive(mesh, s, i)
    case Lose(i) => s.(flight := Without(s.flight, i))
    case Send(zone, p) =>
      s.(flight := s.flight + Broadcast(mesh.Nodes(), zone, p), aired := s.aired + [Airing(zone, p)])
  }

  /** A run: `states[k + 1]` follows from `states[k]` by `events[k]`. */
  ghost predicate IsRun(mesh: Mesh, states: seq<State>, events: seq<Event>) {
    && |states| == |events| + 1
    && forall k {:trigger events[k]} | 0 <= k < |events| ::
         Enabled(states[k], events[k]) && states[k + 1] == Step(mesh, states[k], events[k])
  }

  lemma RunPrefix(mesh: Mesh, states: seq<State>, events: seq<Event>, n: nat)
    requires IsRun(mesh, states, events) && n <= |events|
    ensures IsRun(mesh, states[..n + 1], events[..n])
  {}

  // ----- Every flood dies out, whatever the caches do -----

  function Power(b: nat, n: nat): (p: nat)
    ensures b > 0 ==> p > 0
  {
    if n == 0 then 1 else b * Power(b, n - 1)
  }

  /** The most a copy can still cause, when one rebroadcast makes at most `fan` copies. */
  function Weight(fan: nat, c: Copy): (w: nat)
    ensures w > 0
  {
    Power(fan + 1, Ttl(c.packet.flags))
  }

  function Measure(fan: nat, flight: seq<Copy>): nat {
    if flight == [] then 0 else Measure(fan, flight[..|flight| - 1]) + Weight(fan, flight[|flight| - 1])
  }

  ghost predicate FanBound(mesh: Mesh, fan: nat) {
    forall n, p | 0 <= n < |mesh.relays| :: |BroadcastAll(mesh.Nodes(), mesh.relays[n], p)| <= fan
  }

  lemma {:induction false} MeasureConcat(fan: nat, a: seq<Copy>, b: seq<Copy>)
    ensures Measure(fan, a + b) == Measure(fan, a) + Measure(fan, b)
  {
    if b == [] {
      assert a + b == a;
    } else {
      var n := |b| - 1;
      assert (a + b)[..|a + b| - 1] == a + b[..n];
      MeasureConcat(fan, a, b[..n]);
    }
  }

  lemma MeasureWithout(fan: nat, flight: seq<Copy>, i: nat)
    requires i < |flight|
    ensures Measure(fan, flight) == Measure(fan, Without(flight, i)) + Weight(fan, flight[i])
  {
    assert flight == flight[..i] + ([flight[i]] + flight[i + 1..]);
    MeasureConcat(fan, flight[..i], [flight[i]] + flight[i + 1..]);
    MeasureConcat(fan, [flight[i]], flight[i + 1..]);
    MeasureConcat(fan, flight[..i], flight[i + 1..]);
    assert [flight[i]][..0] == [];
  }

  lemma {:induction false} MeasureUniform(fan: nat, flight: seq<Copy>, w: nat)
    requires forall c | c in flight :: Weight(fan, c) == w
    ensures Measure(fan, flight) == |flight| * w
  {
    if flight != [] {
      var n := |flight| - 1;
      forall c | c in flight[..n] ensures Weight(fan, c) == w { assert c in flight; }
      MeasureUniform(fan, flight[..n], w);
      assert flight[n] in flight;
      Distribute(n, w);
    }
  }

  lemma Distribute(n: nat, w: nat)
    ensures (n + 1) * w == n * w + w
  {}

  lemma {:induction false} BroadcastCopies(nodes: seq<seq<Zone>>, zone: Zone, p: Packet)
    ensures forall c :: c in Broadcast(nodes, zone, p) <==>
      c.packet == p && c.dest < |nodes| && zone in nodes[c.dest]
  {
    if nodes != [] {
      var last := |nodes| - 1;
      BroadcastCopies(nodes[..last], zone, p);
      forall c ensures c in Broadcast(nodes, zone, p) <==>
          c.packet == p && c.dest < |nodes| && zone in nodes[c.dest] {
        assert c in Broadcast(nodes, zone, p) <==>
          c in Broadcast(nodes[..last], zone, p) || (zone in nodes[last] && c == Copy(last, p));
      }
    }
  }

  lemma {:induction false} BroadcastAllCopies(nodes: seq<seq<Zone>>, zones: seq<Zone>, p: Packet)
    ensures forall c :: c in BroadcastAll(nodes, zones, p) <==>
      c.packet == p && c.dest < |nodes| && Share(zones, nodes[c.dest])
  {
    if zones != [] {
      BroadcastCopies(nodes, zones[0], p);
      BroadcastAllCopies(nodes, zones[1..], p);
    }
  }

  /** A copy outweighs all it gives rise to. */
  lemma RebroadcastIsLighter(mesh: Mesh, fan: nat, c: Copy, q: Packet)
    requires FanBound(mesh, fan) && c.dest < |mesh.relays| && Forward(c.packet) == Some(q)
    ensures Measure(fan, BroadcastAll(mesh.Nodes(), mesh.relays[c.dest], q)) < Weight(fan, c)
  {
    var sent := BroadcastAll(mesh.Nodes(), mesh.relays[c.dest], q);
    var w := Power(fan + 1, Ttl(q.flags));
    BroadcastAllCopies(mesh.Nodes(), mesh.relays[c.dest], q);
    MeasureUniform(fan, sent, w);
    assert Weight(fan, c) == (fan + 1) * w;
    Distribute(fan, w);
    FewerTimes(|sent|, fan, w);
  }

  lemma FewerTimes(m: nat, n: nat, w: nat)
    requires m <= n
    ensures m * w <= n * w
  {}

  lemma ArrivalDecreases(mesh: Mesh, fan: nat, s: State, i: nat)
    requires FanBound(mesh, fan) && i < |s.flight| && s.flight[i].dest < |s.histories|
    ensures Measure(fan, Arrive(mesh, s, i).flight) < Measure(fan, s.flight)
  {
    var c := s.flight[i];
    MeasureWithout(fan, s.flight, i);
    if Forwards(mesh, s, c) {
      var q := Forward(c.packet).value;
      RebroadcastIsLighter(mesh, fan, c, q);
      MeasureConcat(fan, Without(s.flight, i), BroadcastAll(mesh.Nodes(), mesh.relays[c.dest], q));
    }
  }

  /** Every mesh has such a bound: interfaces of one relay times nodes. */
  lemma FanExists(mesh: Mesh)
    ensures exists fan: nat :: FanBound(mesh, fan)
  {
    var most := MostZones(mesh.relays);
    var size := |mesh.Nodes()|;
    var fan := most * size;
    forall n, p | 0 <= n < |mesh.relays|
      ensures |BroadcastAll(mesh.Nodes(), mesh.relays[n], p)| <= fan {
      BroadcastAllSize(mesh.Nodes(), mesh.relays[n], p);
      FewerTimes(|mesh.relays[n]|, most, size);
    }
    assert FanBound(mesh, fan);
  }

  lemma {:induction false} MostZones(relays: Relays) returns (most: nat)
    ensures forall n | 0 <= n < |relays| :: |relays[n]| <= most
  {
    if relays == [] {
      most := 0;
    } else {
      var last := |relays| - 1;
      var rest := MostZones(relays[..last]);
      most := if |relays[last]| > rest then |relays[last]| else rest;
      assert forall n | 0 <= n < last :: relays[..last][n] == relays[n];
    }
  }

  lemma {:induction false} BroadcastAllSize(nodes: seq<seq<Zone>>, zones: seq<Zone>, p: Packet)
    ensures |BroadcastAll(nodes, zones, p)| <= |zones| * |nodes|
  {
    if zones != [] {
      BroadcastSize(nodes, zones[0], p);
      BroadcastAllSize(nodes, zones[1..], p);
      Distribute(|zones| - 1, |nodes|);
    }
  }

  lemma {:induction false} BroadcastSize(nodes: seq<seq<Zone>>, zone: Zone, p: Packet)
    ensures |Broadcast(nodes, zone, p)| <= |nodes|
  {
    if nodes != [] { BroadcastSize(nodes[..|nodes| - 1], zone, p); }
  }

  /** Deliveries and losses of a run. */
  function Consumed(events: seq<Event>): nat {
    if events == [] then 0
    else Consumed(events[..|events| - 1]) + (if events[|events| - 1].Send? then 0 else 1)
  }

  /** What the victims put in. */
  function Injected(mesh: Mesh, fan: nat, events: seq<Event>): nat {
    if events == [] then 0
    else
      var rest, e := events[..|events| - 1], events[|events| - 1];
      Injected(mesh, fan, rest) +
      if e.Send? then Measure(fan, Broadcast(mesh.Nodes(), e.zone, e.packet)) else 0
  }

  lemma EventBalance(mesh: Mesh, fan: nat, s: State, e: Event)
    requires FanBound(mesh, fan) && Enabled(s, e)
    ensures Measure(fan, Step(mesh, s, e).flight) + (if e.Send? then 0 else 1)
      <= Measure(fan, s.flight) + (if e.Send? then Measure(fan, Broadcast(mesh.Nodes(), e.zone, e.packet)) else 0)
  {
    match e
    case Deliver(i) => ArrivalDecreases(mesh, fan, s, i);
    case Lose(i) => MeasureWithout(fan, s.flight, i);
    case Send(zone, p) => MeasureConcat(fan, s.flight, Broadcast(mesh.Nodes(), zone, p));
  }

  /** For any topology, any cache contents and any order of arrival, a run cannot deliver or lose more
      copies than the weight of what it starts from and of what is sent: every flood is finite. */
  lemma {:induction false} FloodsDieOut(mesh: Mesh, fan: nat, states: seq<State>, events: seq<Event>)
    requires FanBound(mesh, fan) && IsRun(mesh, states, events)
    ensures Consumed(events) + Measure(fan, states[|events|].flight)
      <= Measure(fan, states[0].flight) + Injected(mesh, fan, events)
  {
    if events != [] {
      var n := |events| - 1;
      RunPrefix(mesh, states, events, n);
      FloodsDieOut(mesh, fan, states[..n + 1], events[..n]);
      EventBalance(mesh, fan, states[n], events[n]);
    }
  }

  // ----- What one arrival does -----

  /** The arrival of this copy sets off a rebroadcast. */
  predicate Forwards(mesh: Mesh, s: State, c: Copy)
    requires c.dest < |s.histories|
  {
    c.dest < |mesh.relays| && Rebroadcast(s.histories[c.dest], c.packet).Some?
  }

  /** The copies made when the arrival of `c` is forwarded. */
  ghost predicate Offspring(mesh: Mesh, c: Copy, x: Copy) {
    && c.dest < |mesh.relays| && Forward(c.packet) == Some(x.packet)
    && x.dest < |mesh.Nodes()| && Share(mesh.relays[c.dest], mesh.Nodes()[x.dest])
  }

  lemma ArrivalFacts(mesh: Mesh, s: State, i: nat)
    requires i < |s.flight| && s.flight[i].dest < |s.histories|
    ensures var c, t := s.flight[i], Arrive(mesh, s, i);
      && (forall x :: x in t.flight ==> x in s.flight || (Forwards(mesh, s, c) && Offspring(mesh, c, x)))
      && (forall x :: x in s.flight && x != c ==> x in t.flight)
      && (forall x :: Forwards(mesh, s, c) && Offspring(mesh, c, x) ==> x in t.flight)
      && (forall a :: a in t.aired <==>
            || a in s.aired
            || (Forwards(mesh, s, c) && Some(a.packet) == Forward(c.packet) && a.zone in mesh.relays[c.dest]))
  {
    var c, t := s.flight[i], Arrive(mesh, s, i);
    WithoutMembers(s.flight, i);
    if Forwards(mesh, s, c) {
      var q := Forward(c.packet).value;
      BroadcastAllCopies(mesh.Nodes(), mesh.relays[c.dest], q);
      AiringsMembers(mesh.relays[c.dest], q);
    }
  }

  /** On how many of the zones a node listens. */
  function Links(zones: seq<Zone>, node: seq<Zone>): nat {
    if zones == [] then 0 else (if zones[0] in node then 1 else 0) + Links(zones[1..], node)
  }

  lemma {:induction false} BroadcastCount(nodes: seq<seq<Zone>>, zone: Zone, p: Packet, x: Copy)
    ensures multiset(Broadcast(nodes, zone, p))[x] ==
      if x.packet == p && x.dest < |nodes| && zone in nodes[x.dest] then 1 else 0
  {
    if nodes != [] { BroadcastCount(nodes[..|nodes| - 1], zone, p, x); }
  }

  lemma {:induction false} BroadcastAllCount(nodes: seq<seq<Zone>>, zones: seq<Zone>, p: Packet, x: Copy)
    ensures multiset(BroadcastAll(nodes, zones, p))[x] ==
      if x.packet == p && x.dest < |nodes| then Links(zones, nodes[x.dest]) else 0
  {
    if zones != [] {
      BroadcastCount(nodes, zones[0], p, x);
      BroadcastAllCount(nodes, zones[1..], p, x);
    }
  }

  /** An arrival uses up the one copy; where a relay forwards, each node gets a copy for each zone it
      shares with that relay, and nothing else is put in flight. */
  lemma ArrivalExactly(mesh: Mesh, s: State, i: nat, x: Copy)
    requires i < |s.flight| && s.flight[i].dest < |s.histories|
    ensures var c, t := s.flight[i], Arrive(mesh, s, i);
      && t.histories == s.histories[c.dest := Remember(s.histories[c.dest], c.packet.sig)]
      && multiset(t.flight)[x] == multiset(s.flight)[x] - (if x == c then 1 else 0) +
           if Forwards(mesh, s, c) && Forward(c.packet) == Some(x.packet) && x.dest < |mesh.Nodes()| then
             Links(mesh.relays[c.dest], mesh.Nodes()[x.dest])
           else 0
  {
    var c := s.flight[i];
    assert s.flight == s.flight[..i] + ([c] + s.flight[i + 1..]);
    if Forwards(mesh, s, c) {
      BroadcastAllCount(mesh.Nodes(), mesh.relays[c.dest], Forward(c.packet).value, x);
    }
  }

  lemma WithoutMembers(flight: seq<Copy>, i: nat)
    requires i < |flight|
    ensures forall x :: x in Without(flight, i) ==> x in flight
    ensures forall x :: x in flight && x != flight[i] ==> x in Without(flight, i)
  {}

  lemma AiringsMembers(zones: seq<Zone>, p: Packet)
    ensures forall a: Airing :: a in Airings(zones, p) <==> a.packet == p && a.zone in zones
  {
    forall a: Airing | a.packet == p && a.zone in zones ensures a in Airings(zones, p) {
      var k :| 0 <= k < |zones| && zones[k] == a.zone;
      assert Airings(zones, p)[k] == a;
    }
  }
}

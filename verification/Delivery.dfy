/** Who gets a flooded packet: an upper bound for every run, and the spread each lossless run goes by
    whatever the order of arrival. */
module Delivery {
  import opened Distinct
  import opened Packets
  import opened Topology
  import opened CircularBuffer
  import opened Flood
  import opened Spread

  /** The node is attached to a zone within `k` relays of `start`. */
  ghost predicate NodeWithin(mesh: Mesh, start: Zone, m: nat, k: nat)
    requires m < |mesh.Nodes()|
  {
    exists z :: z in mesh.Nodes()[m] && Within(mesh.relays, start, z, k)
  }

  ghost predicate Connected(mesh: Mesh, start: Zone, m: nat)
    requires m < |mesh.Nodes()|
  {
    exists z :: z in mesh.Nodes()[m] && Reachable(mesh.relays, start, z)
  }

  /** Nothing with this hash is about, or was. */
  ghost predicate Unknown(s: State, h: Hash) {
    && (forall m | 0 <= m < |s.histories| :: h !in s.histories[m])
    && (forall c | c in s.flight :: c.packet.sig != h)
    && (forall a | a in s.aired :: a.packet.sig != h)
  }

  /** Victims send the packet in zone `start` only, with a full time to live. */
  ghost predicate SentFrom(e: Event, h: Hash, start: Zone) {
    e.Send? && e.packet.sig == h ==> e.zone == start && Ttl(e.packet.flags) == START_TTL
  }

  // ----- Any run: nobody hears the packet who is 20 or more relays away -----

  ghost predicate Near(mesh: Mesh, s: State, h: Hash, start: Zone) {
    && WellFormed(mesh, s)
    && (forall c | c in s.flight && c.packet.sig == h ::
          1 <= Ttl(c.packet.flags) <= START_TTL && NodeWithin(mesh, start, c.dest, START_TTL - Ttl(c.packet.flags)))
    && (forall a | a in s.aired && a.packet.sig == h ::
          1 <= Ttl(a.packet.flags) <= START_TTL && Within(mesh.relays, start, a.zone, START_TTL - Ttl(a.packet.flags)))
    && (forall m | 0 <= m < |s.histories| && h in s.histories[m] :: NodeWithin(mesh, start, m, START_TTL - 1))
  }

  lemma NodeWithinMonotone(mesh: Mesh, start: Zone, m: nat, j: nat, k: nat)
    requires m < |mesh.Nodes()| && j <= k && NodeWithin(mesh, start, m, j)
    ensures NodeWithin(mesh, start, m, k)
  {
    var z :| z in mesh.Nodes()[m] && Within(mesh.relays, start, z, j);
    WithinMonotone(mesh.relays, start, z, j, k);
  }

  /** One relay further. */
  lemma ZoneBeyond(mesh: Mesh, start: Zone, n: nat, z: Zone, k: nat)
    requires n < |mesh.relays| && NodeWithin(mesh, start, n, k) && z in mesh.relays[n]
    ensures Within(mesh.relays, start, z, k + 1)
  {
    var y :| y in mesh.Nodes()[n] && Within(mesh.relays, start, y, k);
    assert Bridged(mesh.relays, y, z);
  }

  lemma NearStep(mesh: Mesh, s: State, e: Event, h: Hash, start: Zone)
    requires Near(mesh, s, h, start) && Enabled(s, e) && SentFrom(e, h, start)
    ensures Near(mesh, Step(mesh, s, e), h, start)
  {
    match e
    case Deliver(i) => NearArrival(mesh, s, i, h, start);
    case Lose(i) => WithoutMembers(s.flight, i);
    case Send(zone, p) => BroadcastCopies(mesh.Nodes(), zone, p);
  }

  lemma NearArrival(mesh: Mesh, s: State, i: nat, h: Hash, start: Zone)
    requires Near(mesh, s, h, start) && i < |s.flight|
    ensures Near(mesh, Arrive(mesh, s, i), h, start)
  {
    var c, t := s.flight[i], Arrive(mesh, s, i);
    ArrivalFacts(mesh, s, i);
    assert c in s.flight;
    if c.packet.sig == h {
      var d := START_TTL - Ttl(c.packet.flags);
      NodeWithinMonotone(mesh, start, c.dest, d, START_TTL - 1);
      if Forwards(mesh, s, c) {
        forall z | z in mesh.relays[c.dest] ensures Within(mesh.relays, start, z, d + 1) {
          ZoneBeyond(mesh, start, c.dest, z, d);
        }
      }
    }
  }

  // ----- No evictions -----

  /** No node has accepted the packet and forgotten it. */
  ghost predicate Remembers(s: State, h: Hash) {
    forall m | 0 <= m < |s.histories| && h in s.histories[m] :: Seen(s.histories[m], h)
  }

  /** ... nor accepted it twice. */
  ghost predicate AcceptsOnce(s: State, h: Hash) {
    && h != 0 && Remembers(s, h)
    && forall m | 0 <= m < |s.histories| :: multiset(s.histories[m])[h] <= 1
  }

  lemma AcceptsOnceStep(mesh: Mesh, s: State, e: Event, h: Hash)
    requires AcceptsOnce(s, h) && Enabled(s, e) && Remembers(Step(mesh, s, e), h)
    ensures AcceptsOnce(Step(mesh, s, e), h)
  {
    if e.Deliver? { ArrivalFacts(mesh, s, e.i); }
  }

  lemma SeenIffAccepted(s: State, m: nat, h: Hash)
    requires AcceptsOnce(s, h) && m < |s.histories|
    ensures Seen(s.histories[m], h) <==> h in s.histories[m]
    ensures multiset(s.histories[m])[h] == if h in s.histories[m] then 1 else 0
  {
    SeenExactly(s.histories[m], h);
  }

  /** A node that has forgotten the packet takes it a second time. */
  lemma ForgottenIsTakenAgain(mesh: Mesh, s: State, i: nat, h: Hash)
    requires i < |s.flight| && s.flight[i].dest < |s.histories| && s.flight[i].packet.sig == h
    requires multiset(s.histories[s.flight[i].dest])[h] == 1
    ensures multiset(Arrive(mesh, s, i).histories[s.flight[i].dest])[h] ==
      if Seen(s.histories[s.flight[i].dest], h) then 1 else 2
  {}

  // ----- Nothing on the air is overlooked -----

  /** The node has accepted the packet, or a copy with at least this time to live is on its way. */
  ghost predicate Held(s: State, m: nat, h: Hash, ttl: nat)
    requires m < |s.histories|
  {
    || h in s.histories[m]
    || exists c :: c in s.flight && c.dest == m && c.packet.sig == h && Ttl(c.packet.flags) >= ttl
  }

  ghost predicate Covered(mesh: Mesh, s: State, h: Hash)
    requires WellFormed(mesh, s)
  {
    forall a, m | a in s.aired && a.packet.sig == h && 0 <= m < |s.histories| && a.zone in mesh.Nodes()[m] ::
      Held(s, m, h, Ttl(a.packet.flags))
  }

  /** Copies of the packet are not lost. */
  ghost predicate Lossless(s: State, e: Event, h: Hash)
    requires Enabled(s, e)
  {
    e.Lose? ==> s.flight[e.i].packet.sig != h
  }

  lemma WellFormedStep(mesh: Mesh, s: State, e: Event)
    requires WellFormed(mesh, s) && Enabled(s, e)
    ensures WellFormed(mesh, Step(mesh, s, e))
  {
    match e
    case Deliver(i) => ArrivalFacts(mesh, s, i);
    case Lose(i) => WithoutMembers(s.flight, i);
    case Send(zone, p) => BroadcastCopies(mesh.Nodes(), zone, p);
  }

  lemma HeldStep(mesh: Mesh, s: State, e: Event, h: Hash, m: nat, ttl: nat)
    requires WellFormed(mesh, s) && AcceptsOnce(s, h)
    requires Enabled(s, e) && Lossless(s, e, h) && m < |s.histories| && Held(s, m, h, ttl)
    ensures Held(Step(mesh, s, e), m, h, ttl)
  {}

  lemma CoveredStep(mesh: Mesh, s: State, e: Event, h: Hash)
    requires WellFormed(mesh, s) && AcceptsOnce(s, h) && Covered(mesh, s, h)
    requires Enabled(s, e) && Lossless(s, e, h)
    ensures WellFormed(mesh, Step(mesh, s, e)) && Covered(mesh, Step(mesh, s, e), h)
  {
    var t := Step(mesh, s, e);
    WellFormedStep(mesh, s, e);
    forall a, m | a in t.aired && a.packet.sig == h && 0 <= m < |t.histories| && a.zone in mesh.Nodes()[m]
      ensures Held(t, m, h, Ttl(a.packet.flags)) {
      if a in s.aired {
        HeldStep(mesh, s, e, h, m, Ttl(a.packet.flags));
      } else {
        NewAiringCovered(mesh, s, e, a, m);
      }
    }
  }

  /** Each node of a zone that has just been broadcast to has a copy coming. */
  lemma NewAiringCovered(mesh: Mesh, s: State, e: Event, a: Airing, m: nat)
    requires WellFormed(mesh, s) && Enabled(s, e) && a !in s.aired && a in Step(mesh, s, e).aired
    requires m < |s.histories| && a.zone in mesh.Nodes()[m]
    ensures exists c :: c in Step(mesh, s, e).flight && c.dest == m && c.packet == a.packet
  {
    match e
    case Deliver(i) =>
      ArrivalFacts(mesh, s, i);
      var c := s.flight[i];
      var x := Copy(m, a.packet);
      assert Share(mesh.relays[c.dest], mesh.Nodes()[m]);
      assert Offspring(mesh, c, x);
      assert x in Arrive(mesh, s, i).flight;
    case Send(zone, p) =>
      BroadcastCopies(mesh.Nodes(), zone, p);
      assert Copy(m, p) in Step(mesh, s, e).flight;
  }

  // ----- Where a run begins -----

  ghost predicate AiredBy(s: State, zone: Zone, h: Hash, ttl: nat) {
    exists a :: a in s.aired && a.zone == zone && a.packet.sig == h && Ttl(a.packet.flags) >= ttl
  }

  /** The packet was sent, or nothing of it is about. */
  ghost predicate Begun(s: State, h: Hash, start: Zone) {
    || AiredBy(s, start, h, START_TTL)
    || ((forall c | c in s.flight :: c.packet.sig != h) && (forall m | 0 <= m < |s.histories| :: h !in s.histories[m]))
  }

  lemma AiredByStays(s: State, t: State, h: Hash)
    requires forall a | a in s.aired :: a in t.aired
    ensures forall z, ttl: nat :: AiredBy(s, z, h, ttl) ==> AiredBy(t, z, h, ttl)
  {}

  lemma BegunStep(mesh: Mesh, s: State, e: Event, h: Hash, start: Zone)
    requires WellFormed(mesh, s) && Begun(s, h, start) && Enabled(s, e) && SentFrom(e, h, start)
    ensures Begun(Step(mesh, s, e), h, start)
  {
    var t := Step(mesh, s, e);
    match e
    case Deliver(i) =>
      ArrivalFacts(mesh, s, i);
      AiredByStays(s, t, h);
      assert s.flight[i] in s.flight;
    case Lose(i) =>
      WithoutMembers(s.flight, i);
      AiredByStays(s, t, h);
    case Send(zone, p) =>
      BroadcastCopies(mesh.Nodes(), zone, p);
      AiredByStays(s, t, h);
      assert Airing(zone, p) in t.aired;
  }

  // ----- Any order: the packet spreads by some plan -----

  ghost predicate IsAired(s: State, zone: Zone, h: Hash) {
    exists a :: a in s.aired && a.zone == zone && a.packet.sig == h
  }

  /** The copy comes from the victim, or from a relay of the plan with the hops left there. */
  ghost predicate Carried(mesh: Mesh, start: Zone, hops: seq<nat>, c: Copy)
    requires c.dest < |mesh.Nodes()|
  {
    if Ttl(c.packet.flags) == START_TTL then start in mesh.Nodes()[c.dest]
    else
      exists p: nat :: Passes(mesh.relays, hops, p, mesh.Nodes()[c.dest]) && hops[p] + Ttl(c.packet.flags) == START_TTL
  }

  /** The relays that have accepted the packet are those planned, and each of them sent it on with all
      the hops its place in the plan leaves. */
  ghost predicate Follows(mesh: Mesh, s: State, h: Hash, start: Zone, hops: seq<nat>)
    requires WellFormed(mesh, s)
  {
    && IsPlan(mesh.relays, start, hops)
    && (forall n | 0 <= n < |mesh.relays| :: hops[n] > 0 <==> h in s.histories[n])
    && (forall m | 0 <= m < |s.histories| && h in s.histories[m] :: Reached(mesh.relays, start, hops, mesh.Nodes()[m]))
    && (forall n, z | 0 <= n < |mesh.relays| && 1 <= hops[n] < START_TTL && z in mesh.relays[n] :: IsAired(s, z, h))
    && (forall c | c in s.flight && c.packet.sig == h :: Carried(mesh, start, hops, c))
  }

  lemma AiredStays(s: State, t: State, h: Hash)
    requires forall a | a in s.aired :: a in t.aired
    ensures forall z :: IsAired(s, z, h) ==> IsAired(t, z, h)
  {}

  lemma CarriedStays(mesh: Mesh, start: Zone, hops: seq<nat>, more: seq<nat>, c: Copy)
    requires c.dest < |mesh.Nodes()| && Refines(hops, more) && Carried(mesh, start, hops, c)
    ensures Carried(mesh, start, more, c)
  {
    if Ttl(c.packet.flags) != START_TTL {
      var p: nat :| Passes(mesh.relays, hops, p, mesh.Nodes()[c.dest]) && hops[p] + Ttl(c.packet.flags) == START_TTL;
      assert Passes(mesh.relays, more, p, mesh.Nodes()[c.dest]);
    }
  }

  /** Where a copy arrives, the packet was to be heard. */
  lemma CarriedReaches(mesh: Mesh, start: Zone, hops: seq<nat>, c: Copy)
    requires c.dest < |mesh.Nodes()| && Carried(mesh, start, hops, c)
    ensures Reached(mesh.relays, start, hops, mesh.Nodes()[c.dest])
    ensures 1 <= Ttl(c.packet.flags) <= START_TTL
  {}

  lemma FollowsStep(mesh: Mesh, s: State, e: Event, h: Hash, start: Zone, hops: seq<nat>)
    returns (more: seq<nat>)
    requires WellFormed(mesh, s) && AcceptsOnce(s, h)
    requires Follows(mesh, s, h, start, hops) && Enabled(s, e) && SentFrom(e, h, start)
    ensures WellFormed(mesh, Step(mesh, s, e)) && Follows(mesh, Step(mesh, s, e), h, start, more)
  {
    WellFormedStep(mesh, s, e);
    var t := Step(mesh, s, e);
    more := hops;
    match e {
      case Deliver(i) =>
        if IsFirst(mesh, s, i, h) { more := Accepted(mesh, s, i, h, start, hops); }
        else { Ignored(mesh, s, i, h, start, hops); }
      case Lose(i) =>
        WithoutMembers(s.flight, i);
        AiredStays(s, t, h);
      case Send(zone, p) =>
        BroadcastCopies(mesh.Nodes(), zone, p);
        AiredStays(s, t, h);
    }
  }

  /** Copy `i` is the first of the packet at a relay. */
  ghost predicate IsFirst(mesh: Mesh, s: State, i: nat, h: Hash)
    requires WellFormed(mesh, s) && i < |s.flight|
  {
    var c := s.flight[i];
    c.packet.sig == h && c.dest < |mesh.relays| && c.dest < |s.histories| && h !in s.histories[c.dest]
  }

  /** Whatever else arrives: nothing of the packet is sent on. */
  lemma Ignored(mesh: Mesh, s: State, i: nat, h: Hash, start: Zone, hops: seq<nat>)
    requires WellFormed(mesh, s) && AcceptsOnce(s, h)
    requires Follows(mesh, s, h, start, hops) && i < |s.flight| && !IsFirst(mesh, s, i, h)
    ensures WellFormed(mesh, Arrive(mesh, s, i)) && Follows(mesh, Arrive(mesh, s, i), h, start, hops)
  {
    var c, t := s.flight[i], Arrive(mesh, s, i);
    WellFormedStep(mesh, s, Deliver(i));
    ArrivalFacts(mesh, s, i);
    AiredStays(s, t, h);
    assert c in s.flight;
    if c.packet.sig == h {
      SeenIffAccepted(s, c.dest, h);
      CarriedReaches(mesh, start, hops, c);
    }
  }

  /** The plan with the relay added that copy `c` reaches, behind the one it comes from. */
  function Joined(hops: seq<nat>, c: Copy): seq<nat>
    requires c.dest < |hops| && Ttl(c.packet.flags) <= START_TTL
  {
    hops[c.dest := START_TTL + 1 - Ttl(c.packet.flags)]
  }

  lemma JoinedIsPlan(mesh: Mesh, start: Zone, hops: seq<nat>, c: Copy)
    requires IsPlan(mesh.relays, start, hops) && c.dest < |hops| && hops[c.dest] == 0
    requires Carried(mesh, start, hops, c)
    ensures 1 <= Ttl(c.packet.flags) <= START_TTL
    ensures IsPlan(mesh.relays, start, Joined(hops, c)) && Refines(hops, Joined(hops, c))
  {
    CarriedReaches(mesh, start, hops, c);
    assert mesh.Nodes()[c.dest] == mesh.relays[c.dest];
    PlanExtends(mesh.relays, start, hops, c.dest, START_TTL + 1 - Ttl(c.packet.flags));
  }

  /** A relay accepts the packet, and becomes part of the plan. */
  lemma Accepted(mesh: Mesh, s: State, i: nat, h: Hash, start: Zone, hops: seq<nat>)
    returns (more: seq<nat>)
    requires WellFormed(mesh, s) && AcceptsOnce(s, h)
    requires Follows(mesh, s, h, start, hops) && i < |s.flight| && IsFirst(mesh, s, i, h)
    ensures WellFormed(mesh, Arrive(mesh, s, i)) && Follows(mesh, Arrive(mesh, s, i), h, start, more)
  {
    var c, t := s.flight[i], Arrive(mesh, s, i);
    WellFormedStep(mesh, s, Deliver(i));
    assert c in s.flight;
    SeenIffAccepted(s, c.dest, h);
    JoinedIsPlan(mesh, start, hops, c);
    more := Joined(hops, c);
    JoinedReaches(mesh, s, i, h, start, hops, more);
    JoinedAirs(mesh, s, i, h, start, hops, more);
    JoinedCarries(mesh, s, i, h, start, hops, more);
  }

  lemma JoinedReaches(mesh: Mesh, s: State, i: nat, h: Hash, start: Zone, hops: seq<nat>, more: seq<nat>)
    requires WellFormed(mesh, s) && Follows(mesh, s, h, start, hops) && i < |s.flight| && IsFirst(mesh, s, i, h)
    requires Refines(hops, more)
    ensures forall m | 0 <= m < |s.histories| && h in Arrive(mesh, s, i).histories[m] ::
      Reached(mesh.relays, start, more, mesh.Nodes()[m])
  {
    var c := s.flight[i];
    assert c in s.flight;
    CarriedReaches(mesh, start, hops, c);
    forall m | 0 <= m < |s.histories| && h in Arrive(mesh, s, i).histories[m]
      ensures Reached(mesh.relays, start, more, mesh.Nodes()[m]) {
      ReachedStays(mesh.relays, start, hops, more, mesh.Nodes()[m]);
    }
  }

  lemma JoinedAirs(mesh: Mesh, s: State, i: nat, h: Hash, start: Zone, hops: seq<nat>, more: seq<nat>)
    requires WellFormed(mesh, s) && Follows(mesh, s, h, start, hops) && i < |s.flight| && IsFirst(mesh, s, i, h)
    requires !Seen(s.histories[s.flight[i].dest], h)
    requires 1 <= Ttl(s.flight[i].packet.flags) <= START_TTL && more == Joined(hops, s.flight[i])
    ensures forall n, z | 0 <= n < |mesh.relays| && 1 <= more[n] < START_TTL && z in mesh.relays[n] ::
      IsAired(Arrive(mesh, s, i), z, h)
  {
    var c, t := s.flight[i], Arrive(mesh, s, i);
    ArrivalFacts(mesh, s, i);
    AiredStays(s, t, h);
    forall z | more[c.dest] < START_TTL && z in mesh.relays[c.dest] ensures IsAired(t, z, h) {
      assert Airing(z, Forward(c.packet).value) in t.aired;
    }
  }

  lemma JoinedCarries(mesh: Mesh, s: State, i: nat, h: Hash, start: Zone, hops: seq<nat>, more: seq<nat>)
    requires WellFormed(mesh, s) && Follows(mesh, s, h, start, hops) && i < |s.flight| && IsFirst(mesh, s, i, h)
    requires WellFormed(mesh, Arrive(mesh, s, i))
    requires 1 <= Ttl(s.flight[i].packet.flags) <= START_TTL && more == Joined(hops, s.flight[i]) && Refines(hops, more)
    ensures forall x | x in Arrive(mesh, s, i).flight && x.packet.sig == h :: Carried(mesh, start, more, x)
  {
    var c, t := s.flight[i], Arrive(mesh, s, i);
    ArrivalFacts(mesh, s, i);
    forall x | x in t.flight && x.packet.sig == h ensures Carried(mesh, start, more, x) {
      if x in s.flight {
        CarriedStays(mesh, start, hops, more, x);
      } else {
        assert Passes(mesh.relays, more, c.dest, mesh.Nodes()[x.dest]);
      }
    }
  }

  // ----- Whole runs -----

  /** The packet is sent from `start` only, and its copies are not lost. */
  ghost predicate Faithful(s: State, e: Event, h: Hash, start: Zone)
    requires Enabled(s, e)
  {
    SentFrom(e, h, start) && Lossless(s, e, h)
  }

  /** A lossless run that begins before the packet is known, in which no node forgets it. */
  ghost predicate FaithfulRun(mesh: Mesh, states: seq<State>, events: seq<Event>, h: Hash, start: Zone) {
    && IsRun(mesh, states, events) && h != 0
    && WellFormed(mesh, states[0]) && Unknown(states[0], h)
    && (forall s | s in states :: Remembers(s, h))
    && forall k {:trigger events[k]} | 0 <= k < |events| :: Faithful(states[k], events[k], h, start)
  }

  /** All packets in flight at first, and all sent later, have hashes of this set. */
  ghost predicate TrafficWithin(states: seq<State>, events: seq<Event>, hashes: set<Hash>)
    requires states != []
  {
    && (forall c | c in states[0].flight :: c.packet.sig in hashes)
    && (forall e | e in events && e.Send? :: e.packet.sig in hashes)
  }

  /** What the nodes accepted since `s` is of this set. */
  ghost predicate AcceptedWithin(s: State, t: State, hashes: set<Hash>) {
    && |t.histories| == |s.histories| && (forall c | c in t.flight :: c.packet.sig in hashes)
    && forall m | 0 <= m < |s.histories| ::
         && IsHistory(t.histories[m]) && s.histories[m] <= t.histories[m]
         && forall x | x in t.histories[m][|s.histories[m]|..] :: x in hashes
  }

  lemma AcceptedWithinStep(mesh: Mesh, s: State, t: State, e: Event, hashes: set<Hash>)
    requires AcceptedWithin(s, t, hashes) && Enabled(t, e) && (e.Send? ==> e.packet.sig in hashes)
    ensures AcceptedWithin(s, Step(mesh, t, e), hashes)
  {
    match e
    case Deliver(i) =>
      ArrivalFacts(mesh, t, i);
      assert t.flight[i] in t.flight;
      HistoryExtends(t.histories[t.flight[i].dest], t.flight[i].packet.sig);
    case Lose(i) => WithoutMembers(t.flight, i);
    case Send(zone, p) => BroadcastCopies(mesh.Nodes(), zone, p);
  }

  lemma {:induction false} TrafficAccepted(mesh: Mesh, states: seq<State>, events: seq<Event>,
                                           hashes: set<Hash>, n: nat)
    requires IsRun(mesh, states, events) && TrafficWithin(states, events, hashes) && n <= |events|
    requires forall m | 0 <= m < |states[0].histories| :: IsHistory(states[0].histories[m])
    ensures AcceptedWithin(states[0], states[n], hashes)
  {
    if n > 0 {
      TrafficAccepted(mesh, states, events, hashes, n - 1);
      assert events[n - 1] in events;
      AcceptedWithinStep(mesh, states[0], states[n - 1], events[n - 1], hashes);
    }
  }

  /** Whatever the nodes have accepted before: with at most 256 hashes about during the run, no node
      forgets the packet. */
  lemma FewHashesRemembered(mesh: Mesh, states: seq<State>, events: seq<Event>, h: Hash, hashes: set<Hash>)
    requires IsRun(mesh, states, events) && TrafficWithin(states, events, hashes) && |hashes| <= HASHES
    requires forall m | 0 <= m < |states[0].histories| ::
      IsHistory(states[0].histories[m]) && h !in states[0].histories[m]
    ensures forall s | s in states :: Remembers(s, h)
  {
    forall n, m | 0 <= n < |states| && 0 <= m < |states[n].histories| && h in states[n].histories[m]
      ensures Seen(states[n].histories[m], h) {
      TrafficAccepted(mesh, states, events, hashes, n);
      var known := |states[0].histories[m]|;
      assert h in states[n].histories[m][known..];
      FewHashesNeverForgotten(states[n].histories[m], known, hashes);
    }
  }

  /** The flood of this packet is over. */
  ghost predicate Quiet(s: State, h: Hash) {
    forall c | c in s.flight :: c.packet.sig != h
  }

  /** Every run: whoever accepts the packet is within 19 relays of where it was sent, and no zone
      further away than that ever carries it. Copies may be lost, and caches may forget. */
  lemma {:induction false} NeverBeyondRadius(mesh: Mesh, states: seq<State>, events: seq<Event>, h: Hash, start: Zone)
    requires IsRun(mesh, states, events) && WellFormed(mesh, states[0]) && Unknown(states[0], h)
    requires forall e | e in events :: SentFrom(e, h, start)
    ensures Near(mesh, states[|events|], h, start)
  {
    if events != [] {
      var n := |events| - 1;
      NeverBeyondRadius(mesh, states[..n + 1], events[..n], h, start);
      assert events[n] in events;
      NearStep(mesh, states[n], events[n], h, start);
    }
  }

  lemma {:induction false} FaithfulInvariants(mesh: Mesh, states: seq<State>, events: seq<Event>,
                                              h: Hash, start: Zone)
    requires FaithfulRun(mesh, states, events, h, start)
    ensures var s := states[|events|];
      && WellFormed(mesh, s) && AcceptsOnce(s, h) && Covered(mesh, s, h)
      && Begun(s, h, start) && Near(mesh, s, h, start)
  {
    if events != [] {
      var n := |events| - 1;
      var s, e := states[n], events[n];
      FaithfulInvariants(mesh, states[..n + 1], events[..n], h, start);
      assert Faithful(s, e, h, start);
      assert states[n + 1] in states;
      AcceptsOnceStep(mesh, s, e, h);
      CoveredStep(mesh, s, e, h);
      BegunStep(mesh, s, e, h, start);
      NearStep(mesh, s, e, h, start);
    }
  }

  lemma {:induction false} EveryRunFollows(mesh: Mesh, states: seq<State>, events: seq<Event>,
                                           h: Hash, start: Zone) returns (hops: seq<nat>)
    requires FaithfulRun(mesh, states, events, h, start)
    ensures WellFormed(mesh, states[|events|]) && Follows(mesh, states[|events|], h, start, hops)
  {
    if events == [] {
      hops := seq(|mesh.relays|, _ => 0);
    } else {
      var n := |events| - 1;
      hops := EveryRunFollows(mesh, states[..n + 1], events[..n], h, start);
      FaithfulInvariants(mesh, states[..n + 1], events[..n], h, start);
      assert Faithful(states[n], events[n], h, start);
      hops := FollowsStep(mesh, states[n], events[n], h, start, hops);
    }
  }

  // ----- Main results -----

  /** The copy is about to reach a relay that has not seen the packet, and has no hop left to go on. */
  ghost predicate Dies(mesh: Mesh, s: State, h: Hash, c: Copy) {
    && c in s.flight && c.packet.sig == h && c.dest < |mesh.relays| && c.dest < |s.histories|
    && !Seen(s.histories[c.dest], h) && Forward(c.packet).None?
  }

  /** Where no 20 relays form a chain, that cannot happen, whatever the order of arrival ... */
  lemma NoHopExhaustion(mesh: Mesh, states: seq<State>, events: seq<Event>,
                        h: Hash, start: Zone, c: Copy)
    requires FaithfulRun(mesh, states, events, h, start) && NoLongChain(mesh.relays, start)
    ensures !Dies(mesh, states[|events|], h, c)
  {
    var hops := EveryRunFollows(mesh, states, events, h, start);
    FaithfulInvariants(mesh, states, events, h, start);
    if Dies(mesh, states[|events|], h, c) { LastOfPlan(mesh, states[|events|], h, start, hops, c); }
  }

  lemma LastOfPlan(mesh: Mesh, s: State, h: Hash, start: Zone, hops: seq<nat>, c: Copy)
    requires WellFormed(mesh, s) && AcceptsOnce(s, h)
    requires Follows(mesh, s, h, start, hops) && Dies(mesh, s, h, c)
    ensures !NoLongChain(mesh.relays, start)
  {
    SeenIffAccepted(s, c.dest, h);
    LastHop(mesh, start, hops, c);
  }

  lemma LastHop(mesh: Mesh, start: Zone, hops: seq<nat>, c: Copy)
    requires IsPlan(mesh.relays, start, hops) && c.dest < |hops| && hops[c.dest] == 0
    requires Carried(mesh, start, hops, c) && Forward(c.packet).None?
    ensures !NoLongChain(mesh.relays, start)
  {
    JoinedIsPlan(mesh, start, hops, c);
    assert Joined(hops, c)[c.dest] == START_TTL;
    var chain := PlannedChain(mesh.relays, start, Joined(hops, c), c.dest);
    assert IsChain(mesh.relays, start, chain);
  }

  /** The packet was sent and its flood is over. */
  ghost predicate Over(s: State, h: Hash, start: Zone) {
    Quiet(s, h) && IsAired(s, start, h)
  }

  /** Each relay and exit connected to the victim's zone has accepted the packet exactly once, and no
      other. */
  ghost predicate Delivered(mesh: Mesh, s: State, h: Hash, start: Zone) {
    && |s.histories| == |mesh.Nodes()|
    && forall m | 0 <= m < |s.histories| ::
         multiset(s.histories[m])[h] == if Connected(mesh, start, m) then 1 else 0
  }

  /** ... and once the flood is over, the packet is delivered. */
  lemma DeliveredInAnyOrder(mesh: Mesh, states: seq<State>, events: seq<Event>,
                            h: Hash, start: Zone)
    requires FaithfulRun(mesh, states, events, h, start) && NoLongChain(mesh.relays, start)
    requires Over(states[|events|], h, start)
    ensures Delivered(mesh, states[|events|], h, start)
  {
    var hops := EverySpread(mesh, states, events, h, start);
    ShortPlan(mesh.relays, start, hops);
    forall m | 0 <= m < |mesh.Nodes()| && Connected(mesh, start, m)
      ensures Reached(mesh.relays, start, hops, mesh.Nodes()[m]) {
      ShortSpreadReaches(mesh, start, hops, m);
    }
    SpreadDelivers(mesh, states, events, h, start, hops);
  }

  lemma ShortSpreadReaches(mesh: Mesh, start: Zone, hops: seq<nat>, m: nat)
    requires IsSpread(mesh.relays, start, hops) && forall n | 0 <= n < |mesh.relays| :: hops[n] < START_TTL
    requires m < |mesh.Nodes()| && Connected(mesh, start, m)
    ensures Reached(mesh.relays, start, hops, mesh.Nodes()[m])
  {
    var z :| z in mesh.Nodes()[m] && Reachable(mesh.relays, start, z);
    var k: nat :| Within(mesh.relays, start, z, k);
    ConnectedIsReached(mesh.relays, start, hops, mesh.Nodes()[m], z, k);
  }

  /** In a mesh of at most 19 relays there is no such chain. */
  lemma DeliveredInSmallMesh(mesh: Mesh, states: seq<State>, events: seq<Event>,
                             h: Hash, start: Zone)
    requires FaithfulRun(mesh, states, events, h, start) && |mesh.relays| <= 19
    requires Over(states[|events|], h, start)
    ensures Delivered(mesh, states[|events|], h, start)
  {
    FewRelays(mesh.relays, start);
    DeliveredInAnyOrder(mesh, states, events, h, start);
  }

  /** The relays and exits that have accepted the packet. */
  ghost function HeardBy(s: State, h: Hash): set<int> {
    set m | 0 <= m < |s.histories| && h in s.histories[m]
  }

  ghost function ReachedBy(mesh: Mesh, start: Zone, hops: seq<nat>): set<int> {
    set m | 0 <= m < |mesh.Nodes()| && Reached(mesh.relays, start, hops, mesh.Nodes()[m])
  }

  /** Once over, a flood has gone by some spread of the topology: exactly the nodes that reaches have
      accepted the packet. */
  lemma EverySpread(mesh: Mesh, states: seq<State>, events: seq<Event>,
                    h: Hash, start: Zone) returns (hops: seq<nat>)
    requires FaithfulRun(mesh, states, events, h, start) && Over(states[|events|], h, start)
    ensures IsSpread(mesh.relays, start, hops) && HeardBy(states[|events|], h) == ReachedBy(mesh, start, hops)
  {
    hops := EveryRunFollows(mesh, states, events, h, start);
    FaithfulInvariants(mesh, states, events, h, start);
    var s := states[|events|];
    forall m | 0 <= m < |mesh.Nodes()| && Reached(mesh.relays, start, hops, mesh.Nodes()[m])
      ensures h in s.histories[m] {
      ReachedHears(mesh, s, h, start, hops, m);
    }
    forall n | 0 <= n < |mesh.relays| && hops[n] == 0 ensures !Reached(mesh.relays, start, hops, mesh.relays[n]) {
      assert mesh.Nodes()[n] == mesh.relays[n];
    }
  }

  lemma ReachedHears(mesh: Mesh, s: State, h: Hash, start: Zone, hops: seq<nat>, m: nat)
    requires WellFormed(mesh, s) && Covered(mesh, s, h) && Over(s, h, start) && Follows(mesh, s, h, start, hops)
    requires m < |mesh.Nodes()| && Reached(mesh.relays, start, hops, mesh.Nodes()[m])
    ensures h in s.histories[m]
  {
    if start in mesh.Nodes()[m] {
      AiredAndQuiet(mesh, s, h, start, m);
    } else {
      var p: nat :| Passes(mesh.relays, hops, p, mesh.Nodes()[m]);
      var z :| z in mesh.relays[p] && z in mesh.Nodes()[m];
      AiredAndQuiet(mesh, s, h, z, m);
    }
  }

  lemma AiredAndQuiet(mesh: Mesh, s: State, h: Hash, z: Zone, m: nat)
    requires WellFormed(mesh, s) && Covered(mesh, s, h) && Quiet(s, h) && IsAired(s, z, h)
    requires m < |s.histories| && z in mesh.Nodes()[m]
    ensures h in s.histories[m]
  {}

  /** The packet is delivered exactly if the spread it went by reaches all that is connected. */
  lemma SpreadDelivers(mesh: Mesh, states: seq<State>, events: seq<Event>,
                       h: Hash, start: Zone, hops: seq<nat>)
    requires FaithfulRun(mesh, states, events, h, start) && IsPlan(mesh.relays, start, hops)
    requires HeardBy(states[|events|], h) == ReachedBy(mesh, start, hops)
    ensures Delivered(mesh, states[|events|], h, start) <==> ReachesAll(mesh, start, hops)
  {
    FaithfulInvariants(mesh, states, events, h, start);
    var s := states[|events|];
    forall m | 0 <= m < |s.histories|
      ensures multiset(s.histories[m])[h] == if Reached(mesh.relays, start, hops, mesh.Nodes()[m]) then 1 else 0
      ensures Reached(mesh.relays, start, hops, mesh.Nodes()[m]) ==> Connected(mesh, start, m) {
      SeenIffAccepted(s, m, h);
      assert m in HeardBy(s, h) <==> m in ReachedBy(mesh, start, hops);
      if Reached(mesh.relays, start, hops, mesh.Nodes()[m]) {
        ReachedIsConnected(mesh.relays, start, hops, mesh.Nodes()[m]);
      }
    }
  }

  ghost predicate ReachesAll(mesh: Mesh, start: Zone, hops: seq<nat>) {
    forall m | 0 <= m < |mesh.Nodes()| && Connected(mesh, start, m) ::
      Reached(mesh.relays, start, hops, mesh.Nodes()[m])
  }
}

/** What the ESP32 relay does in time, on a clock that neither runs back nor wraps: the bounded table
    agrees with an unbounded set of timed acceptances, and bursts keep their distance. */
module EspTiming {
  import opened Distinct
  import opened Packets
  import opened TimeAwareCache
  import opened EspRelay
  import opened EspInvariants

  const NO_WRAP: nat := 0x1_0000_0000 - CACHE_TTL_MS

  // ----- Times -----

  /** Acceptances come in order, none is burst before its jitter is over, and queued packets wait 50 to
      200 milliseconds. */
  ghost predicate Timed(st: State, now: UInt32) {
    && (forall a | a in st.log :: a.time <= now && a.time < NO_WRAP && a.jitter <= 200 && (a.gateway || a.jitter >= 50))
    && (forall a, b | a in st.log && b in a.bursts :: a.time + a.jitter <= b.start <= now)
  }

  /** Bursts start at least 500 milliseconds apart, the next one after the end of the last. */
  ghost predicate Spaced(st: State, now: UInt32) {
    && (forall i, j | 0 <= i < j < |st.starts| :: st.starts[i] + BROADCAST_BURST <= st.starts[j])
    && (forall i | 0 <= i < |st.starts| :: st.starts[i] <= now)
    && (st.isBroadcasting ==> |st.starts| > 0 && st.endTime == st.starts[|st.starts| - 1] + BROADCAST_BURST)
    && (!st.isBroadcasting && |st.starts| > 0 ==> st.starts[|st.starts| - 1] + BROADCAST_BURST <= now)
  }

  ghost predicate TimedRun(states: seq<State>, events: seq<Event>) {
    && IsRun(states, events)
    && (forall k | 0 <= k < |events| :: events[k].now < NO_WRAP)
    && (forall j, k | 0 <= j < k < |events| :: events[j].now <= events[k].now)
  }

  function LastTime(events: seq<Event>): UInt32 {
    if events == [] then 0 else events[|events| - 1].now
  }

  lemma TimedPrefix(states: seq<State>, events: seq<Event>, n: nat)
    requires TimedRun(states, events) && n <= |events|
    ensures TimedRun(states[..n + 1], events[..n])
    ensures n < |events| ==> LastTime(events[..n]) <= events[n].now && LastTime(events[..n + 1]) == events[n].now
  {
    RunPrefix(states, events, n);
  }

  lemma CheckTimed(st: State, hmac: Hash, now: UInt32, mac: Mac, t: UInt32)
    requires Timed(st, t)
    ensures Timed(Check(st, hmac, now, mac), t)
  {}

  lemma AcceptTimed(st: State, packet: Packet, now: UInt32, jitter: nat, mac: Mac, gateway: bool)
    requires st.Shaped() && Timed(st, now) && now < NO_WRAP && jitter <= 200 && (gateway || jitter >= 50)
    ensures Timed(Accept(st, packet, now, jitter, mac, gateway), now)
  {}

  lemma LoopTimed(st: State, now: UInt32)
    requires Inv(st) && GatewayDone(st) && Timed(st, now)
    ensures Timed(OnLoop(st, now), now)
  {
    if !st.isBroadcasting && FirstBurst(st.entries, now) < CACHE_SIZE {
      BurstStart(st, now);
      var k, t := FirstBurst(st.entries, now), OnLoop(st, now);
      var a := st.log[st.owner[k]];
      assert a in st.log && Matches(st.entries[k], a);
      BurstTimed(st, t, now, st.owner[k], t.advData);
    }
  }

  lemma BurstTimed(st: State, t: State, now: UInt32, i: nat, payload: seq<Byte>)
    requires Timed(st, now) && i < |st.log| == |t.log|
    requires st.log[i].time + st.log[i].jitter <= now
    requires t.log[i] == st.log[i].(bursts := [Burst(now, payload)])
    requires forall j | 0 <= j < |st.log| && j != i :: t.log[j] == st.log[j]
    ensures Timed(t, now)
  {
    assert st.log[i] in st.log;
    forall b | b in t.log ensures b == t.log[i] || b in st.log {
      var j :| 0 <= j < |t.log| && t.log[j] == b;
    }
  }

  lemma TimedStep(st: State, e: Event, before: UInt32)
    requires Inv(st) && GatewayDone(st) && Timed(st, before) && before <= e.now < NO_WRAP && IsEvent(e)
    ensures Timed(Step(st, e), e.now)
  {
    match e
    case Loop(now) => LoopTimed(st, now);
    case Receive(packet, mac, now, connected, jitter) =>
      CheckTimed(st, packet.sig, now, mac, now);
      if FirstHit(st.entries, packet.sig, now) == CACHE_SIZE {
        var checked := Check(st, packet.sig, now, mac);
        if connected {
          AcceptTimed(checked, packet, now, 0, mac, true);
          CheckTimed(Accept(checked, packet, now, 0, mac, true), packet.sig, now, mac, now);
        } else if Forward(packet).Some? {
          AcceptTimed(checked, Forward(packet).value, now, jitter, mac, false);
        }
      }
  }

  lemma SpacedStep(st: State, e: Event, before: UInt32)
    requires st.Shaped() && Spaced(st, before) && before <= e.now < NO_WRAP
    ensures Spaced(Step(st, e), e.now)
  {
    match e
    case Receive(packet, mac, now, connected, jitter) => PacketKeepsRadio(st, packet, mac, now, connected, jitter);
    case Loop(now) => LoopSpaced(st, now);
  }

  lemma LoopSpaced(st: State, now: UInt32)
    requires st.Shaped() && Spaced(st, now) && now < NO_WRAP
    ensures Spaced(OnLoop(st, now), now)
  {
    if !st.isBroadcasting && FirstBurst(st.entries, now) < CACHE_SIZE {
      StartSpaced(st, now);
    }
  }

  lemma StartSpaced(st: State, now: UInt32)
    requires st.Shaped() && Spaced(st, now) && now < NO_WRAP
    requires !st.isBroadcasting && FirstBurst(st.entries, now) < CACHE_SIZE
    ensures Spaced(OnLoop(st, now), now)
  {
    var t, n := OnLoop(st, now), |st.starts|;
    assert t.starts == st.starts + [now] && t.endTime == now + BROADCAST_BURST;
    forall i, j | 0 <= i < j < |t.starts| ensures t.starts[i] + BROADCAST_BURST <= t.starts[j] {
      if i < n - 1 && j == n { assert st.starts[i] + BROADCAST_BURST <= st.starts[n - 1]; }
    }
  }

  lemma {:induction false} EveryTimedState(states: seq<State>, events: seq<Event>)
    requires TimedRun(states, events)
    ensures var st := states[|events|];
      Inv(st) && GatewayDone(st) && Timed(st, LastTime(events)) && Spaced(st, LastTime(events))
  {
    if events == [] {
      InvBoot();
    } else {
      var n := |events| - 1;
      TimedPrefix(states, events, n);
      EveryTimedState(states[..n + 1], events[..n]);
      assert StepAt(states, events, n);
      InvStep(states[n], events[n]);
      TimedStep(states[n], events[n], LastTime(events[..n]));
      SpacedStep(states[n], events[n], LastTime(events[..n]));
    }
  }

  /** Burst starts are 500 milliseconds apart, a burst ends as many after its start, and no queued packet
      is sent before its jitter of 50 to 200 milliseconds is over. */
  lemma BurstTiming(states: seq<State>, events: seq<Event>)
    requires TimedRun(states, events)
    ensures var st := states[|events|];
      && (forall i, j | 0 <= i < j < |st.starts| :: st.starts[i] as int + 500 <= st.starts[j])
      && (st.isBroadcasting ==> |st.starts| > 0 && st.endTime == st.starts[|st.starts| - 1] as int + 500)
      && (forall a, b | a in st.log && b in a.bursts :: 50 <= a.jitter <= 200 && a.time + a.jitter <= b.start)
  {
    EveryTimedState(states, events);
  }

  // ----- The table and the timed set -----

  predicate LiveAt(a: Acceptance, now: UInt32) {
    a.time <= now < a.time + CACHE_TTL_MS
  }

  /** The acceptances of the last two seconds. */
  ghost function LiveSet(log: seq<Acceptance>, now: UInt32): set<int> {
    set i | 0 <= i < |log| && LiveAt(log[i], now)
  }

  /** Looking up is asking whether the packet was accepted less than two seconds ago. */
  ghost predicate Agree(st: State, now: UInt32) {
    forall h: Hash :: FirstHit(st.entries, h, now) < |st.entries| <==>
      exists i :: i in LiveSet(st.log, now) && st.log[i].hmac == h
  }

  ghost predicate InTable(st: State, i: int) {
    exists k :: 0 <= k < |st.owner| && k < |st.entries| && st.owner[k] == i && st.entries[k].active
  }

  /** No acceptance of the last two seconds was evicted. */
  ghost predicate Kept(st: State, now: UInt32) {
    forall i | i in LiveSet(st.log, now) :: InTable(st, i)
  }

  lemma LiveEntry(st: State, now: UInt32, k: nat)
    requires Inv(st) && Timed(st, now) && k < CACHE_SIZE && st.entries[k].active
    ensures Owned(st, k) && st.entries[k].expiresAt == st.log[st.owner[k]].time + CACHE_TTL_MS
    ensures IsLive(st.entries[k], now) <==> st.owner[k] in LiveSet(st.log, now)
    ensures st.entries[k].hmac == st.log[st.owner[k]].hmac
  {}

  lemma KeptAgrees(st: State, now: UInt32)
    requires Inv(st) && Timed(st, now) && Kept(st, now)
    ensures Agree(st, now)
  {
    forall h: Hash ensures FirstHit(st.entries, h, now) < |st.entries| <==>
        exists i :: i in LiveSet(st.log, now) && st.log[i].hmac == h {
      var k := FirstHit(st.entries, h, now);
      if k < CACHE_SIZE { LiveEntry(st, now, k); }
      if i :| i in LiveSet(st.log, now) && st.log[i].hmac == h {
        assert InTable(st, i);
        var j :| 0 <= j < CACHE_SIZE && st.owner[j] == i && st.entries[j].active;
        LiveEntry(st, now, j);
        assert IsHit(st.entries[j], h, now);
      }
    }
  }

  /** The table is full of live entries exactly when 256 packets were accepted in two seconds. */
  lemma FullExactly(st: State, now: UInt32)
    requires Inv(st) && Timed(st, now) && Kept(st, now)
    ensures FirstFree(st.entries, now) == CACHE_SIZE <==> |LiveSet(st.log, now)| >= CACHE_SIZE
  {
    if FirstFree(st.entries, now) == CACHE_SIZE {
      FullIsLoaded(st, now);
    } else {
      FreeIsLight(st, now, FirstFree(st.entries, now));
    }
  }

  lemma FullIsLoaded(st: State, now: UInt32)
    requires Inv(st) && Timed(st, now) && forall k | 0 <= k < CACHE_SIZE :: IsLive(st.entries[k], now)
    ensures |LiveSet(st.log, now)| >= CACHE_SIZE
  {
    forall k | 0 <= k < CACHE_SIZE ensures Owned(st, k) && st.owner[k] in LiveSet(st.log, now) {
      LiveEntry(st, now, k);
    }
    assert NoRepeats(st.owner);
    DistinctFit(st.owner, LiveSet(st.log, now));
  }

  lemma FreeIsLight(st: State, now: UInt32, f: nat)
    requires Inv(st) && Timed(st, now) && Kept(st, now) && f < CACHE_SIZE && !IsLive(st.entries[f], now)
    ensures |LiveSet(st.log, now)| < CACHE_SIZE
  {
    var others := st.owner[..f] + st.owner[f + 1..];
    forall i | i in LiveSet(st.log, now) ensures i in others {
      assert InTable(st, i);
      var k :| 0 <= k < CACHE_SIZE && st.owner[k] == i && st.entries[k].active;
      LiveEntry(st, now, k);
      assert others[if k < f then k else k - 1] == i;
    }
    CoveredBy(LiveSet(st.log, now), others);
  }

  // ----- Keeping the agreement -----

  lemma KeptLater(st: State, before: UInt32, now: UInt32)
    requires Timed(st, before) && before <= now && Kept(st, before)
    ensures Kept(st, now)
  {}

  /** Same times and packets in the log, same live entries in the table. */
  ghost predicate SameAt(st: State, t: State, now: UInt32) {
    && |st.entries| == |t.entries| && st.owner == t.owner && |st.log| == |t.log|
    && (forall i | 0 <= i < |st.log| :: st.log[i].time == t.log[i].time && st.log[i].hmac == t.log[i].hmac)
    && (forall k | 0 <= k < |st.entries| ::
          IsLive(st.entries[k], now) == IsLive(t.entries[k], now) && st.entries[k].hmac == t.entries[k].hmac)
  }

  lemma SameTable(st: State, t: State, now: UInt32)
    requires SameAt(st, t, now)
    ensures LiveSet(st.log, now) == LiveSet(t.log, now)
    ensures forall h: Hash :: FirstHit(st.entries, h, now) == FirstHit(t.entries, h, now)
  {}

  lemma SameKept(st: State, t: State, now: UInt32)
    requires Inv(st) && Timed(st, now) && SameAt(st, t, now) && Kept(st, now)
    ensures Kept(t, now)
  {
    SameTable(st, t, now);
    forall i | i in LiveSet(t.log, now) ensures InTable(t, i) {
      assert InTable(st, i);
      var k :| 0 <= k < CACHE_SIZE && st.owner[k] == i && st.entries[k].active;
      LiveEntry(st, now, k);
      assert t.entries[k].active;
    }
  }

  lemma CheckSame(st: State, hmac: Hash, now: UInt32, mac: Mac)
    requires st.Shaped()
    ensures SameAt(st, Check(st, hmac, now, mac), now)
  {}

  lemma LoopSame(st: State, now: UInt32)
    requires st.Shaped()
    ensures SameAt(st, OnLoop(st, now), now)
  {
    LoopOnlyMarks(st, now);
  }

  /** A live packet the table no longer knows. */
  ghost predicate Missing(st: State, now: UInt32) {
    exists i :: i in LiveSet(st.log, now) && FirstHit(st.entries, st.log[i].hmac, now) == |st.entries|
  }

  lemma SameMissing(st: State, t: State, now: UInt32)
    requires SameAt(st, t, now) && Missing(st, now)
    ensures Missing(t, now)
  {}

  lemma AcceptKept(st: State, packet: Packet, now: UInt32, jitter: nat, mac: Mac, gateway: bool)
    requires Inv(st) && Timed(st, now) && Kept(st, now) && FirstFree(st.entries, now) < CACHE_SIZE
    ensures Kept(Accept(st, packet, now, jitter, mac, gateway), now)
  {
    var t, u := Slot(st.entries, now), Accept(st, packet, now, jitter, mac, gateway);
    AcceptHere(st, packet, now, jitter, mac, gateway);
    forall i | i in LiveSet(u.log, now) ensures InTable(u, i) {
      if i == |st.log| {
        assert u.owner[t] == i && u.entries[t].active;
      } else {
        assert i in LiveSet(st.log, now) && InTable(st, i);
        var k :| 0 <= k < CACHE_SIZE && st.owner[k] == i && st.entries[k].active;
        LiveEntry(st, now, k);
        AcceptElsewhere(st, packet, now, jitter, mac, gateway, k);
        assert u.owner[k] == i && u.entries[k].active;
      }
    }
  }

  /** A full table forgets a packet of the last two seconds. */
  lemma AcceptEvicts(st: State, packet: Packet, now: UInt32, jitter: nat, mac: Mac, gateway: bool)
    requires Inv(st) && Timed(st, now) && Absent(st.entries, packet.sig) && FirstFree(st.entries, now) == CACHE_SIZE
    ensures Missing(Accept(st, packet, now, jitter, mac, gateway), now)
  {
    var t, u := Slot(st.entries, now), Accept(st, packet, now, jitter, mac, gateway);
    LiveEntry(st, now, t);
    AcceptHere(st, packet, now, jitter, mac, gateway);
    var i, h := st.owner[t], st.entries[t].hmac;
    assert i in LiveSet(u.log, now) && u.log[i].hmac == h;
    forall k | 0 <= k < CACHE_SIZE ensures !IsHit(u.entries[k], h, now) {
      if k != t { AcceptElsewhere(st, packet, now, jitter, mac, gateway, k); }
    }
    NoHit(u.entries, h, now);
  }

  /** The packet is accepted although 256 were in the two seconds before. */
  ghost predicate Overload(st: State, e: Event) {
    st.Shaped() && |Step(st, e).log| > |st.log| && |LiveSet(st.log, e.now)| >= CACHE_SIZE
  }

  /** Accepting keeps all packets of the last two seconds, or the load was too high and one is lost. */
  lemma AcceptDecides(st: State, packet: Packet, now: UInt32, jitter: nat, mac: Mac, gateway: bool)
    requires Inv(st) && Timed(st, now) && Kept(st, now) && Absent(st.entries, packet.sig)
    ensures var u := Accept(st, packet, now, jitter, mac, gateway);
      if |LiveSet(st.log, now)| < CACHE_SIZE then Kept(u, now) else Missing(u, now)
  {
    FullExactly(st, now);
    if FirstFree(st.entries, now) < CACHE_SIZE {
      AcceptKept(st, packet, now, jitter, mac, gateway);
    } else {
      AcceptEvicts(st, packet, now, jitter, mac, gateway);
    }
  }

  lemma SameDecides(st: State, t: State, now: UInt32, kept: bool)
    requires Inv(st) && Timed(st, now) && SameAt(st, t, now)
    requires if kept then Kept(st, now) else Missing(st, now)
    ensures if kept then Kept(t, now) else Missing(t, now)
  {
    if kept { SameKept(st, t, now); } else { SameMissing(st, t, now); }
  }

  lemma GatewayDecides(st: State, packet: Packet, mac: Mac, now: UInt32)
    requires Inv(st) && Timed(st, now) && Kept(st, now) && now < NO_WRAP && Absent(st.entries, packet.sig)
    ensures var end := MarkHit(Accept(st, packet, now, 0, mac, true), packet.sig, now, mac);
      if |LiveSet(st.log, now)| < CACHE_SIZE then Kept(end, now) else Missing(end, now)
  {
    AcceptDecides(st, packet, now, 0, mac, true);
    AcceptKeeps(st, packet, now, 0, mac, true);
    AcceptTimed(st, packet, now, 0, mac, true);
    var added := Accept(st, packet, now, 0, mac, true);
    MarkHitSame(added, packet.sig, now, mac);
    SameDecides(added, MarkHit(added, packet.sig, now, mac), now, |LiveSet(st.log, now)| < CACHE_SIZE);
  }

  lemma MarkHitSame(st: State, hmac: Hash, now: UInt32, mac: Mac)
    requires st.Shaped()
    ensures SameAt(st, MarkHit(st, hmac, now, mac), now)
  {
    CheckSame(st, hmac, now, mac);
  }

  lemma PacketDecides(st: State, packet: Packet, mac: Mac, now: UInt32, connected: bool, jitter: nat)
    requires Inv(st) && Timed(st, now) && Kept(st, now) && now < NO_WRAP
    ensures var t := OnPacket(st, packet, mac, now, connected, jitter);
      if |t.log| > |st.log| && |LiveSet(st.log, now)| >= CACHE_SIZE then Missing(t, now) else Kept(t, now)
  {
    var checked := Check(st, packet.sig, now, mac);
    LogGrows(st, packet, mac, now, connected, jitter);
    CheckSame(st, packet.sig, now, mac);
    SameTable(st, checked, now);
    SameKept(st, checked, now);
    if FirstHit(st.entries, packet.sig, now) == CACHE_SIZE {
      CheckKeeps(st, packet.sig, now, mac);
      CheckTimed(st, packet.sig, now, mac, now);
      MissClears(st, packet.sig, now, mac);
      if connected {
        GatewayDecides(checked, packet, mac, now);
      } else if Forward(packet).Some? {
        AcceptDecides(checked, Forward(packet).value, now, jitter, mac, false);
      }
    }
  }

  lemma KeptStep(st: State, e: Event, before: UInt32)
    requires Inv(st) && Timed(st, before) && Kept(st, before) && before <= e.now < NO_WRAP
    ensures if Overload(st, e) then Missing(Step(st, e), e.now) else Kept(Step(st, e), e.now)
  {
    KeptLater(st, before, e.now);
    match e
    case Loop(now) =>
      LoopOnlyMarks(st, now);
      LoopSame(st, now);
      SameKept(st, OnLoop(st, now), now);
    case Receive(packet, mac, now, connected, jitter) =>
      PacketDecides(st, packet, mac, now, connected, jitter);
  }

  // ----- Main results about the table -----

  /** The first `n` events accepted no packet on top of 256 in two seconds. */
  ghost predicate LightLoad(states: seq<State>, events: seq<Event>, n: nat)
    requires |states| == |events| + 1 && n <= |events|
  {
    forall k: nat | k < n :: !OverloadAt(states, events, k)
  }

  ghost predicate OverloadAt(states: seq<State>, events: seq<Event>, k: nat)
    requires |states| == |events| + 1 && k < |events|
  {
    Overload(states[k], events[k])
  }

  /** After the event, looking up at its own time is asking the timed set. */
  ghost predicate AgreesAfter(states: seq<State>, events: seq<Event>, k: nat)
    requires |states| == |events| + 1 && k < |events|
  {
    Agree(states[k + 1], events[k].now)
  }

  lemma TimedAt(states: seq<State>, events: seq<Event>, n: nat)
    requires TimedRun(states, events) && n <= |events|
    ensures Inv(states[n]) && Timed(states[n], LastTime(events[..n]))
    ensures n < |events| ==> LastTime(events[..n]) <= events[n].now
    ensures n < |events| ==> LastTime(events[..n + 1]) == events[n].now
  {
    TimedPrefix(states, events, n);
    EveryTimedState(states[..n + 1], events[..n]);
  }

  lemma {:induction false} KeptAlong(states: seq<State>, events: seq<Event>, n: nat)
    requires TimedRun(states, events) && n <= |events| && LightLoad(states, events, n)
    ensures Kept(states[n], LastTime(events[..n]))
  {
    if n > 0 {
      KeptAlong(states, events, n - 1);
      TimedAt(states, events, n - 1);
      assert StepAt(states, events, n - 1) && !OverloadAt(states, events, n - 1);
      KeptStep(states[n - 1], events[n - 1], LastTime(events[..n - 1]));
    }
  }

  /** While no packet is accepted on top of 256 in two seconds, a look-up at any later time hits exactly
      when the packet was accepted less than two seconds before. */
  lemma CacheRefinesTimedSet(states: seq<State>, events: seq<Event>, now: UInt32)
    requires TimedRun(states, events) && LastTime(events) <= now && LightLoad(states, events, |events|)
    ensures Agree(states[|events|], now)
  {
    var n := |events|;
    assert events[..n] == events;
    KeptAlong(states, events, n);
    TimedAt(states, events, n);
    KeptLater(states[n], LastTime(events), now);
    KeptAgrees(states[n], now);
  }

  lemma LastEvent(states: seq<State>, events: seq<Event>, n: nat)
    requires |states| == |events| + 1 && n < |events|
    ensures LightLoad(states, events, n + 1) <==> LightLoad(states, events, n) && !OverloadAt(states, events, n)
  {}

  lemma NextAgrees(states: seq<State>, events: seq<Event>, n: nat)
    requires TimedRun(states, events) && n < |events| && LightLoad(states, events, n)
    ensures AgreesAfter(states, events, n) <==> !OverloadAt(states, events, n)
  {
    assert StepAt(states, events, n);
    KeptAlong(states, events, n);
    TimedAt(states, events, n);
    TimedAt(states, events, n + 1);
    KeptStep(states[n], events[n], LastTime(events[..n]));
    if !Overload(states[n], events[n]) { KeptAgrees(states[n + 1], events[n].now); }
  }

  /** All 256 entries are live, of pairwise distinct packets, and none was accepted before that in entry
      `t`, none of a lower index at the same time. */
  ghost predicate FullAndOldest(st: State, t: nat, now: UInt32)
    requires st.Shaped() && t < CACHE_SIZE
  {
    && (forall k | 0 <= k < CACHE_SIZE :: Owned(st, k) && LiveAt(st.log[st.owner[k]], now))
    && (forall j, k | 0 <= j < k < CACHE_SIZE :: st.entries[j].hmac != st.entries[k].hmac)
    && (forall k | 0 <= k < CACHE_SIZE :: st.entries[k].hmac == st.log[st.owner[k]].hmac)
    && (forall k | 0 <= k < CACHE_SIZE :: st.log[st.owner[t]].time <= st.log[st.owner[k]].time)
    && (forall k | 0 <= k < t :: st.log[st.owner[t]].time < st.log[st.owner[k]].time)
  }

  /** A live entry is overwritten only when all 256 are live, that is, when 256 pairwise distinct packets
      were accepted in the last two seconds. The one accepted first goes, the lowest index among equals. */
  lemma EvictionOptimal(states: seq<State>, events: seq<Event>, hmac: Hash, mac: Mac, now: UInt32)
    requires TimedRun(states, events) && LastTime(events) <= now < NO_WRAP
    ensures Check(states[|events|], hmac, now, mac).Shaped()
    ensures var st := Check(states[|events|], hmac, now, mac);
      IsLive(st.entries[Slot(st.entries, now)], now) ==> FullAndOldest(st, Slot(st.entries, now), now)
  {
    EveryTimedState(states, events);
    var st := Check(states[|events|], hmac, now, mac);
    CheckKeeps(states[|events|], hmac, now, mac);
    CheckTimed(states[|events|], hmac, now, mac, now);
    if IsLive(st.entries[Slot(st.entries, now)], now) { EvictsOldest(st, now); }
  }

  lemma EvictsOldest(st: State, now: UInt32)
    requires Inv(st) && Timed(st, now) && IsLive(st.entries[Slot(st.entries, now)], now)
    ensures FullAndOldest(st, Slot(st.entries, now), now)
  {
    forall k | 0 <= k < CACHE_SIZE
      ensures IsLive(st.entries[k], now) && Owned(st, k) && st.entries[k].hmac == st.log[st.owner[k]].hmac
      ensures LiveAt(st.log[st.owner[k]], now)
      ensures st.entries[k].expiresAt == st.log[st.owner[k]].time + CACHE_TTL_MS {
      LiveEntry(st, now, k);
    }
  }

  // ----- Accepting a packet again -----

  ghost predicate Apart(log: seq<Acceptance>) {
    forall i, j | 0 <= i < j < |log| && log[i].hmac == log[j].hmac :: log[i].time + CACHE_TTL_MS <= log[j].time
  }

  lemma AcceptApart(st: State, packet: Packet, now: UInt32, jitter: nat, mac: Mac, gateway: bool)
    requires Inv(st) && Timed(st, now) && Kept(st, now) && Absent(st.entries, packet.sig) && Apart(st.log)
    ensures Apart(Accept(st, packet, now, jitter, mac, gateway).log)
  {
    forall i | 0 <= i < |st.log| && st.log[i].hmac == packet.sig ensures st.log[i].time + CACHE_TTL_MS <= now {
      assert st.log[i] in st.log;
      if LiveAt(st.log[i], now) { LiveHasEntry(st, now, i); }
    }
  }

  lemma LiveHasEntry(st: State, now: UInt32, i: int)
    requires Inv(st) && Timed(st, now) && Kept(st, now) && i in LiveSet(st.log, now)
    ensures !Absent(st.entries, st.log[i].hmac)
  {}

  lemma SameApart(before: seq<Acceptance>, after: seq<Acceptance>)
    requires |before| == |after| && Apart(before)
    requires forall i | 0 <= i < |before| :: before[i].time == after[i].time && before[i].hmac == after[i].hmac
    ensures Apart(after)
  {}

  lemma GatewayApart(st: State, packet: Packet, now: UInt32, mac: Mac)
    requires Inv(st) && Timed(st, now) && Kept(st, now) && Absent(st.entries, packet.sig) && Apart(st.log)
    ensures Apart(Check(Accept(st, packet, now, 0, mac, true), packet.sig, now, mac).log)
  {
    var added := Accept(st, packet, now, 0, mac, true);
    AcceptApart(st, packet, now, 0, mac, true);
    CheckSame(added, packet.sig, now, mac);
    SameApart(added.log, Check(added, packet.sig, now, mac).log);
  }

  lemma PacketApart(st: State, packet: Packet, mac: Mac, now: UInt32, connected: bool, jitter: nat)
    requires Inv(st) && Timed(st, now) && Kept(st, now) && now < NO_WRAP && Apart(st.log)
    ensures Apart(OnPacket(st, packet, mac, now, connected, jitter).log)
  {
    var checked := Check(st, packet.sig, now, mac);
    CheckSame(st, packet.sig, now, mac);
    SameApart(st.log, checked.log);
    if FirstHit(st.entries, packet.sig, now) == CACHE_SIZE {
      SameKept(st, checked, now);
      CheckKeeps(st, packet.sig, now, mac);
      CheckTimed(st, packet.sig, now, mac, now);
      MissClears(st, packet.sig, now, mac);
      if connected {
        GatewayApart(checked, packet, now, mac);
      } else if Forward(packet).Some? {
        AcceptApart(checked, Forward(packet).value, now, jitter, mac, false);
      }
    }
  }

  lemma StepApart(st: State, e: Event, before: UInt32)
    requires Inv(st) && Timed(st, before) && Kept(st, before) && before <= e.now < NO_WRAP && Apart(st.log)
    ensures Apart(Step(st, e).log)
  {
    KeptLater(st, before, e.now);
    match e
    case Loop(now) =>
      LoopSame(st, now);
      SameApart(st.log, OnLoop(st, now).log);
    case Receive(packet, mac, now, connected, jitter) =>
      PacketApart(st, packet, mac, now, connected, jitter);
  }

  /** Under such a load no packet is accepted again within two seconds. */
  lemma {:induction false} LogApart(states: seq<State>, events: seq<Event>, n: nat)
    requires TimedRun(states, events) && n <= |events| && LightLoad(states, events, n)
    ensures Apart(states[n].log)
  {
    if n > 0 {
      LogApart(states, events, n - 1);
      KeptAlong(states, events, n - 1);
      TimedAt(states, events, n - 1);
      assert StepAt(states, events, n - 1);
      StepApart(states[n - 1], events[n - 1], LastTime(events[..n - 1]));
    }
  }
}

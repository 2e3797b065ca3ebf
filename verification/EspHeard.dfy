/** The senders an entry counts are those of the trace: every reception of the packet since the event
    that accepted it. */
module EspHeard {
  import opened Arithmetic
  import opened Packets
  import opened TimeAwareCache
  import opened EspRelay
  import opened EspInvariants

  /** Who a packet was received from, in order. */
  function Receptions(events: seq<Event>, hmac: Hash): seq<Mac> {
    if events == [] then []
    else
      var rest, last := Receptions(events[..|events| - 1], hmac), events[|events| - 1];
      if last.Receive? && last.packet.sig == hmac then rest + [last.mac] else rest
  }

  /** Event `b` made acceptance `i`. */
  ghost predicate Accepts(states: seq<State>, b: nat, i: int)
    requires b + 1 < |states|
  {
    |states[b].log| == i < |states[b + 1].log|
  }

  /** What a look-up does to an active entry: it counts the sender exactly if the packet is its own. */
  lemma CheckHears(st: State, hmac: Hash, now: UInt32, mac: Mac, k: nat)
    requires Inv(st) && k < CACHE_SIZE && Check(st, hmac, now, mac).entries[k].active
    ensures var t := Check(st, hmac, now, mac);
      && st.entries[k].active && t.entries[k].hmac == st.entries[k].hmac
      && Owned(st, k) && t.owner[k] == st.owner[k] && |t.log| == |st.log|
      && t.log[t.owner[k]].heard == st.log[st.owner[k]].heard + if st.entries[k].hmac == hmac then [mac] else []
  {}

  /** Once again the same sender makes no difference. */
  lemma SameSender(mac: Mac)
    ensures Senders([mac] + [mac]) == Senders([mac]) == [mac]
  {}

  /** The same sender list, unless the entry was filled just now. */
  ghost predicate Hears(st: State, t: State, e: Event, k: nat)
    requires st.Shaped() && t.Shaped() && k < CACHE_SIZE
  {
    && Owned(t, k)
    && if t.owner[k] < |st.log| then
         && st.entries[k].active && st.entries[k].hmac == t.entries[k].hmac && st.owner[k] == t.owner[k]
         && t.log[t.owner[k]].heard == st.log[t.owner[k]].heard
              + if e.Receive? && e.packet.sig == t.entries[k].hmac then [e.mac] else []
       else
         && t.owner[k] == |st.log| && e.Receive? && e.packet.sig == t.entries[k].hmac
         && Senders(t.log[t.owner[k]].heard) == [e.mac]
  }

  lemma AcceptHears(st: State, packet: Packet, now: UInt32, jitter: nat, mac: Mac, gateway: bool, k: nat)
    requires Inv(st) && Absent(st.entries, packet.sig) && k < CACHE_SIZE
    requires Accept(st, packet, now, jitter, mac, gateway).entries[k].active
    ensures var u := Accept(st, packet, now, jitter, mac, gateway);
      if k == Slot(st.entries, now) then
        u.owner[k] == |st.log| && u.entries[k].hmac == packet.sig && u.log[|st.log|].heard == [mac]
      else
        && st.entries[k].active && u.owner[k] == st.owner[k] && Owned(st, k)
        && u.entries[k].hmac == st.entries[k].hmac != packet.sig
        && u.log[u.owner[k]] == st.log[st.owner[k]]
  {}

  lemma GatewayHears(st: State, packet: Packet, now: UInt32, mac: Mac, k: nat)
    requires Inv(st) && Absent(st.entries, packet.sig) && k < CACHE_SIZE
    requires Check(Accept(st, packet, now, 0, mac, true), packet.sig, now, mac).entries[k].active
    ensures var u := Check(Accept(st, packet, now, 0, mac, true), packet.sig, now, mac);
      if k == Slot(st.entries, now) then
        && u.owner[k] == |st.log| < |u.log| && u.entries[k].hmac == packet.sig
        && Senders(u.log[|st.log|].heard) == [mac]
      else
        && st.entries[k].active && u.owner[k] == st.owner[k] && Owned(st, k)
        && u.entries[k].hmac == st.entries[k].hmac != packet.sig
        && u.log[u.owner[k]].heard == st.log[st.owner[k]].heard
  {
    var added := Accept(st, packet, now, 0, mac, true);
    AcceptKeeps(st, packet, now, 0, mac, true);
    CheckHears(added, packet.sig, now, mac, k);
    AcceptHears(st, packet, now, 0, mac, true, k);
    SameSender(mac);
  }

  /** A hit, or a packet that is dropped: only the look-up counts. */
  lemma LookUpHears(st: State, e: Event, k: nat)
    requires Inv(st) && e.Receive? && k < CACHE_SIZE
    requires Check(st, e.packet.sig, e.now, e.mac).entries[k].active
    ensures Hears(st, Check(st, e.packet.sig, e.now, e.mac), e, k)
  {
    CheckHears(st, e.packet.sig, e.now, e.mac, k);
  }

  /** From the state after a missed look-up on. */
  lemma AfterMiss(st: State, e: Event, t: State, k: nat)
    requires Inv(st) && e.Receive? && k < CACHE_SIZE && t.Shaped()
    requires FirstHit(st.entries, e.packet.sig, e.now) == CACHE_SIZE
    requires var checked := Check(st, e.packet.sig, e.now, e.mac);
      if k == Slot(checked.entries, e.now) then
        && t.owner[k] == |st.log| < |t.log| && t.entries[k].hmac == e.packet.sig
        && Senders(t.log[|st.log|].heard) == [e.mac]
      else
        && checked.entries[k].active && t.owner[k] == checked.owner[k] && Owned(checked, k) && |checked.log| <= |t.log|
        && t.entries[k].hmac == checked.entries[k].hmac != e.packet.sig
        && t.log[t.owner[k]].heard == checked.log[checked.owner[k]].heard
    ensures Hears(st, t, e, k)
  {}

  lemma GatewayEventHears(st: State, e: Event, k: nat)
    requires Inv(st) && e.Receive? && e.connected && k < CACHE_SIZE && Step(st, e).entries[k].active
    requires FirstHit(st.entries, e.packet.sig, e.now) == CACHE_SIZE
    ensures Hears(st, Step(st, e), e, k)
  {
    var checked := Check(st, e.packet.sig, e.now, e.mac);
    CheckKeeps(st, e.packet.sig, e.now, e.mac);
    MissClears(st, e.packet.sig, e.now, e.mac);
    GatewayMarks(st, e);
    GatewayHears(checked, e.packet, e.now, e.mac, k);
    AfterMiss(st, e, Step(st, e), k);
  }

  /** In the end the gateway only marks an entry. */
  lemma GatewayMarks(st: State, e: Event)
    requires st.Shaped() && e.Receive? && e.connected
    requires FirstHit(st.entries, e.packet.sig, e.now) == CACHE_SIZE
    ensures Check(st, e.packet.sig, e.now, e.mac).Shaped()
    ensures OnlyMarks(Check(Accept(Check(st, e.packet.sig, e.now, e.mac), e.packet, e.now, 0, e.mac, true),
                            e.packet.sig, e.now, e.mac),
                      Step(st, e))
  {
    HitOnlyMarks(Accept(Check(st, e.packet.sig, e.now, e.mac), e.packet, e.now, 0, e.mac, true),
                 e.packet.sig, e.now, e.mac);
  }

  lemma HitOnlyMarks(st: State, hmac: Hash, now: UInt32, mac: Mac)
    requires st.Shaped()
    ensures OnlyMarks(Check(st, hmac, now, mac), MarkHit(st, hmac, now, mac))
  {}

  lemma QueueEventHears(st: State, e: Event, k: nat)
    requires Inv(st) && e.Receive? && !e.connected && Forward(e.packet).Some?
    requires k < CACHE_SIZE && Step(st, e).entries[k].active
    requires FirstHit(st.entries, e.packet.sig, e.now) == CACHE_SIZE
    ensures Hears(st, Step(st, e), e, k)
  {
    var checked := Check(st, e.packet.sig, e.now, e.mac);
    CheckKeeps(st, e.packet.sig, e.now, e.mac);
    MissClears(st, e.packet.sig, e.now, e.mac);
    AcceptHears(checked, Forward(e.packet).value, e.now, e.jitter, e.mac, false, k);
    assert Senders([e.mac]) == [e.mac];
    AfterMiss(st, e, Step(st, e), k);
  }

  lemma PacketHears(st: State, e: Event, k: nat)
    requires Inv(st) && e.Receive? && k < CACHE_SIZE && Step(st, e).entries[k].active
    ensures Hears(st, Step(st, e), e, k)
  {
    if FirstHit(st.entries, e.packet.sig, e.now) == CACHE_SIZE && e.connected {
      GatewayEventHears(st, e, k);
    } else if FirstHit(st.entries, e.packet.sig, e.now) == CACHE_SIZE && Forward(e.packet).Some? {
      QueueEventHears(st, e, k);
    } else {
      LookUpHears(st, e, k);
    }
  }

  lemma LoopHears(st: State, now: UInt32, k: nat)
    requires Inv(st) && k < CACHE_SIZE && OnLoop(st, now).entries[k].active
    ensures Hears(st, OnLoop(st, now), Loop(now), k)
  {
    LoopOnlyMarks(st, now);
    assert Owned(st, k);
  }

  lemma SendersAppend(heard: seq<Mac>, mac: Mac)
    ensures Senders(heard + [mac]) == if mac in Senders(heard) then Senders(heard) else Senders(heard) + [mac]
  {}

  lemma ReceptionsAppend(events: seq<Event>, b: nat, n: nat, hmac: Hash)
    requires b < n <= |events|
    ensures var e := events[n - 1];
      Receptions(events[b..n], hmac) ==
        Receptions(events[b..n - 1], hmac) + if e.Receive? && e.packet.sig == hmac then [e.mac] else []
  {
    assert events[b..n][..n - 1 - b] == events[b..n - 1];
  }

  ghost predicate HearsAt(states: seq<State>, events: seq<Event>, j: nat)
    requires |states| == |events| + 1 && j < |events|
  {
    HearsEvent(states[j], states[j + 1], events[j])
  }

  ghost predicate HearsEvent(st: State, t: State, e: Event) {
    && st.Shaped() && t.Shaped() && |st.log| <= |t.log| <= |st.log| + 1
    && forall k | 0 <= k < CACHE_SIZE && t.entries[k].active :: Hears(st, t, e, k)
  }

  ghost predicate HearsAll(states: seq<State>, events: seq<Event>) {
    |states| == |events| + 1 && forall j | 0 <= j < |events| :: HearsAt(states, events, j)
  }

  lemma PacketEventHears(st: State, e: Event)
    requires Inv(st) && e.Receive?
    ensures HearsEvent(st, Step(st, e), e)
  {
    ShapedStep(st, e);
    LogGrows(st, e.packet, e.mac, e.now, e.connected, e.jitter);
    forall k | 0 <= k < CACHE_SIZE && Step(st, e).entries[k].active ensures Hears(st, Step(st, e), e, k) {
      PacketHears(st, e, k);
    }
  }

  lemma LoopEventHears(st: State, now: UInt32)
    requires Inv(st)
    ensures HearsEvent(st, OnLoop(st, now), Loop(now))
  {
    LoopOnlyMarks(st, now);
    forall k | 0 <= k < CACHE_SIZE && OnLoop(st, now).entries[k].active
      ensures Hears(st, OnLoop(st, now), Loop(now), k) {
      LoopHears(st, now, k);
    }
  }

  lemma EventHears(st: State, e: Event)
    requires Inv(st)
    ensures HearsEvent(st, Step(st, e), e)
  {
    match e
    case Receive(_, _, _, _, _) => PacketEventHears(st, e);
    case Loop(now) => LoopEventHears(st, now);
  }

  lemma RunHears(states: seq<State>, events: seq<Event>)
    requires IsRun(states, events)
    ensures HearsAll(states, events)
  {
    forall j | 0 <= j < |events| ensures HearsAt(states, events, j) {
      RunPrefix(states, events, j);
      EveryState(states[..j + 1], events[..j]);
      assert StepAt(states, events, j);
      EventHears(states[j], events[j]);
    }
  }

  lemma {:induction false} LogOnlyGrows(states: seq<State>, events: seq<Event>, m: nat, n: nat)
    requires HearsAll(states, events) && m <= n <= |events|
    ensures |states[m].log| <= |states[n].log|
    decreases n
  {
    if m < n {
      LogOnlyGrows(states, events, m, n - 1);
      assert HearsAt(states, events, n - 1);
    }
  }

  lemma {:induction false} HeardInTrace(states: seq<State>, events: seq<Event>, n: nat, k: nat, b: nat)
    requires HearsAll(states, events) && b < n <= |events| && k < CACHE_SIZE
    requires states[n].Shaped() && states[n].entries[k].active && Accepts(states, b, states[n].owner[k])
    ensures Owned(states[n], k)
    ensures Senders(states[n].log[states[n].owner[k]].heard) ==
      Senders(Receptions(events[b..n], states[n].entries[k].hmac))
  {
    var st, t, e := states[n - 1], states[n], events[n - 1];
    var h := t.entries[k].hmac;
    assert HearsAt(states, events, n - 1);
    assert Hears(st, t, e, k);
    ReceptionsAppend(events, b, n, h);
    if t.owner[k] < |st.log| {
      HeardInTrace(states, events, n - 1, k, b);
      OneMore(st.log[t.owner[k]].heard, Receptions(events[b..n - 1], h),
              if e.Receive? && e.packet.sig == h then [e.mac] else []);
    } else {
      JustAccepted(states, events, n, b);
      assert Senders([e.mac]) == [e.mac];
    }
  }

  lemma OneMore(x: seq<Mac>, y: seq<Mac>, more: seq<Mac>)
    requires Senders(x) == Senders(y) && |more| <= 1
    ensures Senders(x + more) == Senders(y + more)
  {
    if more == [] {
      assert x + more == x && y + more == y;
    } else {
      assert more == [more[0]];
      SendersAppend(x, more[0]);
      SendersAppend(y, more[0]);
    }
  }

  /** The acceptance of the last event is not an earlier one's. */
  lemma JustAccepted(states: seq<State>, events: seq<Event>, n: nat, b: nat)
    requires HearsAll(states, events) && b < n <= |events| && Accepts(states, b, |states[n - 1].log|)
    ensures b == n - 1 && events[b..n - 1] == []
  {
    if b < n - 1 { LogOnlyGrows(states, events, b + 1, n - 1); }
  }

  lemma {:induction false} SomeEventAccepts(states: seq<State>, events: seq<Event>, n: nat, i: int) returns (b: nat)
    requires HearsAll(states, events) && n <= |events| && |states[0].log| <= i < |states[n].log|
    ensures b < n && Accepts(states, b, i)
  {
    assert HearsAt(states, events, n - 1);
    if i < |states[n - 1].log| {
      b := SomeEventAccepts(states, events, n - 1, i);
    } else {
      b := n - 1;
    }
  }

  lemma OneEventAccepts(states: seq<State>, events: seq<Event>, b: nat, c: nat, i: int)
    requires HearsAll(states, events) && b < c < |events| && Accepts(states, b, i)
    ensures !Accepts(states, c, i)
  {
    LogOnlyGrows(states, events, b + 1, c);
  }

  /** Every acceptance on record was made by one event of the run. */
  lemma AcceptedOnce(states: seq<State>, events: seq<Event>, i: int) returns (b: nat)
    requires IsRun(states, events) && 0 <= i < |states[|events|].log|
    ensures b < |events| && Accepts(states, b, i)
    ensures forall c: nat | c < |events| && Accepts(states, c, i) :: c == b
  {
    RunHears(states, events);
    b := SomeEventAccepts(states, events, |events|, i);
    forall c: nat | c < |events| && Accepts(states, c, i) ensures c == b {
      if c < b { OneEventAccepts(states, events, c, b, i); }
      if b < c { OneEventAccepts(states, events, b, c, i); }
    }
  }

  /** Of an active entry's packet, exactly the senders received from since the one event that accepted it
      are known: up to four of them are counted, and listed in the order they came. */
  lemma {:induction false} HeardSinceAcceptance(states: seq<State>, events: seq<Event>, k: nat) returns (b: nat)
    requires IsRun(states, events) && k < CACHE_SIZE
    requires states[|events|].Shaped() && states[|events|].entries[k].active
    ensures b < |events| && Accepts(states, b, states[|events|].owner[k])
    ensures forall c: nat | c < |events| && Accepts(states, c, states[|events|].owner[k]) :: c == b
    ensures var e := states[|events|].entries[k];
      var senders := Senders(Receptions(events[b..], e.hmac));
      && e.rxCount == Min(4, |senders|)
      && e.seenMacs[..e.rxCount] == senders[..e.rxCount]
  {
    RedundancyExact(states, events, k);
    b := AcceptedOnce(states, events, states[|events|].owner[k]);
    RunHears(states, events);
    HeardInTrace(states, events, |events|, k, b);
    assert events[b..|events|] == events[b..];
  }
}

/** What every run of the ESP32 relay keeps, whatever the clock does, wrapping included: one live entry
    per packet, exact sender counts, at most one burst per acceptance, none for a gateway's. */
module EspInvariants {
  import opened Arithmetic
  import opened Packets
  import opened TimeAwareCache
  import opened EspRelay

  // ----- Distinct senders -----

  /** The senders in the order they were first heard. */
  function Senders(heard: seq<Mac>): seq<Mac> {
    if heard == [] then []
    else
      var rest, last := Senders(heard[..|heard| - 1]), heard[|heard| - 1];
      if last in rest then rest else rest + [last]
  }

  /** The count is that of the distinct senders, capped at four, and the first of them are listed. */
  ghost predicate Tracks(e: Entry, heard: seq<Mac>) {
    && e.rxCount == Min(MAX_TRACKED_MACS, |Senders(heard)|)
    && forall j | 0 <= j < e.rxCount :: e.seenMacs[j] == Senders(heard)[j]
  }

  lemma HearTracks(e: Entry, heard: seq<Mac>, mac: Mac)
    requires Tracks(e, heard)
    ensures Tracks(Hear(e, mac), heard + [mac])
  {}

  // ----- The invariant -----

  /** Entry and acceptance belong together. */
  ghost predicate Matches(e: Entry, a: Acceptance) {
    && e.hmac == a.hmac && e.packet == a.packet
    && e.expiresAt == After(a.time, CACHE_TTL_MS) && e.broadcastTime == After(a.time, a.jitter)
    && Tracks(e, a.heard)
  }

  /** Written at least once. */
  predicate Owned(st: State, k: nat)
    requires k < |st.owner|
  {
    0 <= st.owner[k] < |st.log|
  }

  ghost predicate Owners(st: State)
    requires st.Shaped()
  {
    && (forall k | 0 <= k < CACHE_SIZE :: st.owner[k] == -1 || Owned(st, k))
    && (forall k | 0 <= k < CACHE_SIZE && st.entries[k].active :: Owned(st, k))
    && (forall k | 0 <= k < CACHE_SIZE && Owned(st, k) :: Matches(st.entries[k], st.log[st.owner[k]]))
    && (forall j, k | 0 <= j < k < CACHE_SIZE && Owned(st, j) :: st.owner[j] != st.owner[k])
  }

  ghost predicate UniqueLive(s: seq<Entry>) {
    forall j, k | 0 <= j < k < |s| && s[j].active && s[k].active :: s[j].hmac != s[k].hmac
  }

  /** Nothing was burst twice, and what may still be burst was not burst yet. */
  ghost predicate OneBurst(st: State)
    requires st.Shaped()
  {
    && (forall a | a in st.log :: |a.bursts| <= 1)
    && (forall k | 0 <= k < CACHE_SIZE && Owned(st, k) && st.entries[k].active && !st.entries[k].broadcasted ::
          st.log[st.owner[k]].bursts == [] || (st.isBroadcasting && st.current == k))
  }

  /** A gateway's acceptance is marked done at once. */
  ghost predicate GatewayDone(st: State)
    requires st.Shaped()
  {
    && (forall a | a in st.log && a.gateway :: a.bursts == [])
    && (forall k | 0 <= k < CACHE_SIZE && Owned(st, k) && st.log[st.owner[k]].gateway && st.entries[k].active ::
          st.entries[k].broadcasted)
  }

  ghost predicate RadioExclusive(st: State) {
    st.scanning == !st.isBroadcasting && st.advertising == st.isBroadcasting
  }

  ghost predicate Inv(st: State) {
    st.Shaped() && Owners(st) && UniqueLive(st.entries) && OneBurst(st)
  }

  // ----- Kept by each operation -----

  lemma CheckKeeps(st: State, hmac: Hash, now: UInt32, mac: Mac)
    requires Inv(st)
    ensures Inv(Check(st, hmac, now, mac))
    ensures GatewayDone(st) ==> GatewayDone(Check(st, hmac, now, mac))
  {
    CheckKeepsOwners(st, hmac, now, mac);
    CheckKeepsBursts(st, hmac, now, mac);
  }

  lemma CheckKeepsOwners(st: State, hmac: Hash, now: UInt32, mac: Mac)
    requires st.Shaped() && Owners(st) && UniqueLive(st.entries)
    ensures var t := Check(st, hmac, now, mac); t.Shaped() && Owners(t) && UniqueLive(t.entries)
  {
    var t := Check(st, hmac, now, mac);
    CheckKeepsTable(st, hmac, now, mac);
    forall j | 0 <= j < CACHE_SIZE && Owned(t, j) ensures Matches(t.entries[j], t.log[t.owner[j]]) {
      CheckKeepsMatch(st, hmac, now, mac, j);
    }
  }

  lemma CheckKeepsTable(st: State, hmac: Hash, now: UInt32, mac: Mac)
    requires st.Shaped()
    ensures var t := Check(st, hmac, now, mac);
      && t.Shaped() && t.owner == st.owner && |t.log| == |st.log|
      && forall j | 0 <= j < CACHE_SIZE ::
           t.entries[j].hmac == st.entries[j].hmac && (t.entries[j].active ==> st.entries[j].active)
  {}

  lemma CheckKeepsMatch(st: State, hmac: Hash, now: UInt32, mac: Mac, j: nat)
    requires st.Shaped() && Owners(st) && j < CACHE_SIZE && Owned(st, j)
    ensures var t := Check(st, hmac, now, mac);
      && t.Shaped() && t.owner == st.owner && |t.log| == |st.log|
      && Matches(t.entries[j], t.log[t.owner[j]])
  {
    var k := FirstHit(st.entries, hmac, now);
    assert Matches(st.entries[j], st.log[st.owner[j]]);
    if j == k {
      HearTracks(st.entries[k], st.log[st.owner[k]].heard, mac);
    } else if k < CACHE_SIZE {
      OwnersDiffer(st, j, k);
    }
  }

  lemma OwnersDiffer(st: State, j: nat, k: nat)
    requires st.Shaped() && Owners(st) && j < CACHE_SIZE && k < CACHE_SIZE && j != k && Owned(st, j) && Owned(st, k)
    ensures st.owner[j] != st.owner[k]
  {}

  lemma CheckKeepsBursts(st: State, hmac: Hash, now: UInt32, mac: Mac)
    requires st.Shaped() && OneBurst(st)
    ensures var t := Check(st, hmac, now, mac); t.Shaped() && OneBurst(t) && (GatewayDone(st) ==> GatewayDone(t))
  {
    CheckOnlyHears(st, hmac, now, mac);
    HearingKeepsBursts(st, Check(st, hmac, now, mac));
  }

  /** Nothing in the log changes but who was heard, and no entry wakes up. */
  ghost predicate OnlyHears(st: State, t: State) {
    && t.owner == st.owner && t.isBroadcasting == st.isBroadcasting && t.current == st.current
    && |t.entries| == |st.entries| && |t.log| == |st.log|
    && (forall j | 0 <= j < |st.entries| ::
          (t.entries[j].active ==> st.entries[j].active) && t.entries[j].broadcasted == st.entries[j].broadcasted)
    && (forall a | 0 <= a < |st.log| :: t.log[a] == st.log[a].(heard := t.log[a].heard))
  }

  lemma CheckOnlyHears(st: State, hmac: Hash, now: UInt32, mac: Mac)
    requires st.Shaped()
    ensures OnlyHears(st, Check(st, hmac, now, mac))
  {}

  lemma HearingKeepsBursts(st: State, t: State)
    requires st.Shaped() && OneBurst(st) && OnlyHears(st, t)
    ensures t.Shaped() && OneBurst(t) && (GatewayDone(st) ==> GatewayDone(t))
  {
    LogMembers(st.log, t.log);
    assert forall j | 0 <= j < CACHE_SIZE && Owned(t, j) :: Owned(st, j);
  }

  /** Updating the log in place keeps what holds of each acceptance. */
  lemma LogMembers(before: seq<Acceptance>, after: seq<Acceptance>)
    requires |before| == |after|
    requires forall a | 0 <= a < |before| ::
      before[a].bursts == after[a].bursts && before[a].gateway == after[a].gateway
    ensures (forall a | a in before :: |a.bursts| <= 1) ==> forall a | a in after :: |a.bursts| <= 1
    ensures (forall a | a in before && a.gateway :: a.bursts == [])
      ==> forall a | a in after && a.gateway :: a.bursts == []
  {}

  /** After a miss no active entry carries the packet: the whole table was looked through. */
  lemma MissClears(st: State, hmac: Hash, now: UInt32, mac: Mac)
    requires st.Shaped() && FirstHit(st.entries, hmac, now) == CACHE_SIZE
    ensures forall j | 0 <= j < CACHE_SIZE && Check(st, hmac, now, mac).entries[j].active ::
      IsLive(Check(st, hmac, now, mac).entries[j], now) && Check(st, hmac, now, mac).entries[j].hmac != hmac
  {}

  ghost predicate Absent(s: seq<Entry>, hmac: Hash) {
    forall j | 0 <= j < |s| && s[j].active :: s[j].hmac != hmac
  }

  lemma AcceptKeeps(st: State, packet: Packet, now: UInt32, jitter: nat, mac: Mac, gateway: bool)
    requires Inv(st) && Absent(st.entries, packet.sig)
    ensures Inv(Accept(st, packet, now, jitter, mac, gateway))
    ensures !gateway && GatewayDone(st) ==> GatewayDone(Accept(st, packet, now, jitter, mac, gateway))
  {
    AcceptKeepsOwners(st, packet, now, jitter, mac, gateway);
    AcceptKeepsBursts(st, packet, now, jitter, mac, gateway);
  }

  /** Other entries keep their acceptances. */
  lemma AcceptElsewhere(st: State, packet: Packet, now: UInt32, jitter: nat, mac: Mac, gateway: bool, j: nat)
    requires st.Shaped() && Owners(st) && j < CACHE_SIZE && j != Slot(st.entries, now)
    ensures var u := Accept(st, packet, now, jitter, mac, gateway);
      && u.owner[j] == st.owner[j] && u.entries[j] == Expire(st.entries[j], now)
      && (Owned(u, j) <==> Owned(st, j))
      && (Owned(st, j) ==> u.log[u.owner[j]] == st.log[st.owner[j]])
  {}

  lemma OthersStay(st: State, packet: Packet, now: UInt32, jitter: nat, mac: Mac, gateway: bool)
    requires st.Shaped() && Owners(st)
    ensures var u, t := Accept(st, packet, now, jitter, mac, gateway), Slot(st.entries, now);
      && u.Shaped() && |u.log| == |st.log| + 1
      && forall j | 0 <= j < CACHE_SIZE && j != t ::
           && u.owner[j] == st.owner[j] && u.entries[j] == Expire(st.entries[j], now)
           && (Owned(u, j) <==> Owned(st, j))
           && (Owned(st, j) ==> u.log[u.owner[j]] == st.log[st.owner[j]])
  {
    forall j | 0 <= j < CACHE_SIZE && j != Slot(st.entries, now)
      ensures var u := Accept(st, packet, now, jitter, mac, gateway);
        && u.owner[j] == st.owner[j] && u.entries[j] == Expire(st.entries[j], now)
        && (Owned(u, j) <==> Owned(st, j))
        && (Owned(st, j) ==> u.log[u.owner[j]] == st.log[st.owner[j]]) {
      AcceptElsewhere(st, packet, now, jitter, mac, gateway, j);
    }
  }

  lemma AcceptHere(st: State, packet: Packet, now: UInt32, jitter: nat, mac: Mac, gateway: bool)
    requires st.Shaped()
    ensures var u, t := Accept(st, packet, now, jitter, mac, gateway), Slot(st.entries, now);
      && u.owner[t] == |st.log| && Owned(u, t) && Matches(u.entries[t], u.log[u.owner[t]])
      && u.entries[t].active && !u.entries[t].broadcasted && u.entries[t].hmac == packet.sig
      && u.log[u.owner[t]] == Acceptance(packet.sig, packet, now, jitter, gateway, [mac], [])
  {}

  lemma AcceptKeepsOwners(st: State, packet: Packet, now: UInt32, jitter: nat, mac: Mac, gateway: bool)
    requires st.Shaped() && Owners(st) && UniqueLive(st.entries) && Absent(st.entries, packet.sig)
    ensures var u := Accept(st, packet, now, jitter, mac, gateway); u.Shaped() && Owners(u) && UniqueLive(u.entries)
  {
    var t, u := Slot(st.entries, now), Accept(st, packet, now, jitter, mac, gateway);
    AcceptHere(st, packet, now, jitter, mac, gateway);
    OthersStay(st, packet, now, jitter, mac, gateway);
  }

  lemma AcceptKeepsBursts(st: State, packet: Packet, now: UInt32, jitter: nat, mac: Mac, gateway: bool)
    requires st.Shaped() && Owners(st) && OneBurst(st)
    ensures var u := Accept(st, packet, now, jitter, mac, gateway);
      u.Shaped() && OneBurst(u) && (!gateway && GatewayDone(st) ==> GatewayDone(u))
  {
    var t, u := Slot(st.entries, now), Accept(st, packet, now, jitter, mac, gateway);
    AcceptHere(st, packet, now, jitter, mac, gateway);
    OthersStay(st, packet, now, jitter, mac, gateway);
  }

  // ----- The gateway -----

  /** A gateway's second look-up finds the entry just written, unless its deadline wraps; the sender is
      not counted again, and the entry is done or gone at the end. */
  lemma GatewayExactly(st: State, packet: Packet, now: UInt32, mac: Mac)
    requires Inv(st) && Absent(st.entries, packet.sig)
    ensures var added, t := Accept(st, packet, now, 0, mac, true), Slot(st.entries, now);
      && FirstHit(added.entries, packet.sig, now) == (if now + CACHE_TTL_MS < 0x1_0000_0000 then t else CACHE_SIZE)
      && Check(added, packet.sig, now, mac).entries[t] == Expire(added.entries[t], now)
      && Check(added, packet.sig, now, mac).entries[t].rxCount == 1
  {
    var added, t := Accept(st, packet, now, 0, mac, true), Slot(st.entries, now);
    OnlyOneAdded(st, packet, now, mac);
    if now + CACHE_TTL_MS < 0x1_0000_0000 {
      FirstHitUnique(added.entries, packet.sig, now, t);
    } else {
      NoHit(added.entries, packet.sig, now);
    }
  }

  /** The new entry is the only one of its packet, and knows its sender. */
  lemma OnlyOneAdded(st: State, packet: Packet, now: UInt32, mac: Mac)
    requires Inv(st) && Absent(st.entries, packet.sig)
    ensures var added, t := Accept(st, packet, now, 0, mac, true), Slot(st.entries, now);
      && |added.entries| == CACHE_SIZE
      && (forall j | 0 <= j < CACHE_SIZE && j != t && added.entries[j].active :: added.entries[j].hmac != packet.sig)
      && added.entries[t].active && added.entries[t].hmac == packet.sig
      && added.entries[t].expiresAt == After(now, CACHE_TTL_MS)
      && added.entries[t].rxCount == 1 && added.entries[t].seenMacs[0] == mac
  {}

  lemma NoHit(s: seq<Entry>, hmac: Hash, now: UInt32)
    requires forall k | 0 <= k < |s| :: !IsHit(s[k], hmac, now)
    ensures FirstHit(s, hmac, now) == |s|
  {}

  lemma MarkKeeps(st: State, k: nat)
    requires Inv(st) && k < CACHE_SIZE
    ensures Inv(Mark(st, k))
    ensures GatewayDone(st) ==> GatewayDone(Mark(st, k))
  {}

  lemma GatewayKeeps(st: State, packet: Packet, now: UInt32, mac: Mac)
    requires Inv(st) && GatewayDone(st) && Absent(st.entries, packet.sig)
    ensures var end := MarkHit(Accept(st, packet, now, 0, mac, true), packet.sig, now, mac);
      Inv(end) && GatewayDone(end)
  {
    var added, t := Accept(st, packet, now, 0, mac, true), Slot(st.entries, now);
    var k, again := FirstHit(added.entries, packet.sig, now), Check(added, packet.sig, now, mac);
    AcceptKeeps(st, packet, now, 0, mac, true);
    CheckKeeps(added, packet.sig, now, mac);
    if k < CACHE_SIZE { MarkKeeps(again, k); }
    GatewayExactly(st, packet, now, mac);
    GatewayElsewhere(st, packet, now, mac);
  }

  /** Apart from the entry being marked, nothing of a gateway's is left to burst. */
  lemma GatewayElsewhere(st: State, packet: Packet, now: UInt32, mac: Mac)
    requires Inv(st) && GatewayDone(st) && Absent(st.entries, packet.sig)
    ensures var again := Check(Accept(st, packet, now, 0, mac, true), packet.sig, now, mac);
      && again.Shaped()
      && (forall a | a in again.log && a.gateway :: a.bursts == [])
      && forall j | 0 <= j < CACHE_SIZE && j != Slot(st.entries, now) && Owned(again, j)
             && again.log[again.owner[j]].gateway && again.entries[j].active ::
           again.entries[j].broadcasted
  {
    var added, t := Accept(st, packet, now, 0, mac, true), Slot(st.entries, now);
    AcceptHere(st, packet, now, 0, mac, true);
    OthersStay(st, packet, now, 0, mac, true);
    var again := Check(added, packet.sig, now, mac);
    LogMembers(added.log, again.log);
  }

  lemma PacketKeeps(st: State, packet: Packet, mac: Mac, now: UInt32, connected: bool, jitter: nat)
    requires Inv(st) && GatewayDone(st)
    ensures Inv(OnPacket(st, packet, mac, now, connected, jitter))
    ensures GatewayDone(OnPacket(st, packet, mac, now, connected, jitter))
  {
    var checked := Check(st, packet.sig, now, mac);
    CheckKeeps(st, packet.sig, now, mac);
    if FirstHit(st.entries, packet.sig, now) == CACHE_SIZE {
      MissClears(st, packet.sig, now, mac);
      if connected {
        GatewayKeeps(checked, packet, now, mac);
      } else if Forward(packet).Some? {
        AcceptKeeps(checked, Forward(packet).value, now, jitter, mac, false);
      }
    }
  }

  /** The loop changes nothing in an entry but its mark, and nothing in the log but the bursts. */
  ghost predicate OnlyMarks(st: State, t: State) {
    && st.Shaped() && t.Shaped() && t.owner == st.owner && |t.log| == |st.log|
    && (forall j | 0 <= j < CACHE_SIZE :: t.entries[j] == st.entries[j].(broadcasted := t.entries[j].broadcasted))
    && (forall j | 0 <= j < CACHE_SIZE :: st.entries[j].broadcasted ==> t.entries[j].broadcasted)
    && (forall a | 0 <= a < |st.log| :: t.log[a] == st.log[a].(bursts := t.log[a].bursts))
  }

  lemma LoopOnlyMarks(st: State, now: UInt32)
    requires st.Shaped()
    ensures OnlyMarks(st, OnLoop(st, now))
  {
    if !st.isBroadcasting { ScanOnlyMarks(st, now); }
  }

  lemma ScanOnlyMarks(st: State, now: UInt32)
    requires st.Shaped() && !st.isBroadcasting
    ensures OnlyMarks(st, OnLoop(st, now))
  {}

  lemma MarksKeepOwners(st: State, t: State)
    requires OnlyMarks(st, t) && Owners(st) && UniqueLive(st.entries)
    ensures Owners(t) && UniqueLive(t.entries)
  {}

  lemma LoopKeepsBursts(st: State, now: UInt32)
    requires Inv(st) && GatewayDone(st)
    ensures var t := OnLoop(st, now); t.Shaped() && OneBurst(t) && GatewayDone(t)
  {
    LoopOnlyMarks(st, now);
    if !st.isBroadcasting && FirstBurst(st.entries, now) < CACHE_SIZE {
      StartKeepsBursts(st, now);
    } else {
      IdleKeepsBursts(st, now);
    }
  }

  lemma IdleKeepsBursts(st: State, now: UInt32)
    requires Inv(st) && GatewayDone(st) && OnlyMarks(st, OnLoop(st, now))
    requires st.isBroadcasting || FirstBurst(st.entries, now) == CACHE_SIZE
    ensures OneBurst(OnLoop(st, now)) && GatewayDone(OnLoop(st, now))
  {}

  lemma StartKeepsBursts(st: State, now: UInt32)
    requires Inv(st) && GatewayDone(st) && OnlyMarks(st, OnLoop(st, now))
    requires !st.isBroadcasting && FirstBurst(st.entries, now) < CACHE_SIZE
    ensures OneBurst(OnLoop(st, now)) && GatewayDone(OnLoop(st, now))
  {
    var k, t := FirstBurst(st.entries, now), OnLoop(st, now);
    BurstStart(st, now);
    forall j | 0 <= j < CACHE_SIZE && Owned(t, j) && j != k
      ensures Owned(st, j) && t.log[t.owner[j]] == st.log[st.owner[j]] {
      OwnersDiffer(st, j, k);
    }
  }

  /** The burst entry's acceptance was not burst before and is no gateway's; no other changes. */
  lemma BurstStart(st: State, now: UInt32)
    requires Inv(st) && GatewayDone(st) && !st.isBroadcasting && FirstBurst(st.entries, now) < CACHE_SIZE
    ensures var t, k := OnLoop(st, now), FirstBurst(st.entries, now);
      && Owned(st, k) && |t.log| == |st.log|
      && st.log[st.owner[k]].bursts == [] && !st.log[st.owner[k]].gateway
      && t.log[st.owner[k]] == st.log[st.owner[k]].(bursts := [Burst(now, Advertisement(st.entries[k].packet))])
      && (forall a | 0 <= a < |st.log| && a != st.owner[k] :: t.log[a] == st.log[a])
      && (forall a | a in t.log :: |a.bursts| <= 1)
      && (forall a | a in t.log && a.gateway :: a.bursts == [])
  {
    var t, k := OnLoop(st, now), FirstBurst(st.entries, now);
    assert Owned(st, k);
    var burst := Burst(now, Advertisement(st.entries[k].packet));
    assert st.log[st.owner[k]].bursts + [burst] == [burst];
  }

  lemma InvStep(st: State, e: Event)
    requires Inv(st) && GatewayDone(st)
    ensures Inv(Step(st, e)) && GatewayDone(Step(st, e))
  {
    match e
    case Receive(packet, mac, now, connected, jitter) => PacketKeeps(st, packet, mac, now, connected, jitter);
    case Loop(now) =>
      LoopOnlyMarks(st, now);
      MarksKeepOwners(st, OnLoop(st, now));
      LoopKeepsBursts(st, now);
  }

  lemma InvBoot()
    ensures Inv(Boot()) && GatewayDone(Boot()) && RadioExclusive(Boot())
  {}

  /** What a reception is recorded as, if it is accepted. */
  function Recorded(packet: Packet, now: UInt32, connected: bool, jitter: nat): Acceptance {
    if connected || Forward(packet).None? then Acceptance(packet.sig, packet, now, 0, true, [], [])
    else Acceptance(packet.sig, Forward(packet).value, now, jitter, false, [], [])
  }

  /** Nothing on record changes but who was heard, and at most this is added. */
  ghost predicate Adds(before: seq<Acceptance>, after: seq<Acceptance>, one: bool, a: Acceptance) {
    && |after| == |before| + (if one then 1 else 0)
    && (forall i | 0 <= i < |before| :: after[i] == before[i].(heard := after[i].heard))
    && (one ==> after[|before|] == a.(heard := after[|before|].heard))
  }

  /** Which receptions are acceptances, and what is recorded of them. */
  lemma LogGrows(st: State, packet: Packet, mac: Mac, now: UInt32, connected: bool, jitter: nat)
    requires st.Shaped()
    ensures var one := FirstHit(st.entries, packet.sig, now) == CACHE_SIZE && (connected || Forward(packet).Some?);
      Adds(st.log, OnPacket(st, packet, mac, now, connected, jitter).log, one, Recorded(packet, now, connected, jitter))
  {
    var checked := Check(st, packet.sig, now, mac);
    CheckOnlyHears(st, packet.sig, now, mac);
    if FirstHit(st.entries, packet.sig, now) == CACHE_SIZE {
      if connected {
        GatewayAdds(checked, packet, now, mac);
      } else if Forward(packet).Some? {
        AcceptAdds(checked, Forward(packet).value, now, jitter, mac, false);
      }
    }
  }

  /** Receptions leave the radio alone. */
  lemma PacketKeepsRadio(st: State, packet: Packet, mac: Mac, now: UInt32, connected: bool, jitter: nat)
    requires st.Shaped()
    ensures var t := OnPacket(st, packet, mac, now, connected, jitter);
      t == st.(entries := t.entries, log := t.log, owner := t.owner)
  {}

  lemma AcceptAdds(st: State, packet: Packet, now: UInt32, jitter: nat, mac: Mac, gateway: bool)
    requires st.Shaped()
    ensures Accept(st, packet, now, jitter, mac, gateway).Shaped()
    ensures Adds(st.log, Accept(st, packet, now, jitter, mac, gateway).log, true,
                 Acceptance(packet.sig, packet, now, jitter, gateway, [], []))
  {}

  lemma GatewayAdds(st: State, packet: Packet, now: UInt32, mac: Mac)
    requires st.Shaped()
    ensures Adds(st.log, MarkHit(Accept(st, packet, now, 0, mac, true), packet.sig, now, mac).log, true,
                 Acceptance(packet.sig, packet, now, 0, true, [], []))
  {
    AcceptAdds(st, packet, now, 0, mac, true);
    CheckOnlyHears(Accept(st, packet, now, 0, mac, true), packet.sig, now, mac);
  }

  // ----- Main results, for any clock -----

  lemma {:induction false} EveryState(states: seq<State>, events: seq<Event>)
    requires IsRun(states, events)
    ensures var st := states[|events|]; Inv(st) && GatewayDone(st) && RadioExclusive(st)
  {
    if events == [] {
      InvBoot();
    } else {
      var n := |events| - 1;
      RunPrefix(states, events, n);
      EveryState(states[..n + 1], events[..n]);
      assert StepAt(states, events, n);
      InvStep(states[n], events[n]);
    }
  }

  /** At most one active entry carries a given packet. */
  lemma UniqueLiveEntry(states: seq<State>, events: seq<Event>, j: nat, k: nat)
    requires IsRun(states, events) && j < CACHE_SIZE && k < CACHE_SIZE
    ensures |states[|events|].entries| == CACHE_SIZE
    ensures var s := states[|events|].entries;
      s[j].active && s[k].active && s[j].hmac == s[k].hmac ==> j == k
  {
    EveryState(states, events);
  }

  /** Each acceptance is burst at most once, a gateway's never; the radio never scans while it sends. */
  lemma BurstSafety(states: seq<State>, events: seq<Event>)
    requires IsRun(states, events)
    ensures var st := states[|events|];
      && (forall a | a in st.log :: |a.bursts| <= if a.gateway then 0 else 1)
      && st.scanning == !st.isBroadcasting && st.advertising == st.isBroadcasting
  {
    EveryState(states, events);
  }

  /** The count of an active entry is the number of distinct senders heard, up to four, and lists them
      in the order they were first heard. */
  lemma RedundancyExact(states: seq<State>, events: seq<Event>, k: nat)
    requires IsRun(states, events) && k < CACHE_SIZE
    ensures states[|events|].Shaped()
    ensures var st := states[|events|];
      st.entries[k].active ==>
        && Owned(st, k)
        && var senders := Senders(st.log[st.owner[k]].heard);
           && st.entries[k].rxCount == Min(4, |senders|)
           && st.entries[k].seenMacs[..st.entries[k].rxCount] == senders[..st.entries[k].rxCount]
  {
    EveryState(states, events);
  }

  /** A due entry the loop comes to is cancelled exactly if four distinct senders were heard, and burst
      exactly if fewer were. */
  lemma CancelExactly(states: seq<State>, events: seq<Event>, now: UInt32, k: nat)
    requires IsRun(states, events) && !states[|events|].isBroadcasting
    requires k < CACHE_SIZE && states[|events|].Shaped() && IsDue(states[|events|].entries[k], now)
    requires k <= FirstBurst(states[|events|].entries, now)
    ensures var st := states[|events|];
      && Owned(st, k)
      && var few, t := |Senders(st.log[st.owner[k]].heard)| < 4, OnLoop(st, now);
         && (few <==> t.isBroadcasting && t.current == k)
         && (!few <==> t.entries[k].broadcasted)
  {
    EveryState(states, events);
  }

  /** A turn of the loop does nothing to the table but mark entries as done: the one whose burst is over,
      or else the due ones heard from four senders, up to the first due one that is not. */
  lemma MarkedExactly(st: State, now: UInt32, k: nat)
    requires st.Shaped() && k < CACHE_SIZE
    ensures OnLoop(st, now).Shaped()
    ensures var e := st.entries[k];
      var marked := if st.isBroadcasting then now >= st.endTime && k == st.current
        else IsDue(e, now) && forall j | 0 <= j <= k :: IsDue(st.entries[j], now) ==> st.entries[j].rxCount >= 4;
      OnLoop(st, now).entries[k] == e.(broadcasted := e.broadcasted || marked)
  {
    var first := FirstBurst(st.entries, now);
    if !st.isBroadcasting && first < k {
      assert IsDue(st.entries[first], now) && st.entries[first].rxCount < 4;
    }
  }

  lemma {:induction false} SendersDistinct(heard: seq<Mac>)
    ensures forall i, j | 0 <= i < j < |Senders(heard)| :: Senders(heard)[i] != Senders(heard)[j]
    ensures forall m :: m in Senders(heard) <==> m in heard
  {
    if heard != [] { SendersDistinct(heard[..|heard| - 1]); }
  }
}

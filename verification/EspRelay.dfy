/** The ESP32 relay: a scan callback that fills the table, and a main loop that broadcasts from it.

    Each callback and each turn of the loop is one atomic step. The class keeps the globals of the
    firmware; its methods are proved equal to functions on `State`, which adds a record of every
    acceptance, that is, of every call of `addToCache`. */
module EspRelay {
  import opened Packets
  import opened TimeAwareCache

  const REDUNDANCY: nat := 4
  const BROADCAST_BURST: nat := 500
  const TARGET_CID: nat := 0xFFFF

  /** A transmission, and the advertisement data it carries. */
  datatype Burst = Burst(start: UInt32, payload: seq<Byte>)

  /** `heard` lists the senders the packet came from, repeats included, `bursts` its
      transmissions. */
  datatype Acceptance = Acceptance(hmac: Hash, packet: Packet, time: UInt32, jitter: nat, gateway: bool,
                                   heard: seq<Mac>, bursts: seq<Burst>)

  /** `owner[k]` is the acceptance last written to entry `k`, or -1; `starts` lists all bursts. */
  datatype State = State(entries: seq<Entry>, isBroadcasting: bool, endTime: UInt32, current: int,
                         scanning: bool, advertising: bool, advData: seq<Byte>,
                         log: seq<Acceptance>, owner: seq<int>, starts: seq<UInt32>)
  {
    ghost predicate Shaped() {
      && |entries| == CACHE_SIZE == |owner|
      && (isBroadcasting ==> 0 <= current < CACHE_SIZE)
    }
  }

  function Boot(): State {
    State(seq(CACHE_SIZE, _ => UNUSED), false, 0, -1, true, false, [], [], seq(CACHE_SIZE, _ => -1), [])
  }

  datatype Event =
    | Receive(packet: Packet, mac: Mac, now: UInt32, connected: bool, jitter: nat)
    | Loop(now: UInt32)

  // ----- Steps -----

  function Record(log: seq<Acceptance>, a: int, f: Acceptance -> Acceptance): (r: seq<Acceptance>)
    ensures |r| == |log|
  {
    if 0 <= a < |log| then log[a := f(log[a])] else log
  }

  function Check(st: State, hmac: Hash, now: UInt32, mac: Mac): State {
    var k := FirstHit(st.entries, hmac, now);
    st.(entries := Checked(st.entries, hmac, now, mac),
        log := if k < |st.owner| && k < |st.entries| then
                 Record(st.log, st.owner[k], (a: Acceptance) => a.(heard := a.heard + [mac]))
               else st.log)
  }

  function Accept(st: State, packet: Packet, now: UInt32, jitter: nat, mac: Mac, gateway: bool): State
    requires |st.entries| == CACHE_SIZE == |st.owner|
  {
    var t := Slot(st.entries, now);
    st.(entries := Added(st.entries, packet.sig, packet, now, jitter, mac),
        log := st.log + [Acceptance(packet.sig, packet, now, jitter, gateway, [mac], [])],
        owner := st.owner[t := |st.log|])
  }

  function Mark(st: State, k: nat): State
    requires k < |st.entries|
  {
    st.(entries := st.entries[k := st.entries[k].(broadcasted := true)])
  }

  /** Looks the packet up and marks its entry as done. */
  function MarkHit(st: State, hmac: Hash, now: UInt32, mac: Mac): State
    requires |st.entries| == CACHE_SIZE
  {
    var k, checked := FirstHit(st.entries, hmac, now), Check(st, hmac, now, mac);
    if k < CACHE_SIZE then Mark(checked, k) else checked
  }

  /** A packet reaches the callback. A connected gateway hands it on at once and marks it done; any
      other relay queues it with one hop less, or drops it. */
  function OnPacket(st: State, packet: Packet, mac: Mac, now: UInt32, connected: bool, jitter: nat): State
    requires st.Shaped()
  {
    var checked := Check(st, packet.sig, now, mac);
    if FirstHit(st.entries, packet.sig, now) < CACHE_SIZE then
      checked
    else if connected then
      MarkHit(Accept(checked, packet, now, 0, mac, true), packet.sig, now, mac)
    else
      match Forward(packet)
      case Some(q) => Accept(checked, q, now, jitter, mac, false)
      case None => checked
  }

  /** The data of a transmission: company and packed struct. */
  function Advertisement(p: Packet): seq<Byte> {
    [0xFF, 0xFF] + Pack(p)
  }

  predicate IsDue(e: Entry, now: UInt32) {
    e.active && !e.broadcasted && now >= e.broadcastTime
  }

  /** The first due entry heard from too few senders, or the number of entries. */
  function FirstBurst(s: seq<Entry>, now: UInt32): (k: nat)
    ensures k <= |s| && (k < |s| ==> IsDue(s[k], now) && s[k].rxCount < REDUNDANCY)
    ensures forall j | 0 <= j < k :: IsDue(s[j], now) ==> s[j].rxCount >= REDUNDANCY
  {
    if s == [] then 0
    else
      var n := |s| - 1;
      var k := FirstBurst(s[..n], now);
      if k < n then k else if IsDue(s[n], now) && s[n].rxCount < REDUNDANCY then n else |s|
  }

  /** The due entries before it are cancelled. */
  function Cancelled(s: seq<Entry>, now: UInt32): (r: seq<Entry>)
    ensures |r| == |s|
    ensures forall j | 0 <= j < |s| ::
      r[j] == if j < FirstBurst(s, now) && IsDue(s[j], now) then s[j].(broadcasted := true) else s[j]
  {
    var k := FirstBurst(s, now);
    seq(|s|, j requires 0 <= j < |s| => if j < k && IsDue(s[j], now) then s[j].(broadcasted := true) else s[j])
  }

  /** The radio stops scanning and sends the packet of entry `k`. */
  function StartBurst(st: State, k: nat, now: UInt32): State
    requires k < |st.entries| && k < |st.owner|
  {
    var payload := Advertisement(st.entries[k].packet);
    st.(isBroadcasting := true, endTime := After(now, BROADCAST_BURST), current := k,
        scanning := false, advertising := true, advData := payload, starts := st.starts + [now],
        log := Record(st.log, st.owner[k], (a: Acceptance) => a.(bursts := a.bursts + [Burst(now, payload)])))
  }

  function OnLoop(st: State, now: UInt32): State
    requires st.Shaped()
  {
    if st.isBroadcasting then
      if now >= st.endTime then
        Mark(st, st.current).(isBroadcasting := false, scanning := true, advertising := false)
      else st
    else
      var k := FirstBurst(st.entries, now);
      var scanned := st.(entries := Cancelled(st.entries, now));
      if k < CACHE_SIZE then StartBurst(scanned, k, now) else scanned
  }

  function Step(st: State, e: Event): State
    requires st.Shaped()
  {
    match e
    case Receive(packet, mac, now, connected, jitter) => OnPacket(st, packet, mac, now, connected, jitter)
    case Loop(now) => OnLoop(st, now)
  }

  /** `random(50, 201)` */
  ghost predicate IsEvent(e: Event) {
    e.Receive? ==> 50 <= e.jitter <= 200
  }

  /** A run from power-up. */
  ghost predicate IsRun(states: seq<State>, events: seq<Event>) {
    && |states| == |events| + 1 && states[0] == Boot()
    && forall k: nat | k < |events| :: StepAt(states, events, k)
  }

  ghost predicate StepAt(states: seq<State>, events: seq<Event>, k: nat)
    requires |states| == |events| + 1 && k < |events|
  {
    IsEvent(events[k]) && states[k].Shaped() && states[k + 1] == Step(states[k], events[k])
  }

  lemma RunPrefix(states: seq<State>, events: seq<Event>, n: nat)
    requires IsRun(states, events) && n <= |events|
    ensures IsRun(states[..n + 1], events[..n])
  {
    var first, taken := states[..n + 1], events[..n];
    forall k: nat | k < n ensures StepAt(first, taken, k) { assert StepAt(states, events, k); }
  }

  lemma ShapedStep(st: State, e: Event)
    requires st.Shaped()
    ensures Step(st, e).Shaped()
  {
    match e
    case Receive(packet, mac, now, connected, jitter) => PacketShaped(st, packet, mac, now, connected, jitter);
    case Loop(now) => LoopShaped(st, now);
  }

  lemma PacketShaped(st: State, packet: Packet, mac: Mac, now: UInt32, connected: bool, jitter: nat)
    requires st.Shaped()
    ensures OnPacket(st, packet, mac, now, connected, jitter).Shaped()
  {}

  lemma LoopShaped(st: State, now: UInt32)
    requires st.Shaped()
    ensures OnLoop(st, now).Shaped()
  {}

  /** Any event can come next: that the states of a run are well shaped leaves out no run. */
  lemma RunExtends(states: seq<State>, events: seq<Event>, e: Event)
    requires IsRun(states, events) && IsEvent(e)
    ensures states[|events|].Shaped()
    ensures IsRun(states + [Step(states[|events|], e)], events + [e])
  {
    var n := |events|;
    if n > 0 {
      assert StepAt(states, events, n - 1);
      ShapedStep(states[n - 1], events[n - 1]);
    }
    StepsExtend(states, events, e, Step(states[n], e));
  }

  lemma StepsExtend(states: seq<State>, events: seq<Event>, e: Event, t: State)
    requires IsRun(states, events) && IsEvent(e) && states[|events|].Shaped() && t == Step(states[|events|], e)
    ensures IsRun(states + [t], events + [e])
  {
    forall k: nat | k < |events + [e]| ensures StepAt(states + [t], events + [e], k) {
      if k < |events| { assert StepAt(states, events, k); }
    }
  }

  // ----- The firmware -----

  class Relay {
    const cache: Table
    var isBroadcasting: bool
    var broadcastEndTime: UInt32
    var currentBroadcastIndex: int
    var scanning: bool
    var advertising: bool
    var advData: seq<Byte>
    ghost var log: seq<Acceptance>
    ghost var owner: seq<int>
    ghost var starts: seq<UInt32>

    ghost predicate Valid()
      reads this, cache.entries
    {
      cache.Valid() && View().Shaped()
    }

    ghost function View(): State
      reads this, cache.entries
    {
      State(cache.entries[..], isBroadcasting, broadcastEndTime, currentBroadcastIndex,
            scanning, advertising, advData, log, owner, starts)
    }

    constructor ()
      ensures Valid() && View() == Boot() && fresh(cache) && fresh(cache.entries)
    {
      cache := new Table();
      isBroadcasting, broadcastEndTime, currentBroadcastIndex := false, 0, -1;
      scanning, advertising, advData := true, false, [];
      log, owner, starts := [], seq(CACHE_SIZE, _ => -1), [];
      new;
      assert cache.entries[..] == Boot().entries;
    }

    /** An advertisement was heard. `sent` lists the datagrams sent up to the server. */
    method OnResult(manufacturerData: Option<seq<Byte>>, senderMac: Mac, now: UInt32, connected: bool, jitter: nat)
      returns (sent: seq<seq<Byte>>)
      requires Valid()
      modifies this, cache.entries
      ensures Valid()
      ensures View() == match Accepted(manufacturerData)
        case Some(packet) => OnPacket(old(View()), packet, senderMac, now, connected, jitter)
        case None => old(View())
      ensures sent == if Accepted(manufacturerData).Some? && connected
        && FirstHit(old(View()).entries, Accepted(manufacturerData).value.sig, now) == CACHE_SIZE
        then Thrice(manufacturerData.value) else []
    {
      sent := [];
      if manufacturerData.Some? {
        var payloadRaw := manufacturerData.value;
        if |payloadRaw| == 2 + PACKET_BYTES {
          var receivedCid: nat := payloadRaw[0] as int + payloadRaw[1] as int * 0x100;
          if receivedCid == TARGET_CID {
            sent := Handle(Unpack(payloadRaw[2..]), payloadRaw, senderMac, now, connected, jitter);
          }
        }
      }
    }

    method Handle(received: Packet, payloadRaw: seq<Byte>, senderMac: Mac, now: UInt32, connected: bool, jitter: nat)
      returns (sent: seq<seq<Byte>>)
      requires Valid()
      modifies this, cache.entries
      ensures Valid() && View() == OnPacket(old(View()), received, senderMac, now, connected, jitter)
      ensures sent == if connected && FirstHit(old(View()).entries, received.sig, now) == CACHE_SIZE
        then Thrice(payloadRaw) else []
    {
      sent := [];
      var packet := received;
      var location := CheckStep(packet.sig, now, senderMac);
      if location == -1 {
        if connected {
          sent := UdpBurst(payloadRaw);
          AcceptStep(packet, now, 0, senderMac, true);
          MarkStep(packet.sig, now, senderMac);
        } else {
          var ttl := Ttl(packet.flags);
          if ttl > 0 {
            ttl := ttl - 1;
            if ttl != 0 {
              packet := packet.(flags := WithTtl(packet.flags, ttl));
              AcceptStep(packet, now, jitter, senderMac, false);
            }
          }
        }
      }
    }

    /** What goes up to the server. */
    method UdpBurst(payloadRaw: seq<Byte>) returns (sent: seq<seq<Byte>>)
      ensures sent == Thrice(payloadRaw)
    {
      sent := [];
      for b := 0 to 3
        invariant |sent| == b && forall i | 0 <= i < b :: sent[i] == payloadRaw
      {
        sent := sent + [payloadRaw];
      }
    }

    /** The gateway's second look-up. */
    method MarkStep(hmac: Hash, now: UInt32, mac: Mac)
      requires Valid()
      modifies this`log, cache.entries
      ensures Valid() && View() == MarkHit(old(View()), hmac, now, mac)
    {
      var newLoc := CheckStep(hmac, now, mac);
      if newLoc != -1 {
        cache.entries[newLoc] := cache.entries[newLoc].(broadcasted := true);
      }
    }

    /** `checkCache`, recorded. */
    method CheckStep(hmac: Hash, now: UInt32, mac: Mac) returns (location: int)
      requires Valid()
      modifies this`log, cache.entries
      ensures Valid() && View() == Check(old(View()), hmac, now, mac)
      ensures var k := FirstHit(old(View()).entries, hmac, now); location == if k < CACHE_SIZE then k else -1
    {
      location := cache.CheckCache(hmac, now, mac);
      if location != -1 {
        log := Record(log, owner[location], (a: Acceptance) => a.(heard := a.heard + [mac]));
      }
    }

    /** `addToCache`, recorded. */
    method AcceptStep(packet: Packet, now: UInt32, jitter: nat, mac: Mac, ghost gateway: bool)
      requires Valid()
      modifies this`log, this`owner, cache.entries
      ensures Valid() && View() == Accept(old(View()), packet, now, jitter, mac, gateway)
    {
      var target := cache.AddToCache(packet.sig, packet, now, jitter, mac);
      owner := owner[target := |log|];
      log := log + [Acceptance(packet.sig, packet, now, jitter, gateway, [mac], [])];
    }

    method Loop(now: UInt32)
      requires Valid()
      modifies this, cache.entries
      ensures Valid() && View() == OnLoop(old(View()), now)
    {
      if isBroadcasting {
        if now >= broadcastEndTime {
          advertising := false;
          scanning := true;
          isBroadcasting := false;
          cache.entries[currentBroadcastIndex] := cache.entries[currentBroadcastIndex].(broadcasted := true);
        }
        return;
      }
      var i := ScanDue(now);
      if i != -1 {
        Start(i, now);
      }
    }

    method Start(i: nat, now: UInt32)
      requires Valid() && i < CACHE_SIZE
      modifies this
      ensures Valid() && View() == StartBurst(old(View()), i, now)
    {
      var payload := Advertisement(cache.entries[i].packet);
      advData := payload;
      scanning := false;
      advertising := true;
      isBroadcasting := true;
      broadcastEndTime := After(now, BROADCAST_BURST);
      currentBroadcastIndex := i;
      starts := starts + [now];
      log := Record(log, owner[i], (a: Acceptance) => a.(bursts := a.bursts + [Burst(now, payload)]));
    }

    /** Cancels due entries heard from enough senders, up to the first due entry that is not. */
    method ScanDue(now: UInt32) returns (found: int)
      requires Valid()
      modifies cache.entries
      ensures Valid() && cache.entries[..] == Cancelled(old(cache.entries[..]), now)
      ensures var k := FirstBurst(old(cache.entries[..]), now); found == if k < CACHE_SIZE then k else -1
    {
      ghost var s := cache.entries[..];
      found := -1;
      for i := 0 to CACHE_SIZE
        invariant cache.Valid() && i <= FirstBurst(s, now)
        invariant forall j | 0 <= j < i ::
          cache.entries[j] == if IsDue(s[j], now) then s[j].(broadcasted := true) else s[j]
        invariant forall j | i <= j < CACHE_SIZE :: cache.entries[j] == s[j]
      {
        if cache.entries[i].active && !cache.entries[i].broadcasted {
          if now >= cache.entries[i].broadcastTime {
            if cache.entries[i].rxCount < REDUNDANCY {
              found := i;
              assert cache.entries[..] == Cancelled(s, now);
              return;
            } else {
              cache.entries[i] := cache.entries[i].(broadcasted := true);
            }
          }
        }
      }
      assert cache.entries[..] == Cancelled(s, now);
    }
  }

  function Thrice(data: seq<Byte>): seq<seq<Byte>> {
    [data, data, data]
  }

  /** The packet in an advertisement, if it is one of ours: 27 bytes, the first two the company. */
  function Accepted(manufacturerData: Option<seq<Byte>>): Option<Packet> {
    match manufacturerData
    case Some(raw) =>
      if |raw| == 2 + PACKET_BYTES && raw[0] == 0xFF && raw[1] == 0xFF then Some(Unpack(raw[2..])) else None
    case None => None
  }
}

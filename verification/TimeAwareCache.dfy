/** The relay's table of recently heard packets: 256 entries that expire in place after two seconds,
    the oldest giving way when all are live, each tracking up to four senders. */
module TimeAwareCache {
  import opened Packets

  const CACHE_SIZE: nat := 256
  const CACHE_TTL_MS: nat := 2000
  const MAX_TRACKED_MACS: nat := 4

  /** A six-byte radio address as one number. */
  type Mac = n: nat | n < 0x1_0000_0000_0000

  type Macs = m: seq<Mac> | |m| == MAX_TRACKED_MACS witness [0, 0, 0, 0]

  datatype Entry = Entry(hmac: Hash, expiresAt: UInt32, rxCount: nat, active: bool, broadcasted: bool,
                         broadcastTime: UInt32, packet: Packet, seenMacs: Macs)

  const BLANK: Packet := Packet(0, 0, 0, [0, 0, 0, 0, 0, 0, 0, 0], 0)
  const UNUSED: Entry := Entry(0, 0, 0, false, false, 0, BLANK, [0, 0, 0, 0])

  /** Milliseconds are counted in 32 bits and wrap. */
  function After(now: UInt32, ms: nat): UInt32 {
    (now + ms) % 0x1_0000_0000
  }

  // ----- What the operations do -----

  predicate IsLive(e: Entry, now: UInt32) {
    e.active && now < e.expiresAt
  }

  predicate IsHit(e: Entry, hmac: Hash, now: UInt32) {
    IsLive(e, now) && e.hmac == hmac
  }

  function Expire(e: Entry, now: UInt32): Entry {
    if e.active && now >= e.expiresAt then e.(active := false) else e
  }

  /** The first hit, or the number of entries. */
  function FirstHit(s: seq<Entry>, hmac: Hash, now: UInt32): (k: nat)
    ensures k <= |s| && (k < |s| ==> IsHit(s[k], hmac, now))
    ensures forall j | 0 <= j < k :: !IsHit(s[j], hmac, now)
  {
    if s == [] then 0
    else
      var n := |s| - 1;
      var k := FirstHit(s[..n], hmac, now);
      if k < n then k else if IsHit(s[n], hmac, now) then n else |s|
  }

  predicate Knows(e: Entry, mac: Mac) {
    exists j :: 0 <= j < e.rxCount && j < MAX_TRACKED_MACS && e.seenMacs[j] == mac
  }

  function Hear(e: Entry, mac: Mac): Entry {
    if !Knows(e, mac) && e.rxCount < MAX_TRACKED_MACS then
      e.(seenMacs := e.seenMacs[e.rxCount := mac], rxCount := e.rxCount + 1)
    else e
  }

  /** A look-up expires what it passes and stops at a hit, noting the sender there. */
  function Checked(s: seq<Entry>, hmac: Hash, now: UInt32, mac: Mac): (r: seq<Entry>)
    ensures |r| == |s|
  {
    var k := FirstHit(s, hmac, now);
    seq(|s|, j requires 0 <= j < |s| =>
      if j < k then Expire(s[j], now) else if j == k then Hear(s[j], mac) else s[j])
  }

  function ExpireAll(s: seq<Entry>, now: UInt32): (r: seq<Entry>)
    ensures |r| == |s| && forall j | 0 <= j < |s| :: r[j] == Expire(s[j], now)
  {
    seq(|s|, j requires 0 <= j < |s| => Expire(s[j], now))
  }

  /** The first entry that is not live, or the number of entries. */
  function FirstFree(s: seq<Entry>, now: UInt32): (k: nat)
    ensures k <= |s| && (k < |s| ==> !IsLive(s[k], now))
    ensures forall j | 0 <= j < k :: IsLive(s[j], now)
  {
    if s == [] then 0
    else
      var n := |s| - 1;
      var k := FirstFree(s[..n], now);
      if k < n then k else if !IsLive(s[n], now) then n else |s|
  }

  /** The first of those that expire earliest. */
  function Oldest(s: seq<Entry>): (k: nat)
    requires s != []
    ensures k < |s|
    ensures forall j | 0 <= j < |s| :: s[k].expiresAt <= s[j].expiresAt
    ensures forall j | 0 <= j < k :: s[k].expiresAt < s[j].expiresAt
  {
    var n := |s| - 1;
    if n == 0 then 0
    else
      var k := Oldest(s[..n]);
      if s[n].expiresAt < s[k].expiresAt then n else k
  }

  /** The entry a new packet goes to. */
  function Slot(s: seq<Entry>, now: UInt32): (t: nat)
    requires s != []
    ensures t < |s|
  {
    var k := FirstFree(s, now);
    if k < |s| then k else Oldest(s)
  }

  function NewEntry(e: Entry, hmac: Hash, packet: Packet, now: UInt32, jitter: nat, mac: Mac): Entry {
    Entry(hmac, After(now, CACHE_TTL_MS), 1, true, false, After(now, jitter), packet, e.seenMacs[0 := mac])
  }

  function Added(s: seq<Entry>, hmac: Hash, packet: Packet, now: UInt32, jitter: nat, mac: Mac): (r: seq<Entry>)
    requires s != []
    ensures |r| == |s|
  {
    var t := Slot(s, now);
    ExpireAll(s, now)[t := NewEntry(s[t], hmac, packet, now, jitter, mac)]
  }

  lemma FirstHitUnique(s: seq<Entry>, hmac: Hash, now: UInt32, k: nat)
    requires k < |s| && IsHit(s[k], hmac, now) && forall j | 0 <= j < k :: !IsHit(s[j], hmac, now)
    ensures FirstHit(s, hmac, now) == k
  {}

  // ----- What they achieve -----

  /** Nothing in the entry changes but that it is out of use from its time on. */
  predicate Swept(e: Entry, f: Entry, now: UInt32) {
    f == e.(active := f.active) && (f.active <==> e.active && now < e.expiresAt)
  }

  /** A hit is the first entry in use, in time, of the packet. All before it are swept, all behind it left
      alone; it differs in its senders only, among which the new one is, unless there are four others.
      On a miss no such entry is there, and all are swept. */
  ghost predicate LookedUp(before: seq<Entry>, after: seq<Entry>, hmac: Hash, now: UInt32, mac: Mac, location: int)
    requires |before| == |after| == CACHE_SIZE
  {
    && -1 <= location < CACHE_SIZE
    && var end := if location == -1 then CACHE_SIZE else location;
       && (forall j | 0 <= j < end :: Swept(before[j], after[j], now) && !(after[j].active && before[j].hmac == hmac))
       && (forall j | end < j < CACHE_SIZE :: after[j] == before[j])
       && (location != -1 ==>
             && before[location].active && now < before[location].expiresAt && before[location].hmac == hmac
             && after[location] ==
                  before[location].(seenMacs := after[location].seenMacs, rxCount := after[location].rxCount)
             && SenderNoted(before[location], after[location], mac))
  }

  ghost predicate SenderNoted(e: Entry, f: Entry, mac: Mac) {
    if mac in e.seenMacs[..if e.rxCount < 4 then e.rxCount else 4] || e.rxCount >= 4 then
      f.seenMacs == e.seenMacs && f.rxCount == e.rxCount
    else
      f.rxCount == e.rxCount + 1 && f.seenMacs == e.seenMacs[e.rxCount := mac]
  }

  /** The new packet takes the first entry that is not in use or past its time, or, if there is none, the
      first of those that expire earliest. It lives for 2000 milliseconds, has one sender, and waits for
      its jitter to be over. All others are swept. */
  ghost predicate Entered(before: seq<Entry>, after: seq<Entry>, hmac: Hash, packet: Packet,
                          now: UInt32, jitter: nat, mac: Mac, target: nat)
    requires |before| == |after| == CACHE_SIZE
  {
    && target < CACHE_SIZE
    && (forall j | 0 <= j < target :: before[j].active && now < before[j].expiresAt)
    && (before[target].active && now < before[target].expiresAt ==>
          && (forall j | 0 <= j < CACHE_SIZE :: before[j].active && now < before[j].expiresAt)
          && (forall j | 0 <= j < CACHE_SIZE :: before[target].expiresAt <= before[j].expiresAt)
          && (forall j | 0 <= j < target :: before[target].expiresAt < before[j].expiresAt))
    && (forall j | 0 <= j < CACHE_SIZE && j != target :: Swept(before[j], after[j], now))
    && var e := after[target];
       && e.hmac == hmac && e.packet == packet && e.active && !e.broadcasted
       && e.expiresAt == (now + 2000) % 0x1_0000_0000 && e.broadcastTime == (now + jitter) % 0x1_0000_0000
       && e.rxCount == 1 && e.seenMacs[0] == mac
  }

  lemma CheckedLooksUp(s: seq<Entry>, hmac: Hash, now: UInt32, mac: Mac)
    requires |s| == CACHE_SIZE
    ensures var k := FirstHit(s, hmac, now);
      LookedUp(s, Checked(s, hmac, now, mac), hmac, now, mac, if k < CACHE_SIZE then k else -1)
  {
    var k := FirstHit(s, hmac, now);
    if k < CACHE_SIZE { HearNotes(s[k], mac); }
  }

  lemma HearNotes(e: Entry, mac: Mac)
    ensures SenderNoted(e, Hear(e, mac), mac)
  {
    var n := if e.rxCount < 4 then e.rxCount else 4;
    assert mac in e.seenMacs[..n] <==> Knows(e, mac);
  }

  lemma AddedEnters(s: seq<Entry>, hmac: Hash, packet: Packet, now: UInt32, jitter: nat, mac: Mac)
    requires |s| == CACHE_SIZE
    ensures Entered(s, Added(s, hmac, packet, now, jitter, mac), hmac, packet, now, jitter, mac, Slot(s, now))
  {}

  // ----- The operations -----

  class Table {
    const entries: array<Entry>

    ghost predicate Valid()
      reads entries
    {
      entries.Length == CACHE_SIZE && forall i | 0 <= i < CACHE_SIZE :: entries[i].rxCount <= MAX_TRACKED_MACS
    }

    constructor ()
      ensures Valid() && fresh(entries)
      ensures forall i | 0 <= i < CACHE_SIZE :: entries[i] == UNUSED
    {
      entries := new Entry[CACHE_SIZE](_ => UNUSED);
    }

    /** The index of a live entry for this packet, or -1. */
    method CheckCache(hmac: Hash, now: UInt32, mac: Mac) returns (location: int)
      requires Valid()
      modifies entries
      ensures Valid() && entries[..] == Checked(old(entries[..]), hmac, now, mac)
      ensures var k := FirstHit(old(entries[..]), hmac, now); location == if k < CACHE_SIZE then k else -1
      ensures LookedUp(old(entries[..]), entries[..], hmac, now, mac, location)
    {
      ghost var s := entries[..];
      for i := 0 to CACHE_SIZE
        invariant forall j | 0 <= j < i :: entries[j] == Expire(s[j], now) && !IsHit(s[j], hmac, now)
        invariant forall j | i <= j < CACHE_SIZE :: entries[j] == s[j]
      {
        if entries[i].active {
          if now >= entries[i].expiresAt {
            entries[i] := entries[i].(active := false);
          } else if entries[i].hmac == hmac {
            var macKnown := KnowsSender(i, mac);
            if !macKnown && entries[i].rxCount < MAX_TRACKED_MACS {
              entries[i] := entries[i].(seenMacs := entries[i].seenMacs[entries[i].rxCount := mac],
                                        rxCount := entries[i].rxCount + 1);
            }
            FirstHitUnique(s, hmac, now, i);
            assert entries[..] == Checked(s, hmac, now, mac);
            CheckedLooksUp(s, hmac, now, mac);
            return i;
          }
        }
      }
      assert entries[..] == Checked(s, hmac, now, mac);
      CheckedLooksUp(s, hmac, now, mac);
      return -1;
    }

    method KnowsSender(i: nat, mac: Mac) returns (known: bool)
      requires Valid() && i < CACHE_SIZE
      ensures known == Knows(entries[i], mac)
    {
      var j := 0;
      while j < entries[i].rxCount && j < MAX_TRACKED_MACS
        invariant 0 <= j <= MAX_TRACKED_MACS
        invariant forall l | 0 <= l < j :: entries[i].seenMacs[l] != mac
      {
        if entries[i].seenMacs[j] == mac {
          return true;
        }
        j := j + 1;
      }
      return false;
    }

    method AddToCache(hmac: Hash, packet: Packet, now: UInt32, jitter: nat, mac: Mac) returns (target: nat)
      requires Valid()
      modifies entries
      ensures Valid() && target == Slot(old(entries[..]), now)
      ensures entries[..] == Added(old(entries[..]), hmac, packet, now, jitter, mac)
      ensures Entered(old(entries[..]), entries[..], hmac, packet, now, jitter, mac, target)
    {
      ghost var s := entries[..];
      var targetIdx := FreeSlot(now);
      if targetIdx == -1 {
        targetIdx := OldestSlot();
      }
      target := targetIdx;
      entries[target] := Entry(hmac, After(now, CACHE_TTL_MS), 1, true, false, After(now, jitter), packet,
                               entries[target].seenMacs[0 := mac]);
      assert entries[..] == Added(s, hmac, packet, now, jitter, mac);
      AddedEnters(s, hmac, packet, now, jitter, mac);
    }

    /** Expires the whole table. */
    method FreeSlot(now: UInt32) returns (targetIdx: int)
      requires Valid()
      modifies entries
      ensures Valid() && entries[..] == ExpireAll(old(entries[..]), now)
      ensures var k := FirstFree(old(entries[..]), now); targetIdx == if k < CACHE_SIZE then k else -1
    {
      ghost var s := entries[..];
      targetIdx := -1;
      for i := 0 to CACHE_SIZE
        invariant forall j | 0 <= j < i :: entries[j] == Expire(s[j], now)
        invariant forall j | i <= j < CACHE_SIZE :: entries[j] == s[j]
        invariant targetIdx == -1 ==> forall j | 0 <= j < i :: IsLive(s[j], now)
        invariant targetIdx != -1 ==>
          0 <= targetIdx < i && !IsLive(s[targetIdx], now) && forall j | 0 <= j < targetIdx :: IsLive(s[j], now)
      {
        if !entries[i].active || now >= entries[i].expiresAt {
          entries[i] := entries[i].(active := false);
          if targetIdx == -1 {
            targetIdx := i;
          }
        }
      }
    }

    method OldestSlot() returns (targetIdx: int)
      requires Valid()
      ensures 0 <= targetIdx < CACHE_SIZE
      ensures forall j | 0 <= j < CACHE_SIZE :: entries[targetIdx].expiresAt <= entries[j].expiresAt
      ensures forall j | 0 <= j < targetIdx :: entries[targetIdx].expiresAt < entries[j].expiresAt
    {
      targetIdx := 0;
      var oldestTime: UInt32 := 0xFFFF_FFFF;
      for i := 0 to CACHE_SIZE
        invariant 0 <= targetIdx < CACHE_SIZE && (i > 0 ==> targetIdx < i)
        invariant oldestTime == if i == 0 then 0xFFFF_FFFF else entries[targetIdx].expiresAt
        invariant forall j | 0 <= j < i :: oldestTime <= entries[j].expiresAt
        invariant forall j | 0 <= j < targetIdx :: oldestTime < entries[j].expiresAt
      {
        if entries[i].expiresAt < oldestTime {
          oldestTime := entries[i].expiresAt;
          targetIdx := i;
        }
      }
    }
  }
}

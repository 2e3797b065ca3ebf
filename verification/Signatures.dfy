/** Signing on the victim, checking on the scanner, and everything a packet meets in between.

    HMAC-SHA256, truncated to eight bytes, is a parameter: any function of the signed bytes. So is
    whether mbedTLS manages to compute it. */
module Signatures {
  import opened Packets
  import Words
  import Inverse = MurmurInverse
  import Murmur = MurmurHash3

  type Signer = seq<Byte> -> Hash

  const GPS_VALID: Byte := 0x80
  const MURMUR_SEED: nat := 112
  const TEST_CID: nat := 0xFFFF

  type PhoneNumber = key: Murmur.Key | |key| <= Murmur.MAX_LEN witness []

  /** Victims send a hash in place of their phone number. */
  function PhoneHash(number: PhoneNumber): UInt32 {
    AsUInt32(Murmur.HashX86_32(number, Words.Truncate(MURMUR_SEED, 32)))
  }

  function AsUInt32(w: Words.Word32): UInt32 {
    Words.ValueFits(w);
    Words.Pow2Of32();
    Words.Value(w)
  }

  /** The victim's struct, filled in field by field. */
  class EmergencyPacket {
    var phone: UInt32
    var timestamp: UInt32
    var flags: Byte
    var location: Bytes8
    var sig: Hash

    constructor ()
      ensures View() == Packet(0, 0, 0, location, 0)
    {
      phone, timestamp, flags, sig := 0, 0, 0, 0;
      location := [0, 0, 0, 0, 0, 0, 0, 0];
    }

    function View(): Packet
      reads this
    {
      Packet(phone, timestamp, flags, location, sig)
    }

    /** `position` is given when GPS is in use, the nonce is sent otherwise. The signature covers the
        packet before its time to live is set. */
    method Build(number: PhoneNumber, minutes: UInt32, position: Option<(int, int)>, nonce: nat,
                 mac: Signer, signs: bool)
      requires Fits(position, nonce)
      modifies this
      ensures View() == Sign(Unsigned(PhoneHash(number), minutes, position, nonce), mac, signs)
    {
      var out := Murmur.MurmurHash3_x86_32(number, Words.Truncate(MURMUR_SEED, 32));
      FillIn(AsUInt32(out), minutes, position, nonce, mac, signs);
    }

    method FillIn(phoneHash: UInt32, minutes: UInt32, position: Option<(int, int)>, nonce: nat,
                  mac: Signer, signs: bool)
      requires Fits(position, nonce)
      modifies this
      ensures View() == Sign(Unsigned(phoneHash, minutes, position, nonce), mac, signs)
    {
      phone, timestamp, flags, sig := 0, 0, 0, 0;
      location := [0, 0, 0, 0, 0, 0, 0, 0];

      phone := phoneHash;
      timestamp := minutes;
      match position {
        case Some((latitude, longitude)) =>
          location := EncodePosition(latitude, longitude);
          flags := flags + GPS_VALID;
        case None =>
          location := LittleEndian(nonce, 8);
      }

      if signs {
        sig := mac(Pack(View())[..SIGNED_BYTES]);
      }
      flags := WithTtl(flags, START_TTL);
    }
  }

  // ----- What the victim sends -----

  predicate IsInt32(n: int) {
    -0x8000_0000 <= n < 0x8000_0000
  }

  /** The field has 32 bits for each coordinate, 64 for the nonce. */
  predicate Fits(position: Option<(int, int)>, nonce: nat) {
    && (position.Some? ==> IsInt32(position.value.0) && IsInt32(position.value.1))
    && nonce < 0x1_0000_0000_0000_0000
  }

  /** Two's complement. */
  function EncodeInt32(n: int): (u: UInt32)
    requires IsInt32(n)
  {
    if n >= 0 then n else n + 0x1_0000_0000
  }

  function DecodeInt32(u: UInt32): int {
    if u < 0x8000_0000 then u else u - 0x1_0000_0000
  }

  function EncodePosition(latitude: int, longitude: int): Bytes8
    requires IsInt32(latitude) && IsInt32(longitude)
  {
    LittleEndian(EncodeInt32(latitude), 4) + LittleEndian(EncodeInt32(longitude), 4)
  }

  /** The packet as it is when the signature is computed. */
  function Unsigned(phone: UInt32, minutes: UInt32, position: Option<(int, int)>, nonce: nat): (u: Packet)
    requires Fits(position, nonce)
    ensures Ttl(u.flags) == 0 && u.sig == 0
  {
    match position
    case Some((latitude, longitude)) => Packet(phone, minutes, GPS_VALID, EncodePosition(latitude, longitude), 0)
    case None => Packet(phone, minutes, 0, LittleEndian(nonce, 8), 0)
  }

  function Sign(u: Packet, mac: Signer, signs: bool): Packet {
    u.(sig := if signs then mac(Pack(u)[..SIGNED_BYTES]) else 0, flags := WithTtl(u.flags, START_TTL))
  }

  // ----- What the scanner makes of it -----

  /** The signature matches the message with its time to live masked out. */
  predicate Verifies(mac: Signer, p: Packet) {
    p.sig == mac(Masked(p))
  }

  function Masked(p: Packet): seq<Byte> {
    Pack(p.(flags := Upper(p.flags)))[..SIGNED_BYTES]
  }

  /** The first 17 bytes, the time to live in byte 8 masked out. */
  function MaskedBytes(payload: seq<Byte>): seq<Byte>
    requires |payload| == PACKET_BYTES
  {
    payload[..8] + [payload[8] / 0x20 * 0x20] + payload[9..17]
  }

  method VerifyHmac(mac: Signer, payload: seq<Byte>) returns (ok: bool)
    requires |payload| == PACKET_BYTES
    ensures ok == Verifies(mac, Unpack(payload))
    ensures ok <==> payload[SIGNED_BYTES..] == LittleEndian(mac(MaskedBytes(payload)), 8)
  {
    var mutablePayload := payload[..SIGNED_BYTES];
    mutablePayload := mutablePayload[FLAGS_AT := Upper(mutablePayload[FLAGS_AT])];
    var computed := LittleEndian(mac(mutablePayload), 8);
    ok := computed == payload[SIGNED_BYTES..];

    ghost var p := Unpack(payload);
    PackUnpack(payload);
    PackedParts(p);
    PackedParts(p.(flags := Upper(p.flags)));
    assert mutablePayload == Masked(p) == MaskedBytes(payload);
    SameLittleEndian(mac(mutablePayload), p.sig);
  }

  lemma SameLittleEndian(a: Hash, b: Hash)
    ensures LittleEndian(a, 8) == LittleEndian(b, 8) <==> a == b
  {
    PowersOf256();
    LittleEndianRoundTrip(a, 8);
    LittleEndianRoundTrip(b, 8);
  }

  datatype Location = Gps(latitude: int, longitude: int) | Nonce(nonce: nat)
  datatype Report = Report(phone: UInt32, timestamp: UInt32, ttl: nat, location: Location, valid: bool)

  /** What the scanner prints for an advertisement, if it is one of ours: data by company, of which the
      scanner reads only the one. */
  method Callback(mac: Signer, manufacturerData: map<nat, seq<Byte>>) returns (report: Option<Report>)
    ensures report.Some? <==> TEST_CID in manufacturerData && |manufacturerData[TEST_CID]| == PACKET_BYTES
    ensures report.Some? ==> report.value == ReportOf(mac, Unpack(manufacturerData[TEST_CID]))
    ensures report.Some? ==>
      var payload := manufacturerData[TEST_CID];
      report.value.valid <==> payload[17..] == LittleEndian(mac(MaskedBytes(payload)), 8)
  {
    if TEST_CID !in manufacturerData {
      return None;
    }
    var dataBytes := manufacturerData[TEST_CID];
    if |dataBytes| != PACKET_BYTES {
      return None;
    }
    var p := Unpack(dataBytes);
    var ttl := Ttl(p.flags);
    var isValid := VerifyHmac(mac, dataBytes);
    var location := ReadLocation(p);
    return Some(Report(p.phone, p.timestamp, ttl, location, isValid));
  }

  method ReadLocation(p: Packet) returns (location: Location)
    ensures location == LocationOf(p)
  {
    var gpsValid := p.flags / 0x80 % 2;
    if gpsValid != 0 {
      location := DecodePosition(p.location);
    } else {
      location := Nonce(FromLittleEndian(p.location));
    }
  }

  /** A position where the top flag bit says so. */
  function LocationOf(p: Packet): Location {
    if p.flags >= 0x80 then DecodePosition(p.location) else Nonce(FromLittleEndian(p.location))
  }

  function DecodePosition(b: Bytes8): Location {
    FromLittleEndianRoundTrip(b[..4]);
    FromLittleEndianRoundTrip(b[4..]);
    PowersOf256();
    Gps(DecodeInt32(FromLittleEndian(b[..4])), DecodeInt32(FromLittleEndian(b[4..])))
  }

  function ReportOf(mac: Signer, p: Packet): Report {
    Report(p.phone, p.timestamp, Ttl(p.flags), LocationOf(p), Verifies(mac, p))
  }

  // ----- On the way -----

  /** A packet after `n` relays, if all of them forward it. */
  function Relayed(p: Packet, n: nat): Option<Packet> {
    if n == 0 then Some(p)
    else match Relayed(p, n - 1)
      case Some(q) => Forward(q)
      case None => None
  }

  /** A packet lives for exactly one forward less than its time to live; each takes one, and touches
      nothing but the low five flag bits. */
  lemma {:induction false} RelayedExactly(p: Packet, n: nat)
    ensures Relayed(p, n).Some? <==> n == 0 || n < Ttl(p.flags)
    ensures n < Ttl(p.flags) ==> Relayed(p, n) == Some(p.(flags := WithTtl(p.flags, Ttl(p.flags) - n)))
  {
    if n != 0 { RelayedExactly(p, n - 1); }
  }

  /** No rewrite of the low flag bits, by a relay or by an exit, changes the scanner's verdict. */
  lemma VerdictIgnoresTtl(mac: Signer, p: Packet, ttl: nat)
    requires ttl <= MAX_TTL
    ensures Verifies(mac, p.(flags := WithTtl(p.flags, ttl))) <==> Verifies(mac, p)
  {}

  /** A signed packet verifies at every hop of every path, the time to live telling the hop, for at
      most 19 forwards. Unsigned, it verifies at none, unless its true signature is zero. */
  lemma {:induction false} SignatureSurvives(u: Packet, mac: Signer, signs: bool, n: nat)
    requires Ttl(u.flags) == 0 && u.sig == 0
    ensures var built := Sign(u, mac, signs);
      && (Relayed(built, n).Some? <==> n <= 19)
      && (n <= 19 ==>
            var p := Relayed(built, n).value;
            && p == built.(flags := WithTtl(u.flags, START_TTL - n))
            && (Verifies(mac, p) <==> signs || mac(Masked(built)) == 0))
  {
    RelayedExactly(Sign(u, mac, signs), n);
    if n <= 19 {
      SignedVerdict(u, mac, signs);
      VerdictIgnoresTtl(mac, Sign(u, mac, signs), START_TTL - n);
    }
  }

  lemma SignedVerdict(u: Packet, mac: Signer, signs: bool)
    requires Ttl(u.flags) == 0 && u.sig == 0
    ensures Verifies(mac, Sign(u, mac, signs)) <==> signs || mac(Masked(Sign(u, mac, signs))) == 0
  {}

  /** What the scanner reads at any hop is what was signed, the time to live telling the hop, and the
      verdict whether it was signed ... */
  lemma {:induction false} ReportSurvives(u: Packet, mac: Signer, signs: bool, n: nat, heard: Packet)
    requires Ttl(u.flags) == 0 && u.sig == 0 && Relayed(Sign(u, mac, signs), n) == Some(heard)
    ensures n <= 19 && ReportOf(mac, Unpack(Pack(heard))) ==
      Report(u.phone, u.timestamp, START_TTL - n, LocationOf(u), signs || mac(Masked(heard)) == 0)
  {
    SignatureSurvives(u, mac, signs, n);
    UnpackPack(heard);
    assert Masked(heard) == Masked(Sign(u, mac, signs));
  }

  /** What the victim puts in. */
  function LocationPut(position: Option<(int, int)>, nonce: nat): Location {
    match position
    case Some((latitude, longitude)) => Gps(latitude, longitude)
    case None => Nonce(nonce)
  }

  /** ... and that is what the victim put in. */
  lemma {:induction false} UnsignedReads(phone: UInt32, minutes: UInt32, position: Option<(int, int)>, nonce: nat)
    requires Fits(position, nonce)
    ensures var u := Unsigned(phone, minutes, position, nonce);
      u.phone == phone && u.timestamp == minutes && LocationOf(u) == LocationPut(position, nonce)
  {
    PowersOf256();
    match position
    case Some((latitude, longitude)) => PositionRoundTrip(latitude, longitude);
    case None => LittleEndianRoundTrip(nonce, 8);
  }

  /** The packet a victim builds, heard after `n` forwards. */
  lemma {:induction false} BuiltReport(phone: UInt32, minutes: UInt32, position: Option<(int, int)>, nonce: nat,
                                       mac: Signer, signs: bool, n: nat, heard: Packet)
    requires Fits(position, nonce)
    requires Relayed(Sign(Unsigned(phone, minutes, position, nonce), mac, signs), n) == Some(heard)
    ensures n <= 19 && ReportOf(mac, Unpack(Pack(heard))) ==
      Report(phone, minutes, START_TTL - n, LocationPut(position, nonce), signs || mac(Masked(heard)) == 0)
  {
    UnsignedReads(phone, minutes, position, nonce);
    ReportSurvives(Unsigned(phone, minutes, position, nonce), mac, signs, n, heard);
  }

  /** On the wire a coordinate is the little-endian two's complement, latitude first. */
  lemma CoordinateBytes(latitude: int, longitude: int, i: nat)
    requires IsInt32(latitude) && IsInt32(longitude) && i < 4
    ensures EncodePosition(latitude, longitude)[i] == latitude % 0x1_0000_0000 / Pow256(i) % 0x100
    ensures EncodePosition(latitude, longitude)[4 + i] == longitude % 0x1_0000_0000 / Pow256(i) % 0x100
  {
    assert EncodeInt32(latitude) == latitude % 0x1_0000_0000 && EncodeInt32(longitude) == longitude % 0x1_0000_0000;
    LittleEndianBytes(EncodeInt32(latitude), 4, i);
    LittleEndianBytes(EncodeInt32(longitude), 4, i);
  }

  /** Phone numbers of one length that differ within one block of four digits only, or in the last few,
      are told apart at any hops. */
  lemma CallersToldApart(a: PhoneNumber, b: PhoneNumber, block: nat, u: Packet, v: Packet,
                         mac: Signer, signs: bool, m: nat, n: nat, p: Packet, q: Packet)
    requires Murmur.DifferOnlyIn(a, b, 4, block)
    requires IsUnsignedOf(u, a) && IsUnsignedOf(v, b)
    requires Relayed(Sign(u, mac, signs), m) == Some(p) && Relayed(Sign(v, mac, signs), n) == Some(q)
    ensures p.phone == q.phone <==> a == b
  {
    PhonesDiffer(a, b, block);
    PhoneSurvives(u, a, mac, signs, m, p);
    PhoneSurvives(v, b, mac, signs, n, q);
  }

  /** What a victim with this number may build, before signing. */
  ghost predicate IsUnsignedOf(u: Packet, number: PhoneNumber) {
    exists minutes: UInt32, position: Option<(int, int)>, nonce: nat ::
      Fits(position, nonce) && u == Unsigned(PhoneHash(number), minutes, position, nonce)
  }

  lemma PhoneSurvives(u: Packet, number: PhoneNumber, mac: Signer, signs: bool, n: nat, heard: Packet)
    requires IsUnsignedOf(u, number) && Relayed(Sign(u, mac, signs), n) == Some(heard)
    ensures heard.phone == PhoneHash(number)
  {
    RelayedExactly(Sign(u, mac, signs), n);
  }

  lemma PhonesDiffer(a: PhoneNumber, b: PhoneNumber, block: nat)
    requires Murmur.DifferOnlyIn(a, b, 4, block)
    ensures PhoneHash(a) == PhoneHash(b) <==> a == b
  {
    var seed := Words.Truncate(MURMUR_SEED, 32);
    Murmur.NoCollisionX86_32(a, b, seed, block);
    SameValue(Murmur.HashX86_32(a, seed), Murmur.HashX86_32(b, seed));
  }

  /** The phone field is the 32-bit hash of the number, with 112 for its seed. */
  lemma PhoneHashSeed(number: PhoneNumber)
    ensures Inverse.SeedOfX86_32(number, Words.Truncate(PhoneHash(number), 32)) == Words.Truncate(112, 32)
  {
    var seed := Words.Truncate(MURMUR_SEED, 32);
    Words.TruncateValue(Murmur.HashX86_32(number, seed));
    Inverse.SeedRecoveredX86_32(number, seed);
  }

  lemma SameValue(x: Words.Word32, y: Words.Word32)
    ensures AsUInt32(x) == AsUInt32(y) <==> x == y
  {
    Words.TruncateValue(x);
    Words.TruncateValue(y);
  }

  lemma PositionRoundTrip(latitude: int, longitude: int)
    requires IsInt32(latitude) && IsInt32(longitude)
    ensures DecodePosition(EncodePosition(latitude, longitude)) == Gps(latitude, longitude)
  {
    var a, b := LittleEndian(EncodeInt32(latitude), 4), LittleEndian(EncodeInt32(longitude), 4);
    assert (a + b)[..4] == a && (a + b)[4..] == b;
    PowersOf256();
    LittleEndianRoundTrip(EncodeInt32(latitude), 4);
    LittleEndianRoundTrip(EncodeInt32(longitude), 4);
  }

  /** Where the MAC tells the two messages apart, a signature vouches for one packet only, up to its
      time to live. */
  lemma SignatureBinds(mac: Signer, p: Packet, q: Packet)
    requires Verifies(mac, p) && q.sig == p.sig
    requires mac(Masked(p)) == mac(Masked(q)) ==> Masked(p) == Masked(q)
    ensures Verifies(mac, q) <==> q == p.(flags := WithTtl(p.flags, Ttl(q.flags)))
  {
    VerdictIgnoresTtl(mac, p, Ttl(q.flags));
    if Verifies(mac, q) {
      var p', q' := p.(flags := Upper(p.flags)), q.(flags := Upper(q.flags));
      PackedParts(p');
      PackedParts(q');
      assert Pack(p') == Pack(p')[..SIGNED_BYTES] + Pack(p')[SIGNED_BYTES..];
      assert Pack(q') == Pack(q')[..SIGNED_BYTES] + Pack(q')[SIGNED_BYTES..];
      UnpackPack(p');
      UnpackPack(q');
    }
  }
}

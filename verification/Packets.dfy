/** The 25-byte emergency packet: its layout, its time-to-live bits, and how a relay rewrites it. */
module Packets {
  import opened Arithmetic

  datatype Option<+T> = None | Some(value: T)

  type Byte = n: nat | n < 0x100
  type UInt32 = n: nat | n < 0x1_0000_0000
  type Bytes8 = b: seq<Byte> | |b| == 8 witness [0, 0, 0, 0, 0, 0, 0, 0]

  /** The eight bytes of `hmac_sig` as one number: relays only compare and copy them. */
  type Hash = n: nat | n < 0x1_0000_0000_0000_0000

  /** `location` is the raw union: two 32-bit coordinates or a 64-bit nonce. */
  datatype Packet = Packet(phone: UInt32, timestamp: UInt32, flags: Byte, location: Bytes8, sig: Hash)

  const PACKET_BYTES: nat := 25
  const SIGNED_BYTES: nat := 17
  const FLAGS_AT: nat := 8
  const MAX_TTL: nat := 31

  /** The time to live victims send with. */
  const START_TTL: nat := 20

  // ----- Flags -----

  /** `flags & (0xFF >> 3)` */
  function Ttl(flags: Byte): (ttl: nat)
    ensures ttl <= MAX_TTL
  {
    flags % 0x20
  }

  /** `flags & (0xFF << 5)` stored in a byte, and the scanners' `flags & 0b11100000` */
  function Upper(flags: Byte): (upper: Byte)
    ensures upper <= flags
  {
    flags / 0x20 * 0x20
  }

  /** `Upper(flags) | ttl` */
  function WithTtl(flags: Byte, ttl: nat): (f: Byte)
    requires ttl <= MAX_TTL
    ensures Ttl(f) == ttl && Upper(f) == Upper(flags)
  {
    Upper(flags) + ttl
  }

  /** The arithmetic above is the masking of the source, bit for bit. */
  lemma MasksAreBitwise(flags: bv8, ttl: bv8)
    requires ttl & 0x1f == ttl
    ensures Ttl(flags as nat) == (flags & 0x1f) as nat
    ensures Upper(flags as nat) == (flags & 0xe0) as nat
    ensures ttl as nat <= MAX_TTL && WithTtl(flags as nat, ttl as nat) == ((flags & 0xe0) | ttl) as nat
  {
    assert (flags & 0x1f) as nat == flags as nat % 0x20;
    assert (flags & 0xe0) as nat == flags as nat / 0x20 * 0x20;
    assert ((flags & 0xe0) | ttl) as nat == (flags & 0xe0) as nat + ttl as nat;
  }

  /** What a relay sends on: the packet with one hop less to live, or nothing. */
  function Forward(p: Packet): Option<Packet> {
    var ttl := Ttl(p.flags);
    if ttl > 0 then
      if ttl - 1 != 0 then Some(p.(flags := WithTtl(p.flags, ttl - 1))) else None
    else None
  }

  // ----- Layout -----

  function LittleEndian(n: nat, size: nat): (b: seq<Byte>)
    ensures |b| == size
  {
    if size == 0 then [] else [n % 0x100] + LittleEndian(n / 0x100, size - 1)
  }

  function FromLittleEndian(b: seq<Byte>): nat {
    if b == [] then 0 else b[0] + 0x100 * FromLittleEndian(b[1..])
  }

  function Pow256(size: nat): (p: nat)
    ensures p > 0
  {
    if size == 0 then 1 else 0x100 * Pow256(size - 1)
  }

  lemma {:induction false} LittleEndianRoundTrip(n: nat, size: nat)
    requires n < Pow256(size)
    ensures FromLittleEndian(LittleEndian(n, size)) == n
  {
    if size != 0 { LittleEndianRoundTrip(n / 0x100, size - 1); }
  }

  lemma {:induction false} FromLittleEndianRoundTrip(b: seq<Byte>)
    ensures LittleEndian(FromLittleEndian(b), |b|) == b
    ensures FromLittleEndian(b) < Pow256(|b|)
  {
    if b != [] { FromLittleEndianRoundTrip(b[1..]); }
  }

  /** Byte `i` counts 256 to the power of `i`. */
  lemma {:induction false} LittleEndianBytes(n: nat, size: nat, i: nat)
    requires i < size
    ensures LittleEndian(n, size)[i] == n / Pow256(i) % 0x100
  {
    if i > 0 {
      LittleEndianBytes(n / 0x100, size - 1, i - 1);
      DivideTwice(n, 0x100, Pow256(i - 1));
    }
  }

  /** The packed struct in memory, on a little-endian machine. */
  function Pack(p: Packet): (b: seq<Byte>)
    ensures |b| == PACKET_BYTES
  {
    LittleEndian(p.phone, 4) + LittleEndian(p.timestamp, 4) + [p.flags] + p.location + LittleEndian(p.sig, 8)
  }

  /** Reading the struct back: `memcpy` into a packet, or `struct.unpack('<IIB8s8s', …)`. */
  function Unpack(b: seq<Byte>): Packet
    requires |b| == PACKET_BYTES
  {
    Widths(b);
    Packet(FromLittleEndian(b[..4]), FromLittleEndian(b[4..8]), b[FLAGS_AT],
           b[9..SIGNED_BYTES], FromLittleEndian(b[SIGNED_BYTES..]))
  }

  lemma Widths(b: seq<Byte>)
    requires |b| == PACKET_BYTES
    ensures FromLittleEndian(b[..4]) < 0x1_0000_0000 && FromLittleEndian(b[4..8]) < 0x1_0000_0000
    ensures FromLittleEndian(b[SIGNED_BYTES..]) < 0x1_0000_0000_0000_0000
  {
    FromLittleEndianRoundTrip(b[..4]);
    FromLittleEndianRoundTrip(b[4..8]);
    FromLittleEndianRoundTrip(b[SIGNED_BYTES..]);
    PowersOf256();
  }

  lemma PowersOf256()
    ensures Pow256(4) == 0x1_0000_0000 && Pow256(8) == 0x1_0000_0000_0000_0000
  {}

  /** Packing loses nothing. */
  lemma UnpackPack(p: Packet)
    ensures Unpack(Pack(p)) == p
  {
    PowersOf256();
    var m := Pack(p);
    assert m[..4] == LittleEndian(p.phone, 4) && m[4..8] == LittleEndian(p.timestamp, 4);
    assert m[9..SIGNED_BYTES] == p.location && m[SIGNED_BYTES..] == LittleEndian(p.sig, 8);
    LittleEndianRoundTrip(p.phone, 4);
    LittleEndianRoundTrip(p.timestamp, 4);
    LittleEndianRoundTrip(p.sig, 8);
  }

  /** Every 25 bytes are a packet. */
  lemma PackUnpack(b: seq<Byte>)
    requires |b| == PACKET_BYTES
    ensures Pack(Unpack(b)) == b
  {
    FromLittleEndianRoundTrip(b[..4]);
    FromLittleEndianRoundTrip(b[4..8]);
    FromLittleEndianRoundTrip(b[SIGNED_BYTES..]);
    assert b == b[..4] + b[4..8] + [b[FLAGS_AT]] + b[9..SIGNED_BYTES] + b[SIGNED_BYTES..];
  }

  /** Where each byte of the struct is, and what it is. */
  lemma Layout(p: Packet, i: nat)
    ensures i < 4 ==> Pack(p)[i] == p.phone / Pow256(i) % 0x100
    ensures i < 4 ==> Pack(p)[4 + i] == p.timestamp / Pow256(i) % 0x100
    ensures Pack(p)[8] == p.flags
    ensures i < 8 ==> Pack(p)[9 + i] == p.location[i]
    ensures i < 8 ==> Pack(p)[17 + i] == p.sig / Pow256(i) % 0x100
  {
    if i < 4 {
      LittleEndianBytes(p.phone, 4, i);
      LittleEndianBytes(p.timestamp, 4, i);
    }
    if i < 8 { LittleEndianBytes(p.sig, 8, i); }
  }

  /** The 17 signed bytes; the signature starts right after them. */
  lemma PackedParts(p: Packet)
    ensures Pack(p)[FLAGS_AT] == p.flags
    ensures Pack(p)[..SIGNED_BYTES] ==
      LittleEndian(p.phone, 4) + LittleEndian(p.timestamp, 4) + [p.flags] + p.location
    ensures Pack(p)[SIGNED_BYTES..] == LittleEndian(p.sig, 8)
  {}
}

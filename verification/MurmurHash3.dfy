/** The three MurmurHash3 functions and the collision law behind their mixing.

    Words are read from the key in little-endian order, as on both targets. Each hash is specified
    without a `switch`: the key is cut into blocks, and the last one, partial or empty, is padded
    with zeros. The methods keep the loops, the negative block index and the fall-through of the
    source, and are proved equal to that specification. The theorems about it rest on one fact:
    every operation applied to the state can be undone. */
module MurmurHash3 {
  import opened Arithmetic
  import opened Words

  type Key = seq<Word8>

  /** The length is a C `int`. */
  const MAX_LEN: nat := 0x7fff_ffff

  datatype Quad = Quad(w1: Word32, w2: Word32, w3: Word32, w4: Word32)
  datatype Pair = Pair(w1: Word64, w2: Word64)

  function Fmix32(h: Word32): Word32 {
    XorShr(Mul(XorShr(Mul(XorShr(h, 16), 0x85ebca6b), 13), 0xc2b2ae35), 16)
  }

  function Fmix64(k: Word64): Word64 {
    XorShr(Mul(XorShr(Mul(XorShr(k, 33), 0xff51afd7ed558ccd), 33), 0xc4ceb9fe1a85ec53), 33)
  }

  function XorShr(x: Bits, s: nat): (z: Bits)
    ensures |z| == |x|
  {
    Xor(x, Shr(x, s))
  }

  // ----- Reading the key -----

  function ByteAt(key: Key, i: nat): Word8 {
    if i < |key| then key[i] else Zero(8)
  }

  /** The four bytes from position `i` on, zero beyond the end of the key. */
  function ReadWord32(key: Key, i: nat): Word32 {
    ByteAt(key, i) + ByteAt(key, i + 1) + ByteAt(key, i + 2) + ByteAt(key, i + 3)
  }

  function ReadWord64(key: Key, i: nat): Word64 {
    ReadWord32(key, i) + ReadWord32(key, i + 4)
  }

  function ReadQuad(key: Key, i: nat): Quad {
    Quad(ReadWord32(key, i), ReadWord32(key, i + 4), ReadWord32(key, i + 8), ReadWord32(key, i + 12))
  }

  function ReadPair(key: Key, i: nat): Pair {
    Pair(ReadWord64(key, i), ReadWord64(key, i + 8))
  }

  function TailStart(key: Key, size: nat): (start: nat)
    requires size > 0
    ensures |key| - size < start <= |key|
  {
    |key| / size * size
  }

  // ----- Specifications -----

  /** Runs `step` over the first `n` blocks. */
  function Fold<S, K>(key: Key, size: nat, read: (Key, nat) -> K, step: (S, K) -> S, s: S, n: nat): S {
    if n == 0 then s else step(Fold(key, size, read, step, s, n - 1), read(key, (n - 1) * size))
  }

  /** The state once the full blocks are stepped over and the padded tail is absorbed. */
  function Digest<S, K>(key: Key, size: nat, read: (Key, nat) -> K,
                        step: (S, K) -> S, absorb: (S, K) -> S, s: S): S
    requires size > 0
  {
    absorb(Fold(key, size, read, step, s, |key| / size), read(key, TailStart(key, size)))
  }

  function Scramble32(k: Word32, c: nat, r: nat, d: nat): Word32
    requires r <= 32
  {
    Mul(Rotl(Mul(k, c), r), d)
  }

  function Scramble64(k: Word64, c: nat, r: nat, d: nat): Word64
    requires r <= 64
  {
    Mul(Rotl(Mul(k, c), r), d)
  }

  function Absorb32(h: Word32, k: Word32): Word32 {
    Xor(h, Scramble32(k, 0xcc9e2d51, 15, 0x1b873593))
  }

  function Step32(h: Word32, k: Word32): Word32 {
    MulAdd(Rotl(Absorb32(h, k), 13), 5, 0xe6546b64)
  }

  function HashX86_32(key: Key, seed: Word32): Word32
    requires |key| <= MAX_LEN
  {
    Fmix32(Xor(Digest(key, 4, ReadWord32, Step32, Absorb32, seed), Truncate(|key|, 32)))
  }

  function AbsorbQuad(h: Quad, k: Quad): Quad {
    Quad(Xor(h.w1, Scramble32(k.w1, 0x239b961b, 15, 0xab0e9789)),
         Xor(h.w2, Scramble32(k.w2, 0xab0e9789, 16, 0x38b34ae5)),
         Xor(h.w3, Scramble32(k.w3, 0x38b34ae5, 17, 0xa1e38b93)),
         Xor(h.w4, Scramble32(k.w4, 0xa1e38b93, 18, 0x239b961b)))
  }

  function Churn32(h: Word32, r: nat, neighbour: Word32, e: nat): Word32
    requires r <= 32
  {
    MulAdd(Add(Rotl(h, r), neighbour), 5, e)
  }

  /** Each word adds the next one before that has absorbed its block, but `w4` the new `w1`. */
  function StepQuad(h: Quad, k: Quad): Quad {
    var a := AbsorbQuad(h, k);
    var w1 := Churn32(a.w1, 19, h.w2, 0x561ccd1b);
    Quad(w1,
         Churn32(a.w2, 17, h.w3, 0x0bcaa747),
         Churn32(a.w3, 15, h.w4, 0x96cd1c35),
         Churn32(a.w4, 13, w1, 0x32ac3b17))
  }

  function XorQuad(h: Quad, n: Word32): Quad {
    Quad(Xor(h.w1, n), Xor(h.w2, n), Xor(h.w3, n), Xor(h.w4, n))
  }

  function SpreadQuad(h: Quad): Quad {
    var w1 := Add(Add(Add(h.w1, h.w2), h.w3), h.w4);
    Quad(w1, Add(h.w2, w1), Add(h.w3, w1), Add(h.w4, w1))
  }

  function FmixQuad(h: Quad): Quad {
    Quad(Fmix32(h.w1), Fmix32(h.w2), Fmix32(h.w3), Fmix32(h.w4))
  }

  function HashX86_128(key: Key, seed: Word32): Quad
    requires |key| <= MAX_LEN
  {
    var h := Digest(key, 16, ReadQuad, StepQuad, AbsorbQuad, Quad(seed, seed, seed, seed));
    SpreadQuad(FmixQuad(SpreadQuad(XorQuad(h, Truncate(|key|, 32)))))
  }

  function AbsorbPair(h: Pair, k: Pair): Pair {
    Pair(Xor(h.w1, Scramble64(k.w1, 0x87c37b91114253d5, 31, 0x4cf5ad432745937f)),
         Xor(h.w2, Scramble64(k.w2, 0x4cf5ad432745937f, 33, 0x87c37b91114253d5)))
  }

  function Churn64(h: Word64, r: nat, neighbour: Word64, e: nat): Word64
    requires r <= 64
  {
    MulAdd(Add(Rotl(h, r), neighbour), 5, e)
  }

  function StepPair(h: Pair, k: Pair): Pair {
    var a := AbsorbPair(h, k);
    var w1 := Churn64(a.w1, 27, h.w2, 0x52dce729);
    Pair(w1, Churn64(a.w2, 31, w1, 0x38495ab5))
  }

  function XorPair(h: Pair, n: Word64): Pair {
    Pair(Xor(h.w1, n), Xor(h.w2, n))
  }

  function SpreadPair(h: Pair): Pair {
    var w1 := Add(h.w1, h.w2);
    Pair(w1, Add(h.w2, w1))
  }

  function FmixPair(h: Pair): Pair {
    Pair(Fmix64(h.w1), Fmix64(h.w2))
  }

  function HashX64_128(key: Key, seed: Word32): Pair
    requires |key| <= MAX_LEN
  {
    var h := Digest(key, 16, ReadPair, StepPair, AbsorbPair, Pair(Widen(seed, 64), Widen(seed, 64)));
    SpreadPair(FmixPair(SpreadPair(XorPair(h, Truncate(|key|, 64)))))
  }

  // ----- The loops of the source -----

  /** The bytes of a partial word: the fall-through cases of one word of the `switch`. */
  method TailWord32(key: Key, start: nat) returns (k: Word32)
    requires start <= |key|
    ensures k == ReadWord32(key, start)
  {
    var n := |key| - start;
    k := Zero(32);
    if n >= 4 { k := Xor(k, Shl(Widen(key[start + 3], 32), 24)); }
    if n >= 3 { k := Xor(k, Shl(Widen(key[start + 2], 32), 16)); }
    if n >= 2 { k := Xor(k, Shl(Widen(key[start + 1], 32), 8)); }
    if n >= 1 { k := Xor(k, Widen(key[start], 32)); }
  }

  /** Cases 8 to 5 of a 64-bit word. */
  method TailHigh64(key: Key, start: nat) returns (k: Word64)
    requires start <= |key|
    ensures k == Zero(32) + ReadWord32(key, start + 4)
  {
    var n := |key| - start;
    k := Zero(64);
    if n >= 8 { k := Xor(k, Shl(Widen(key[start + 7], 64), 56)); }
    if n >= 7 { k := Xor(k, Shl(Widen(key[start + 6], 64), 48)); }
    if n >= 6 { k := Xor(k, Shl(Widen(key[start + 5], 64), 40)); }
    if n >= 5 { k := Xor(k, Shl(Widen(key[start + 4], 64), 32)); }
  }

  method TailWord64(key: Key, start: nat) returns (k: Word64)
    requires start <= |key|
    ensures k == ReadWord64(key, start)
  {
    var n := |key| - start;
    k := TailHigh64(key, start);
    if n >= 4 { k := Xor(k, Shl(Widen(key[start + 3], 64), 24)); }
    if n >= 3 { k := Xor(k, Shl(Widen(key[start + 2], 64), 16)); }
    if n >= 2 { k := Xor(k, Shl(Widen(key[start + 1], 64), 8)); }
    if n >= 1 { k := Xor(k, Widen(key[start], 64)); }
  }

  /** The cases of the `switch` that fill and mix in one word, skipped when no byte is left for it. */
  method TailMix32(key: Key, start: nat, h: Word32, c: nat, r: nat, d: nat) returns (h': Word32)
    requires r <= 32
    ensures h' == Xor(h, Scramble32(ReadWord32(key, start), c, r, d))
  {
    h' := h;
    if start < |key| {
      var k := TailWord32(key, start);
      k := Mul(k, c);
      k := Rotl(k, r);
      k := Mul(k, d);
      h' := Xor(h', k);
    } else {
      EmptyWord32(key, start, h, c, r, d);
    }
  }

  method TailMix64(key: Key, start: nat, h: Word64, c: nat, r: nat, d: nat) returns (h': Word64)
    requires r <= 64
    ensures h' == Xor(h, Scramble64(ReadWord64(key, start), c, r, d))
  {
    h' := h;
    if start < |key| {
      var k := TailWord64(key, start);
      k := Mul(k, c);
      k := Rotl(k, r);
      k := Mul(k, d);
      h' := Xor(h', k);
    } else {
      EmptyWord64(key, start, h, c, r, d);
    }
  }

  // Each function of the source has three sections, here one method each: body, tail, finalization.

  method RoundX86_32(h: Word32, k: Word32) returns (h1: Word32)
    ensures h1 == Step32(h, k)
  {
    var k1;
    h1, k1 := h, k;
    k1 := Mul(k1, 0xcc9e2d51);
    k1 := Rotl(k1, 15);
    k1 := Mul(k1, 0x1b873593);
    h1 := Xor(h1, k1);
    h1 := Rotl(h1, 13);
    h1 := MulAdd(h1, 5, 0xe6546b64);
  }

  method BodyX86_32(key: Key, seed: Word32) returns (h1: Word32)
    ensures h1 == Fold(key, 4, ReadWord32, Step32, seed, |key| / 4)
  {
    var nblocks := |key| / 4;
    h1 := seed;
    var i := -nblocks;
    while i != 0
      invariant -nblocks <= i <= 0
      invariant h1 == Fold(key, 4, ReadWord32, Step32, seed, nblocks + i)
    {
      var n := nblocks + i;
      FoldStep(key, 4, ReadWord32, Step32, seed, n);
      var k1 := ReadWord32(key, n * 4);
      h1 := RoundX86_32(h1, k1);
      i := i + 1;
    }
  }

  method MurmurHash3_x86_32(key: Key, seed: Word32) returns (out: Word32)
    requires |key| <= MAX_LEN
    ensures out == HashX86_32(key, seed)
  {
    var h1 := BodyX86_32(key, seed);
    h1 := TailMix32(key, TailStart(key, 4), h1, 0xcc9e2d51, 15, 0x1b873593);
    h1 := Xor(h1, Truncate(|key|, 32));
    out := Fmix32(h1);
  }

  method RoundX86_128(h: Quad, k: Quad) returns (out: Quad)
    ensures out == StepQuad(h, k)
  {
    var Quad(h1, h2, h3, h4) := h;
    var Quad(k1, k2, k3, k4) := k;

    k1 := Mul(k1, 0x239b961b); k1 := Rotl(k1, 15); k1 := Mul(k1, 0xab0e9789); h1 := Xor(h1, k1);
    h1 := Rotl(h1, 19); h1 := Add(h1, h2); h1 := MulAdd(h1, 5, 0x561ccd1b);

    k2 := Mul(k2, 0xab0e9789); k2 := Rotl(k2, 16); k2 := Mul(k2, 0x38b34ae5); h2 := Xor(h2, k2);
    h2 := Rotl(h2, 17); h2 := Add(h2, h3); h2 := MulAdd(h2, 5, 0x0bcaa747);

    k3 := Mul(k3, 0x38b34ae5); k3 := Rotl(k3, 17); k3 := Mul(k3, 0xa1e38b93); h3 := Xor(h3, k3);
    h3 := Rotl(h3, 15); h3 := Add(h3, h4); h3 := MulAdd(h3, 5, 0x96cd1c35);

    k4 := Mul(k4, 0xa1e38b93); k4 := Rotl(k4, 18); k4 := Mul(k4, 0x239b961b); h4 := Xor(h4, k4);
    h4 := Rotl(h4, 13); h4 := Add(h4, h1); h4 := MulAdd(h4, 5, 0x32ac3b17);
    out := Quad(h1, h2, h3, h4);
  }

  method BodyX86_128(key: Key, seed: Word32) returns (h: Quad)
    ensures h == Fold(key, 16, ReadQuad, StepQuad, Quad(seed, seed, seed, seed), |key| / 16)
  {
    var nblocks := |key| / 16;
    h := Quad(seed, seed, seed, seed);
    var i := -nblocks;
    while i != 0
      invariant -nblocks <= i <= 0
      invariant h == Fold(key, 16, ReadQuad, StepQuad, Quad(seed, seed, seed, seed), nblocks + i)
    {
      var n := nblocks + i;
      FoldStep(key, 16, ReadQuad, StepQuad, Quad(seed, seed, seed, seed), n);
      var k := ReadQuad(key, n * 16);
      h := RoundX86_128(h, k);
      i := i + 1;
    }
  }

  method TailX86_128(key: Key, h: Quad) returns (out: Quad)
    ensures out == AbsorbQuad(h, ReadQuad(key, TailStart(key, 16)))
  {
    var tail := TailStart(key, 16);
    var h4 := TailMix32(key, tail + 12, h.w4, 0xa1e38b93, 18, 0x239b961b);
    var h3 := TailMix32(key, tail + 8, h.w3, 0x38b34ae5, 17, 0xa1e38b93);
    var h2 := TailMix32(key, tail + 4, h.w2, 0xab0e9789, 16, 0x38b34ae5);
    var h1 := TailMix32(key, tail, h.w1, 0x239b961b, 15, 0xab0e9789);
    out := Quad(h1, h2, h3, h4);
  }

  method FinishX86_128(h: Quad, len: Word32) returns (out: Quad)
    ensures out == SpreadQuad(FmixQuad(SpreadQuad(XorQuad(h, len))))
  {
    var Quad(h1, h2, h3, h4) := h;
    h1, h2, h3, h4 := Xor(h1, len), Xor(h2, len), Xor(h3, len), Xor(h4, len);

    h1 := Add(h1, h2); h1 := Add(h1, h3); h1 := Add(h1, h4);
    h2 := Add(h2, h1); h3 := Add(h3, h1); h4 := Add(h4, h1);

    h1 := Fmix32(h1);
    h2 := Fmix32(h2);
    h3 := Fmix32(h3);
    h4 := Fmix32(h4);

    h1 := Add(h1, h2); h1 := Add(h1, h3); h1 := Add(h1, h4);
    h2 := Add(h2, h1); h3 := Add(h3, h1); h4 := Add(h4, h1);
    out := Quad(h1, h2, h3, h4);
  }

  method MurmurHash3_x86_128(key: Key, seed: Word32) returns (out: Quad)
    requires |key| <= MAX_LEN
    ensures out == HashX86_128(key, seed)
  {
    var h := BodyX86_128(key, seed);
    h := TailX86_128(key, h);
    out := FinishX86_128(h, Truncate(|key|, 32));
  }

  method RoundX64_128(h: Pair, k: Pair) returns (out: Pair)
    ensures out == StepPair(h, k)
  {
    var Pair(h1, h2) := h;
    var Pair(k1, k2) := k;

    k1 := Mul(k1, 0x87c37b91114253d5); k1 := Rotl(k1, 31); k1 := Mul(k1, 0x4cf5ad432745937f);
    h1 := Xor(h1, k1);
    h1 := Rotl(h1, 27); h1 := Add(h1, h2); h1 := MulAdd(h1, 5, 0x52dce729);

    k2 := Mul(k2, 0x4cf5ad432745937f); k2 := Rotl(k2, 33); k2 := Mul(k2, 0x87c37b91114253d5);
    h2 := Xor(h2, k2);
    h2 := Rotl(h2, 31); h2 := Add(h2, h1); h2 := MulAdd(h2, 5, 0x38495ab5);
    out := Pair(h1, h2);
  }

  method BodyX64_128(key: Key, seed: Word32) returns (h: Pair)
    ensures h == Fold(key, 16, ReadPair, StepPair, Pair(Widen(seed, 64), Widen(seed, 64)), |key| / 16)
  {
    h := Pair(Widen(seed, 64), Widen(seed, 64));
    for i := 0 to |key| / 16
      invariant h == Fold(key, 16, ReadPair, StepPair, Pair(Widen(seed, 64), Widen(seed, 64)), i)
    {
      var k := ReadPair(key, i * 16);
      h := RoundX64_128(h, k);
    }
  }

  method TailX64_128(key: Key, h: Pair) returns (out: Pair)
    ensures out == AbsorbPair(h, ReadPair(key, TailStart(key, 16)))
  {
    var tail := TailStart(key, 16);
    var h2 := TailMix64(key, tail + 8, h.w2, 0x4cf5ad432745937f, 33, 0x87c37b91114253d5);
    var h1 := TailMix64(key, tail, h.w1, 0x87c37b91114253d5, 31, 0x4cf5ad432745937f);
    out := Pair(h1, h2);
  }

  method FinishX64_128(h: Pair, len: Word64) returns (out: Pair)
    ensures out == SpreadPair(FmixPair(SpreadPair(XorPair(h, len))))
  {
    var Pair(h1, h2) := h;
    h1, h2 := Xor(h1, len), Xor(h2, len);

    h1 := Add(h1, h2);
    h2 := Add(h2, h1);

    h1 := Fmix64(h1);
    h2 := Fmix64(h2);

    h1 := Add(h1, h2);
    h2 := Add(h2, h1);
    out := Pair(h1, h2);
  }

  method MurmurHash3_x64_128(key: Key, seed: Word32) returns (out: Pair)
    requires |key| <= MAX_LEN
    ensures out == HashX64_128(key, seed)
  {
    var h := BodyX64_128(key, seed);
    h := TailX64_128(key, h);
    out := FinishX64_128(h, Truncate(|key|, 64));
  }

  lemma FoldStep<S, K>(key: Key, size: nat, read: (Key, nat) -> K, step: (S, K) -> S, s: S, n: nat)
    ensures Fold(key, size, read, step, s, n + 1) == step(Fold(key, size, read, step, s, n), read(key, n * size))
  {}

  /** A word past the end of the key is zero, and absorbing zero changes nothing. */
  lemma EmptyWord32(key: Key, i: nat, h: Word32, c: nat, r: nat, d: nat)
    requires i >= |key| && r <= 32
    ensures Xor(h, Scramble32(ReadWord32(key, i), c, r, d)) == h
  {
    assert ReadWord32(key, i) == Zero(32);
    ScrambleZero(32, c, r, d);
  }

  lemma EmptyWord64(key: Key, i: nat, h: Word64, c: nat, r: nat, d: nat)
    requires i >= |key| && r <= 64
    ensures Xor(h, Scramble64(ReadWord64(key, i), c, r, d)) == h
  {
    assert ReadWord64(key, i) == Zero(64);
    ScrambleZero(64, c, r, d);
  }

  lemma ScrambleZero(w: nat, c: nat, r: nat, d: nat)
    requires r <= w
    ensures Mul(Rotl(Mul(Zero(w), c), r), d) == Zero(w)
  {
    MulZero(w, c);
    MulZero(w, d);
    RotlZero(w, r);
  }

  lemma RotlZero(w: nat, r: nat)
    requires r <= w
    ensures Rotl(Zero(w), r) == Zero(w)
  {}

  lemma {:induction false} MulZero(w: nat, c: nat)
    ensures Mul(Zero(w), c) == Zero(w)
  {
    ZeroValue(w);
  }

  lemma {:induction false} ZeroValue(w: nat)
    ensures Value(Zero(w)) == 0 && Truncate(0, w) == Zero(w)
  {
    if w != 0 {
      ZeroValue(w - 1);
      assert Zero(w)[1..] == Zero(w - 1);
    }
  }

  // ----- The state is one-to-one in every argument -----

  ghost predicate Cancels<S(!new), K(!new)>(step: (S, K) -> S) {
    && (forall s, t, k :: step(s, k) == step(t, k) ==> s == t)
    && (forall s, k, l :: step(s, k) == step(s, l) ==> k == l)
  }

  /** `read` depends on `size` bytes, and on every bit of them. */
  ghost predicate ReadsExactly<K(!new)>(read: (Key, nat) -> K, size: nat) {
    forall a, b, i: nat :: read(a, i) == read(b, i) <==> SameBytes(a, b, i, size)
  }

  ghost predicate SameBytes(a: Key, b: Key, i: nat, n: nat) {
    forall p: nat | i <= p < i + n :: ByteAt(a, p) == ByteAt(b, p)
  }

  /** Two keys of one length that agree outside chunk `j`. The last chunk is the tail. */
  ghost predicate DifferOnlyIn(a: Key, b: Key, size: nat, j: nat)
    requires size > 0
  {
    |a| == |b| && forall i | 0 <= i < |a| && !(j * size <= i < j * size + size) :: a[i] == b[i]
  }

  lemma {:induction false} FoldStates<S(!new), K(!new)>(key: Key, size: nat, read: (Key, nat) -> K,
                                                         step: (S, K) -> S, s: S, t: S, n: nat)
    requires Cancels(step) && s != t
    ensures Fold(key, size, read, step, s, n) != Fold(key, size, read, step, t, n)
  {
    if n != 0 { FoldStates(key, size, read, step, s, t, n - 1); }
  }

  ghost predicate ReadAlike<K(!new)>(a: Key, b: Key, size: nat, read: (Key, nat) -> K, i: nat) {
    read(a, i * size) == read(b, i * size)
  }

  /** Up to block `j` the runs agree, from there on they never meet again. */
  lemma {:induction false} FoldBlock<S(!new), K(!new)>(a: Key, b: Key, size: nat, read: (Key, nat) -> K,
                                                        step: (S, K) -> S, s: S, j: nat, n: nat)
    requires Cancels(step)
    requires forall i: nat :: ReadAlike(a, b, size, read, i) <==> i != j
    ensures Fold(a, size, read, step, s, n) == Fold(b, size, read, step, s, n) <==> n <= j
  {
    if n != 0 {
      FoldBlock(a, b, size, read, step, s, j, n - 1);
      assert ReadAlike(a, b, size, read, n - 1) <==> n - 1 != j;
    }
  }

  lemma DigestSeed<S(!new), K(!new)>(key: Key, size: nat, read: (Key, nat) -> K,
                                     step: (S, K) -> S, absorb: (S, K) -> S, s: S, t: S)
    requires size > 0 && Cancels(step) && Cancels(absorb) && s != t
    ensures Digest(key, size, read, step, absorb, s) != Digest(key, size, read, step, absorb, t)
  {
    FoldStates(key, size, read, step, s, t, |key| / size);
  }

  lemma DigestChunk<S(!new), K(!new)>(a: Key, b: Key, size: nat, read: (Key, nat) -> K,
                                      step: (S, K) -> S, absorb: (S, K) -> S, s: S, j: nat)
    requires size > 0 && Cancels(step) && Cancels(absorb) && ReadsExactly(read, size)
    requires DifferOnlyIn(a, b, size, j) && a != b
    ensures Digest(a, size, read, step, absorb, s) != Digest(b, size, read, step, absorb, s)
  {
    ChangedChunk(a, b, size, j);
    ChunkReads(a, b, size, read, j);
    OneDifference(a, b, size, read, step, absorb, s, j, |a| / size);
  }

  /** One difference, in a block or in the tail, is not undone by another. */
  lemma OneDifference<S(!new), K(!new)>(a: Key, b: Key, size: nat, read: (Key, nat) -> K,
                                        step: (S, K) -> S, absorb: (S, K) -> S, s: S, j: nat, n: nat)
    requires Cancels(step) && Cancels(absorb) && j <= n
    requires forall i: nat :: ReadAlike(a, b, size, read, i) <==> i != j
    ensures absorb(Fold(a, size, read, step, s, n), read(a, n * size))
      != absorb(Fold(b, size, read, step, s, n), read(b, n * size))
  {
    FoldBlock(a, b, size, read, step, s, j, n);
    assert ReadAlike(a, b, size, read, n) <==> n != j;
  }

  /** Only chunk `j` reads differently. */
  lemma ChunkReads<K(!new)>(a: Key, b: Key, size: nat, read: (Key, nat) -> K, j: nat)
    requires size > 0 && ReadsExactly(read, size) && DifferOnlyIn(a, b, size, j) && a != b
    ensures forall i: nat :: ReadAlike(a, b, size, read, i) <==> i != j
  {
    forall i: nat ensures ReadAlike(a, b, size, read, i) <==> i != j { ChunkRead(a, b, size, read, j, i); }
  }

  lemma ChunkRead<K(!new)>(a: Key, b: Key, size: nat, read: (Key, nat) -> K, j: nat, i: nat)
    requires size > 0 && ReadsExactly(read, size) && DifferOnlyIn(a, b, size, j) && a != b
    ensures ReadAlike(a, b, size, read, i) <==> i != j
  {
    if i == j { ChangedChunk(a, b, size, j); } else { OtherChunk(a, b, size, j, i); }
  }

  lemma OtherChunk(a: Key, b: Key, size: nat, j: nat, i: nat)
    requires size > 0 && DifferOnlyIn(a, b, size, j) && i != j
    ensures SameBytes(a, b, i * size, size)
  {
    if i < j { Gap(size, i, j); } else { Gap(size, j, i); }
  }

  lemma ChangedChunk(a: Key, b: Key, size: nat, j: nat)
    requires size > 0 && DifferOnlyIn(a, b, size, j) && a != b
    ensures !SameBytes(a, b, j * size, size) && j <= |a| / size
  {
    var p :| 0 <= p < |a| && a[p] != b[p];
    assert ByteAt(a, p) != ByteAt(b, p);
    ChunkExists(|a|, size, j);
  }

  lemma ChunkExists(len: nat, size: nat, j: nat)
    requires size > 0 && j * size < len
    ensures j <= len / size
  {
    Division(len, size);
    if j > len / size { Gap(size, len / size, j); }
  }

  // ----- Each step and each finalizer is one-to-one -----

  lemma ScrambleCancels(k: Bits, l: Bits, c: nat, r: nat, d: nat)
    requires |k| == |l| && r <= |k| && c % 2 == 1 && d % 2 == 1
    ensures Mul(Rotl(Mul(k, c), r), d) == Mul(Rotl(Mul(l, c), r), d) <==> k == l
  {
    MulCancels(Rotl(Mul(k, c), r), Rotl(Mul(l, c), r), d);
    RotlCancels(Mul(k, c), Mul(l, c), r);
    MulCancels(k, l, c);
  }

  lemma Absorb32Cancels()
    ensures Cancels(Absorb32)
  {
    forall h: Word32, g: Word32, k: Word32 | Absorb32(h, k) == Absorb32(g, k) ensures h == g {
      XorCancels(h, g, Scramble32(k, 0xcc9e2d51, 15, 0x1b873593));
    }
    forall h: Word32, k: Word32, l: Word32 | Absorb32(h, k) == Absorb32(h, l) ensures k == l {
      XorCancels(Scramble32(k, 0xcc9e2d51, 15, 0x1b873593), Scramble32(l, 0xcc9e2d51, 15, 0x1b873593), h);
      ScrambleCancels(k, l, 0xcc9e2d51, 15, 0x1b873593);
    }
  }

  lemma Step32Undone(a: Word32, b: Word32)
    requires MulAdd(Rotl(a, 13), 5, 0xe6546b64) == MulAdd(Rotl(b, 13), 5, 0xe6546b64)
    ensures a == b
  {
    MulAddCancels(Rotl(a, 13), Rotl(b, 13), 5, 0xe6546b64);
    RotlCancels(a, b, 13);
  }

  lemma Step32Cancels()
    ensures Cancels(Step32)
  {
    Absorb32Cancels();
    forall h: Word32, g: Word32, k: Word32, l: Word32 | Step32(h, k) == Step32(g, l)
      ensures Absorb32(h, k) == Absorb32(g, l)
    {
      Step32Undone(Absorb32(h, k), Absorb32(g, l));
    }
  }

  lemma Fmix32Cancels(h: Word32, g: Word32)
    requires Fmix32(h) == Fmix32(g)
    ensures h == g
  {
    var h1, g1 := XorShr(h, 16), XorShr(g, 16);
    var h2, g2 := Mul(h1, 0x85ebca6b), Mul(g1, 0x85ebca6b);
    var h3, g3 := XorShr(h2, 13), XorShr(g2, 13);
    var h4, g4 := Mul(h3, 0xc2b2ae35), Mul(g3, 0xc2b2ae35);
    XorShrCancels(h4, g4, 16);
    MulCancels(h3, g3, 0xc2b2ae35);
    XorShrCancels(h2, g2, 13);
    MulCancels(h1, g1, 0x85ebca6b);
    XorShrCancels(h, g, 16);
  }

  lemma Finish32Cancels(h: Word32, g: Word32, len: Word32)
    requires Fmix32(Xor(h, len)) == Fmix32(Xor(g, len))
    ensures h == g
  {
    Fmix32Cancels(Xor(h, len), Xor(g, len));
    XorCancels(h, g, len);
  }

  lemma ReadWord32Exact()
    ensures ReadsExactly(ReadWord32, 4)
  {
    forall a, b, i: nat ensures ReadWord32(a, i) == ReadWord32(b, i) <==> SameBytes(a, b, i, 4) {
      ReadWord32Bytes(a, b, i);
    }
  }

  /** The number a byte stands for, zero beyond the end. */
  function ByteValue(key: Key, i: nat): nat {
    if i < |key| then Value(key[i]) else 0
  }

  /** Words are read from the key lowest byte first. */
  lemma {:induction false} ReadsLittleEndian(key: Key, i: nat)
    ensures Value(ReadWord32(key, i)) == ByteValue(key, i) + 0x100 * ByteValue(key, i + 1)
      + 0x1_0000 * ByteValue(key, i + 2) + 0x100_0000 * ByteValue(key, i + 3)
    ensures Value(ReadWord64(key, i)) == Value(ReadWord32(key, i)) + 0x1_0000_0000 * Value(ReadWord32(key, i + 4))
  {
    var a: Bits, b: Bits := ByteAt(key, i), ByteAt(key, i + 1);
    var c: Bits, d: Bits := ByteAt(key, i + 2), ByteAt(key, i + 3);
    ValueOfZero(8);
    ValueConcat(a, b);
    ValueConcat(a + b, c);
    ValueConcat(a + b + c, d);
    PowersOfBytes();
    ValueConcat(ReadWord32(key, i), ReadWord32(key, i + 4));
  }

  lemma {:induction false} PowersOfBytes()
    ensures Pow2(8) == 0x100 && Pow2(16) == 0x1_0000 && Pow2(24) == 0x100_0000 && Pow2(32) == 0x1_0000_0000
  {
    Pow2Of32();
    assert Pow2(8) == 0x100;
    assert Pow2(16) == 0x1_0000;
    assert Pow2(24) == 0x100_0000;
  }

  lemma ReadWord32Bytes(a: Key, b: Key, i: nat)
    ensures ReadWord32(a, i) == ReadWord32(b, i) <==> SameBytes(a, b, i, 4)
  {
    if ReadWord32(a, i) == ReadWord32(b, i) {
      forall p: nat | i <= p < i + 4 ensures ByteAt(a, p) == ByteAt(b, p) {
        ByteOfWord(a, i, p);
        ByteOfWord(b, i, p);
      }
    }
  }

  lemma ByteOfWord(key: Key, i: nat, p: nat)
    requires i <= p < i + 4
    ensures ReadWord32(key, i)[8 * (p - i)..8 * (p - i) + 8] == ByteAt(key, p)
  {}

  lemma ReadQuadExact()
    ensures ReadsExactly(ReadQuad, 16)
  {
    forall a, b, i: nat ensures ReadQuad(a, i) == ReadQuad(b, i) <==> SameBytes(a, b, i, 16) {
      ReadWord32Bytes(a, b, i);
      ReadWord32Bytes(a, b, i + 4);
      ReadWord32Bytes(a, b, i + 8);
      ReadWord32Bytes(a, b, i + 12);
    }
  }

  lemma ReadWord64Bytes(a: Key, b: Key, i: nat)
    ensures ReadWord64(a, i) == ReadWord64(b, i) <==> SameBytes(a, b, i, 8)
  {
    ReadWord32Bytes(a, b, i);
    ReadWord32Bytes(a, b, i + 4);
    assert ReadWord64(a, i)[..32] == ReadWord32(a, i) && ReadWord64(a, i)[32..] == ReadWord32(a, i + 4);
    assert ReadWord64(b, i)[..32] == ReadWord32(b, i) && ReadWord64(b, i)[32..] == ReadWord32(b, i + 4);
  }

  lemma ReadPairExact()
    ensures ReadsExactly(ReadPair, 16)
  {
    forall a, b, i: nat ensures ReadPair(a, i) == ReadPair(b, i) <==> SameBytes(a, b, i, 16) {
      ReadWord64Bytes(a, b, i);
      ReadWord64Bytes(a, b, i + 8);
    }
  }

  lemma AbsorbWord(h: Bits, g: Bits, k: Bits, l: Bits, c: nat, r: nat, d: nat)
    requires |h| == |g| == |k| == |l| && r <= |h| && c % 2 == 1 && d % 2 == 1
    requires Xor(h, Mul(Rotl(Mul(k, c), r), d)) == Xor(g, Mul(Rotl(Mul(l, c), r), d))
    ensures h == g <==> k == l
  {
    var u, v := Mul(Rotl(Mul(k, c), r), d), Mul(Rotl(Mul(l, c), r), d);
    ScrambleCancels(k, l, c, r, d);
    XorCancels(u, v, h);
    XorCancels(h, g, u);
  }

  lemma AbsorbQuadWords(h: Quad, g: Quad, k: Quad, l: Quad)
    requires AbsorbQuad(h, k) == AbsorbQuad(g, l)
    ensures h.w1 == g.w1 <==> k.w1 == l.w1
    ensures h.w2 == g.w2 <==> k.w2 == l.w2
    ensures h.w3 == g.w3 <==> k.w3 == l.w3
    ensures h.w4 == g.w4 <==> k.w4 == l.w4
  {
    AbsorbWord(h.w1, g.w1, k.w1, l.w1, 0x239b961b, 15, 0xab0e9789);
    AbsorbWord(h.w2, g.w2, k.w2, l.w2, 0xab0e9789, 16, 0x38b34ae5);
    AbsorbWord(h.w3, g.w3, k.w3, l.w3, 0x38b34ae5, 17, 0xa1e38b93);
    AbsorbWord(h.w4, g.w4, k.w4, l.w4, 0xa1e38b93, 18, 0x239b961b);
  }

  lemma AbsorbQuadCancels()
    ensures Cancels(AbsorbQuad)
  {
    forall h, g, k | AbsorbQuad(h, k) == AbsorbQuad(g, k) ensures h == g { AbsorbQuadWords(h, g, k, k); }
    forall h, k, l | AbsorbQuad(h, k) == AbsorbQuad(h, l) ensures k == l { AbsorbQuadWords(h, h, k, l); }
  }

  /** Equal neighbours: the churned words agree only if the words did. */
  lemma ChurnCancels(a: Bits, b: Bits, r: nat, neighbour: Bits, e: nat)
    requires |a| == |b| && r <= |a|
    requires MulAdd(Add(Rotl(a, r), neighbour), 5, e) == MulAdd(Add(Rotl(b, r), neighbour), 5, e)
    ensures a == b
  {
    MulAddCancels(Add(Rotl(a, r), neighbour), Add(Rotl(b, r), neighbour), 5, e);
    AddCancels(Rotl(a, r), Rotl(b, r), neighbour);
    RotlCancels(a, b, r);
  }

  /** Undone from the last word: its neighbour is already known. */
  lemma {:induction false} StepQuadCancels()
    ensures Cancels(StepQuad)
  {
    AbsorbQuadCancels();
    forall h, g, k | StepQuad(h, k) == StepQuad(g, k) ensures h == g {
      StepQuadUndone(h, g, k, k);
    }
    forall h, k, l | StepQuad(h, k) == StepQuad(h, l) ensures k == l {
      var a, b := AbsorbQuad(h, k), AbsorbQuad(h, l);
      ChurnCancels(a.w1, b.w1, 19, h.w2, 0x561ccd1b);
      ChurnCancels(a.w2, b.w2, 17, h.w3, 0x0bcaa747);
      ChurnCancels(a.w3, b.w3, 15, h.w4, 0x96cd1c35);
      ChurnCancels(a.w4, b.w4, 13, StepQuad(h, k).w1, 0x32ac3b17);
    }
  }

  lemma StepQuadUndone(h: Quad, g: Quad, k: Quad, l: Quad)
    requires StepQuad(h, k) == StepQuad(g, l) && k == l
    ensures h == g
  {
    var a, b, w1 := AbsorbQuad(h, k), AbsorbQuad(g, l), StepQuad(h, k).w1;
    ChurnCancels(a.w4, b.w4, 13, w1, 0x32ac3b17);
    AbsorbWord(h.w4, g.w4, k.w4, l.w4, 0xa1e38b93, 18, 0x239b961b);
    ChurnCancels(a.w3, b.w3, 15, h.w4, 0x96cd1c35);
    AbsorbWord(h.w3, g.w3, k.w3, l.w3, 0x38b34ae5, 17, 0xa1e38b93);
    ChurnCancels(a.w2, b.w2, 17, h.w3, 0x0bcaa747);
    AbsorbWord(h.w2, g.w2, k.w2, l.w2, 0xab0e9789, 16, 0x38b34ae5);
    ChurnCancels(a.w1, b.w1, 19, h.w2, 0x561ccd1b);
    AbsorbWord(h.w1, g.w1, k.w1, l.w1, 0x239b961b, 15, 0xab0e9789);
  }

  lemma SpreadQuadCancels(h: Quad, g: Quad)
    requires SpreadQuad(h) == SpreadQuad(g)
    ensures h == g
  {
    var w1 := SpreadQuad(h).w1;
    AddCancels(h.w2, g.w2, w1);
    AddCancels(h.w3, g.w3, w1);
    AddCancels(h.w4, g.w4, w1);
    AddCancels(Add(Add(h.w1, h.w2), h.w3), Add(Add(g.w1, g.w2), g.w3), h.w4);
    AddCancels(Add(h.w1, h.w2), Add(g.w1, g.w2), h.w3);
    AddCancels(h.w1, g.w1, h.w2);
  }

  lemma MixQuadCancels(h: Quad, g: Quad)
    requires SpreadQuad(FmixQuad(SpreadQuad(h))) == SpreadQuad(FmixQuad(SpreadQuad(g)))
    ensures h == g
  {
    var x, y := SpreadQuad(h), SpreadQuad(g);
    SpreadQuadCancels(FmixQuad(x), FmixQuad(y));
    Fmix32Cancels(x.w1, y.w1);
    Fmix32Cancels(x.w2, y.w2);
    Fmix32Cancels(x.w3, y.w3);
    Fmix32Cancels(x.w4, y.w4);
    SpreadQuadCancels(h, g);
  }

  lemma FinishQuadCancels(h: Quad, g: Quad, len: Word32)
    requires SpreadQuad(FmixQuad(SpreadQuad(XorQuad(h, len)))) == SpreadQuad(FmixQuad(SpreadQuad(XorQuad(g, len))))
    ensures h == g
  {
    MixQuadCancels(XorQuad(h, len), XorQuad(g, len));
    XorCancels(h.w1, g.w1, len);
    XorCancels(h.w2, g.w2, len);
    XorCancels(h.w3, g.w3, len);
    XorCancels(h.w4, g.w4, len);
  }

  lemma AbsorbPairWords(h: Pair, g: Pair, k: Pair, l: Pair)
    requires AbsorbPair(h, k) == AbsorbPair(g, l)
    ensures h.w1 == g.w1 <==> k.w1 == l.w1
    ensures h.w2 == g.w2 <==> k.w2 == l.w2
  {
    AbsorbWord(h.w1, g.w1, k.w1, l.w1, 0x87c37b91114253d5, 31, 0x4cf5ad432745937f);
    AbsorbWord(h.w2, g.w2, k.w2, l.w2, 0x4cf5ad432745937f, 33, 0x87c37b91114253d5);
  }

  lemma AbsorbPairCancels()
    ensures Cancels(AbsorbPair)
  {
    forall h, g, k | AbsorbPair(h, k) == AbsorbPair(g, k) ensures h == g { AbsorbPairWords(h, g, k, k); }
    forall h, k, l | AbsorbPair(h, k) == AbsorbPair(h, l) ensures k == l { AbsorbPairWords(h, h, k, l); }
  }

  lemma {:induction false} StepPairCancels()
    ensures Cancels(StepPair)
  {
    AbsorbPairCancels();
    forall h, g, k | StepPair(h, k) == StepPair(g, k) ensures h == g {
      var a, b := AbsorbPair(h, k), AbsorbPair(g, k);
      ChurnCancels(a.w2, b.w2, 31, StepPair(h, k).w1, 0x38495ab5);
      AbsorbWord(h.w2, g.w2, k.w2, k.w2, 0x4cf5ad432745937f, 33, 0x87c37b91114253d5);
      ChurnCancels(a.w1, b.w1, 27, h.w2, 0x52dce729);
    }
    forall h, k, l | StepPair(h, k) == StepPair(h, l) ensures k == l {
      var a, b := AbsorbPair(h, k), AbsorbPair(h, l);
      ChurnCancels(a.w1, b.w1, 27, h.w2, 0x52dce729);
      ChurnCancels(a.w2, b.w2, 31, StepPair(h, k).w1, 0x38495ab5);
    }
  }

  lemma SpreadPairCancels(h: Pair, g: Pair)
    requires SpreadPair(h) == SpreadPair(g)
    ensures h == g
  {
    AddCancels(h.w2, g.w2, SpreadPair(h).w1);
    AddCancels(h.w1, g.w1, h.w2);
  }

  lemma Fmix64Cancels(h: Word64, g: Word64)
    requires Fmix64(h) == Fmix64(g)
    ensures h == g
  {
    var h1, g1 := XorShr(h, 33), XorShr(g, 33);
    var h2, g2 := Mul(h1, 0xff51afd7ed558ccd), Mul(g1, 0xff51afd7ed558ccd);
    var h3, g3 := XorShr(h2, 33), XorShr(g2, 33);
    var h4, g4 := Mul(h3, 0xc4ceb9fe1a85ec53), Mul(g3, 0xc4ceb9fe1a85ec53);
    XorShrCancels(h4, g4, 33);
    MulCancels(h3, g3, 0xc4ceb9fe1a85ec53);
    XorShrCancels(h2, g2, 33);
    MulCancels(h1, g1, 0xff51afd7ed558ccd);
    XorShrCancels(h, g, 33);
  }

  lemma MixPairCancels(h: Pair, g: Pair)
    requires SpreadPair(FmixPair(SpreadPair(h))) == SpreadPair(FmixPair(SpreadPair(g)))
    ensures h == g
  {
    var x, y := SpreadPair(h), SpreadPair(g);
    SpreadPairCancels(FmixPair(x), FmixPair(y));
    Fmix64Cancels(x.w1, y.w1);
    Fmix64Cancels(x.w2, y.w2);
    SpreadPairCancels(h, g);
  }

  lemma FinishPairCancels(h: Pair, g: Pair, len: Word64)
    requires SpreadPair(FmixPair(SpreadPair(XorPair(h, len)))) == SpreadPair(FmixPair(SpreadPair(XorPair(g, len))))
    ensures h == g
  {
    MixPairCancels(XorPair(h, len), XorPair(g, len));
    XorCancels(h.w1, g.w1, len);
    XorCancels(h.w2, g.w2, len);
  }

  // ----- Main results -----

  /** Equal-length keys that differ in a single block, or only in the tail, never collide. */
  lemma {:induction false} NoCollisionX86_32(a: Key, b: Key, seed: Word32, j: nat)
    requires |a| <= MAX_LEN && DifferOnlyIn(a, b, 4, j)
    ensures HashX86_32(a, seed) == HashX86_32(b, seed) <==> a == b
  {
    if a != b {
      Step32Cancels(); Absorb32Cancels(); ReadWord32Exact();
      DigestChunk(a, b, 4, ReadWord32, Step32, Absorb32, seed, j);
      var h, g := Digest(a, 4, ReadWord32, Step32, Absorb32, seed), Digest(b, 4, ReadWord32, Step32, Absorb32, seed);
      if HashX86_32(a, seed) == HashX86_32(b, seed) {
        Finish32Cancels(h, g, Truncate(|a|, 32));
      }
    }
  }

  lemma {:induction false} DistinctSeedsX86_32(key: Key, s: Word32, t: Word32)
    requires |key| <= MAX_LEN
    ensures HashX86_32(key, s) == HashX86_32(key, t) <==> s == t
  {
    if s != t {
      Step32Cancels(); Absorb32Cancels();
      DigestSeed(key, 4, ReadWord32, Step32, Absorb32, s, t);
      var h, g := Digest(key, 4, ReadWord32, Step32, Absorb32, s), Digest(key, 4, ReadWord32, Step32, Absorb32, t);
      if HashX86_32(key, s) == HashX86_32(key, t) {
        Finish32Cancels(h, g, Truncate(|key|, 32));
      }
    }
  }

  lemma {:induction false} NoCollisionX86_128(a: Key, b: Key, seed: Word32, j: nat)
    requires |a| <= MAX_LEN && DifferOnlyIn(a, b, 16, j)
    ensures HashX86_128(a, seed) == HashX86_128(b, seed) <==> a == b
  {
    if a != b {
      StepQuadCancels(); AbsorbQuadCancels(); ReadQuadExact();
      var s := Quad(seed, seed, seed, seed);
      DigestChunk(a, b, 16, ReadQuad, StepQuad, AbsorbQuad, s, j);
      var h, g := Digest(a, 16, ReadQuad, StepQuad, AbsorbQuad, s), Digest(b, 16, ReadQuad, StepQuad, AbsorbQuad, s);
      if HashX86_128(a, seed) == HashX86_128(b, seed) {
        FinishQuadCancels(h, g, Truncate(|a|, 32));
      }
    }
  }

  lemma {:induction false} DistinctSeedsX86_128(key: Key, s: Word32, t: Word32)
    requires |key| <= MAX_LEN
    ensures HashX86_128(key, s) == HashX86_128(key, t) <==> s == t
  {
    if s != t {
      StepQuadCancels(); AbsorbQuadCancels();
      var s4, t4 := Quad(s, s, s, s), Quad(t, t, t, t);
      DigestSeed(key, 16, ReadQuad, StepQuad, AbsorbQuad, s4, t4);
      var h := Digest(key, 16, ReadQuad, StepQuad, AbsorbQuad, s4);
      var g := Digest(key, 16, ReadQuad, StepQuad, AbsorbQuad, t4);
      if HashX86_128(key, s) == HashX86_128(key, t) {
        FinishQuadCancels(h, g, Truncate(|key|, 32));
      }
    }
  }

  lemma {:induction false} NoCollisionX64_128(a: Key, b: Key, seed: Word32, j: nat)
    requires |a| <= MAX_LEN && DifferOnlyIn(a, b, 16, j)
    ensures HashX64_128(a, seed) == HashX64_128(b, seed) <==> a == b
  {
    if a != b {
      StepPairCancels(); AbsorbPairCancels(); ReadPairExact();
      var s := Pair(Widen(seed, 64), Widen(seed, 64));
      DigestChunk(a, b, 16, ReadPair, StepPair, AbsorbPair, s, j);
      var h, g := Digest(a, 16, ReadPair, StepPair, AbsorbPair, s), Digest(b, 16, ReadPair, StepPair, AbsorbPair, s);
      if HashX64_128(a, seed) == HashX64_128(b, seed) {
        FinishPairCancels(h, g, Truncate(|a|, 64));
      }
    }
  }

  lemma {:induction false} DistinctSeedsX64_128(key: Key, s: Word32, t: Word32)
    requires |key| <= MAX_LEN
    ensures HashX64_128(key, s) == HashX64_128(key, t) <==> s == t
  {
    if s != t {
      StepPairCancels(); AbsorbPairCancels();
      var s2, t2 := Pair(Widen(s, 64), Widen(s, 64)), Pair(Widen(t, 64), Widen(t, 64));
      assert Widen(s, 64)[..32] == s && Widen(t, 64)[..32] == t;
      DigestSeed(key, 16, ReadPair, StepPair, AbsorbPair, s2, t2);
      var h := Digest(key, 16, ReadPair, StepPair, AbsorbPair, s2);
      var g := Digest(key, 16, ReadPair, StepPair, AbsorbPair, t2);
      if HashX64_128(key, s) == HashX64_128(key, t) {
        FinishPairCancels(h, g, Truncate(|key|, 64));
      }
    }
  }

  /** Keys that fit in one block: each hash is one-to-one on those of a given length. */
  lemma {:induction false} OneBlockKeys(a: Key, b: Key, seed: Word32)
    requires |a| == |b|
    ensures |a| <= 4 ==> (HashX86_32(a, seed) == HashX86_32(b, seed) <==> a == b)
    ensures |a| <= 16 ==> (HashX86_128(a, seed) == HashX86_128(b, seed) <==> a == b)
    ensures |a| <= 16 ==> (HashX64_128(a, seed) == HashX64_128(b, seed) <==> a == b)
  {
    if |a| <= 4 { NoCollisionX86_32(a, b, seed, 0); }
    if |a| <= 16 {
      NoCollisionX86_128(a, b, seed, 0);
      NoCollisionX64_128(a, b, seed, 0);
    }
  }

  // ----- Padding does not hide the length -----

  /** The same blocks and the same padded tail: `b` is `a` with zero bytes behind it. */
  ghost predicate ZeroPadded(a: Key, b: Key, size: nat)
    requires size > 0
  {
    && |a| <= |b| <= MAX_LEN && |a| / size == |b| / size && b[..|a|] == a
    && forall i | |a| <= i < |b| :: b[i] == Zero(8)
  }

  lemma {:induction false} PaddedReads<K(!new)>(a: Key, b: Key, size: nat, read: (Key, nat) -> K, i: nat)
    requires size > 0 && ZeroPadded(a, b, size) && ReadsExactly(read, size)
    ensures read(a, i) == read(b, i)
  {
    forall p: nat ensures ByteAt(a, p) == ByteAt(b, p) {
      if p < |a| { assert b[..|a|][p] == b[p]; }
    }
    assert SameBytes(a, b, i, size);
  }

  lemma {:induction false} PaddedFold<S, K(!new)>(a: Key, b: Key, size: nat, read: (Key, nat) -> K,
                                                  step: (S, K) -> S, s: S, n: nat)
    requires size > 0 && ZeroPadded(a, b, size) && ReadsExactly(read, size)
    ensures Fold(a, size, read, step, s, n) == Fold(b, size, read, step, s, n)
  {
    if n != 0 {
      PaddedFold(a, b, size, read, step, s, n - 1);
      PaddedReads(a, b, size, read, (n - 1) * size);
    }
  }

  /** Up to the finalizer nothing tells the two apart ... */
  lemma {:induction false} PaddedDigest<S, K(!new)>(a: Key, b: Key, size: nat, read: (Key, nat) -> K,
                                                    step: (S, K) -> S, absorb: (S, K) -> S, s: S)
    requires size > 0 && ZeroPadded(a, b, size) && ReadsExactly(read, size)
    ensures Digest(a, size, read, step, absorb, s) == Digest(b, size, read, step, absorb, s)
  {
    PaddedFold(a, b, size, read, step, s, |a| / size);
    PaddedReads(a, b, size, read, TailStart(a, size));
  }

  /** ... but the length does. */
  lemma {:induction false} PaddingToldX86_32(a: Key, b: Key, seed: Word32)
    requires ZeroPadded(a, b, 4)
    ensures HashX86_32(a, seed) == HashX86_32(b, seed) <==> a == b
  {
    ReadWord32Exact();
    PaddedDigest<Word32, Word32>(a, b, 4, ReadWord32, Step32, Absorb32, seed);
    Pow2Of32();
    SmallTold(|a|, |b|, 32);
    var h: Word32 := Digest<Word32, Word32>(a, 4, ReadWord32, Step32, Absorb32, seed);
    if HashX86_32(a, seed) == HashX86_32(b, seed) {
      Fmix32Cancels(Xor(h, Truncate(|a|, 32)), Xor(h, Truncate(|b|, 32)));
      XorCancels(Truncate(|a|, 32), Truncate(|b|, 32), h);
    }
  }

  lemma {:induction false} PaddingToldX86_128(a: Key, b: Key, seed: Word32)
    requires ZeroPadded(a, b, 16)
    ensures HashX86_128(a, seed) == HashX86_128(b, seed) <==> a == b
  {
    var s := Quad(seed, seed, seed, seed);
    ReadQuadExact();
    PaddedDigest(a, b, 16, ReadQuad, StepQuad, AbsorbQuad, s);
    Pow2Of32();
    SmallTold(|a|, |b|, 32);
    var h := Digest(a, 16, ReadQuad, StepQuad, AbsorbQuad, s);
    if HashX86_128(a, seed) == HashX86_128(b, seed) {
      MixQuadCancels(XorQuad(h, Truncate(|a|, 32)), XorQuad(h, Truncate(|b|, 32)));
      XorCancels(Truncate(|a|, 32), Truncate(|b|, 32), h.w1);
    }
  }

  lemma {:induction false} PaddingToldX64_128(a: Key, b: Key, seed: Word32)
    requires ZeroPadded(a, b, 16)
    ensures HashX64_128(a, seed) == HashX64_128(b, seed) <==> a == b
  {
    var s := Pair(Widen(seed, 64), Widen(seed, 64));
    ReadPairExact();
    PaddedDigest(a, b, 16, ReadPair, StepPair, AbsorbPair, s);
    Pow2Of64();
    SmallTold(|a|, |b|, 64);
    var h := Digest(a, 16, ReadPair, StepPair, AbsorbPair, s);
    if HashX64_128(a, seed) == HashX64_128(b, seed) {
      MixPairCancels(XorPair(h, Truncate(|a|, 64)), XorPair(h, Truncate(|b|, 64)));
      XorCancels(Truncate(|a|, 64), Truncate(|b|, 64), h.w1);
    }
  }
}

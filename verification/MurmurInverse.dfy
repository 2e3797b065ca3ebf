/** The hash functions undone: each operation with its own inverse, factors with their inverses modulo
    2^32 and 2^64. From a hash and its key this finds the seed, for every key and seed, so each hash is
    what it should be, constants, rotations, order of the blocks and length included. */
module MurmurInverse {
  import opened Words
  import opened MurmurHash3

  // ----- Single operations -----

  /** Undoes `x ^ (x >> s)` where four shifts empty the word. */
  function UnXorShr(x: Bits, s: nat): (z: Bits)
    ensures |z| == |x|
  {
    XorShr(XorShr(x, s), 2 * s)
  }

  lemma {:induction false} XorShrTwice(x: Bits, s: nat)
    ensures XorShr(XorShr(x, s), s) == XorShr(x, 2 * s)
  {
    var y := XorShr(x, s);
    forall i | 0 <= i < |x| ensures XorShr(y, s)[i] == XorShr(x, 2 * s)[i] { BitOfTwo(x, s, i); }
  }

  lemma {:induction false} BitOfTwo(x: Bits, s: nat, i: nat)
    requires i < |x|
    ensures XorShr(XorShr(x, s), s)[i] == XorShr(x, 2 * s)[i]
  {
    var y := XorShr(x, s);
    assert Shr(y, s)[i] == (i + s < |x| && y[i + s]);
    if i + s < |x| { assert Shr(x, s)[i + s] == (i + s + s < |x| && x[i + s + s]); }
  }

  lemma {:induction false} XorShrUndone(x: Bits, s: nat)
    requires 4 * s >= |x|
    ensures UnXorShr(XorShr(x, s), s) == x
  {
    XorShrTwice(x, s);
    XorShrTwice(x, 2 * s);
  }

  lemma {:induction false} Mul32Undone(x: Word32, c: nat, d: nat, m: nat)
    requires c * d == 1 + m * 0x1_0000_0000
    ensures Mul(Mul(x, c), d) == x
  {
    Pow2Of32();
    MulUndone(x, c, d, m);
  }

  lemma {:induction false} Mul64Undone(x: Word64, c: nat, d: nat, m: nat)
    requires c * d == 1 + m * 0x1_0000_0000_0000_0000
    ensures Mul(Mul(x, c), d) == x
  {
    Pow2Of64();
    MulUndone(x, c, d, m);
  }

  /** Undoes a product with 5 and a sum. */
  function Unfive32(x: Word32, e: nat): Word32
    requires e <= 0x1_0000_0000
  {
    Pow2Of32();
    Mul(Sub(x, e), 0xcccccccd)
  }

  function Unfive64(x: Word64, e: nat): Word64
    requires e <= 0x1_0000_0000
  {
    Pow2Of64();
    Mul(Sub(x, e), 0xcccccccccccccccd)
  }

  lemma {:induction false} Five32Undone(x: Word32, e: nat)
    requires e <= 0x1_0000_0000
    ensures Unfive32(MulAdd(x, 5, e), e) == x
  {
    Pow2Of32();
    SubUndoesPlus(Mul(x, 5), e);
    Mul32Undone(x, 5, 0xcccccccd, 4);
  }

  lemma {:induction false} Five64Undone(x: Word64, e: nat)
    requires e <= 0x1_0000_0000
    ensures Unfive64(MulAdd(x, 5, e), e) == x
  {
    Pow2Of64();
    SubUndoesPlus(Mul(x, 5), e);
    Mul64Undone(x, 5, 0xcccccccccccccccd, 4);
  }

  // ----- Finalizers -----

  function Unfmix32(h: Word32): Word32 {
    UnXorShr(Mul(UnXorShr(Mul(UnXorShr(h, 16), 0x7ed1b41d), 13), 0xa5cb9243), 16)
  }

  lemma {:induction false} Fmix32Undone(h: Word32)
    ensures Unfmix32(Fmix32(h)) == h
  {
    var a := XorShr(h, 16);
    var b := XorShr(Mul(a, 0x85ebca6b), 13);
    XorShrUndone(Mul(b, 0xc2b2ae35), 16);
    Mul32Undone(b, 0xc2b2ae35, 0x7ed1b41d, 0xc2b2ae35 * 0x7ed1b41d / 0x1_0000_0000);
    XorShrUndone(Mul(a, 0x85ebca6b), 13);
    Mul32Undone(a, 0x85ebca6b, 0xa5cb9243, 0x85ebca6b * 0xa5cb9243 / 0x1_0000_0000);
    XorShrUndone(h, 16);
  }

  function Unfmix64(k: Word64): Word64 {
    UnXorShr(Mul(UnXorShr(Mul(UnXorShr(k, 33), 0x9cb4b2f8129337db), 33), 0x4f74430c22a54005), 33)
  }

  lemma {:induction false} Fmix64Undone(k: Word64)
    ensures Unfmix64(Fmix64(k)) == k
  {
    var a := XorShr(k, 33);
    var b := XorShr(Mul(a, 0xff51afd7ed558ccd), 33);
    XorShrUndone(Mul(b, 0xc4ceb9fe1a85ec53), 33);
    Mul64Undone(b, 0xc4ceb9fe1a85ec53, 0x9cb4b2f8129337db,
                0xc4ceb9fe1a85ec53 * 0x9cb4b2f8129337db / 0x1_0000_0000_0000_0000);
    XorShrUndone(Mul(a, 0xff51afd7ed558ccd), 33);
    Mul64Undone(a, 0xff51afd7ed558ccd, 0x4f74430c22a54005,
                0xff51afd7ed558ccd * 0x4f74430c22a54005 / 0x1_0000_0000_0000_0000);
    XorShrUndone(k, 33);
  }

  // ----- Blocks and tail -----

  ghost predicate Undoes<S(!new), K(!new)>(back: (S, K) -> S, step: (S, K) -> S) {
    forall s, k :: back(step(s, k), k) == s
  }

  ghost predicate SameRead<K(!new)>(read: (Key, nat) -> K, other: (Key, nat) -> K) {
    forall key, i: nat :: read(key, i) == other(key, i)
  }

  /** From the state after `n` blocks back to the one before the first. */
  function Unfold<S, K>(key: Key, size: nat, read: (Key, nat) -> K, back: (S, K) -> S, h: S, n: nat): S
    decreases n
  {
    if n == 0 then h else Unfold(key, size, read, back, back(h, read(key, (n - 1) * size)), n - 1)
  }

  /** The last block, which may be partial or empty, and then the full ones. */
  function Undigest<S, K>(key: Key, size: nat, read: (Key, nat) -> K,
                          back: (S, K) -> S, unabsorb: (S, K) -> S, h: S): S
    requires size > 0
  {
    Unfold(key, size, read, back, unabsorb(h, read(key, |key| / size * size)), |key| / size)
  }

  lemma {:induction false} UnfoldUndoes<S(!new), K(!new)>(key: Key, size: nat,
                                                           read: (Key, nat) -> K, other: (Key, nat) -> K,
                                                           step: (S, K) -> S, back: (S, K) -> S, s: S, n: nat)
    requires Undoes(back, step) && SameRead(read, other)
    ensures Unfold(key, size, other, back, Fold(key, size, read, step, s, n), n) == s
  {
    if n != 0 { UnfoldUndoes(key, size, read, other, step, back, s, n - 1); }
  }

  lemma {:induction false} UndigestUndoes<S(!new), K(!new)>(key: Key, size: nat,
                                         read: (Key, nat) -> K, other: (Key, nat) -> K,
                                         step: (S, K) -> S, back: (S, K) -> S,
                                         absorb: (S, K) -> S, unabsorb: (S, K) -> S, s: S)
    requires size > 0 && Undoes(back, step) && Undoes(unabsorb, absorb) && SameRead(read, other)
    ensures Undigest(key, size, other, back, unabsorb, Digest(key, size, read, step, absorb, s)) == s
  {
    UnfoldUndoes(key, size, read, other, step, back, s, |key| / size);
  }

  // ----- The 32-bit hash -----

  function Unabsorb32(h: Word32, k: Word32): Word32 {
    Xor(h, Mul(Rotl(Mul(k, 0xcc9e2d51), 15), 0x1b873593))
  }

  function Unstep32(h: Word32, k: Word32): Word32 {
    Unabsorb32(Rotl(Unfive32(h, 0xe6546b64), 19), k)
  }

  lemma {:induction false} Absorb32Undone(h: Word32, k: Word32)
    ensures Unabsorb32(Absorb32(h, k), k) == h
  {
    XorUndone(h, Mul(Rotl(Mul(k, 0xcc9e2d51), 15), 0x1b873593));
  }

  lemma {:induction false} Step32Undone(h: Word32, k: Word32)
    ensures Unstep32(Step32(h, k), k) == h
  {
    var a := Absorb32(h, k);
    Five32Undone(Rotl(a, 13), 0xe6546b64);
    RotlUndone(a, 13);
    Absorb32Undone(h, k);
  }

  function WordAt(key: Key, i: nat): Word32 {
    ByteAt(key, i) + ByteAt(key, i + 1) + ByteAt(key, i + 2) + ByteAt(key, i + 3)
  }

  function SeedOfX86_32(key: Key, hash: Word32): Word32 {
    Undigest<Word32, Word32>(key, 4, WordAt, Unstep32, Unabsorb32, Xor(Unfmix32(hash), Truncate(|key|, 32)))
  }

  lemma {:induction false} Undoes32()
    ensures Undoes(Unstep32, Step32) && Undoes(Unabsorb32, Absorb32) && SameRead(ReadWord32, WordAt)
  {
    forall h, k ensures Unstep32(Step32(h, k), k) == h { Step32Undone(h, k); }
    forall h, k ensures Unabsorb32(Absorb32(h, k), k) == h { Absorb32Undone(h, k); }
  }

  /** The hash, undone with its key, gives the seed. */
  lemma {:induction false} SeedRecoveredX86_32(key: Key, seed: Word32)
    requires |key| <= MAX_LEN
    ensures SeedOfX86_32(key, HashX86_32(key, seed)) == seed
  {
    var h: Word32 := Digest<Word32, Word32>(key, 4, ReadWord32, Step32, Absorb32, seed);
    Fmix32Undone(Xor(h, Truncate(|key|, 32)));
    XorUndone(h, Truncate(|key|, 32));
    Undoes32();
    UndigestUndoes<Word32, Word32>(key, 4, ReadWord32, WordAt, Step32, Unstep32, Absorb32, Unabsorb32, seed);
  }

  // ----- The 128-bit hash of 32-bit words -----

  function UnabsorbQuad(h: Quad, k: Quad): Quad {
    Quad(Xor(h.w1, Mul(Rotl(Mul(k.w1, 0x239b961b), 15), 0xab0e9789)),
         Xor(h.w2, Mul(Rotl(Mul(k.w2, 0xab0e9789), 16), 0x38b34ae5)),
         Xor(h.w3, Mul(Rotl(Mul(k.w3, 0x38b34ae5), 17), 0xa1e38b93)),
         Xor(h.w4, Mul(Rotl(Mul(k.w4, 0xa1e38b93), 18), 0x239b961b)))
  }

  /** Undoes a rotation by 32 minus `back`, the sum with a neighbour, and the product and sum. */
  function Unchurn32(h: Word32, back: nat, neighbour: Word32, e: nat): Word32
    requires back <= 32 && e <= 0x1_0000_0000
  {
    Rotl(SubWord(Unfive32(h, e), neighbour), back)
  }

  lemma {:induction false} Churn32Undone(h: Word32, r: nat, neighbour: Word32, e: nat)
    requires r <= 32 && e <= 0x1_0000_0000
    ensures Unchurn32(Churn32(h, r, neighbour, e), 32 - r, neighbour, e) == h
  {
    Five32Undone(Add(Rotl(h, r), neighbour), e);
    SubUndoesAdd(Rotl(h, r), neighbour);
    RotlUndone(h, r);
  }

  /** The last word first: its neighbour is the new first word. */
  function UnstepQuad(g: Quad, k: Quad): Quad {
    var h4 := Xor(Unchurn32(g.w4, 19, g.w1, 0x32ac3b17), Mul(Rotl(Mul(k.w4, 0xa1e38b93), 18), 0x239b961b));
    var h3 := Xor(Unchurn32(g.w3, 17, h4, 0x96cd1c35), Mul(Rotl(Mul(k.w3, 0x38b34ae5), 17), 0xa1e38b93));
    var h2 := Xor(Unchurn32(g.w2, 15, h3, 0x0bcaa747), Mul(Rotl(Mul(k.w2, 0xab0e9789), 16), 0x38b34ae5));
    var h1 := Xor(Unchurn32(g.w1, 13, h2, 0x561ccd1b), Mul(Rotl(Mul(k.w1, 0x239b961b), 15), 0xab0e9789));
    Quad(h1, h2, h3, h4)
  }

  lemma {:induction false} AbsorbQuadUndone(h: Quad, k: Quad)
    ensures UnabsorbQuad(AbsorbQuad(h, k), k) == h
  {
    XorUndone(h.w1, Mul(Rotl(Mul(k.w1, 0x239b961b), 15), 0xab0e9789));
    XorUndone(h.w2, Mul(Rotl(Mul(k.w2, 0xab0e9789), 16), 0x38b34ae5));
    XorUndone(h.w3, Mul(Rotl(Mul(k.w3, 0x38b34ae5), 17), 0xa1e38b93));
    XorUndone(h.w4, Mul(Rotl(Mul(k.w4, 0xa1e38b93), 18), 0x239b961b));
  }

  lemma {:induction false} StepQuadUndone(h: Quad, k: Quad)
    ensures UnstepQuad(StepQuad(h, k), k) == h
  {
    var a, g := AbsorbQuad(h, k), StepQuad(h, k);
    AbsorbQuadUndone(h, k);
    Churn32Undone(a.w4, 13, g.w1, 0x32ac3b17);
    Churn32Undone(a.w3, 15, h.w4, 0x96cd1c35);
    Churn32Undone(a.w2, 17, h.w3, 0x0bcaa747);
    Churn32Undone(a.w1, 19, h.w2, 0x561ccd1b);
  }

  function QuadAt(key: Key, i: nat): Quad {
    Quad(WordAt(key, i), WordAt(key, i + 4), WordAt(key, i + 8), WordAt(key, i + 12))
  }

  function UnspreadQuad(g: Quad): Quad {
    var h2, h3, h4 := SubWord(g.w2, g.w1), SubWord(g.w3, g.w1), SubWord(g.w4, g.w1);
    Quad(SubWord(SubWord(SubWord(g.w1, h4), h3), h2), h2, h3, h4)
  }

  lemma {:induction false} SpreadQuadUndone(h: Quad)
    ensures UnspreadQuad(SpreadQuad(h)) == h
  {
    var w1 := SpreadQuad(h).w1;
    SubUndoesAdd(h.w2, w1);
    SubUndoesAdd(h.w3, w1);
    SubUndoesAdd(h.w4, w1);
    SubUndoesAdd(Add(Add(h.w1, h.w2), h.w3), h.w4);
    SubUndoesAdd(Add(h.w1, h.w2), h.w3);
    SubUndoesAdd(h.w1, h.w2);
  }

  /** The state before finalization. */
  function UnfinishQuad(g: Quad, len: Word32): Quad {
    var s := UnspreadQuad(g);
    var f := UnspreadQuad(Quad(Unfmix32(s.w1), Unfmix32(s.w2), Unfmix32(s.w3), Unfmix32(s.w4)));
    Quad(Xor(f.w1, len), Xor(f.w2, len), Xor(f.w3, len), Xor(f.w4, len))
  }

  lemma {:induction false} FinishQuadUndone(h: Quad, len: Word32)
    ensures UnfinishQuad(SpreadQuad(FmixQuad(SpreadQuad(XorQuad(h, len)))), len) == h
  {
    var x := SpreadQuad(XorQuad(h, len));
    SpreadQuadUndone(FmixQuad(x));
    Fmix32Undone(x.w1);
    Fmix32Undone(x.w2);
    Fmix32Undone(x.w3);
    Fmix32Undone(x.w4);
    SpreadQuadUndone(XorQuad(h, len));
    XorUndone(h.w1, len);
    XorUndone(h.w2, len);
    XorUndone(h.w3, len);
    XorUndone(h.w4, len);
  }

  function StartOfX86_128(key: Key, hash: Quad): Quad {
    Undigest(key, 16, QuadAt, UnstepQuad, UnabsorbQuad, UnfinishQuad(hash, Truncate(|key|, 32)))
  }

  lemma {:induction false} UndoesQuad()
    ensures Undoes(UnstepQuad, StepQuad) && Undoes(UnabsorbQuad, AbsorbQuad) && SameRead(ReadQuad, QuadAt)
  {
    forall h, k ensures UnstepQuad(StepQuad(h, k), k) == h { StepQuadUndone(h, k); }
    forall h, k ensures UnabsorbQuad(AbsorbQuad(h, k), k) == h { AbsorbQuadUndone(h, k); }
  }

  lemma {:induction false} SeedRecoveredX86_128(key: Key, seed: Word32)
    requires |key| <= MAX_LEN
    ensures StartOfX86_128(key, HashX86_128(key, seed)) == Quad(seed, seed, seed, seed)
  {
    var s := Quad(seed, seed, seed, seed);
    FinishQuadUndone(Digest(key, 16, ReadQuad, StepQuad, AbsorbQuad, s), Truncate(|key|, 32));
    UndoesQuad();
    UndigestUndoes(key, 16, ReadQuad, QuadAt, StepQuad, UnstepQuad, AbsorbQuad, UnabsorbQuad, s);
  }

  // ----- The 128-bit hash of 64-bit words -----

  function UnabsorbPair(h: Pair, k: Pair): Pair {
    Pair(Xor(h.w1, Mul(Rotl(Mul(k.w1, 0x87c37b91114253d5), 31), 0x4cf5ad432745937f)),
         Xor(h.w2, Mul(Rotl(Mul(k.w2, 0x4cf5ad432745937f), 33), 0x87c37b91114253d5)))
  }

  function Unchurn64(h: Word64, back: nat, neighbour: Word64, e: nat): Word64
    requires back <= 64 && e <= 0x1_0000_0000
  {
    Rotl(SubWord(Unfive64(h, e), neighbour), back)
  }

  lemma {:induction false} Churn64Undone(h: Word64, r: nat, neighbour: Word64, e: nat)
    requires r <= 64 && e <= 0x1_0000_0000
    ensures Unchurn64(Churn64(h, r, neighbour, e), 64 - r, neighbour, e) == h
  {
    Five64Undone(Add(Rotl(h, r), neighbour), e);
    SubUndoesAdd(Rotl(h, r), neighbour);
    RotlUndone(h, r);
  }

  function UnstepPair(g: Pair, k: Pair): Pair {
    var h2 := Xor(Unchurn64(g.w2, 33, g.w1, 0x38495ab5),
                  Mul(Rotl(Mul(k.w2, 0x4cf5ad432745937f), 33), 0x87c37b91114253d5));
    var h1 := Xor(Unchurn64(g.w1, 37, h2, 0x52dce729),
                  Mul(Rotl(Mul(k.w1, 0x87c37b91114253d5), 31), 0x4cf5ad432745937f));
    Pair(h1, h2)
  }

  lemma {:induction false} AbsorbPairUndone(h: Pair, k: Pair)
    ensures UnabsorbPair(AbsorbPair(h, k), k) == h
  {
    XorUndone(h.w1, Mul(Rotl(Mul(k.w1, 0x87c37b91114253d5), 31), 0x4cf5ad432745937f));
    XorUndone(h.w2, Mul(Rotl(Mul(k.w2, 0x4cf5ad432745937f), 33), 0x87c37b91114253d5));
  }

  lemma {:induction false} StepPairUndone(h: Pair, k: Pair)
    ensures UnstepPair(StepPair(h, k), k) == h
  {
    var a, g := AbsorbPair(h, k), StepPair(h, k);
    AbsorbPairUndone(h, k);
    Churn64Undone(a.w2, 31, g.w1, 0x38495ab5);
    Churn64Undone(a.w1, 27, h.w2, 0x52dce729);
  }

  function PairAt(key: Key, i: nat): Pair {
    Pair(WordAt(key, i) + WordAt(key, i + 4), WordAt(key, i + 8) + WordAt(key, i + 12))
  }

  function UnspreadPair(g: Pair): Pair {
    var h2 := SubWord(g.w2, g.w1);
    Pair(SubWord(g.w1, h2), h2)
  }

  lemma {:induction false} SpreadPairUndone(h: Pair)
    ensures UnspreadPair(SpreadPair(h)) == h
  {
    SubUndoesAdd(h.w2, SpreadPair(h).w1);
    SubUndoesAdd(h.w1, h.w2);
  }

  function UnfinishPair(g: Pair, len: Word64): Pair {
    var s := UnspreadPair(g);
    var f := UnspreadPair(Pair(Unfmix64(s.w1), Unfmix64(s.w2)));
    Pair(Xor(f.w1, len), Xor(f.w2, len))
  }

  lemma {:induction false} FinishPairUndone(h: Pair, len: Word64)
    ensures UnfinishPair(SpreadPair(FmixPair(SpreadPair(XorPair(h, len)))), len) == h
  {
    var x := SpreadPair(XorPair(h, len));
    SpreadPairUndone(FmixPair(x));
    Fmix64Undone(x.w1);
    Fmix64Undone(x.w2);
    SpreadPairUndone(XorPair(h, len));
    XorUndone(h.w1, len);
    XorUndone(h.w2, len);
  }

  function StartOfX64_128(key: Key, hash: Pair): Pair {
    Undigest(key, 16, PairAt, UnstepPair, UnabsorbPair, UnfinishPair(hash, Truncate(|key|, 64)))
  }

  lemma {:induction false} UndoesPair()
    ensures Undoes(UnstepPair, StepPair) && Undoes(UnabsorbPair, AbsorbPair) && SameRead(ReadPair, PairAt)
  {
    forall h, k ensures UnstepPair(StepPair(h, k), k) == h { StepPairUndone(h, k); }
    forall h, k ensures UnabsorbPair(AbsorbPair(h, k), k) == h { AbsorbPairUndone(h, k); }
  }

  lemma {:induction false} SeedRecoveredX64_128(key: Key, seed: Word32)
    requires |key| <= MAX_LEN
    ensures StartOfX64_128(key, HashX64_128(key, seed)) == Pair(Widen(seed, 64), Widen(seed, 64))
  {
    var s := Pair(Widen(seed, 64), Widen(seed, 64));
    FinishPairUndone(Digest(key, 16, ReadPair, StepPair, AbsorbPair, s), Truncate(|key|, 64));
    UndoesPair();
    UndigestUndoes(key, 16, ReadPair, PairAt, StepPair, UnstepPair, AbsorbPair, UnabsorbPair, s);
  }
}

/** Unsigned machine words as sequences of bits, lowest bit first, and the fact the hash functions
    rest on: wrapping sums, wrapping products with an odd factor, exclusive or, rotations and
    xor-shifts can all be undone. */
module Words {
  import opened Arithmetic

  type Bits = seq<bool>
  type Word8 = b: Bits | |b| == 8 witness seq(8, _ => false)
  type Word32 = b: Bits | |b| == 32 witness seq(32, _ => false)
  type Word64 = b: Bits | |b| == 64 witness seq(64, _ => false)

  function Value(x: Bits): nat {
    if x == [] then 0 else (if x[0] then 1 else 0) + 2 * Value(x[1..])
  }

  /** The low `w` bits of a number: what is left of it after an assignment to a `w`-bit word. */
  function Truncate(n: nat, w: nat): (x: Bits)
    ensures |x| == w
  {
    if w == 0 then [] else [n % 2 == 1] + Truncate(n / 2, w - 1)
  }

  function Add(x: Bits, y: Bits): (z: Bits)
    ensures |z| == |x|
  {
    Plus(x, Value(y))
  }

  function Mul(x: Bits, c: nat): (z: Bits)
    ensures |z| == |x|
  {
    Truncate(Value(x) * c, |x|)
  }

  function Plus(x: Bits, e: nat): (z: Bits)
    ensures |z| == |x|
  {
    Truncate(Value(x) + e, |x|)
  }

  /** `x * c + e` */
  function MulAdd(x: Bits, c: nat, e: nat): (z: Bits)
    ensures |z| == |x|
  {
    Plus(Mul(x, c), e)
  }

  function Xor(x: Bits, y: Bits): (z: Bits)
    requires |x| == |y|
    ensures |z| == |x| && forall i :: 0 <= i < |x| ==> z[i] == (x[i] != y[i])
  {
    seq(|x|, i requires 0 <= i < |x| => x[i] != y[i])
  }

  function Or(x: Bits, y: Bits): (z: Bits)
    requires |x| == |y|
    ensures |z| == |x| && forall i :: 0 <= i < |x| ==> z[i] == (x[i] || y[i])
  {
    seq(|x|, i requires 0 <= i < |x| => x[i] || y[i])
  }

  function Shl(x: Bits, r: nat): (z: Bits)
    ensures |z| == |x| && forall i :: 0 <= i < |x| ==> z[i] == (i >= r && x[i - r])
  {
    seq(|x|, i requires 0 <= i < |x| => i >= r && x[i - r])
  }

  function Shr(x: Bits, r: nat): (z: Bits)
    ensures |z| == |x| && forall i :: 0 <= i < |x| ==> z[i] == (i + r < |x| && x[i + r])
  {
    seq(|x|, i requires 0 <= i < |x| => i + r < |x| && x[i + r])
  }

  function Rotl(x: Bits, r: nat): (z: Bits)
    requires r <= |x|
    ensures |z| == |x|
  {
    Or(Shl(x, r), Shr(x, |x| - r))
  }

  /** A byte widened to `w` bits. */
  function Widen(x: Bits, w: nat): (z: Bits)
    requires |x| <= w
    ensures |z| == w
  {
    x + Zero(w - |x|)
  }

  function Zero(w: nat): (z: Bits)
    ensures |z| == w
  {
    seq(w, _ => false)
  }

  function Pow2(n: nat): (p: nat)
    ensures p > 0
  {
    if n == 0 then 1 else 2 * Pow2(n - 1)
  }

  lemma {:induction false} ValueFits(x: Bits)
    ensures Value(x) < Pow2(|x|)
  {
    if x != [] { ValueFits(x[1..]); }
  }

  lemma {:induction false} Pow2Of32()
    ensures Pow2(32) == 0x1_0000_0000
  {
    assert Pow2(8) == 0x100;
    assert Pow2(16) == 0x1_0000;
    assert Pow2(24) == 0x100_0000;
  }

  lemma {:induction false} Pow2Of64()
    ensures Pow2(64) == 0x1_0000_0000_0000_0000
  {
    Pow2Of32();
    assert Pow2(40) == 0x100_0000_0000;
    assert Pow2(48) == 0x1_0000_0000_0000;
    assert Pow2(56) == 0x100_0000_0000_0000;
  }

  // ----- What the operations are on numbers -----

  /** Adding a multiple of the modulus changes nothing. */
  lemma {:induction false} TruncateShift(a: nat, k: nat, w: nat)
    ensures Truncate(a + k * Pow2(w), w) == Truncate(a, w)
  {
    if w != 0 {
      var m := k * Pow2(w - 1);
      DoubleProduct(k, w);
      assert (a + 2 * m) % 2 == a % 2 && (a + 2 * m) / 2 == a / 2 + m;
      TruncateShift(a / 2, k, w - 1);
    }
  }

  lemma {:induction false} DoubleProduct(k: nat, w: nat)
    requires w > 0
    ensures k * Pow2(w) == 2 * (k * Pow2(w - 1))
  {
    assert Pow2(w) == 2 * Pow2(w - 1);
  }

  /** The rest is what the word holds. */
  lemma {:induction false} ValueOfTruncate(n: nat, w: nat) returns (k: nat)
    ensures n == Value(Truncate(n, w)) + k * Pow2(w)
  {
    if w == 0 {
      k := n;
    } else {
      k := ValueOfTruncate(n / 2, w - 1);
      DoubleProduct(k, w);
      TruncateStep(n, w);
    }
  }

  lemma {:induction false} TruncateIsModulo(n: nat, w: nat)
    ensures Value(Truncate(n, w)) == n % Pow2(w)
  {
    var k := ValueOfTruncate(n, w);
    ValueFits(Truncate(n, w));
    Quotient(n, Pow2(w), k, Value(Truncate(n, w)));
  }

  /** Numbers that fit are told apart. */
  lemma {:induction false} SmallTold(m: nat, n: nat, w: nat)
    requires m < Pow2(w) && n < Pow2(w)
    ensures Truncate(m, w) == Truncate(n, w) <==> m == n
  {
    SmallFits(m, w);
    SmallFits(n, w);
  }

  lemma {:induction false} SmallFits(n: nat, w: nat)
    requires n < Pow2(w)
    ensures Value(Truncate(n, w)) == n
  {
    TruncateIsModulo(n, w);
    SmallRemainder(n, Pow2(w));
  }

  lemma {:induction false} ValueConcat(x: Bits, y: Bits)
    ensures Value(x + y) == Value(x) + Pow2(|x|) * Value(y)
  {
    if x == [] {
      assert x + y == y;
    } else {
      assert (x + y)[1..] == x[1..] + y;
      ValueConcat(x[1..], y);
      Regroup(if x[0] then 1 else 0, Value(x[1..]), Pow2(|x| - 1), Value(y));
    }
  }

  lemma {:induction false} Regroup(bit: nat, u: nat, p: nat, v: nat)
    ensures bit + 2 * (u + p * v) == bit + 2 * u + 2 * p * v
  {}

  lemma {:induction false} ValueOfZero(w: nat)
    ensures Value(Zero(w)) == 0
  {
    if w != 0 {
      assert Zero(w)[1..] == Zero(w - 1);
      ValueOfZero(w - 1);
    }
  }

  /** The upper and the lower bits of a word, cut at bit `s`. */
  lemma {:induction false} Cut(x: Bits, s: nat)
    requires s <= |x|
    ensures Value(x[s..]) == Value(x) / Pow2(s) && Value(x[..s]) == Value(x) % Pow2(s)
  {
    assert x[..s] + x[s..] == x;
    ValueConcat(x[..s], x[s..]);
    ValueFits(x[..s]);
    Commute(Pow2(s), Value(x[s..]));
    Quotient(Value(x), Pow2(s), Value(x[s..]), Value(x[..s]));
  }

  lemma {:induction false} Commute(a: nat, b: nat)
    ensures a * b == b * a
  {}

  /** Sums and products wrap. */
  lemma {:induction false} SumsWrap(x: Bits, y: Bits, c: nat, e: nat)
    ensures Value(Add(x, y)) == (Value(x) + Value(y)) % Pow2(|x|)
    ensures Value(Mul(x, c)) == Value(x) * c % Pow2(|x|)
    ensures Value(Plus(x, e)) == (Value(x) + e) % Pow2(|x|)
  {
    TruncateIsModulo(Value(x) + Value(y), |x|);
    TruncateIsModulo(Value(x) * c, |x|);
    TruncateIsModulo(Value(x) + e, |x|);
  }

  /** A shift to the right divides, one to the left multiplies what stays. */
  lemma {:induction false} ShiftsScale(x: Bits, s: nat)
    requires s <= |x|
    ensures Value(Shr(x, s)) == Value(x) / Pow2(s)
    ensures Value(Shl(x, s)) == Pow2(s) * (Value(x) % Pow2(|x| - s))
  {
    assert Shr(x, s) == x[s..] + Zero(s);
    ValueConcat(x[s..], Zero(s));
    ValueOfZero(s);
    Cut(x, s);
    assert Shl(x, s) == Zero(s) + x[..|x| - s];
    ValueConcat(Zero(s), x[..|x| - s]);
    Cut(x, |x| - s);
  }

  /** A rotation to the left puts the upper bits below the others. */
  lemma {:induction false} RotationMoves(x: Bits, r: nat)
    requires r <= |x|
    ensures Rotl(x, r) == x[|x| - r..] + x[..|x| - r]
    ensures Value(Rotl(x, r)) == Value(x) / Pow2(|x| - r) + Pow2(r) * (Value(x) % Pow2(|x| - r))
  {
    assert Rotl(x, r) == x[|x| - r..] + x[..|x| - r];
    ValueConcat(x[|x| - r..], x[..|x| - r]);
    Cut(x, |x| - r);
  }

  lemma {:induction false} WideningKeeps(x: Bits, w: nat)
    requires |x| <= w
    ensures Value(Widen(x, w)) == Value(x)
  {
    assert Widen(x, w) == x + Zero(w - |x|);
    ValueConcat(x, Zero(w - |x|));
    ValueOfZero(w - |x|);
  }

  // ----- Undone in full -----

  /** `x - e` */
  function Sub(x: Bits, e: nat): (z: Bits)
    requires e <= Pow2(|x|)
    ensures |z| == |x|
  {
    Plus(x, Pow2(|x|) - e)
  }

  function SubWord(x: Bits, y: Bits): (z: Bits)
    requires |x| == |y|
    ensures |z| == |x|
  {
    ValueFits(y);
    Sub(x, Value(y))
  }

  lemma {:induction false} PlusTwice(x: Bits, a: nat, b: nat)
    ensures Plus(Plus(x, a), b) == Plus(x, a + b)
  {
    var k := ValueOfTruncate(Value(x) + a, |x|);
    TruncateShift(Value(Plus(x, a)) + b, k, |x|);
  }

  /** Once round. */
  lemma {:induction false} PlusModulus(x: Bits)
    ensures Plus(x, Pow2(|x|)) == x
  {
    TruncateOnce(Value(x), |x|);
    TruncateValue(x);
  }

  lemma {:induction false} TruncateOnce(a: nat, w: nat)
    ensures Truncate(a + Pow2(w), w) == Truncate(a, w)
  {
    TruncateShift(a, 1, w);
  }

  lemma {:induction false} SubUndoesPlus(x: Bits, e: nat)
    requires e <= Pow2(|x|)
    ensures Sub(Plus(x, e), e) == x
  {
    PlusTwice(x, e, Pow2(|x|) - e);
    PlusModulus(x);
  }

  lemma {:induction false} SubUndoesAdd(x: Bits, y: Bits)
    requires |x| == |y|
    ensures SubWord(Add(x, y), y) == x
  {
    ValueFits(y);
    SubUndoesPlus(x, Value(y));
    assert Add(x, y) == Plus(x, Value(y));
  }

  /** Truncating before a product changes nothing. */
  lemma {:induction false} TruncateProduct(n: nat, d: nat, w: nat)
    ensures Truncate(Value(Truncate(n, w)) * d, w) == Truncate(n * d, w)
  {
    var k := ValueOfTruncate(n, w);
    Distribute(Value(Truncate(n, w)), k, Pow2(w), d);
    TruncateShift(Value(Truncate(n, w)) * d, k * d, w);
  }

  lemma {:induction false} Distribute(a: nat, k: nat, p: nat, d: nat)
    ensures (a + k * p) * d == a * d + k * d * p
  {}

  /** A factor is undone by its inverse. */
  lemma {:induction false} MulUndone(x: Bits, c: nat, d: nat, m: nat)
    requires c * d == 1 + m * Pow2(|x|)
    ensures Mul(Mul(x, c), d) == x
  {
    var n := MulTwice(x, c, d);
    var k := InverseProduct(Value(x), c, d, m, Pow2(|x|), n);
    WholeValue(x, k, n);
  }

  lemma {:induction false} MulTwice(x: Bits, c: nat, d: nat) returns (n: nat)
    ensures n == Value(x) * c * d && Mul(Mul(x, c), d) == Truncate(n, |x|)
  {
    n := Value(x) * c * d;
    TruncateProduct(Value(x) * c, d, |x|);
  }

  lemma {:induction false} WholeValue(x: Bits, k: nat, n: nat)
    requires n == Value(x) + k * Pow2(|x|)
    ensures Truncate(n, |x|) == x
  {
    TruncateShift(Value(x), k, |x|);
    TruncateValue(x);
  }

  lemma {:induction false} InverseProduct(v: nat, c: nat, d: nat, m: nat, p: nat, n: nat) returns (k: nat)
    requires c * d == 1 + m * p && n == v * c * d
    ensures n == v + k * p
  {
    k := v * m;
    calc {
      n;
      v * (c * d);
      v * (1 + m * p);
      v + k * p;
    }
  }

  lemma {:induction false} XorUndone(x: Bits, y: Bits)
    requires |x| == |y|
    ensures Xor(Xor(x, y), y) == x
  {}

  lemma {:induction false} RotlUndone(x: Bits, r: nat)
    requires r <= |x|
    ensures Rotl(Rotl(x, r), |x| - r) == x
  {
    assert Rotl(x, r) == x[|x| - r..] + x[..|x| - r];
    var y := Rotl(x, r);
    assert Rotl(y, |x| - r) == y[r..] + y[..r];
  }

  // ----- Undoing -----

  lemma {:induction false} TruncateValue(x: Bits)
    ensures Truncate(Value(x), |x|) == x
  {
    if x != [] {
      TruncateValue(x[1..]);
      Halves(if x[0] then 1 else 0, Value(x[1..]));
      assert x == [x[0]] + x[1..];
    }
  }

  lemma {:induction false} Halves(bit: nat, v: nat)
    requires bit < 2
    ensures (bit + 2 * v) % 2 == bit && (bit + 2 * v) / 2 == v
  {}

  /** The low bits of `a * c + e` determine those of `a` when `c` is odd: compare the lowest bit,
      then halve. */
  lemma {:induction false} OddFactorCancels(a: nat, b: nat, c: nat, e: nat, w: nat)
    requires c % 2 == 1
    requires Truncate(a * c + e, w) == Truncate(b * c + e, w)
    ensures Truncate(a, w) == Truncate(b, w)
    decreases w
  {
    if w != 0 {
      TruncateStep(a * c + e, w);
      TruncateStep(b * c + e, w);
      OddParity(a, c, e);
      OddParity(b, c, e);
      SumParity(a, b, e);
      Halve(a, c, e);
      Halve(b, c, e);
      OddFactorCancels(a / 2, b / 2, c, (a % 2 * c + e) / 2, w - 1);
    }
  }

  lemma {:induction false} TruncateStep(n: nat, w: nat)
    requires w > 0
    ensures Truncate(n, w)[0] == (n % 2 == 1) && Truncate(n, w)[1..] == Truncate(n / 2, w - 1)
  {}

  lemma {:induction false} SumParity(a: nat, b: nat, e: nat)
    requires (a + e) % 2 == (b + e) % 2
    ensures a % 2 == b % 2
  {}

  lemma {:induction false} OddParity(a: nat, c: nat, e: nat)
    requires c % 2 == 1
    ensures (a * c + e) % 2 == (a + e) % 2
  {
    var k := c / 2;
    assert c == 2 * k + 1;
    assert a * c == 2 * (a * k) + a;
  }

  lemma {:induction false} Halve(a: nat, c: nat, e: nat)
    ensures a / 2 * c + (a % 2 * c + e) / 2 == (a * c + e) / 2
  {
    assert a == 2 * (a / 2) + a % 2;
    assert a * c == 2 * (a / 2 * c) + a % 2 * c;
  }

  lemma {:induction false} MulCancels(x: Bits, y: Bits, c: nat)
    requires |x| == |y| && c % 2 == 1
    ensures Mul(x, c) == Mul(y, c) <==> x == y
  {
    if Mul(x, c) == Mul(y, c) {
      OddFactorCancels(Value(x), Value(y), c, 0, |x|);
      TruncateValue(x);
      TruncateValue(y);
    }
  }

  lemma {:induction false} PlusCancels(x: Bits, y: Bits, e: nat)
    requires |x| == |y|
    ensures Plus(x, e) == Plus(y, e) <==> x == y
  {
    if Plus(x, e) == Plus(y, e) {
      OddFactorCancels(Value(x), Value(y), 1, e, |x|);
      TruncateValue(x);
      TruncateValue(y);
    }
  }

  lemma {:induction false} MulAddCancels(x: Bits, y: Bits, c: nat, e: nat)
    requires |x| == |y| && c % 2 == 1
    ensures MulAdd(x, c, e) == MulAdd(y, c, e) <==> x == y
  {
    if MulAdd(x, c, e) == MulAdd(y, c, e) {
      PlusCancels(Mul(x, c), Mul(y, c), e);
      MulCancels(x, y, c);
    }
  }

  lemma {:induction false} AddCancels(x: Bits, y: Bits, z: Bits)
    requires |x| == |y|
    ensures Add(x, z) == Add(y, z) <==> x == y
  {
    PlusCancels(x, y, Value(z));
  }

  lemma {:induction false} XorCancels(x: Bits, y: Bits, z: Bits)
    requires |x| == |y| == |z|
    ensures Xor(x, z) == Xor(y, z) <==> x == y
    ensures Xor(z, x) == Xor(z, y) <==> x == y
  {}

  lemma {:induction false} RotlCancels(x: Bits, y: Bits, r: nat)
    requires |x| == |y| && r <= |x|
    ensures Rotl(x, r) == Rotl(y, r) <==> x == y
  {
    if x != y {
      var i :| 0 <= i < |x| && x[i] != y[i];
      var j := if i + r < |x| then i + r else i + r - |x|;
      assert Rotl(x, r)[j] == x[i] && Rotl(y, r)[j] == y[i];
    }
  }

  /** `x ^ (x >> s)` keeps the top `s` bits, and those reveal the next ones. */
  lemma {:induction false} XorShrCancels(x: Bits, y: Bits, s: nat)
    requires |x| == |y| && s > 0
    ensures Xor(x, Shr(x, s)) == Xor(y, Shr(y, s)) <==> x == y
  {
    if x != y {
      var i :| 0 <= i < |x| && x[i] != y[i];
      HighestDifference(x, y, s, i);
    }
  }

  lemma {:induction false} HighestDifference(x: Bits, y: Bits, s: nat, i: nat)
    requires |x| == |y| && s > 0 && i < |x| && x[i] != y[i]
    ensures Xor(x, Shr(x, s)) != Xor(y, Shr(y, s))
    decreases |x| - i
  {
    if i + s < |x| && x[i + s] != y[i + s] {
      HighestDifference(x, y, s, i + s);
    } else {
      assert Xor(x, Shr(x, s))[i] != Xor(y, Shr(y, s))[i];
    }
  }
}

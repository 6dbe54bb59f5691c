/** 64-bit words as numbers, with the wrap-around and the bit operations the
    generator uses written out. */
module Words {

  const WORD: nat := 0x1_0000_0000_0000_0000

  function WrappingAdd(a: nat, b: nat): (r: nat)
    ensures r < WORD
  {
    (a + b) % WORD
  }

  function WrappingMul(a: nat, b: nat): (r: nat)
    ensures r < WORD
  {
    (a * b) % WORD
  }

  lemma AddMultiple(x: int, k: int)
    ensures (x + k * WORD) % WORD == x % WORD
  {
    assert x == (x / WORD) * WORD + x % WORD;
    assert x + k * WORD == (x / WORD + k) * WORD + x % WORD;
  }

  // Multiplying by a number and then by its inverse modulo 2^64 is undone.
  lemma InverseUndone(z: nat, c: nat, d: nat)
    requires z < WORD && (c * d) % WORD == 1
    ensures WrappingMul(WrappingMul(z, c), d) == z
  {
    var q, r := (z * c) / WORD, (z * c) % WORD;
    var t := (c * d) / WORD;
    assert c * d == t * WORD + 1;
    assert r * d == (z * c - q * WORD) * d;
    assert (z * c) * d == z * (c * d) == z * (t * WORD + 1) == z * t * WORD + z;
    assert r * d == z + (z * t - q * d) * WORD;
    AddMultiple(z, z * t - q * d);
  }

  function Xor(a: nat, b: nat): nat {
    if a == 0 && b == 0 then 0
    else 2 * Xor(a / 2, b / 2) + (a % 2 + b % 2) % 2
  }

  // z >> k
  function Shr(z: nat, k: nat): nat {
    if k == 0 then z else Shr(z / 2, k - 1)
  }

  ghost function Pow2(n: nat): nat { if n == 0 then 1 else 2 * Pow2(n - 1) }

  lemma {:induction false} XorZero(a: nat)
    ensures Xor(a, 0) == a && Xor(a, a) == 0
  {
    if a > 0 { XorZero(a / 2); }
  }

  lemma {:induction false} XorCommutes(a: nat, b: nat)
    ensures Xor(a, b) == Xor(b, a)
  {
    if a > 0 || b > 0 { XorCommutes(a / 2, b / 2); }
  }

  lemma {:induction false} XorHalf(a: nat, b: nat)
    ensures Xor(a, b) / 2 == Xor(a / 2, b / 2) && Xor(a, b) % 2 == (a % 2 + b % 2) % 2
  {}

  lemma {:induction false} XorAssociates(a: nat, b: nat, c: nat)
    ensures Xor(Xor(a, b), c) == Xor(a, Xor(b, c))
    decreases a + b + c
  {
    if a > 0 || b > 0 || c > 0 {
      XorAssociates(a / 2, b / 2, c / 2);
      XorOfXor(a, b, c);
      XorOfXor(b, c, a);
      XorCommutes(a, Xor(b, c));
      XorCommutes(a / 2, Xor(b / 2, c / 2));
    }
  }

  // The low bit and the rest of a three-way xor.
  lemma {:induction false} XorOfXor(a: nat, b: nat, c: nat)
    ensures Xor(Xor(a, b), c) / 2 == Xor(Xor(a / 2, b / 2), c / 2)
    ensures Xor(Xor(a, b), c) % 2 == (a % 2 + b % 2 + c % 2) % 2
  {
    XorHalf(a, b);
    XorHalf(Xor(a, b), c);
    Parity(a % 2, b % 2, c % 2);
  }

  lemma Parity(p: nat, q: nat, r: nat)
    ensures ((p + q) % 2 + r) % 2 == (p + q + r) % 2
  {}

  // Xoring the same word twice is undone.
  lemma {:induction false} XorCancels(a: nat, b: nat)
    ensures Xor(Xor(a, b), b) == a
  {
    XorAssociates(a, b, b);
    XorZero(b);
    XorZero(a);
  }

  lemma {:induction false} XorBound(a: nat, b: nat, n: nat)
    requires a < Pow2(n) && b < Pow2(n)
    ensures Xor(a, b) < Pow2(n)
  {
    if n > 0 && (a > 0 || b > 0) { XorBound(a / 2, b / 2, n - 1); }
  }

  lemma {:induction false} ShrXor(a: nat, b: nat, k: nat)
    ensures Shr(Xor(a, b), k) == Xor(Shr(a, k), Shr(b, k))
  {
    if k > 0 {
      XorHalf(a, b);
      ShrXor(a / 2, b / 2, k - 1);
    }
  }

  lemma {:induction false} ShrShr(z: nat, j: nat, k: nat)
    ensures Shr(Shr(z, j), k) == Shr(z, j + k)
  {
    if j > 0 { ShrShr(z / 2, j - 1, k); }
  }

  lemma {:induction false} ShrBound(z: nat, k: nat)
    ensures Shr(z, k) <= z
  {
    if k > 0 { ShrBound(z / 2, k - 1); }
  }

  lemma {:induction false} ShrAll(z: nat, n: nat, k: nat)
    requires z < Pow2(n) && n <= k
    ensures Shr(z, k) == 0
  {
    if n > 0 {
      ShrAll(z / 2, n - 1, k - 1);
    } else {
      ShrBound(0, k);
    }
  }

  // z ^ (z >> k)
  function XorShift(z: nat, k: nat): nat { Xor(z, Shr(z, k)) }

  // For k >= 22 three terms undo a xor-shift of a 64-bit word.
  function UnXorShift(y: nat, k: nat): nat { Xor(XorShift(y, k), Shr(y, 2 * k)) }

  lemma WordIsPow2()
    ensures Pow2(64) == WORD
  {
    assert Pow2(8) == 0x100;
    PowSum(8, 8);
    PowSum(16, 16);
    PowSum(32, 32);
  }

  lemma {:induction false} PowSum(m: nat, n: nat)
    ensures Pow2(m + n) == Pow2(m) * Pow2(n)
  {
    if m > 0 { PowSum(m - 1, n); }
  }

  lemma XorShiftWord(z: nat, k: nat)
    requires z < WORD
    ensures XorShift(z, k) < WORD && UnXorShift(z, k) < WORD
  {
    WordIsPow2();
    ShrBound(z, k);
    ShrBound(z, 2 * k);
    XorBound(z, Shr(z, k), 64);
    XorBound(XorShift(z, k), Shr(z, 2 * k), 64);
  }

  lemma {:induction false} XorShiftUndone(z: nat, k: nat)
    requires z < WORD && k >= 22
    ensures UnXorShift(XorShift(z, k), k) == z
  {
    var a, b, c := z, Shr(z, k), Shr(z, 2 * k);
    var y := XorShift(z, k);
    WordIsPow2();
    ShrShr(z, k, k);
    ShrShr(z, k, 2 * k);
    ShrXor(a, b, k);
    ShrXor(a, b, 2 * k);
    ShrAll(z, 64, 3 * k);
    assert Shr(y, k) == Xor(b, c);
    assert Shr(y, 2 * k) == c by { XorZero(c); }
    XorAssociates(y, b, c);
    XorCancels(a, b);
    XorCancels(a, c);
  }

  lemma {:induction false} UnXorShiftUndone(z: nat, k: nat)
    requires z < WORD && k >= 22
    ensures XorShift(UnXorShift(z, k), k) == z
  {
    var a, b, c := z, Shr(z, k), Shr(z, 2 * k);
    var y := UnXorShift(z, k);
    WordIsPow2();
    ShrShr(z, k, k);
    ShrShr(z, 2 * k, k);
    ShrXor(Xor(a, b), c, k);
    ShrXor(a, b, k);
    ShrAll(z, 64, 3 * k);
    assert Shr(y, k) == Xor(b, c) by { XorZero(Xor(b, c)); }
    XorAssociates(a, b, c);
    XorCancels(a, Xor(b, c));
  }
}

/** SplitMix64 and the level sampler. */
module Rng {
  import opened Core
  import opened Words

  const MAX_LEVEL: nat := 64
  const GAMMA: nat := 0x9E37_79B9_7F4A_7C15

  function NextState(state: nat): nat { WrappingAdd(state, 0x9E37_79B9_7F4A_7C15) }

  // The output mix of one draw.
  function Mix(state: nat): nat {
    var z1 := WrappingMul(XorShift(state, 30), 0xBF58_476D_1CE4_E5B9);
    var z2 := WrappingMul(XorShift(z1, 27), 0x94D0_49BB_1331_11EB);
    XorShift(z2, 31)
  }

  // The mix undone: each xor-shift replayed, each product multiplied by the
  // inverse of its multiplier modulo 2^64.
  function Unmix(z: nat): nat {
    var z2 := WrappingMul(UnXorShift(z, 31), 0x3196_42B2_D24D_8EC3);
    var z1 := WrappingMul(UnXorShift(z2, 27), 0x96DE_1B17_3F11_9089);
    UnXorShift(z1, 30)
  }

  lemma FirstMultiplier(z: nat)
    requires z < WORD
    ensures WrappingMul(WrappingMul(z, 0xBF58_476D_1CE4_E5B9), 0x96DE_1B17_3F11_9089) == z
    ensures WrappingMul(WrappingMul(z, 0x96DE_1B17_3F11_9089), 0xBF58_476D_1CE4_E5B9) == z
  {
    InverseUndone(z, 0xBF58_476D_1CE4_E5B9, 0x96DE_1B17_3F11_9089);
    InverseUndone(z, 0x96DE_1B17_3F11_9089, 0xBF58_476D_1CE4_E5B9);
  }

  lemma SecondMultiplier(z: nat)
    requires z < WORD
    ensures WrappingMul(WrappingMul(z, 0x94D0_49BB_1331_11EB), 0x3196_42B2_D24D_8EC3) == z
    ensures WrappingMul(WrappingMul(z, 0x3196_42B2_D24D_8EC3), 0x94D0_49BB_1331_11EB) == z
  {
    InverseUndone(z, 0x94D0_49BB_1331_11EB, 0x3196_42B2_D24D_8EC3);
    InverseUndone(z, 0x3196_42B2_D24D_8EC3, 0x94D0_49BB_1331_11EB);
  }

  // No two states give the same draw and every 64-bit value is drawn: the mix
  // is a bijection on words.
  lemma MixBijective(s: nat)
    requires s < WORD
    ensures Mix(s) < WORD && Unmix(Mix(s)) == s
    ensures Unmix(s) < WORD && Mix(Unmix(s)) == s
  {
    MixUndone(s);
    UnmixUndone(s);
  }

  lemma MixUndone(s: nat)
    requires s < WORD
    ensures Mix(s) < WORD && Unmix(Mix(s)) == s
  {
    var x1 := XorShift(s, 30);
    var z1 := WrappingMul(x1, 0xBF58_476D_1CE4_E5B9);
    var x2 := XorShift(z1, 27);
    var z2 := WrappingMul(x2, 0x94D0_49BB_1331_11EB);
    XorShiftWord(s, 30);
    XorShiftWord(z1, 27);
    XorShiftWord(z2, 31);
    XorShiftUndone(z2, 31);
    SecondMultiplier(x2);
    XorShiftUndone(z1, 27);
    FirstMultiplier(x1);
    XorShiftUndone(s, 30);
  }

  lemma UnmixUndone(s: nat)
    requires s < WORD
    ensures Unmix(s) < WORD && Mix(Unmix(s)) == s
  {
    var x2 := UnXorShift(s, 31);
    var z2 := WrappingMul(x2, 0x3196_42B2_D24D_8EC3);
    var x1 := UnXorShift(z2, 27);
    var z1 := WrappingMul(x1, 0x96DE_1B17_3F11_9089);
    XorShiftWord(s, 31);
    XorShiftWord(z2, 27);
    XorShiftWord(z1, 30);
    UnXorShiftUndone(z1, 30);
    FirstMultiplier(x1);
    UnXorShiftUndone(z2, 27);
    SecondMultiplier(x2);
    UnXorShiftUndone(s, 31);
  }

  // The state after a number of draws.
  function Walk(seed: nat, draws: nat): nat {
    if draws == 0 then seed else NextState(Walk(seed, draws - 1))
  }

  lemma {:induction false} WalkClosedForm(seed: nat, draws: nat)
    requires seed < WORD
    ensures Walk(seed, draws) == (seed + draws * GAMMA) % WORD
  {
    if draws > 0 {
      WalkClosedForm(seed, draws - 1);
      var x := seed + (draws - 1) * GAMMA;
      AddMultiple(x % WORD + GAMMA, x / WORD);
      assert x + GAMMA == x % WORD + GAMMA + (x / WORD) * WORD;
      assert seed + draws * GAMMA == x + GAMMA;
    }
  }

  // The walk is back at a state after exactly the multiples of 2^64 draws.
  lemma WalkPeriod(seed: nat, a: nat, b: nat)
    requires seed < WORD && a <= b
    ensures Walk(seed, a) == Walk(seed, b) <==> (b - a) % WORD == 0
  {
    WalkClosedForm(seed, a);
    WalkClosedForm(seed, b);
    hide Walk;
    var n := b - a;
    assert seed + b * GAMMA == seed + a * GAMMA + n * GAMMA;
    if (seed + a * GAMMA) % WORD == (seed + b * GAMMA) % WORD {
      var q := Congruent(seed + a * GAMMA, n * GAMMA);
      GammaInvertible(n, q);
    }
    if n % WORD == 0 {
      AddMultiple(seed + a * GAMMA, (n / WORD) * GAMMA);
      assert n * GAMMA == (n / WORD) * WORD * GAMMA == (n / WORD) * GAMMA * WORD;
    }
  }

  lemma Congruent(x: nat, d: nat) returns (q: int)
    requires x % WORD == (x + d) % WORD
    ensures d == q * WORD
  {
    q := (x + d) / WORD - x / WORD;
  }

  // GAMMA is odd, so it has an inverse modulo 2^64.
  lemma GammaInvertible(n: nat, q: int)
    requires n * GAMMA == q * WORD
    ensures n % WORD == 0
  {
    var inverse := 0xF1DE_83E1_9937_733D;
    var t := (GAMMA * inverse) / WORD;
    assert GAMMA * inverse == t * WORD + 1;
    assert n * GAMMA * inverse == n * (t * WORD + 1) == n * t * WORD + n;
    assert n == (q * inverse - n * t) * WORD;
    AddMultiple(0, q * inverse - n * t);
  }

  // floor(-ln u * m_l) clamped to 0..MAX_LEVEL; raw is that floor as an
  // integer, or None when it is not finite.
  function ClampLevel(raw: Option<int>): (level: nat)
    ensures level <= MAX_LEVEL
  {
    match raw
    case None => MAX_LEVEL
    case Some(n) => if n < 0 then 0 else if n > MAX_LEVEL then MAX_LEVEL else n
  }

  // The level of a raw draw. u is (raw + 1) / 2^64 with the addition wrapping:
  // for u = 0 the logarithm is not finite; floor gives the floored logarithm
  // for every other numerator.
  function LevelOf(floor: nat -> int, raw: nat): (level: nat)
    ensures level <= MAX_LEVEL
  {
    var numerator := WrappingAdd(raw, 1);
    ClampLevel(if numerator == 0 then None else Some(floor(numerator)))
  }

  // Every other draw is placed by the floored logarithm, cut to 0 and 64.
  lemma LevelMeans(floor: nat -> int, raw: nat)
    requires raw < WORD - 1
    ensures 0 <= floor(raw + 1) <= 64 ==> LevelOf(floor, raw) == floor(raw + 1)
    ensures floor(raw + 1) < 0 ==> LevelOf(floor, raw) == 0
    ensures floor(raw + 1) > 64 ==> LevelOf(floor, raw) == 64
  {
    assert WrappingAdd(raw, 1) == raw + 1;
  }

  // The addition of one meets zero for the largest word and no other, so
  // exactly one state of the generator draws it.
  lemma ZeroNumerator(state: nat)
    requires state < WORD
    ensures WrappingAdd(Mix(state), 1) == 0 <==> Mix(state) == WORD - 1
    ensures Mix(state) == WORD - 1 <==> state == Unmix(WORD - 1)
    ensures Unmix(WORD - 1) < WORD
  {
    hide Mix, Unmix;
    MixBijective(state);
    MixBijective(WORD - 1);
    AddOne(Mix(state));
  }

  lemma AddOne(raw: nat)
    requires raw < WORD
    ensures WrappingAdd(raw, 1) == 0 <==> raw == WORD - 1
  {}

  // A node added from that state is placed on the highest level there is.
  lemma HighestLevelDrawn(floor: nat -> int)
    ensures LevelOf(floor, Mix(Unmix(WORD - 1))) == MAX_LEVEL
  {
    hide Mix, Unmix;
    MixBijective(WORD - 1);
    ZeroNumerator(Unmix(WORD - 1));
  }

  class SplitMix64 {
    var state: nat

    constructor (state: nat)
      ensures this.state == state
    {
      this.state := state;
    }

    method NextU64() returns (draw: nat)
      modifies this
      ensures state == NextState(old(state))
      ensures draw == Mix(state)
    {
      state := WrappingAdd(state, 0x9E37_79B9_7F4A_7C15);
      var z := state;
      z := WrappingMul(XorShift(z, 30), 0xBF58_476D_1CE4_E5B9);
      z := WrappingMul(XorShift(z, 27), 0x94D0_49BB_1331_11EB);
      draw := XorShift(z, 31);
    }

    // One draw per call.
    method NextLevel(floor: nat -> int) returns (level: nat)
      modifies this
      ensures state == NextState(old(state))
      ensures level == LevelOf(floor, Mix(state))
    {
      var draw := NextU64();
      var numerator := WrappingAdd(draw, 1);
      level := ClampLevel(if numerator == 0 then None else Some(floor(numerator)));
    }
  }
}

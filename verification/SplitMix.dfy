/** The SplitMix64 generator the benchmarks share: a counter form in
    bench/bench_lightgbm.py, bench/bench_custom_objective.py and bench/compare_ranking.py,
    a form that threads its state in examples/install_smoke.py. Words are integers below
    2^64; `& MASK` is the remainder modulo 2^64. */
module SplitMix {
  const M: int := 0x1_0000_0000_0000_0000
  const GAMMA: int := 0x9E3779B97F4A7C15
  const C1: int := 0xBF58476D1CE4E5B9
  const C2: int := 0x94D049BB133111EB

  type Word = x: int | 0 <= x < M witness 0

  // ----- bitwise operators on non-negative integers

  predicate Odd(a: nat) {
    a % 2 == 1
  }

  function Xor(a: nat, b: nat): nat
    decreases a + b
  {
    if a == 0 && b == 0 then 0 else (a % 2 + b % 2) % 2 + 2 * Xor(a / 2, b / 2)
  }

  function Shr(a: nat, k: nat): nat
    decreases k, a
  {
    if k == 0 then a else Shr(a / 2, k - 1)
  }

  function Pow2(n: nat): (r: nat)
    ensures r > 0
  {
    if n == 0 then 1 else 2 * Pow2(n - 1)
  }

  lemma {:induction false} XorZero(a: nat)
    ensures Xor(a, 0) == a && Xor(0, a) == a
  {
    if a > 0 { XorZero(a / 2); }
  }

  lemma {:induction false} XorSelf(a: nat)
    ensures Xor(a, a) == 0
  {
    if a > 0 { XorSelf(a / 2); }
  }

  lemma DigitAndRest(digit: nat, rest: nat)
    requires digit < 2
    ensures (digit + 2 * rest) / 2 == rest && (digit + 2 * rest) % 2 == digit
  {}

  lemma DigitSum(x: nat, y: nat)
    requires x < 2 && y < 2
    ensures (x + y) % 2 == if x != y then 1 else 0
  {}

  /** One binary digit and the rest determine the whole. */
  lemma XorDigits(a: nat, b: nat)
    ensures Xor(a, b) / 2 == Xor(a / 2, b / 2) && (Odd(Xor(a, b)) <==> Odd(a) != Odd(b))
  {
    DigitSum(a % 2, b % 2);
    DigitAndRest((a % 2 + b % 2) % 2, Xor(a / 2, b / 2));
  }

  lemma SameDigits(x: nat, y: nat)
    requires x / 2 == y / 2 && (Odd(x) <==> Odd(y))
    ensures x == y
  {}

  lemma {:induction false} XorAssoc(a: nat, b: nat, c: nat)
    ensures Xor(Xor(a, b), c) == Xor(a, Xor(b, c))
    decreases a + b + c
  {
    if a + b + c > 0 {
      XorDigits(a, b);
      XorDigits(b, c);
      XorDigits(Xor(a, b), c);
      XorDigits(a, Xor(b, c));
      XorAssoc(a / 2, b / 2, c / 2);
      SameDigits(Xor(Xor(a, b), c), Xor(a, Xor(b, c)));
    }
  }

  lemma {:induction false} XorBelow(a: nat, b: nat, n: nat)
    requires a < Pow2(n) && b < Pow2(n)
    ensures Xor(a, b) < Pow2(n)
    decreases n
  {
    if n > 0 && a + b > 0 { XorBelow(a / 2, b / 2, n - 1); }
  }

  lemma HalfFirst(a: nat, p: nat)
    requires p > 0
    ensures (a / 2) / p == a / (2 * p)
  {
    var h := a / 2;
    var q, r := h / p, h % p;
    assert a == 2 * (q * p + r) + a % 2;
    assert a == q * (2 * p) + (2 * r + a % 2) by { assert 2 * (q * p) == q * (2 * p); }
    DivUnique(a, 2 * p, q, 2 * r + a % 2);
  }

  lemma DivUnique(a: int, d: int, q: int, r: int)
    requires d > 0 && a == q * d + r && 0 <= r < d
    ensures a / d == q
  {
    var p := a / d - q;
    assert p * d == r - a % d by { assert (a / d) * d - q * d == p * d; }
    MulAtLeast(p, d);
  }

  lemma MulAtLeast(p: int, d: int)
    requires d > 0
    ensures (p >= 1 ==> p * d >= d) && (p <= -1 ==> p * d <= -d)
  {}

  /** A shift to the right is a division by a power of two. */
  lemma {:induction false} ShrIsDiv(a: nat, k: nat)
    ensures Shr(a, k) == a / Pow2(k)
    decreases k
  {
    if k > 0 {
      ShrIsDiv(a / 2, k - 1);
      HalfFirst(a, Pow2(k - 1));
    }
  }

  lemma {:induction false} ShrXor(a: nat, b: nat, k: nat)
    ensures Shr(Xor(a, b), k) == Xor(Shr(a, k), Shr(b, k))
    decreases k
  {
    if k > 0 {
      XorDigits(a, b);
      ShrXor(a / 2, b / 2, k - 1);
    }
  }

  lemma {:induction false} ShrShr(a: nat, j: nat, k: nat)
    ensures Shr(Shr(a, j), k) == Shr(a, j + k)
    decreases j
  {
    if j > 0 { ShrShr(a / 2, j - 1, k); }
  }

  lemma {:induction false} ShrBelow(a: nat, k: nat, n: nat)
    requires a < Pow2(n)
    ensures Shr(a, k) < Pow2(if k < n then n - k else 0)
    decreases k
  {
    if k > 0 && n > 0 { ShrBelow(a / 2, k - 1, n - 1); } else if k > 0 { ShrBelow(0, k - 1, 0); }
  }

  lemma Pow2Values()
    ensures Pow2(64) == M && Pow2(53) == 9007199254740992
  {
    assert Pow2(8) == 256;
    assert Pow2(16) == 65536;
    assert Pow2(24) == 0x100_0000;
    assert Pow2(32) == 0x1_0000_0000;
    assert Pow2(40) == 0x100_0000_0000;
    assert Pow2(48) == 0x1_0000_0000_0000;
    assert Pow2(53) == 0x20_0000_0000_0000;
    assert Pow2(56) == 0x100_0000_0000_0000;
  }

  // ----- the mixer and its inverse

  function XorShift(z: Word, k: nat): (r: Word) {
    Pow2Values();
    ShrBelow(z, k, 64);
    Pow2Order(if k < 64 then 64 - k else 0, 64);
    XorBelow(z, Shr(z, k), 64);
    Xor(z, Shr(z, k))
  }

  lemma {:induction false} Pow2Order(a: nat, b: nat)
    requires a <= b
    ensures Pow2(a) <= Pow2(b)
    decreases b
  {
    if a < b { Pow2Order(a, b - 1); }
  }

  function Mix(z: Word): Word {
    XorShift(XorShift(XorShift(z, 30) * C1 % M, 27) * C2 % M, 31)
  }

  /** The mixer in plain arithmetic, with the powers of two and the constants written out;
      XorDigits says what Xor does to each binary digit. */
  lemma MixIs(z: Word)
    ensures var a := Xor(z, z / 0x4000_0000);
            var b := a * 0xBF58476D1CE4E5B9 % 0x1_0000_0000_0000_0000;
            var c := Xor(b, b / 0x800_0000);
            var d := c * 0x94D049BB133111EB % 0x1_0000_0000_0000_0000;
            Mix(z) == Xor(d, d / 0x8000_0000)
  {
    Pow2Shifts();
    var a := XorShift(z, 30);
    var b := a * C1 % M;
    var c := XorShift(b, 27);
    ShrIsDiv(z, 30);
    ShrIsDiv(b, 27);
    ShrIsDiv(c * C2 % M, 31);
  }

  lemma Pow2Shifts()
    ensures Pow2(11) == 2048 && Pow2(27) == 0x800_0000 && Pow2(30) == 0x4000_0000 && Pow2(31) == 0x8000_0000
  {
    assert Pow2(8) == 256;
    assert Pow2(16) == 65536;
    assert Pow2(24) == 0x100_0000;
  }

  function Step(x: int): Word {
    (x + GAMMA) % M
  }

  /** The counter form. */
  function SplitMix64(x: int): Word {
    Mix(Step(x))
  }

  /** Undoes XorShift for the three shifts the mixer uses. */
  function UnXorShift(y: Word, k: nat): (r: Word) {
    Pow2Values();
    ShrBelow(y, k, 64);
    ShrBelow(y, 2 * k, 64);
    Pow2Order(if k < 64 then 64 - k else 0, 64);
    Pow2Order(if 2 * k < 64 then 64 - 2 * k else 0, 64);
    XorBelow(Shr(y, k), Shr(y, 2 * k), 64);
    XorBelow(y, Xor(Shr(y, k), Shr(y, 2 * k)), 64);
    Xor(y, Xor(Shr(y, k), Shr(y, 2 * k)))
  }

  const D1: int := 0x96DE1B173F119089
  const D2: int := 0x319642B2D24D8EC3

  function Unmix(w: Word): Word {
    UnXorShift(UnXorShift(UnXorShift(w, 31) * D2 % M, 27) * D1 % M, 30)
  }

  lemma XorCancel(a: nat, b: nat)
    ensures Xor(Xor(a, b), b) == a
  {
    XorAssoc(a, b, b);
    XorSelf(b);
    XorZero(a);
  }

  lemma ShrGone(z: Word, k: nat)
    requires 64 <= k
    ensures Shr(z, k) == 0
  {
    Pow2Values();
    ShrBelow(z, k, 64);
  }

  lemma XorShiftUndone(z: Word, k: nat)
    requires 64 <= 3 * k
    ensures UnXorShift(XorShift(z, k), k) == z
  {
    var b, c := Shr(z, k), Shr(z, 2 * k);
    var y := XorShift(z, k);
    ShrXor(z, b, k);
    ShrShr(z, k, k);
    assert Shr(y, k) == Xor(b, c);
    ShrXor(z, b, 2 * k);
    ShrShr(z, k, 2 * k);
    ShrGone(z, 3 * k);
    XorZero(c);
    assert Shr(y, 2 * k) == c;
    XorCancel(b, c);
    XorCancel(z, b);
  }

  lemma XorShiftRedone(y: Word, k: nat)
    requires 64 <= 3 * k
    ensures XorShift(UnXorShift(y, k), k) == y
  {
    var b, c := Shr(y, k), Shr(y, 2 * k);
    var u := UnXorShift(y, k);
    ShrXor(y, Xor(b, c), k);
    ShrXor(b, c, k);
    ShrShr(y, k, k);
    ShrShr(y, 2 * k, k);
    ShrGone(y, 3 * k);
    XorZero(c);
    assert Shr(u, k) == Xor(b, c);
    XorCancel(y, Xor(b, c));
  }

  lemma ModUnique(x: int, q: int, r: int)
    requires x == q * M + r && 0 <= r < M
    ensures x % M == r && x / M == q
  {}

  /** Multiplying by a constant and then by its inverse modulo 2^64 changes nothing. */
  lemma MulUndone(z: Word, c: int, d: int, k: int)
    requires c * d == k * M + 1
    ensures (z * c % M) * d % M == z
  {
    var q, r := z * c / M, z * c % M;
    assert z * c == q * M + r;
    assert r * d == z * (c * d) - q * d * M by {
      assert (q * M + r) * d == q * d * M + r * d;
      assert (z * c) * d == z * (c * d);
    }
    assert z * (c * d) == z * k * M + z;
    assert r * d == (z * k - q * d) * M + z by {
      assert (z * k - q * d) * M == z * k * M - q * d * M;
    }
    ModUnique(r * d, z * k - q * d, z);
  }

  lemma Inverses()
    ensures C1 * D1 == (C1 * D1 / M) * M + 1
    ensures C2 * D2 == (C2 * D2 / M) * M + 1
  {}

  /** The mixer is a bijection on 64-bit words. */
  lemma MixBijective(z: Word)
    ensures Unmix(Mix(z)) == z && Mix(Unmix(z)) == z
  {
    Inverses();
    var k1, k2 := C1 * D1 / M, C2 * D2 / M;
    var a := XorShift(z, 30);
    var b := XorShift(a * C1 % M, 27);
    XorShiftUndone(b * C2 % M, 31);
    MulUndone(b, C2, D2, k2);
    XorShiftUndone(a * C1 % M, 27);
    MulUndone(a, C1, D1, k1);
    XorShiftUndone(z, 30);
    var p := UnXorShift(z, 31);
    var q := UnXorShift(p * D2 % M, 27);
    XorShiftRedone(q * D1 % M, 30);
    MulUndone(q, D1, C1, k1);
    XorShiftRedone(p * D2 % M, 27);
    MulUndone(p, D2, C2, k2);
    XorShiftRedone(z, 31);
  }

  /** The counter form: distinct counters modulo 2^64 give distinct words, and every
      word has a counter. */
  lemma SplitMixBijective(x: int, y: int, w: Word)
    ensures SplitMix64(x) == SplitMix64(y) <==> x % M == y % M
    ensures SplitMix64(Unmix(w) - GAMMA) == w
  {
    var a, b := Step(x), Step(y);
    MixBijective(a);
    MixBijective(b);
    MixBijective(w);
    ModShift(x, y, GAMMA);
    ModUnique(Unmix(w), 0, Unmix(w));
  }

  lemma ModShift(x: int, y: int, d: int)
    ensures (x + d) % M == (y + d) % M <==> x % M == y % M
  {
    var q, p := (x + d) / M - (y + d) / M, x / M - y / M;
    if (x + d) % M == (y + d) % M {
      assert x == (y / M + q) * M + y % M;
      ModUnique(x, y / M + q, y % M);
    }
    if x % M == y % M {
      assert x + d == ((y + d) / M + p) * M + (y + d) % M;
      ModUnique(x + d, (y + d) / M + p, (y + d) % M);
    }
  }

  lemma ModAbsorb(x: int, d: int)
    ensures (x % M + d) % M == (x + d) % M
  {
    ModShift(x % M, x, d);
    ModUnique(x % M, 0, x % M);
  }

  // ----- uniforms

  const TWO53: int := 9007199254740992

  /** The top 53 bits of a word. */
  function Mantissa(w: Word): (k: nat)
    ensures k < TWO53
  {
    Pow2Values();
    ShrBelow(w, 11, 64);
    Shr(w, 11)
  }

  lemma MantissaIs(w: Word)
    ensures Mantissa(w) == w / 2048
  {
    Pow2Shifts();
    ShrIsDiv(w, 11);
  }

  /** A word scaled by 2^-53, as an exact fraction. */
  function Scale(w: Word): real {
    Mantissa(w) as real / 9007199254740992.0
  }

  function Uniform(counter: int): real {
    Scale(SplitMix64(counter))
  }

  /** Every uniform is k / 2^53 for a k below 2^53. */
  lemma ScaleRange(w: Word)
    ensures 0.0 <= Scale(w) < 1.0
    ensures Scale(w) * 9007199254740992.0 == (w / 2048) as real
  {
    MantissaIs(w);
  }

  /** The uniform of a counter, from the mixer and the literals alone. */
  lemma UniformIs(x: int)
    ensures var w := Mix((x + 0x9E3779B97F4A7C15) % 0x1_0000_0000_0000_0000);
            Uniform(x) * 9007199254740992.0 == (w / 2048) as real
  {
    ScaleRange(SplitMix64(x));
  }

  // ----- the form that threads its state

  /** One draw: the uniform and the next state. */
  function Draw(state: int): (r: (real, Word)) {
    (Scale(Mix(Step(state))), Step(state))
  }

  /** The state after n draws from `seed & MASK`. */
  function State(seed: int, n: nat): Word {
    if n == 0 then seed % M else Step(State(seed, n - 1))
  }

  lemma {:induction false} StateIsCounter(seed: int, n: nat)
    ensures State(seed, n) == (seed + n * GAMMA) % M
  {
    if n > 0 {
      StateIsCounter(seed, n - 1);
      SameStep(seed + (n - 1) * GAMMA);
    }
  }

  /** The two forms are one stream: the draw after n others from a seed is the counter
      form n steps of GAMMA further on. */
  lemma StreamIsCounter(seed: int, n: nat)
    ensures Draw(State(seed, n)) == (Uniform(seed + n * GAMMA), State(seed, n + 1))
  {
    StateIsCounter(seed, n);
    SameStep(seed + n * GAMMA);
  }

  lemma SameStep(x: int)
    ensures Step(x % M) == Step(x)
  {
    ModAbsorb(x, GAMMA);
  }

  const GAMMA_INV: int := 0xF1DE83E19937733D

  /** GAMMA is odd, so steps of GAMMA only meet again after 2^64 of them. */
  lemma StepsMeet(x: int, i: nat, j: nat)
    ensures (x + i * GAMMA) % M == (x + j * GAMMA) % M <==> i % M == j % M
  {
    ModShift(i * GAMMA, j * GAMMA, x);
    if i * GAMMA % M == j * GAMMA % M {
      MulUndone(i % M, GAMMA, GAMMA_INV, GAMMA * GAMMA_INV / M);
      MulUndone(j % M, GAMMA, GAMMA_INV, GAMMA * GAMMA_INV / M);
      ModMul(i);
      ModMul(j);
    }
    if i % M == j % M {
      ModMul(i);
      ModMul(j);
    }
  }

  lemma ModMul(i: int)
    ensures i % M * GAMMA % M == i * GAMMA % M
  {
    var q, r := i / M, i % M;
    assert i * GAMMA == (q * GAMMA + r * GAMMA / M) * M + r * GAMMA % M;
    ModUnique(i * GAMMA, q * GAMMA + r * GAMMA / M, r * GAMMA % M);
  }

  /** Two draws repeat a state, or a word, exactly when they are a multiple of 2^64
      draws apart. */
  lemma NoRepeat(seed: int, i: nat, j: nat)
    ensures State(seed, i) == State(seed, j) <==> i % M == j % M
    ensures Mix(State(seed, i)) == Mix(State(seed, j)) <==> i % M == j % M
  {
    StateIsCounter(seed, i);
    StateIsCounter(seed, j);
    StepsMeet(seed, i, j);
    MixBijective(State(seed, i));
    MixBijective(State(seed, j));
  }
}

/** The splitmix64 generator behind the seeded shuffle (crates/ferridriver-bdd/src/translate.rs:634-640), in
    the 64-bit wrap-around arithmetic of its source. */
module Splitmix {

  const WORD := 0x1_0000_0000_0000_0000

  type Word = n: nat | n < WORD

  // ---------------------------------------------------------------- bits

  function Bit(n: nat, k: nat): bool {
    if k == 0 then n % 2 == 1 else Bit(n / 2, k - 1)
  }

  /** Bitwise exclusive or. */
  function Xor(a: nat, b: nat): nat {
    if a == 0 then b
    else (if a % 2 == b % 2 then 0 else 1) + 2 * Xor(a / 2, b / 2)
  }

  /** The right shift by k bits. */
  function Shr(n: nat, k: nat): (r: nat)
    ensures r <= n
    ensures 0 < n && 0 < k ==> r < n
    decreases k
  {
    if k == 0 then n else Shr(n / 2, k - 1)
  }

  lemma XorHalves(a: nat, b: nat)
    ensures Xor(a, b) / 2 == Xor(a / 2, b / 2)
    ensures Xor(a, b) % 2 == if a % 2 == b % 2 then 0 else 1
  {
    if a == 0 {
      assert Xor(0, b / 2) == b / 2;
    }
  }

  /** Each bit of the exclusive or compares the same bit of the two numbers. */
  lemma {:induction false} XorBit(a: nat, b: nat, k: nat)
    ensures Bit(Xor(a, b), k) <==> Bit(a, k) != Bit(b, k)
    decreases k
  {
    XorHalves(a, b);
    if k > 0 {
      XorBit(a / 2, b / 2, k - 1);
    }
  }

  /** The right shift drops the lowest k bits. */
  lemma {:induction false} ShrBit(n: nat, k: nat, j: nat)
    ensures Bit(Shr(n, k), j) <==> Bit(n, k + j)
    decreases k
  {
    if k > 0 {
      ShrBit(n / 2, k - 1, j);
    }
  }

  lemma {:induction false} XorShr(a: nat, b: nat, k: nat)
    ensures Shr(Xor(a, b), k) == Xor(Shr(a, k), Shr(b, k))
    decreases k
  {
    if k > 0 {
      XorHalves(a, b);
      XorShr(a / 2, b / 2, k - 1);
    }
  }

  lemma {:induction false} XorSelf(b: nat)
    ensures Xor(b, b) == 0
  {
    if b > 0 {
      XorSelf(b / 2);
    }
  }

  /** The exclusive or with one number is undone by itself. */
  lemma {:induction false} XorUndone(a: nat, b: nat)
    ensures Xor(Xor(a, b), b) == a
    decreases a
  {
    if a == 0 {
      XorSelf(b);
    } else {
      XorUndone(a / 2, b / 2);
      XorHalves(a, b);
      XorHalves(Xor(a, b), b);
    }
  }

  function Power(k: nat): (p: nat)
    ensures p > 0
  {
    if k == 0 then 1 else 2 * Power(k - 1)
  }

  lemma {:induction false} XorBelow(a: nat, b: nat, k: nat)
    requires a < Power(k) && b < Power(k)
    ensures Xor(a, b) < Power(k)
    decreases k
  {
    if k > 0 {
      XorBelow(a / 2, b / 2, k - 1);
      XorHalves(a, b);
    }
  }

  lemma {:induction false} PowerDoubles(k: nat)
    ensures Power(2 * k) == Power(k) * Power(k)
  {
    if k > 0 {
      PowerDoubles(k - 1);
      assert Power(2 * k) == 2 * Power(2 * k - 1) == 4 * Power(2 * (k - 1));
    }
  }

  lemma WordPower()
    ensures Power(64) == WORD
  {
    assert Power(2) == 4;
    PowerDoubles(2);
    PowerDoubles(4);
    PowerDoubles(8);
    PowerDoubles(16);
    PowerDoubles(32);
  }

  lemma XorIsWord(a: Word, b: Word)
    ensures Xor(a, b) < WORD
  {
    WordPower();
    XorBelow(a, b, 64);
  }

  // ---------------------------------------------------------------- the generator

  /** `z ^ (z >> k)`. */
  function Mixed(z: Word, k: nat): Word {
    XorIsWord(z, Shr(z, k));
    Xor(z, Shr(z, k))
  }

  function NextState(state: Word): Word {
    (state + 0x9e37_79b9_7f4a_7c15) % WORD
  }

  function FirstRound(z: Word): Word {
    Mixed(z, 30) * 0xbf58_476d_1ce4_e5b9 % WORD
  }

  function SecondRound(z: Word): Word {
    Mixed(z, 27) * 0x94d0_49bb_1331_11eb % WORD
  }

  /** The output of the generator in this state. */
  function Scrambled(state: Word): Word {
    Mixed(SecondRound(FirstRound(state)), 31)
  }

  method NextRandom(state: Word) returns (next: Word, z: Word)
    ensures next == NextState(state) && z == Scrambled(next)
  {
    next := (state + 0x9e37_79b9_7f4a_7c15) % WORD;
    z := next;
    z := Mixed(z, 30) * 0xbf58_476d_1ce4_e5b9 % WORD;
    z := Mixed(z, 27) * 0x94d0_49bb_1331_11eb % WORD;
    z := Mixed(z, 31);
  }

  // ---------------------------------------------------------------- no output repeats

  /** No two words mix alike: the upper bits settle the lower ones. */
  lemma {:induction false} MixedInjective(a: nat, b: nat, k: nat)
    requires k > 0 && Xor(a, Shr(a, k)) == Xor(b, Shr(b, k))
    ensures a == b
    decreases a + b
  {
    var c, d := Shr(a, k), Shr(b, k);
    XorShr(a, c, k);
    XorShr(b, d, k);
    if a + b > 0 {
      MixedInjective(c, d, k);
      XorUndone(a, c);
      XorUndone(b, d);
    }
  }

  lemma RestOfWord(a: Word, t: int)
    ensures (a + t * WORD) % WORD == a
  {}

  lemma SameWord(a: nat, b: nat)
    ensures (a % WORD + b) % WORD == (a + b) % WORD
  {
    var p, q := a / WORD, (a % WORD + b) / WORD;
    assert a + b == (a % WORD + b) % WORD + (p + q) * WORD;
    RestOfWord((a % WORD + b) % WORD, p + q);
  }

  /** Each factor is odd, so multiplying by it is undone by multiplying by its inverse. */
  lemma FirstFactorUndone(a: Word)
    ensures a * 0xbf58_476d_1ce4_e5b9 % WORD * 0x96de_1b17_3f11_9089 % WORD == a
  {
    var p := a * 0xbf58_476d_1ce4_e5b9 / WORD;
    assert a * 0xbf58_476d_1ce4_e5b9 % WORD * 0x96de_1b17_3f11_9089 ==
           a + (a * 0x70c3_bca7_8f27_f46c - p * 0x96de_1b17_3f11_9089) * WORD;
    RestOfWord(a, a * 0x70c3_bca7_8f27_f46c - p * 0x96de_1b17_3f11_9089);
  }

  lemma SecondFactorUndone(a: Word)
    ensures a * 0x94d0_49bb_1331_11eb % WORD * 0x3196_42b2_d24d_8ec3 % WORD == a
  {
    var p := a * 0x94d0_49bb_1331_11eb / WORD;
    assert a * 0x94d0_49bb_1331_11eb % WORD * 0x3196_42b2_d24d_8ec3 ==
           a + (a * 0x1cd3_36ed_a85f_1453 - p * 0x3196_42b2_d24d_8ec3) * WORD;
    RestOfWord(a, a * 0x1cd3_36ed_a85f_1453 - p * 0x3196_42b2_d24d_8ec3);
  }

  /** Different states give different outputs. */
  lemma ScrambledInjective(a: Word, b: Word)
    ensures Scrambled(a) == Scrambled(b) ==> a == b
  {
    if Scrambled(a) == Scrambled(b) {
      var y1: Word, y2: Word := FirstRound(a), FirstRound(b);
      var z1: Word, z2: Word := SecondRound(y1), SecondRound(y2);
      MixedInjective(z1, z2, 31);
      SecondFactorUndone(Mixed(y1, 27));
      SecondFactorUndone(Mixed(y2, 27));
      MixedInjective(y1, y2, 27);
      FirstFactorUndone(Mixed(a, 30));
      FirstFactorUndone(Mixed(b, 30));
      MixedInjective(a, b, 30);
    }
  }

  function StateAfter(seed: Word, n: nat): Word {
    if n == 0 then seed else NextState(StateAfter(seed, n - 1))
  }

  lemma {:induction false} StateAfterIs(seed: Word, n: nat)
    ensures StateAfter(seed, n) == (seed + n * 0x9e37_79b9_7f4a_7c15) % WORD
  {
    if n > 0 {
      StateAfterIs(seed, n - 1);
      SameWord(seed + (n - 1) * 0x9e37_79b9_7f4a_7c15, 0x9e37_79b9_7f4a_7c15);
    }
  }

  /** A state tells how many steps led to it: the step is odd, so it has an inverse too. */
  lemma StepsFromState(seed: Word, n: Word)
    ensures (StateAfter(seed, n) - seed) * 0xf1de_83e1_9937_733d % WORD == n
  {
    StateAfterIs(seed, n);
    var p := (seed + n * 0x9e37_79b9_7f4a_7c15) / WORD;
    assert StateAfter(seed, n) - seed == n * 0x9e37_79b9_7f4a_7c15 - p * WORD;
    assert (StateAfter(seed, n) - seed) * 0xf1de_83e1_9937_733d ==
           n + (n * 0x957b_bf35_006e_d677 - p * 0xf1de_83e1_9937_733d) * WORD;
    RestOfWord(n, n * 0x957b_bf35_006e_d677 - p * 0xf1de_83e1_9937_733d);
  }

  lemma StatesDistinct(seed: Word, m: Word, n: Word)
    requires StateAfter(seed, m) == StateAfter(seed, n)
    ensures m == n
  {
    StepsFromState(seed, m);
    StepsFromState(seed, n);
  }

  /** From any seed the generator gives every one of the 2^64 words before it repeats one. */
  lemma OutputsDistinct(seed: Word, m: Word, n: Word)
    ensures Scrambled(StateAfter(seed, m)) == Scrambled(StateAfter(seed, n)) ==> m == n
  {
    ScrambledInjective(StateAfter(seed, m), StateAfter(seed, n));
    if StateAfter(seed, m) == StateAfter(seed, n) {
      StatesDistinct(seed, m, n);
    }
  }

  // ---------------------------------------------------------------- the generator run backwards

  /** `z` from `z ^ (z >> k)`: what is shifted in is undone first. */
  function Unmixed(y: nat, k: nat): nat
    requires k > 0
    decreases y
  {
    if y == 0 then 0 else Xor(y, Unmixed(Shr(y, k), k))
  }

  lemma {:induction false} MixUndone(z: nat, k: nat)
    requires k > 0
    ensures Unmixed(Xor(z, Shr(z, k)), k) == z
    decreases z
  {
    var s := Shr(z, k);
    XorUndone(z, s);
    if z > 0 {
      XorShr(z, s, k);
      MixUndone(s, k);
      assert Xor(0, s) == s;
    }
  }

  /** The state an output came from: the three mixes and the two factors undone in reverse, the factors by their
      inverses modulo 2^64. */
  lemma OutputUndone(state: Word)
    ensures var z := Unmixed(Scrambled(state), 31) * 0x3196_42b2_d24d_8ec3 % WORD;
            Unmixed(Unmixed(z, 27) * 0x96de_1b17_3f11_9089 % WORD, 30) == state
  {
    var y: Word := FirstRound(state);
    var z: Word := SecondRound(y);
    MixUndone(z, 31);
    SecondFactorUndone(Mixed(y, 27));
    MixUndone(y, 27);
    FirstFactorUndone(Mixed(state, 30));
    MixUndone(state, 30);
  }

  lemma {:induction false} StateAfterFirst(seed: Word, n: nat)
    ensures StateAfter(NextState(seed), n) == StateAfter(seed, n + 1)
  {
    if n > 0 {
      StateAfterFirst(seed, n - 1);
    }
  }
}

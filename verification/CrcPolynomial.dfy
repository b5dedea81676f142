/**
 Which CRC it is: the register is the remainder of the message, read as a polynomial over GF(2), modulo
 the generator of IEEE 802.3 (section 3.2.9), with the register preset to ones and complemented at the end.
 A polynomial is the set of the exponents whose coefficient is 1; addition is symmetric difference.
 */
module CrcPolynomial {
  import opened Crc32

  type Poly = set<nat>

  const GENERATOR: Poly := {32, 26, 23, 22, 16, 12, 11, 10, 8, 7, 5, 4, 2, 1, 0}

  function Plus(a: Poly, b: Poly): Poly {
    (a - b) + (b - a)
  }

  /** Times x^k. */
  function Shift(a: Poly, k: nat): Poly {
    set e | e in a :: e + k
  }

  /** The generator times the sum of the powers of x in `q`. */
  function Multiple(q: seq<nat>): Poly {
    if q == [] then {} else Plus(Multiple(q[..|q| - 1]), Shift(GENERATOR, q[|q| - 1]))
  }

  /** They differ by a multiple of the generator. */
  ghost predicate Congruent(a: Poly, b: Poly) {
    exists q :: Plus(a, b) == Multiple(q)
  }

  predicate Odd(c: word) {
    c & 1 == 1
  }

  /** The register shifted to the right `n` times. */
  function Halves(c: word, n: nat): word {
    if n == 0 then c else Half(Halves(c, n - 1))
  }

  /** Bit `top - e` of the word. */
  predicate Coefficient(c: word, top: nat, e: nat) {
    e <= top && Odd(Halves(c, top - e))
  }

  /** The register as a polynomial: bit 0 is the coefficient of x^31. */
  function PolyOf(c: word): Poly {
    set e: nat | e < 32 && Coefficient(c, 31, e)
  }

  /** A byte as a polynomial: bit 0, which is sent first, is the coefficient of x^7. */
  function BytePoly(b: byte): Poly {
    set e: nat | e < 8 && Coefficient(Widen(b), 7, e)
  }

  /** The message: its first bit is the highest coefficient. */
  function Message(p: seq<byte>): Poly {
    if p == [] then {} else Plus(Shift(Message(p[..|p| - 1]), 8), BytePoly(p[|p| - 1]))
  }

  const ONES: Poly := set e: nat | e < 32

  // ---------------------------------------------------------------- sums

  lemma In(a: Poly, b: Poly, e: nat)
    ensures e in Plus(a, b) <==> (e in a) != (e in b)
  {
  }

  lemma ShiftIn(a: Poly, k: nat, e: nat)
    ensures e in Shift(a, k) <==> e >= k && e - k in a
  {
    if e >= k && e - k in a {
      assert (e - k) + k == e;
    }
  }

  lemma PlusLaws(a: Poly, b: Poly, c: Poly)
    ensures Plus(a, b) == Plus(b, a) && Plus(Plus(a, b), c) == Plus(a, Plus(b, c))
    ensures Plus(a, {}) == a && Plus(a, a) == {}
  {
  }

  lemma ShiftPlus(a: Poly, b: Poly, k: nat)
    ensures Shift(Plus(a, b), k) == Plus(Shift(a, k), Shift(b, k))
  {
    forall e: nat ensures e in Shift(Plus(a, b), k) <==> e in Plus(Shift(a, k), Shift(b, k)) {
      ShiftIn(Plus(a, b), k, e);
      ShiftIn(a, k, e);
      ShiftIn(b, k, e);
    }
  }

  lemma ShiftShift(a: Poly, j: nat, k: nat)
    ensures Shift(Shift(a, j), k) == Shift(a, j + k)
  {
    forall e: nat ensures e in Shift(Shift(a, j), k) <==> e in Shift(a, j + k) {
      ShiftIn(Shift(a, j), k, e);
      ShiftIn(a, j + k, e);
      if e >= k {
        ShiftIn(a, j, e - k);
      }
    }
  }

  lemma {:induction false} MultiplePlus(q: seq<nat>, r: seq<nat>)
    ensures Multiple(q + r) == Plus(Multiple(q), Multiple(r))
  {
    hide Plus, Shift;
    if r == [] {
      assert q + r == q;
      PlusLaws(Multiple(q), {}, {});
    } else {
      var n := |r| - 1;
      MultiplePlus(q, r[..n]);
      assert (q + r)[..|q + r| - 1] == q + r[..n];
      PlusLaws(Multiple(q), Multiple(r[..n]), Shift(GENERATOR, r[n]));
    }
  }

  lemma {:induction false} MultipleShift(q: seq<nat>, k: nat) returns (r: seq<nat>)
    ensures Multiple(r) == Shift(Multiple(q), k)
  {
    hide Plus, Shift;
    if q == [] {
      r := [];
      ShiftNone(k);
    } else {
      var n := |q| - 1;
      var s := MultipleShift(q[..n], k);
      r := s + [q[n] + k];
      assert r[..|r| - 1] == s;
      ShiftPlus(Multiple(q[..n]), Shift(GENERATOR, q[n]), k);
      ShiftShift(GENERATOR, q[n], k);
    }
  }

  lemma ShiftNone(k: nat)
    ensures Shift({}, k) == {}
  {
  }

  lemma CongruentPlus(a: Poly, b: Poly, c: Poly, d: Poly)
    requires Congruent(a, b) && Congruent(c, d)
    ensures Congruent(Plus(a, c), Plus(b, d))
  {
    hide Multiple;
    var q :| Plus(a, b) == Multiple(q);
    var r :| Plus(c, d) == Multiple(r);
    MultiplePlus(q, r);
    assert Plus(Plus(a, c), Plus(b, d)) == Plus(Plus(a, b), Plus(c, d));
  }

  lemma CongruentShift(a: Poly, b: Poly, k: nat)
    requires Congruent(a, b)
    ensures Congruent(Shift(a, k), Shift(b, k))
  {
    hide Multiple, Plus, Shift;
    var q :| Plus(a, b) == Multiple(q);
    var r := MultipleShift(q, k);
    ShiftPlus(a, b, k);
  }

  lemma CongruentSame(a: Poly)
    ensures Congruent(a, a)
  {
    assert Plus(a, a) == Multiple([]);
  }

  lemma CongruentChain(a: Poly, b: Poly, c: Poly)
    requires Congruent(a, b) && Congruent(b, c)
    ensures Congruent(a, c)
  {
    hide Multiple;
    CongruentPlus(a, b, b, c);
    assert Plus(Plus(a, b), Plus(b, c)) == Plus(a, c);
    var q :| Plus(Plus(a, b), Plus(b, c)) == Multiple(q);
  }

  // ---------------------------------------------------------------- bits

  lemma OddXor(a: word, b: word)
    ensures Odd(Xor(a, b)) <==> Odd(a) != Odd(b)
  {
    assert (a ^ b) & 1 == (a & 1) ^ (b & 1);
    LowBit(a);
    LowBit(b);
  }

  lemma LowBit(a: word)
    ensures a & 1 == 0 || a & 1 == 1
  {
  }

  lemma {:induction false} HalvesXor(a: word, b: word, n: nat)
    ensures Halves(Xor(a, b), n) == Xor(Halves(a, n), Halves(b, n))
  {
    hide Xor, Half;
    if n > 0 {
      HalvesXor(a, b, n - 1);
      HalfLinear(Halves(a, n - 1), Halves(b, n - 1));
    }
  }

  lemma PolyXor(a: word, b: word)
    ensures PolyOf(Xor(a, b)) == Plus(PolyOf(a), PolyOf(b))
  {
    hide Xor, Halves, Odd;
    forall e: nat | e < 32 ensures e in PolyOf(Xor(a, b)) <==> e in Plus(PolyOf(a), PolyOf(b)) {
      HalvesXor(a, b, 31 - e);
      OddXor(Halves(a, 31 - e), Halves(b, 31 - e));
    }
  }

  lemma {:induction false} HalvesHalf(c: word, n: nat)
    ensures Halves(Half(c), n) == Halves(c, n + 1)
  {
    hide Half;
    if n > 0 {
      HalvesHalf(c, n - 1);
    }
  }

  lemma {:induction false} HalvesAdd(c: word, m: nat, n: nat)
    ensures Halves(Halves(c, m), n) == Halves(c, m + n)
  {
    hide Half;
    if n > 0 {
      HalvesAdd(c, m, n - 1);
    }
  }

  function Eighth(c: word): word {
    c >> 8
  }

  lemma HalvesFour(c: word)
    ensures Halves(c, 4) == c >> 4
  {
    hide Half;
    assert Halves(c, 2) == Half(Halves(c, 1));
    FourHalves(c);
  }

  lemma HalvesEight(c: word)
    ensures Halves(c, 8) == Eighth(c)
  {
    hide Half, Halves;
    HalvesFour(c);
    HalvesFour(c >> 4);
    HalvesAdd(c, 4, 4);
    TwiceFour(c);
  }

  lemma HalvesAll(c: word)
    ensures Halves(c, 32) == 0
  {
    hide Halves, Eighth;
    var d := Eighth(c);
    var e := Eighth(d);
    HalvesEight(c);
    HalvesEight(d);
    HalvesEight(e);
    HalvesEight(Eighth(e));
    HalvesAdd(c, 8, 8);
    HalvesAdd(c, 16, 8);
    HalvesAdd(c, 24, 8);
    AllGone(c);
  }

  lemma AllGone(c: word)
    ensures Eighth(Eighth(Eighth(Eighth(c)))) == 0
  {
  }

  lemma {:induction false} NoHalves(n: nat)
    ensures Halves(0, n) == 0 && !Odd(Halves(0, n))
  {
    if n > 0 {
      NoHalves(n - 1);
    }
  }

  /** The reflected constant is the generator without its highest term. */
  lemma PolynomialIs()
    ensures PolyOf(POLYNOMIAL) == GENERATOR - {32}
  {
    assert Halves(POLYNOMIAL, 0) == 0xedb88320;
    assert Halves(POLYNOMIAL, 1) == 0x76dc4190;
    assert Halves(POLYNOMIAL, 2) == 0x3b6e20c8;
    assert Halves(POLYNOMIAL, 3) == 0x1db71064;
    assert Halves(POLYNOMIAL, 4) == 0xedb8832;
    assert Halves(POLYNOMIAL, 5) == 0x76dc419;
    assert Halves(POLYNOMIAL, 6) == 0x3b6e20c;
    assert Halves(POLYNOMIAL, 7) == 0x1db7106;
    assert Halves(POLYNOMIAL, 8) == 0xedb883;
    assert Halves(POLYNOMIAL, 9) == 0x76dc41;
    assert Halves(POLYNOMIAL, 10) == 0x3b6e20;
    assert Halves(POLYNOMIAL, 11) == 0x1db710;
    assert Halves(POLYNOMIAL, 12) == 0xedb88;
    assert Halves(POLYNOMIAL, 13) == 0x76dc4;
    assert Halves(POLYNOMIAL, 14) == 0x3b6e2;
    assert Halves(POLYNOMIAL, 15) == 0x1db71;
    assert Halves(POLYNOMIAL, 16) == 0xedb8;
    assert Halves(POLYNOMIAL, 17) == 0x76dc;
    assert Halves(POLYNOMIAL, 18) == 0x3b6e;
    assert Halves(POLYNOMIAL, 19) == 0x1db7;
    assert Halves(POLYNOMIAL, 20) == 0xedb;
    assert Halves(POLYNOMIAL, 21) == 0x76d;
    assert Halves(POLYNOMIAL, 22) == 0x3b6;
    assert Halves(POLYNOMIAL, 23) == 0x1db;
    assert Halves(POLYNOMIAL, 24) == 0xed;
    assert Halves(POLYNOMIAL, 25) == 0x76;
    assert Halves(POLYNOMIAL, 26) == 0x3b;
    assert Halves(POLYNOMIAL, 27) == 0x1d;
    assert Halves(POLYNOMIAL, 28) == 0xe;
    assert Halves(POLYNOMIAL, 29) == 0x7;
    assert Halves(POLYNOMIAL, 30) == 0x3;
    assert Halves(POLYNOMIAL, 31) == 0x1;
  }

  // ---------------------------------------------------------------- the register

  /** One shift of the register multiplies by x, and subtracts the generator when x^32 appears. */
  lemma BitStepIsTimesX(c: word)
    ensures PolyOf(BitStep(c)) == Plus(Shift(PolyOf(c), 1), if Odd(c) then GENERATOR else {})
  {
    hide Xor, Half, Halves, PolyOf, Odd;
    PolyXor(Half(c), Feedback(c));
    FeedbackPoly(c);
    HalfPoly(c);
    OddIsTop(c);
    var shifted := Shift(PolyOf(c), 1);
    assert PolyOf(Half(c)) == shifted - {32};
    if Odd(c) {
      TopsCancel(shifted, GENERATOR, 32);
    } else {
      assert shifted - {32} == shifted;
    }
  }

  lemma TopsCancel(a: Poly, b: Poly, e: nat)
    requires e in a && e in b
    ensures Plus(a - {e}, b - {e}) == Plus(a, b)
  {
  }

  lemma FeedbackPoly(c: word)
    ensures PolyOf(Feedback(c)) == if Odd(c) then GENERATOR - {32} else {}
  {
    hide Halves;
    PolynomialIs();
    forall e: nat | e < 32 ensures e !in PolyOf(0) {
      NoHalves(31 - e);
    }
  }

  lemma HalfPoly(c: word)
    ensures PolyOf(Half(c)) == Shift(PolyOf(c), 1) - {32}
  {
    hide Half, Halves, Odd;
    forall e: nat ensures e in PolyOf(Half(c)) <==> e in Shift(PolyOf(c), 1) - {32} {
      ShiftIn(PolyOf(c), 1, e);
      if e < 32 {
        HalvesHalf(c, 31 - e);
        if e == 0 {
          HalvesAll(c);
          NoHalves(0);
        }
      }
    }
  }

  lemma OddIsTop(c: word)
    ensures 32 in Shift(PolyOf(c), 1) <==> Odd(c)
  {
    hide Odd;
    ShiftIn(PolyOf(c), 1, 32);
    assert Halves(c, 0) == c;
  }

  lemma BitStepCongruent(c: word)
    ensures Congruent(PolyOf(BitStep(c)), Shift(PolyOf(c), 1))
  {
    hide BitStep, PolyOf, Shift, Odd;
    BitStepIsTimesX(c);
    var a, g := Shift(PolyOf(c), 1), if Odd(c) then GENERATOR else {};
    assert Plus(Plus(a, g), a) == g;
    OneGenerator();
    assert g == Multiple(if Odd(c) then [0] else []);
  }

  lemma OneGenerator()
    ensures Multiple([0]) == GENERATOR && Multiple([]) == {}
  {
    assert Multiple([0]) == Plus(Multiple([]), Shift(GENERATOR, 0));
    assert Shift(GENERATOR, 0) == GENERATOR;
  }

  lemma {:induction false} BitStepsCongruent(c: word, n: nat)
    ensures Congruent(PolyOf(BitSteps(c, n)), Shift(PolyOf(c), n))
  {
    hide BitStep, PolyOf, Shift, Congruent;
    if n == 0 {
      ShiftZero(PolyOf(c));
      CongruentSame(PolyOf(c));
    } else {
      var d := BitSteps(c, n - 1);
      BitStepsCongruent(c, n - 1);
      BitStepCongruent(d);
      CongruentShift(PolyOf(d), Shift(PolyOf(c), n - 1), 1);
      ShiftShift(PolyOf(c), n - 1, 1);
      CongruentChain(PolyOf(BitStep(d)), Shift(PolyOf(d), 1), Shift(PolyOf(c), n));
    }
  }

  lemma ShiftZero(a: Poly)
    ensures Shift(a, 0) == a
  {
  }

  lemma WidenPoly(b: byte)
    ensures PolyOf(Widen(b)) == Shift(BytePoly(b), 24)
  {
    hide Widen, Odd;
    forall e: nat ensures e in PolyOf(Widen(b)) <==> e in Shift(BytePoly(b), 24) {
      ShiftIn(BytePoly(b), 24, e);
      if e < 24 {
        WidenHigh(b, 31 - e);
      }
    }
  }

  lemma WidenHigh(b: byte, n: nat)
    requires n >= 8
    ensures !Odd(Halves(Widen(b), n))
  {
    hide Halves;
    HalvesEight(Widen(b));
    HalvesAdd(Widen(b), 8, n - 8);
    NoHalves(n - 8);
  }

  /** What the register stands for: the preset ones ahead of the message, times x^32. */
  function Dividend(p: seq<byte>, c: word): Poly {
    Plus(Shift(PolyOf(c), 8 * |p|), Shift(Message(p), 32))
  }

  lemma {:induction false} RegisterIsRemainder(p: seq<byte>, c: word)
    ensures Congruent(PolyOf(Register(p, c)), Dividend(p, c))
  {
    hide PolyOf, Plus, Shift, Congruent, ByteStep, Xor, Widen, BytePoly;
    if p == [] {
      ShiftZero(PolyOf(c));
      ShiftNone(32);
      PlusLaws(PolyOf(c), {}, {});
      CongruentSame(PolyOf(c));
    } else {
      var n := |p| - 1;
      var r, w := Register(p[..n], c), Widen(p[n]);
      RegisterIsRemainder(p[..n], c);
      ByteCongruent(Xor(r, w));
      PolyXor(r, w);
      WidenPoly(p[n]);
      CongruentSame(PolyOf(w));
      var before := Dividend(p[..n], c);
      CongruentPlus(PolyOf(r), before, PolyOf(w), PolyOf(w));
      CongruentShift(PolyOf(Xor(r, w)), Plus(before, PolyOf(w)), 8);
      DividendMore(p, c);
      CongruentChain(PolyOf(ByteStep(Xor(r, w))), Shift(PolyOf(Xor(r, w)), 8), Shift(Plus(before, PolyOf(w)), 8));
    }
  }

  lemma ByteCongruent(c: word)
    ensures Congruent(PolyOf(ByteStep(c)), Shift(PolyOf(c), 8))
  {
    hide PolyOf, Shift, Congruent, BitSteps;
    BitStepsCongruent(c, 8);
  }

  lemma DividendMore(p: seq<byte>, c: word)
    requires p != []
    ensures var n := |p| - 1; Shift(Plus(Dividend(p[..n], c), Shift(BytePoly(p[n]), 24)), 8) == Dividend(p, c)
  {
    hide PolyOf, Plus, Shift, BytePoly;
    var n := |p| - 1;
    var i, m, b := PolyOf(c), Message(p[..n]), BytePoly(p[n]);
    ShiftPlus(Plus(Shift(i, 8 * n), Shift(m, 32)), Shift(b, 24), 8);
    ShiftPlus(Shift(i, 8 * n), Shift(m, 32), 8);
    ShiftShift(i, 8 * n, 8);
    ShiftShift(m, 32, 8);
    ShiftShift(b, 24, 8);
    ShiftPlus(Shift(m, 8), b, 32);
    ShiftShift(m, 8, 32);
    PlusLaws(Shift(i, 8 * n + 8), Shift(m, 40), Shift(b, 32));
  }

  /**
   The checksum, complemented, is the remainder of x^32 times the message plus the preset ones, modulo
   the generator: it differs from that by a multiple of the generator, and its degree is below 32.
   */
  lemma CrcIsRemainder(p: seq<byte>)
    ensures var remainder := PolyOf(Xor(Crc(p), 0xffff_ffff));
      && (forall e <- remainder :: e < 32)
      && Congruent(remainder, Plus(Shift(ONES, 8 * |p|), Shift(Message(p), 32)))
  {
    hide Plus, Shift, Congruent, Register;
    RegisterIsRemainder(p, 0xffff_ffff);
    Twice(Register(p, 0xffff_ffff));
    AllOnes();
  }

  lemma Twice(c: word)
    ensures Xor(Xor(c, 0xffff_ffff), 0xffff_ffff) == c
  {
  }

  lemma AllOnes()
    ensures PolyOf(0xffff_ffff) == ONES
  {
    assert Halves(0xffff_ffff, 0) == 0xffffffff;
    assert Halves(0xffff_ffff, 1) == 0x7fffffff;
    assert Halves(0xffff_ffff, 2) == 0x3fffffff;
    assert Halves(0xffff_ffff, 3) == 0x1fffffff;
    assert Halves(0xffff_ffff, 4) == 0xfffffff;
    assert Halves(0xffff_ffff, 5) == 0x7ffffff;
    assert Halves(0xffff_ffff, 6) == 0x3ffffff;
    assert Halves(0xffff_ffff, 7) == 0x1ffffff;
    assert Halves(0xffff_ffff, 8) == 0xffffff;
    assert Halves(0xffff_ffff, 9) == 0x7fffff;
    assert Halves(0xffff_ffff, 10) == 0x3fffff;
    assert Halves(0xffff_ffff, 11) == 0x1fffff;
    assert Halves(0xffff_ffff, 12) == 0xfffff;
    assert Halves(0xffff_ffff, 13) == 0x7ffff;
    assert Halves(0xffff_ffff, 14) == 0x3ffff;
    assert Halves(0xffff_ffff, 15) == 0x1ffff;
    assert Halves(0xffff_ffff, 16) == 0xffff;
    assert Halves(0xffff_ffff, 17) == 0x7fff;
    assert Halves(0xffff_ffff, 18) == 0x3fff;
    assert Halves(0xffff_ffff, 19) == 0x1fff;
    assert Halves(0xffff_ffff, 20) == 0xfff;
    assert Halves(0xffff_ffff, 21) == 0x7ff;
    assert Halves(0xffff_ffff, 22) == 0x3ff;
    assert Halves(0xffff_ffff, 23) == 0x1ff;
    assert Halves(0xffff_ffff, 24) == 0xff;
    assert Halves(0xffff_ffff, 25) == 0x7f;
    assert Halves(0xffff_ffff, 26) == 0x3f;
    assert Halves(0xffff_ffff, 27) == 0x1f;
    assert Halves(0xffff_ffff, 28) == 0xf;
    assert Halves(0xffff_ffff, 29) == 0x7;
    assert Halves(0xffff_ffff, 30) == 0x3;
    assert Halves(0xffff_ffff, 31) == 0x1;
  }

  lemma EightSteps(c: word)
    ensures ByteStep(c) == BitStep(BitStep(BitStep(BitStep(BitStep(BitStep(BitStep(BitStep(c))))))))
  {
    hide BitStep;
    StepsUnfold(c);
    StepsUnfold(BitSteps(c, 4));
  }

  /** One more byte, from a known register to a known register. */
  lemma NextByte(p: seq<byte>, n: nat, before: word, after: word)
    requires n < |p| && Register(p[..n], 0xffff_ffff) == before && ByteStep(Xor(before, Widen(p[n]))) == after
    ensures Register(p[..n + 1], 0xffff_ffff) == after
  {
    hide ByteStep, Xor, Widen;
    assert p[..n + 1][..n] == p[..n];
  }

  lemma CheckSteps()
    ensures ByteStep(0xffffffce) == 0x7c231048
    ensures ByteStep(0x7c23107a) == 0xb0acbb32
    ensures ByteStep(0xb0acbb01) == 0x77b79c2d
    ensures ByteStep(0x77b79c19) == 0x641c1f5c
    ensures ByteStep(0x641c1f69) == 0x340ac5e3
    ensures ByteStep(0x340ac5d5) == 0xf68d2c9e
    ensures ByteStep(0xf68d2ca9) == 0xaffc9660
    ensures ByteStep(0xaffc9658) == 0x651f2550
    ensures ByteStep(0x651f2569) == 0x340bc6d9
  {
    hide ByteStep;
    EightSteps(0xffffffce);
    EightSteps(0x7c23107a);
    EightSteps(0xb0acbb01);
    EightSteps(0x77b79c19);
    EightSteps(0x641c1f69);
    EightSteps(0x340ac5d5);
    EightSteps(0xf68d2ca9);
    EightSteps(0xaffc9658);
    EightSteps(0x651f2569);
  }

  /** The published check value: the checksum of the characters "123456789". */
  lemma CheckValue()
    ensures Crc([0x31, 0x32, 0x33, 0x34, 0x35, 0x36, 0x37, 0x38, 0x39]) == 0xcbf4_3926
  {
    hide ByteStep, Register;
    CheckSteps();
    RegisterNone();
    var p: seq<byte> := [0x31, 0x32, 0x33, 0x34, 0x35, 0x36, 0x37, 0x38, 0x39];
    assert p[..0] == [];
    NextByte(p, 0, 0xffffffff, 0x7c231048);
    NextByte(p, 1, 0x7c231048, 0xb0acbb32);
    NextByte(p, 2, 0xb0acbb32, 0x77b79c2d);
    NextByte(p, 3, 0x77b79c2d, 0x641c1f5c);
    NextByte(p, 4, 0x641c1f5c, 0x340ac5e3);
    NextByte(p, 5, 0x340ac5e3, 0xf68d2c9e);
    NextByte(p, 6, 0xf68d2c9e, 0xaffc9660);
    NextByte(p, 7, 0xaffc9660, 0x651f2550);
    NextByte(p, 8, 0x651f2550, 0x340bc6d9);
    assert p[..9] == p;
  }

  lemma RegisterNone()
    ensures Register([], 0xffff_ffff) == 0xffff_ffff
  {
  }
}

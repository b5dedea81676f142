/**
 The reflected IEEE CRC-32 of the A/B metadata (edgeguard-rk-abctl.c, lines 55-69), and why it
 detects every burst of up to four bytes: its step is linear over exclusive or, and injective.
 The word operations are named so that the algebra can be done without looking at bits.
 */
module Crc32 {
  type byte = bv8
  type word = bv32

  const POLYNOMIAL: word := 0xedb8_8320

  function Xor(a: word, b: word): word {
    a ^ b
  }

  function Half(c: word): word {
    c >> 1
  }

  function Feedback(c: word): word {
    if c & 1 == 1 then POLYNOMIAL else 0
  }

  function Widen(b: byte): word {
    b as word
  }

  function BitStep(c: word): word {
    Xor(Half(c), Feedback(c))
  }

  function BitSteps(c: word, n: nat): word {
    if n == 0 then c else BitStep(BitSteps(c, n - 1))
  }

  function ByteStep(c: word): word {
    BitSteps(c, 8)
  }

  /** The register after the bytes of `p`, started at `c`. */
  function Register(p: seq<byte>, c: word): word {
    if p == [] then c else ByteStep(Xor(Register(p[..|p| - 1], c), Widen(p[|p| - 1])))
  }

  function Crc(p: seq<byte>): word {
    Xor(Register(p, 0xffff_ffff), 0xffff_ffff)
  }

  /** crc32_ieee. */
  method Crc32Ieee(p: seq<byte>) returns (crc: word)
    ensures crc == Crc(p)
  {
    hide Xor, Half, Feedback, Widen, BitStep, ByteStep;
    crc := 0xffff_ffff;
    for n := 0 to |p|
      invariant crc == Register(p[..n], 0xffff_ffff)
    {
      var start := Xor(crc, Widen(p[n]));
      crc := InnerLoop(start);
      assert p[..n + 1][..n] == p[..n];
    }
    assert p[..|p|] == p;
    Complement(crc);
    crc := !crc;
  }

  /** The eight shifts for one byte already mixed into the register. */
  method InnerLoop(start: word) returns (crc: word)
    ensures crc == ByteStep(start)
  {
    hide Xor, Half, Feedback;
    crc := start;
    for i := 0 to 8
      invariant crc == BitSteps(start, i)
    {
      BitStepIs(crc);
      crc := (crc >> 1) ^ (if crc & 1 == 1 then POLYNOMIAL else 0);
    }
  }

  lemma BitStepIs(c: word)
    ensures BitStep(c) == (c >> 1) ^ (if c & 1 == 1 then POLYNOMIAL else 0)
  {
    hide Xor;
    if c & 1 == 1 {
      XorIs(c >> 1, POLYNOMIAL);
    } else {
      XorIs(c >> 1, 0);
    }
  }

  lemma Complement(c: word)
    ensures !c == Xor(c, 0xffff_ffff)
  {
  }

  // ---------------------------------------------------------------- algebra of the step

  lemma XorExchange(a: word, b: word, c: word, d: word)
    ensures Xor(Xor(a, b), Xor(c, d)) == Xor(Xor(a, c), Xor(b, d))
  {
    hide Xor;
    XorAssociative(a, b, Xor(c, d));
    XorAssociative(b, c, d);
    XorCommutative(b, c);
    XorAssociative(c, b, d);
    XorAssociative(a, c, Xor(b, d));
  }

  lemma XorAssociative(a: word, b: word, c: word)
    ensures Xor(Xor(a, b), c) == Xor(a, Xor(b, c))
  {
  }

  lemma XorCommutative(a: word, b: word)
    ensures Xor(a, b) == Xor(b, a)
  {
  }

  lemma XorIs(a: word, b: word)
    ensures Xor(a, b) == a ^ b
  {
  }

  lemma ZeroBits(a: word, b: word)
    ensures a ^ b == 0 <==> a == b
    ensures a ^ 0 == a && 0 ^ a == a
  {
  }

  lemma XorZero(a: word, b: word)
    ensures Xor(a, b) == 0 <==> a == b
    ensures Xor(a, 0) == a && Xor(0, a) == a
  {
    hide Xor;
    ZeroBits(a, b);
    XorIs(a, b);
    XorIs(a, 0);
    XorIs(0, a);
  }

  lemma HalfLinear(a: word, b: word)
    ensures Half(Xor(a, b)) == Xor(Half(a), Half(b))
  {
  }

  lemma FeedbackLinear(a: word, b: word)
    ensures Feedback(Xor(a, b)) == Xor(Feedback(a), Feedback(b))
  {
    assert (a ^ b) & 1 == (a & 1) ^ (b & 1);
  }

  lemma BitStepLinear(a: word, b: word)
    ensures BitStep(Xor(a, b)) == Xor(BitStep(a), BitStep(b))
  {
    hide Xor, Half, Feedback;
    HalfLinear(a, b);
    FeedbackLinear(a, b);
    XorExchange(Half(a), Half(b), Feedback(a), Feedback(b));
  }

  lemma BitStepZero(a: word)
    ensures BitStep(a) == 0 <==> a == 0
  {
  }

  lemma {:induction false} BitStepsLinear(a: word, b: word, n: nat)
    ensures BitSteps(Xor(a, b), n) == Xor(BitSteps(a, n), BitSteps(b, n))
  {
    hide BitStep, Xor;
    if n > 0 {
      BitStepsLinear(a, b, n - 1);
      BitStepLinear(BitSteps(a, n - 1), BitSteps(b, n - 1));
    }
  }

  lemma {:induction false} BitStepsZero(a: word, n: nat)
    ensures BitSteps(a, n) == 0 <==> a == 0
  {
    hide BitStep;
    if n > 0 {
      BitStepsZero(a, n - 1);
      BitStepZero(BitSteps(a, n - 1));
    }
  }

  /** The step respects exclusive or. */
  lemma ByteStepLinear(a: word, b: word)
    ensures ByteStep(Xor(a, b)) == Xor(ByteStep(a), ByteStep(b))
  {
    hide BitStep, Xor;
    BitStepsLinear(a, b, 8);
  }

  /** The step loses nothing: different registers stay different. */
  lemma ByteStepInjective(a: word, b: word)
    requires ByteStep(a) == ByteStep(b)
    ensures a == b
  {
    hide BitStep, Xor;
    ByteStepLinear(a, b);
    BitStepsZero(Xor(a, b), 8);
    XorZero(ByteStep(a), ByteStep(b));
    XorZero(a, b);
  }

  /** The exclusive or of two registers depends only on that of their inputs. */
  lemma {:induction false} RegisterLinear(p: seq<byte>, q: seq<byte>, c: word, d: word)
    requires |p| == |q|
    ensures Xor(Register(p, c), Register(q, d)) == Difference(p, q, Xor(c, d))
  {
    hide ByteStep, Xor, Widen;
    if p != [] {
      var n := |p| - 1;
      RegisterLinear(p[..n], q[..n], c, d);
      var x, y := Register(p[..n], c), Register(q[..n], d);
      ByteStepLinear(Xor(x, Widen(p[n])), Xor(y, Widen(q[n])));
      XorExchange(x, Widen(p[n]), y, Widen(q[n]));
    }
  }

  /** The register that runs over the differences of two inputs. */
  function Difference(p: seq<byte>, q: seq<byte>, c: word): word
    requires |p| == |q|
  {
    if p == [] then c
    else ByteStep(Xor(Difference(p[..|p| - 1], q[..|p| - 1], c), Xor(Widen(p[|p| - 1]), Widen(q[|p| - 1]))))
  }

  // ---------------------------------------------------------------- burst detection

  function Apart(b: byte, c: byte): word {
    Xor(Widen(b), Widen(c))
  }

  /** `v` has no bit beyond its low `k` bytes. */
  predicate LowBytes(v: word, k: nat) {
    match k
    case 0 => v == 0
    case 1 => v >> 8 == 0
    case 2 => v >> 16 == 0
    case 3 => v >> 24 == 0
    case _ => true
  }

  lemma ApartZero(b: byte, c: byte)
    ensures Apart(b, c) == 0 <==> b == c
    ensures LowBytes(Apart(b, c), 1)
  {
  }

  function Raise(v: word): word {
    v << 8
  }

  lemma RaiseBack(v: word)
    requires LowBytes(v, 3)
    ensures Raise(v) & 0xff == 0 && Raise(v) >> 8 == v
  {
  }

  predicate Even(c: word) {
    c & 1 == 0
  }

  lemma EvenStep(c: word)
    requires Even(c)
    ensures BitStep(c) == Half(c)
  {
  }

  lemma EvenHalves(c: word)
    requires c & 0xff == 0
    ensures Even(c) && Even(Half(c)) && Even(Half(Half(c))) && Even(Half(Half(Half(c))))
    ensures Half(Half(Half(Half(c)))) & 0xf == 0
  {
  }

  lemma EvenHalvesLow(c: word)
    requires c & 0xf == 0
    ensures Even(c) && Even(Half(c)) && Even(Half(Half(c))) && Even(Half(Half(Half(c))))
  {
  }

  lemma FourHalves(c: word)
    ensures Half(Half(Half(Half(c)))) == c >> 4
  {
  }

  lemma TwiceFour(c: word)
    ensures (c >> 4) >> 4 == c >> 8
  {
  }

  lemma StepsUnfold(c: word)
    ensures BitSteps(c, 4) == BitStep(BitStep(BitStep(BitStep(c))))
    ensures ByteStep(c) == BitSteps(BitSteps(c, 4), 4)
  {
    hide BitStep;
    assert BitSteps(c, 1) == BitStep(BitSteps(c, 0));
    assert BitSteps(c, 2) == BitStep(BitSteps(c, 1));
    assert BitSteps(c, 3) == BitStep(BitSteps(c, 2));
    StepsAdd(c, 4, 4);
  }

  lemma {:induction false} StepsAdd(c: word, m: nat, n: nat)
    ensures BitSteps(c, m + n) == BitSteps(BitSteps(c, m), n)
  {
    hide BitStep;
    if n > 0 {
      StepsAdd(c, m, n - 1);
    }
  }

  /** Four steps from a register whose low bits are clear. */
  lemma FourSteps(c: word)
    requires Even(c) && Even(Half(c)) && Even(Half(Half(c))) && Even(Half(Half(Half(c))))
    ensures BitSteps(c, 4) == Half(Half(Half(Half(c))))
  {
    hide BitStep, BitSteps, Half, Even;
    StepsUnfold(c);
    EvenStep(c);
    EvenStep(Half(c));
    EvenStep(Half(Half(c)));
    EvenStep(Half(Half(Half(c))));
  }

  /** A byte step shifts a register whose low byte is clear. */
  lemma ByteStepShifts(c: word)
    requires c & 0xff == 0
    ensures ByteStep(c) == c >> 8
  {
    hide BitStep, BitSteps, Half, Even, ByteStep;
    EvenHalves(c);
    FourSteps(c);
    var d := Half(Half(Half(Half(c))));
    EvenHalvesLow(d);
    FourSteps(d);
    StepsUnfold(c);
    FourHalves(c);
    FourHalves(d);
    TwiceFour(c);
  }

  /** The only register from which a byte step reaches a 24-bit value is that value raised. */
  lemma Unstep(x: word, v: word)
    requires ByteStep(x) == v && LowBytes(v, 3)
    ensures x == Raise(v)
  {
    hide ByteStep, Raise, LowBytes;
    RaiseBack(v);
    ByteStepShifts(Raise(v));
    ByteStepInjective(x, Raise(v));
  }

  lemma RaiseWidth(v: word, e: word, k: nat)
    requires k <= 3 && LowBytes(v, k) && LowBytes(e, 1)
    ensures LowBytes(Xor(Raise(v), e), k + 1)
    ensures Xor(Raise(v), e) == 0 ==> v == 0 && e == 0
  {
  }

  lemma Widen3(v: word, k: nat)
    requires k <= 3 && LowBytes(v, k)
    ensures LowBytes(v, 3)
  {
  }

  lemma XorSolve(x: word, e: word, y: word)
    requires Xor(x, e) == y
    ensures x == Xor(y, e)
  {
  }

  /** Up to four differing bytes cannot bring the difference register back near zero. */
  lemma {:induction false} ShortBurst(p: seq<byte>, q: seq<byte>, v: word)
    requires |p| == |q| <= 4 && Difference(p, q, 0) == v && LowBytes(v, 4 - |p|)
    ensures p == q && v == 0
    decreases |p|
  {
    hide ByteStep, Xor, Raise, Widen, LowBytes;
    if p != [] {
      var n := |p| - 1;
      var d, e := Difference(p[..n], q[..n], 0), Xor(Widen(p[n]), Widen(q[n]));
      ApartZero(p[n], q[n]);
      Widen3(v, 4 - |p|);
      Unstep(Xor(d, e), v);
      XorSolve(d, e, Raise(v));
      RaiseWidth(v, e, 4 - |p|);
      ShortBurst(p[..n], q[..n], d);
      assert p == p[..n] + [p[n]] && q == q[..n] + [q[n]];
    }
  }

  lemma {:induction false} DifferenceAppend(p: seq<byte>, q: seq<byte>, r: seq<byte>, s: seq<byte>, c: word)
    requires |p| == |q| && |r| == |s|
    ensures Difference(p + r, q + s, c) == Difference(r, s, Difference(p, q, c))
  {
    hide ByteStep, Xor, Widen;
    if r == [] {
      assert p + r == p && q + s == q;
    } else {
      var n := |r| - 1;
      DifferenceAppend(p, q, r[..n], s[..n], c);
      assert (p + r)[..|p + r| - 1] == p + r[..n] && (q + s)[..|q + s| - 1] == q + s[..n];
    }
  }

  /** Equal bytes neither create nor destroy a difference. */
  lemma {:induction false} EqualBytes(s: seq<byte>, c: word)
    ensures Difference(s, s, c) == 0 <==> c == 0
  {
    hide BitStep, Xor, Widen;
    if s != [] {
      var n := |s| - 1;
      EqualBytes(s[..n], c);
      var d, e := Difference(s[..n], s[..n], c), Widen(s[n]);
      XorZero(e, e);
      XorZero(d, 0);
      BitStepsZero(d, 8);
    }
  }

  /**
   Two inputs of the same length that differ only within four consecutive bytes have different
   checksums, wherever the four bytes lie.
   */
  lemma BurstDetected(head: seq<byte>, p: seq<byte>, q: seq<byte>, tail: seq<byte>)
    requires |p| == |q| <= 4 && p != q
    ensures Crc(head + p + tail) != Crc(head + q + tail)
  {
    if Crc(head + p + tail) == Crc(head + q + tail) {
      EqualChecksums(head, p, q, tail);
    }
  }

  lemma EqualChecksums(head: seq<byte>, p: seq<byte>, q: seq<byte>, tail: seq<byte>)
    requires |p| == |q| <= 4 && Crc(head + p + tail) == Crc(head + q + tail)
    ensures p == q
  {
    hide ByteStep, Xor, Widen, LowBytes;
    var x, y := head + p + tail, head + q + tail;
    var a, b := Register(x, 0xffff_ffff), Register(y, 0xffff_ffff);
    XorSolve(a, 0xffff_ffff, Crc(x));
    XorSolve(b, 0xffff_ffff, Crc(y));
    assert a == b;
    RegisterLinear(x, y, 0xffff_ffff, 0xffff_ffff);
    XorZero(a, b);
    XorZero(0xffff_ffff, 0xffff_ffff);
    assert Difference(x, y, 0) == 0;
    DifferenceAppend(head + p, head + q, tail, tail, 0);
    DifferenceAppend(head, head, p, q, 0);
    EqualBytes(head, 0);
    EqualBytes(tail, Difference(p, q, 0));
    AnyWidth(4 - |p|);
    ShortBurst(p, q, 0);
  }

  lemma AnyWidth(k: nat)
    ensures LowBytes(0, k)
  {
  }
}

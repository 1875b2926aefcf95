/** What the checksum register means: the remainder of a division of polynomials
    over the two-element field, as section 6.8 and Appendix A of RFC 9260 define
    the CRC32c.  A polynomial is the set of the exponents whose coefficient is one.
 */
module CrcPolynomial {
  import opened Crc32c

  type Poly = set<nat>

  function Add(p: Poly, q: Poly): Poly {
    (p - q) + (q - p)
  }

  /** p times x to the power n. */
  function Shift(p: Poly, n: nat): Poly {
    set e | e in p :: e + n
  }

  function Constant(t: bool): Poly {
    if t then {0} else {}
  }

  /** Bits in the order of descending exponents, the last one being the constant term. */
  ghost function OfBits(bits: seq<bool>): Poly {
    if bits == [] then {}
    else Add(Shift(OfBits(bits[..|bits| - 1]), 1), Constant(bits[|bits| - 1]))
  }

  /** The CRC32c polynomial 0x11EDC6F41. */
  const GENERATOR: Poly := {32, 28, 27, 26, 25, 23, 22, 20, 19, 18, 14, 13, 11, 10, 9, 8, 6, 0}

  function GeneratorIf(t: bool): Poly {
    if t then GENERATOR else {}
  }

  /** The product of the generator and the polynomial of the given bits. */
  ghost function TimesGenerator(q: seq<bool>): Poly {
    if q == [] then {}
    else Add(Shift(TimesGenerator(q[..|q| - 1]), 1), GeneratorIf(q[|q| - 1]))
  }

  ghost predicate IsQuotient(dividend: Poly, q: seq<bool>, r: Poly) {
    dividend == Add(TimesGenerator(q), r)
  }

  /** r is what is left of the dividend after division by the generator. */
  ghost predicate IsRemainder(dividend: Poly, r: Poly) {
    && (forall e :: e in r ==> e < 32)
    && exists q :: IsQuotient(dividend, q, r)
  }

  // ---- a dividend has one remainder

  lemma AddSelf(p: Poly)
    ensures Add(p, p) == {}
  {
  }

  lemma AddFour(a: Poly, b: Poly, c: Poly, d: Poly)
    ensures Add(Add(a, b), Add(c, d)) == Add(Add(a, c), Add(b, d))
  {
  }

  lemma ShiftOfAdd(p: Poly, q: Poly, n: nat)
    ensures Shift(Add(p, q), n) == Add(Shift(p, n), Shift(q, n))
  {
    forall e: nat
      ensures e in Shift(Add(p, q), n) <==> e in Add(Shift(p, n), Shift(q, n))
    {
      if e >= n {
        InShift(p, n, e - n);
        InShift(q, n, e - n);
        InShift(Add(p, q), n, e - n);
      }
    }
  }

  lemma InShift(p: Poly, n: nat, e: nat)
    ensures e + n in Shift(p, n) <==> e in p
  {
  }

  lemma NoProduct()
    ensures TimesGenerator([false]) == {}
  {
    assert [false][..0] == [];
    assert GeneratorIf(false) == {};
    assert Shift({}, 1) == {};
  }

  lemma {:induction false} LeadingZero(q: seq<bool>)
    ensures TimesGenerator([false] + q) == TimesGenerator(q)
  {
    hide Shift, Add, GeneratorIf;
    var s := [false] + q;
    if q == [] {
      assert s == [false];
      NoProduct();
    } else {
      assert s[|s| - 1] == q[|q| - 1];
      assert s[..|s| - 1] == [false] + q[..|q| - 1];
      LeadingZero(q[..|q| - 1]);
    }
  }

  function XorBits(a: seq<bool>, b: seq<bool>): (c: seq<bool>)
    requires |a| == |b|
    ensures |c| == |a|
  {
    seq(|a|, (i: nat) requires i < |a| => a[i] != b[i])
  }

  lemma SumOfTerms(t: bool, u: bool)
    ensures GeneratorIf(t != u) == Add(GeneratorIf(t), GeneratorIf(u))
  {
    hide GENERATOR;
  }

  lemma {:induction false} SumOfProducts(a: seq<bool>, b: seq<bool>)
    requires |a| == |b|
    ensures TimesGenerator(XorBits(a, b)) == Add(TimesGenerator(a), TimesGenerator(b))
  {
    hide Shift, Add, GeneratorIf;
    if a == [] {
      AddSelf({});
    } else {
      var n := |a| - 1;
      var p, q := TimesGenerator(a[..n]), TimesGenerator(b[..n]);
      assert XorBits(a, b)[..n] == XorBits(a[..n], b[..n]);
      SumOfProducts(a[..n], b[..n]);
      ShiftOfAdd(p, q, 1);
      AddFour(Shift(p, 1), GeneratorIf(a[n]), Shift(q, 1), GeneratorIf(b[n]));
      SumOfTerms(a[n], b[n]);
    }
  }

  ghost predicate IsShort(p: Poly) {
    forall e :: e in p ==> e < 32
  }

  /** A multiple of the generator that is shorter than the generator is zero. */
  lemma {:induction false} ShortMultipleIsZero(q: seq<bool>)
    requires IsShort(TimesGenerator(q))
    ensures TimesGenerator(q) == {}
  {
    if q != [] {
      var p, t := TimesGenerator(q[..|q| - 1]), q[|q| - 1];
      forall e | e in p
        ensures e < 32
      {
        HighTermSurvives(p, t, e);
      }
      ShortMultipleIsZero(q[..|q| - 1]);
      TopTermSurvives(t);
    }
  }

  lemma HighTermSurvives(p: Poly, t: bool, e: nat)
    requires e in p
    ensures e >= 32 ==> e + 1 in Add(Shift(p, 1), GeneratorIf(t))
  {
    hide GENERATOR;
    InShift(p, 1, e);
    GeneratorEnds(e + 1);
    InAdd(Shift(p, 1), GeneratorIf(t), e + 1);
  }

  lemma TopTermSurvives(t: bool)
    ensures t <==> 32 in Add(Shift({}, 1), GeneratorIf(t))
  {
  }

  lemma {:induction false} Padded(q: seq<bool>, n: nat) returns (s: seq<bool>)
    requires |q| <= n
    ensures |s| == n && TimesGenerator(s) == TimesGenerator(q)
    decreases n - |q|
  {
    if |q| == n {
      s := q;
    } else {
      LeadingZero(q);
      s := Padded([false] + q, n);
    }
  }

  /** Division by the generator has one remainder only. */
  lemma RemainderIsUnique(dividend: Poly, r1: Poly, r2: Poly)
    requires IsRemainder(dividend, r1) && IsRemainder(dividend, r2)
    ensures r1 == r2
  {
    var q1 :| IsQuotient(dividend, q1, r1);
    var q2 :| IsQuotient(dividend, q2, r2);
    var n := if |q1| <= |q2| then |q2| else |q1|;
    var s1 := Padded(q1, n);
    var s2 := Padded(q2, n);
    SumOfProducts(s1, s2);
    var p1, p2 := TimesGenerator(q1), TimesGenerator(q2);
    AddFour(p1, r1, p2, r2);
    AddSelf(dividend);
    SameWhenSumIsZero(Add(p1, p2), Add(r1, r2));
    ShortMultipleIsZero(XorBits(s1, s2));
    SameWhenSumIsZero(r1, r2);
  }

  lemma SameWhenSumIsZero(p: Poly, q: Poly)
    requires Add(p, q) == {}
    ensures p == q
  {
    forall e
      ensures e in p <==> e in q
    {
      InAdd(p, q, e);
    }
  }

  lemma InAdd(p: Poly, q: Poly, e: nat)
    ensures e in Add(p, q) <==> (e in p) != (e in q)
  {
  }

  // ---- the register as a polynomial

  /** Bit i of the register, counted from the low end. */
  function Bit(r: bv32, i: nat): bool {
    if i == 0 then LowBit(r) else Bit(r >> 1, i - 1)
  }

  /** The register holds its coefficients in reverse: its low bit belongs to the 31st power. */
  predicate Coefficient(r: bv32, e: nat) {
    e < 32 && Bit(r, 31 - e)
  }

  ghost function OfRegister(r: bv32): Poly {
    set e: nat | e < 32 && Coefficient(r, e)
  }

  lemma {:induction false} BitOfXor(x: bv32, y: bv32, i: nat)
    ensures Bit(Xor(x, y), i) <==> Bit(x, i) != Bit(y, i)
    decreases i
  {
    hide Xor, LowBit;
    XorShift(x, y);
    if i > 0 {
      BitOfXor(x >> 1, y >> 1, i - 1);
    }
  }

  ghost predicate Agrees(r: bv32, base: nat) {
    forall i: nat :: base + i < 32 ==> (Bit(r, i) <==> 31 - base - i in GENERATOR)
  }

  lemma AgreesByBit(r: bv32, base: nat)
    requires base < 32
    requires LowBit(r) <==> 31 - base in GENERATOR
    requires Agrees(r >> 1, base + 1)
    ensures Agrees(r, base)
  {
    hide LowBit;
    forall i: nat | base + i < 32
      ensures Bit(r, i) <==> 31 - base - i in GENERATOR
    {
      if i > 0 {
        assert Bit(r, i) == Bit(r >> 1, i - 1);
      }
    }
  }

  lemma AgreesByNibble(r: bv32, r1: bv32, r2: bv32, r3: bv32, r4: bv32, base: nat)
    requires base + 4 <= 32
    requires r1 == r >> 1 && r2 == r1 >> 1 && r3 == r2 >> 1 && r4 == r3 >> 1
    requires LowBit(r) <==> 31 - base in GENERATOR
    requires LowBit(r1) <==> 30 - base in GENERATOR
    requires LowBit(r2) <==> 29 - base in GENERATOR
    requires LowBit(r3) <==> 28 - base in GENERATOR
    requires Agrees(r4, base + 4)
    ensures Agrees(r, base)
  {
    hide LowBit, Agrees, GENERATOR;
    AgreesByBit(r3, base + 3);
    AgreesByBit(r2, base + 2);
    AgreesByBit(r1, base + 1);
    AgreesByBit(r, base);
  }

  lemma NoBitsBeyond()
    ensures Agrees(0, 32)
  {
  }

  /** The constant of the shift register is the generator without its leading term. */
  lemma GeneratorBits()
    ensures Agrees(POLYNOMIAL, 0)
  {
    hide Bit, Agrees;
    NoBitsBeyond();
    AgreesByNibble(0x8, 0x4, 0x2, 0x1, 0, 28);
    AgreesByNibble(0x82, 0x41, 0x20, 0x10, 0x8, 24);
    AgreesByNibble(0x82F, 0x417, 0x20B, 0x105, 0x82, 20);
    AgreesByNibble(0x82F6, 0x417B, 0x20BD, 0x105E, 0x82F, 16);
    AgreesByNibble(0x82F63, 0x417B1, 0x20BD8, 0x105EC, 0x82F6, 12);
    AgreesByNibble(0x82F63B, 0x417B1D, 0x20BD8E, 0x105EC7, 0x82F63, 8);
    AgreesByNibble(0x82F63B7, 0x417B1DB, 0x20BD8ED, 0x105EC76, 0x82F63B, 4);
    AgreesByNibble(0x82F63B78, 0x417B1DBC, 0x20BD8EDE, 0x105EC76F, 0x82F63B7, 0);
  }

  // ---- one bit of the message

  /** The register takes one message bit: the bit is added to its low end, then the register shifts. */
  function AbsorbBit(r: bv32, t: bool): bv32 {
    Step(if t then Xor(r, 1) else r)
  }

  ghost function AbsorbBits(r: bv32, bits: seq<bool>): bv32 {
    if bits == [] then r
    else AbsorbBit(AbsorbBits(r, bits[..|bits| - 1]), bits[|bits| - 1])
  }

  lemma BitAfterHalf(r: bv32, r1: bv32, i: nat)
    requires r1 == r >> 1
    ensures Bit(r, i + 1) == Bit(r1, i)
  {
  }

  lemma BitAfterFour(r: bv32, r4: bv32, i: nat)
    requires r4 == r >> 4
    ensures Bit(r, i + 4) == Bit(r4, i)
  {
    hide Bit;
    var r1 := r >> 1;
    var r2 := r1 >> 1;
    var r3 := r2 >> 1;
    BitAfterHalf(r, r1, i + 3);
    BitAfterHalf(r1, r2, i + 2);
    BitAfterHalf(r2, r3, i + 1);
    BitAfterHalf(r3, r4, i);
  }

  lemma NoBit32(r: bv32)
    ensures !Bit(r, 32)
  {
    var r4 := r >> 4;
    var r8 := r4 >> 4;
    var r12 := r8 >> 4;
    var r16 := r12 >> 4;
    var r20 := r16 >> 4;
    var r24 := r20 >> 4;
    var r28 := r24 >> 4;
    assert r28 >> 4 == 0;
    assert !Bit(0, 0);
    hide Bit;
    BitAfterFour(r, r4, 28);
    BitAfterFour(r4, r8, 24);
    BitAfterFour(r8, r12, 20);
    BitAfterFour(r12, r16, 16);
    BitAfterFour(r16, r20, 12);
    BitAfterFour(r20, r24, 8);
    BitAfterFour(r24, r28, 4);
    BitAfterFour(r28, 0, 0);
  }

  /** Multiplying the register by x and reducing: the coefficient that falls out
      of the low end costs one generator. */
  lemma StepIsReduction(r: bv32)
    ensures Shift(OfRegister(r), 1) == Add(OfRegister(Step(r)), GeneratorIf(LowBit(r)))
  {
    hide Bit, Step, LowBit, GENERATOR;
    forall e: nat
      ensures e in Shift(OfRegister(r), 1) <==> e in Add(OfRegister(Step(r)), GeneratorIf(LowBit(r)))
    {
      StepCoefficient(r, e);
      InAdd(OfRegister(Step(r)), GeneratorIf(LowBit(r)), e);
      if e > 0 {
        InShift(OfRegister(r), 1, e - 1);
      }
    }
  }

  lemma StepCoefficient(r: bv32, e: nat)
    ensures (e > 0 && Coefficient(r, e - 1)) <==> Coefficient(Step(r), e) != (e in GeneratorIf(LowBit(r)))
  {
    hide Xor, GENERATOR;
    GeneratorEnds(e);
    if e < 32 {
      GeneratorBits();
      BitOfXor(r >> 1, POLYNOMIAL, 31 - e);
      assert Bit(r, 32 - e) == Bit(r >> 1, 31 - e);
      NoBit32(r);
    }
  }

  lemma GeneratorEnds(e: nat)
    ensures 32 in GENERATOR
    ensures e > 32 ==> e !in GENERATOR
  {
  }

  // ---- the whole message

  ghost function MessageTerm(t: bool): Poly {
    Shift(Constant(t), 32)
  }

  /** The message times x to the 32nd, with the all-ones start of the register
      standing before the message. */
  ghost function Dividend(bits: seq<bool>): Poly {
    Add(Shift(OfBits(bits), 32), Shift(OfRegister(ALL_ONES), |bits|))
  }

  lemma ShiftTwice(p: Poly, m: nat, n: nat)
    ensures Shift(Shift(p, m), n) == Shift(p, m + n)
  {
    forall e: nat
      ensures e in Shift(Shift(p, m), n) <==> e in Shift(p, m + n)
    {
      if e >= m + n {
        InShift(p, m + n, e - m - n);
        InShift(p, m, e - m - n);
        InShift(Shift(p, m), n, e - n);
      }
    }
  }

  lemma AddAssociates(a: Poly, b: Poly, c: Poly)
    ensures Add(Add(a, b), c) == Add(a, Add(b, c))
    ensures Add(Add(a, b), c) == Add(Add(a, c), b)
  {
  }

  lemma DividendGrows(bits: seq<bool>, t: bool)
    ensures Dividend(bits + [t]) == Add(Shift(Dividend(bits), 1), MessageTerm(t))
  {
    hide Shift, Add, Constant, OfRegister;
    var m, ones := OfBits(bits), OfRegister(ALL_ONES);
    assert (bits + [t])[..|bits|] == bits;
    ShiftOfAdd(Shift(m, 1), Constant(t), 32);
    ShiftTwice(m, 1, 32);
    ShiftTwice(m, 32, 1);
    ShiftTwice(ones, |bits|, 1);
    ShiftOfAdd(Shift(m, 32), Shift(ones, |bits|), 1);
    AddAssociates(Shift(m, 33), MessageTerm(t), Shift(ones, |bits| + 1));
  }

  lemma LowBitOfXorOne(r: bv32)
    ensures LowBit(Xor(r, 1)) == !LowBit(r)
    ensures Xor(r, 1) >> 1 == r >> 1
  {
  }

  lemma AddedBit(r: bv32)
    ensures Shift(OfRegister(Xor(r, 1)), 1) == Add(Shift(OfRegister(r), 1), MessageTerm(true))
  {
    hide Xor, LowBit;
    var p := {31};
    forall e: nat
      ensures e in OfRegister(Xor(r, 1)) <==> e in Add(OfRegister(r), p)
    {
      if e < 32 {
        LowBitOfXorOne(r);
        InAdd(OfRegister(r), p, e);
      }
    }
    assert OfRegister(Xor(r, 1)) == Add(OfRegister(r), p);
    ShiftOfAdd(OfRegister(r), p, 1);
    assert Shift(p, 1) == {32} == MessageTerm(true);
  }

  /** One message bit: the dividend grows by a term, the quotient by a digit. */
  lemma AbsorbBitDivides(r: bv32, t: bool)
    ensures Add(Shift(OfRegister(r), 1), MessageTerm(t))
         == Add(GeneratorIf(LowBit(r) != t), OfRegister(AbsorbBit(r, t)))
  {
    hide Step, LowBit, Xor, Shift, OfRegister, GENERATOR;
    var s := if t then Xor(r, 1) else r;
    StepIsReduction(s);
    LowBitOfXorOne(r);
    AddedBit(r);
    AddCommutes(OfRegister(Step(s)), GeneratorIf(LowBit(s)));
    NoMessageTerm(Shift(OfRegister(r), 1));
  }

  lemma AddCommutes(p: Poly, q: Poly)
    ensures Add(p, q) == Add(q, p)
  {
  }

  lemma NoMessageTerm(p: Poly)
    ensures Add(p, MessageTerm(false)) == p
  {
  }

  ghost function QuotientOf(bits: seq<bool>): (q: seq<bool>)
    ensures |q| == |bits|
  {
    if bits == [] then []
    else
      var n := |bits| - 1;
      QuotientOf(bits[..n]) + [LowBit(AbsorbBits(ALL_ONES, bits[..n])) != bits[n]]
  }

  lemma {:induction false} BitsLeaveRemainder(bits: seq<bool>)
    ensures IsQuotient(Dividend(bits), QuotientOf(bits), OfRegister(AbsorbBits(ALL_ONES, bits)))
  {
    hide Shift, OfRegister, AbsorbBit, GENERATOR, LowBit;
    if bits == [] {
      NothingToDivide(OfRegister(ALL_ONES));
    } else {
      var n := |bits| - 1;
      var init, t := bits[..n], bits[n];
      var r, q := AbsorbBits(ALL_ONES, init), QuotientOf(init);
      var u := LowBit(r) != t;
      assert bits == init + [t];
      BitsLeaveRemainder(init);
      DividendGrows(init, t);
      ShiftOfAdd(TimesGenerator(q), OfRegister(r), 1);
      AddAssociates(Shift(TimesGenerator(q), 1), Shift(OfRegister(r), 1), MessageTerm(t));
      AbsorbBitDivides(r, t);
      AddAssociates(Shift(TimesGenerator(q), 1), GeneratorIf(u), OfRegister(AbsorbBit(r, t)));
      assert (q + [u])[..n] == q;
    }
  }

  lemma NothingToDivide(p: Poly)
    ensures Add(Shift({}, 32), Shift(p, 0)) == p
    ensures Add({}, p) == p
  {
    forall e: nat
      ensures e in Shift(p, 0) <==> e in p
    {
      InShift(p, 0, e);
    }
  }

  // ---- bytes are runs of eight bits, the low bit first

  ghost function BitsOfByte(b: bv8): (bits: seq<bool>)
    ensures |bits| == 8
  {
    BitsFrom(b as bv32, 8)
  }

  ghost function BitsFrom(c: bv32, n: nat): (bits: seq<bool>)
    ensures |bits| == n
  {
    if n == 0 then [] else [LowBit(c)] + BitsFrom(c >> 1, n - 1)
  }

  ghost function BitsOf(data: seq<bv8>): (bits: seq<bool>)
    ensures |bits| == 8 * |data|
  {
    if data == [] then [] else BitsOf(data[..|data| - 1]) + BitsOfByte(data[|data| - 1])
  }

  lemma {:induction false} AbsorbBitsConcat(r: bv32, a: seq<bool>, b: seq<bool>)
    ensures AbsorbBits(r, a + b) == AbsorbBits(AbsorbBits(r, a), b)
  {
    hide AbsorbBit;
    if b == [] {
      assert a + b == a;
    } else {
      var n := |b| - 1;
      assert (a + b)[..|a| + n] == a + b[..n];
      AbsorbBitsConcat(r, a, b[..n]);
    }
  }

  lemma StepOfOne()
    ensures Step(1) == POLYNOMIAL
  {
  }

  /** A word added to the register before a shift, seen from after the shift. */
  lemma ShiftThrough(r: bv32, c: bv32)
    ensures Step(Xor(r, c)) == Xor(AbsorbBit(r, LowBit(c)), c >> 1)
  {
    hide Xor, LowBit;
    StepIsLinear(r, c);
    StepIsLinear(r, 1);
    StepOfOne();
    XorRearrange(Step(r), c >> 1, POLYNOMIAL);
  }

  lemma FirstBit(r: bv32, c: bv32, n: nat)
    ensures AbsorbBits(r, BitsFrom(c, n + 1)) == AbsorbBits(AbsorbBit(r, LowBit(c)), BitsFrom(c >> 1, n))
  {
    hide AbsorbBit, LowBit;
    AbsorbBitsConcat(r, [LowBit(c)], BitsFrom(c >> 1, n));
    assert [LowBit(c)][..0] == [];
    assert AbsorbBits(r, [LowBit(c)]) == AbsorbBit(r, LowBit(c));
  }

  ghost function Steps(r: bv32, n: nat): bv32
    decreases n
  {
    if n == 0 then r else Steps(Step(r), n - 1)
  }

  lemma {:induction false} StepsFeedBits(r: bv32, c: bv32, n: nat)
    ensures Steps(Xor(r, c), n) == Xor(AbsorbBits(r, BitsFrom(c, n)), Dropped(c, n))
    decreases n
  {
    hide Xor, Step, AbsorbBit, LowBit;
    if n > 0 {
      ShiftThrough(r, c);
      FirstBit(r, c, n - 1);
      StepsFeedBits(AbsorbBit(r, LowBit(c)), c >> 1, n - 1);
    }
  }

  ghost function Dropped(c: bv32, n: nat): bv32
    decreases n
  {
    if n == 0 then c else Dropped(c >> 1, n - 1)
  }

  lemma ByteIsDropped(b: bv8)
    ensures Dropped(b as bv32, 8) == 0
  {
    var c := b as bv32;
    assert Dropped(c, 8) == Dropped(c >> 1, 7) == Dropped(c >> 2, 6) == Dropped(c >> 3, 5) == Dropped(c >> 4, 4);
    assert Dropped(c >> 4, 4) == Dropped(c >> 5, 3) == Dropped(c >> 6, 2) == Dropped(c >> 7, 1) == Dropped(c >> 8, 0);
    assert c >> 8 == 0;
  }

  lemma EightSteps(r: bv32)
    ensures Steps(r, 8) == Step8(r)
  {
    hide Step;
  }

  lemma AbsorbFeedsBits(r: bv32, b: bv8)
    ensures Absorb(r, b) == AbsorbBits(r, BitsOfByte(b))
  {
    hide Xor, Step8, Steps, AbsorbBits;
    var c := b as bv32;
    StepsFeedBits(r, c, 8);
    EightSteps(Xor(r, c));
    ByteIsDropped(b);
    XorZero(AbsorbBits(r, BitsOfByte(b)));
  }

  lemma {:induction false} AbsorbAllFeedsBits(r: bv32, data: seq<bv8>)
    ensures AbsorbAll(r, data) == AbsorbBits(r, BitsOf(data))
  {
    hide Absorb, AbsorbBits;
    if data == [] {
      NoBits(r);
    } else {
      var n := |data| - 1;
      AbsorbAllFeedsBits(r, data[..n]);
      AbsorbFeedsBits(AbsorbAll(r, data[..n]), data[n]);
      AbsorbBitsConcat(r, BitsOf(data[..n]), BitsOfByte(data[n]));
    }
  }

  lemma NoBits(r: bv32)
    ensures AbsorbBits(r, []) == r
  {
  }

  /** For every byte string, the register that the checksum is made of holds
      the one remainder of the message polynomial. */
  lemma CrcIsTheRemainder(data: seq<bv8>, r: Poly)
    ensures IsRemainder(Dividend(BitsOf(data)), r) <==> r == OfRegister(AbsorbAll(ALL_ONES, data))
  {
    hide Dividend, AbsorbAll;
    var bits, left := BitsOf(data), OfRegister(AbsorbAll(ALL_ONES, data));
    AbsorbAllFeedsBits(ALL_ONES, data);
    BitsLeaveRemainder(bits);
    assert IsRemainder(Dividend(bits), left);
    if IsRemainder(Dividend(bits), r) {
      RemainderIsUnique(Dividend(bits), r, left);
    }
  }
}

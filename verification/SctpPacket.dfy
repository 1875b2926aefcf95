/** The checksum as a guard of the SCTP packets that the health checker builds:
    it is linear, it never misses a change confined to four neighbouring bytes
    of plain data, and what becomes of that promise once the checksum itself
    lies inside the packet.
 */
module SctpPacket {
  import opened Crc32c

  // ---- linearity over whole messages

  function XorByte(a: bv8, b: bv8): bv8 {
    a ^ b
  }

  function XorBytes(a: seq<bv8>, b: seq<bv8>): (c: seq<bv8>)
    requires |a| == |b|
    ensures |c| == |a|
  {
    seq(|a|, (i: nat) requires i < |a| => XorByte(a[i], b[i]))
  }

  function Zeros(n: nat): (z: seq<bv8>)
    ensures |z| == n
  {
    seq(n, _ => 0 as bv8)
  }

  lemma AbsorbIsLinear(r: bv32, s: bv32, a: bv8, b: bv8)
    ensures Absorb(Xor(r, s), XorByte(a, b)) == Xor(Absorb(r, a), Absorb(s, b))
  {
    hide Step8, Xor, XorByte;
    XorOfSums(r, s, a, b);
    Step8IsLinear(Xor(r, a as bv32), Xor(s, b as bv32));
  }

  lemma XorOfSums(r: bv32, s: bv32, a: bv8, b: bv8)
    ensures Xor(Xor(r, s), XorByte(a, b) as bv32) == Xor(Xor(r, a as bv32), Xor(s, b as bv32))
  {
  }

  lemma {:induction false} AbsorbAllIsLinear(r: bv32, s: bv32, a: seq<bv8>, b: seq<bv8>)
    requires |a| == |b|
    ensures AbsorbAll(Xor(r, s), XorBytes(a, b)) == Xor(AbsorbAll(r, a), AbsorbAll(s, b))
  {
    hide Absorb, Xor, XorByte;
    var n := |a|;
    if n > 0 {
      assert XorBytes(a, b)[..n - 1] == XorBytes(a[..n - 1], b[..n - 1]);
      AbsorbAllIsLinear(r, s, a[..n - 1], b[..n - 1]);
      AbsorbIsLinear(AbsorbAll(r, a[..n - 1]), AbsorbAll(s, b[..n - 1]), a[n - 1], b[n - 1]);
    }
  }

  function SwappedComplement(r: bv32): bv32 {
    var w := !r;
    (w << 24) | ((w & 0xFF00) << 8) | ((w >> 8) & 0xFF00) | (w >> 24)
  }

  lemma FinishIsSwap(r: bv32)
    ensures Finish(r) == SwappedComplement(r)
  {
  }

  lemma SwapIsAffine(x: bv32, y: bv32, z: bv32)
    ensures SwappedComplement(Xor(Xor(x, y), z))
         == Xor(Xor(SwappedComplement(x), SwappedComplement(y)), SwappedComplement(z))
  {
  }

  lemma FinishIsAffine(x: bv32, y: bv32, z: bv32)
    ensures Finish(Xor(Xor(x, y), z)) == Xor(Xor(Finish(x), Finish(y)), Finish(z))
  {
    hide *;
    FinishIsSwap(x);
    FinishIsSwap(y);
    FinishIsSwap(z);
    FinishIsSwap(Xor(Xor(x, y), z));
    SwapIsAffine(x, y, z);
  }

  lemma XorZeros(a: seq<bv8>)
    ensures XorBytes(a, Zeros(|a|)) == a
  {
  }

  lemma XorThrice(r: bv32)
    ensures Xor(Xor(r, r), r) == r
  {
  }

  /** For messages of one length the checksum of the sum is the sum of the
      checksums, up to the checksum of the all-zero message. */
  lemma CrcIsAffine(a: seq<bv8>, b: seq<bv8>)
    requires |a| == |b|
    ensures Crc(XorBytes(a, b)) == Xor(Xor(Crc(a), Crc(b)), Crc(Zeros(|a|)))
  {
    hide AbsorbAll, Finish, Xor, Step8;
    var z := Zeros(|a|);
    XorZeros(XorBytes(a, b));
    XorThrice(ALL_ONES);
    AbsorbAllIsLinear(ALL_ONES, ALL_ONES, a, b);
    AbsorbAllIsLinear(Xor(ALL_ONES, ALL_ONES), ALL_ONES, XorBytes(a, b), z);
    FinishIsAffine(AbsorbAll(ALL_ONES, a), AbsorbAll(ALL_ONES, b), AbsorbAll(ALL_ONES, z));
  }

  // ---- changes within four neighbouring bytes

  /** What the register makes of a difference pattern: messages that differ by d
      leave registers that differ by Residue(d). */
  function Residue(d: seq<bv8>): bv32 {
    AbsorbAll(0, d)
  }

  lemma XorSelf(r: bv32)
    ensures Xor(r, r) == 0
  {
  }

  lemma RegistersDifferByResidue(r: bv32, a: seq<bv8>, b: seq<bv8>)
    requires |a| == |b|
    ensures Xor(AbsorbAll(r, a), AbsorbAll(r, b)) == Residue(XorBytes(a, b))
  {
    hide Xor, AbsorbAll;
    AbsorbAllIsLinear(r, r, a, b);
    XorSelf(r);
  }

  lemma {:induction false} AbsorbAllConcat(r: bv32, a: seq<bv8>, b: seq<bv8>)
    ensures AbsorbAll(r, a + b) == AbsorbAll(AbsorbAll(r, a), b)
  {
    hide Absorb;
    if b == [] {
      assert a + b == a;
    } else {
      var n := |b| - 1;
      assert (a + b)[..|a| + n] == a + b[..n];
      AbsorbAllConcat(r, a, b[..n]);
    }
  }

  lemma Step8OfZero()
    ensures Step8(0) == 0
  {
  }

  lemma {:induction false} ResidueOfZeros(n: nat)
    ensures Residue(Zeros(n)) == 0
  {
    if n > 0 {
      hide Step8;
      assert Zeros(n)[..n - 1] == Zeros(n - 1);
      ResidueOfZeros(n - 1);
      Step8OfZero();
    }
  }

  lemma {:induction false} AbsorbAllIsInjective(r: bv32, s: bv32, d: seq<bv8>)
    requires AbsorbAll(r, d) == AbsorbAll(s, d)
    ensures r == s
  {
    if d != [] {
      hide Step8, Xor;
      var n := |d| - 1;
      var x, y, b := AbsorbAll(r, d[..n]), AbsorbAll(s, d[..n]), d[n] as bv32;
      Step8IsInjective(Xor(x, b), Xor(y, b));
      XorCancels(x, y, b);
      AbsorbAllIsInjective(r, s, d[..n]);
    }
  }

  lemma XorCancels(x: bv32, y: bv32, b: bv32)
    requires Xor(x, b) == Xor(y, b)
    ensures x == y
  {
  }

  lemma ShiftedByteComesBack(t: bv32)
    requires t < 0x100_0000
    ensures Step8(t << 8) == t
  {
    assert (t << 8) & 0xFF == 0;
    HighPartShiftsOut(t << 8);
  }

  /** The state before a byte, from the state after it. */
  lemma UndoAbsorb(s: bv32, w: bv8, t: bv32)
    requires Absorb(s, w) == t
    requires t < 0x100_0000
    ensures s == Xor(t << 8, w as bv32)
  {
    hide Step8;
    ShiftedByteComesBack(t);
    Step8IsInjective(Xor(s, w as bv32), t << 8);
  }

  lemma FourByteResidue(w: seq<bv8>)
    requires |w| == 4
    requires Residue(w) == 0
    ensures w == Zeros(4)
  {
    hide Absorb, Xor;
    var s1 := Absorb(0, w[0]);
    var s2 := Absorb(s1, w[1]);
    var s3 := Absorb(s2, w[2]);
    assert w[..1] == [w[0]] && w[..2] == w[..1] + [w[1]] && w[..3] == w[..2] + [w[2]] && w == w[..3] + [w[3]];
    assert AbsorbAll(0, w[..1]) == s1;
    assert AbsorbAll(0, w[..2]) == s2;
    assert AbsorbAll(0, w[..3]) == s3;
    UndoFour(s1, s2, s3, w[0], w[1], w[2], w[3]);
  }

  lemma UndoFour(s1: bv32, s2: bv32, s3: bv32, w0: bv8, w1: bv8, w2: bv8, w3: bv8)
    requires s1 == Absorb(0, w0) && s2 == Absorb(s1, w1) && s3 == Absorb(s2, w2) && Absorb(s3, w3) == 0
    ensures w0 == 0 && w1 == 0 && w2 == 0 && w3 == 0
  {
    hide Absorb;
    UndoAbsorb(s3, w3, 0);
    UndoAbsorb(s2, w2, s3);
    UndoAbsorb(s1, w1, s2);
    UndoAbsorb(0, w0, s1);
  }

  /** A pattern that is not zero but spans at most four bytes never leaves a zero register. */
  lemma ShortResidue(w: seq<bv8>)
    requires |w| <= 4
    requires Residue(w) == 0
    ensures w == Zeros(|w|)
  {
    hide AbsorbAll;
    var z := Zeros(4 - |w|);
    AbsorbAllConcat(0, w, z);
    ResidueOfZeros(4 - |w|);
    FourByteResidue(w + z);
    assert w == (w + z)[..|w|];
  }

  lemma BurstResidue(d: seq<bv8>, lo: nat, hi: nat)
    requires lo <= hi <= |d| && hi <= lo + 4
    requires forall i :: 0 <= i < |d| && !(lo <= i < hi) ==> d[i] == 0
    ensures Residue(d) == 0 <==> d == Zeros(|d|)
  {
    hide AbsorbAll;
    assert d == Zeros(lo) + (d[lo..hi] + Zeros(|d| - hi));
    AbsorbAllConcat(0, Zeros(lo), d[lo..hi] + Zeros(|d| - hi));
    AbsorbAllConcat(0, d[lo..hi], Zeros(|d| - hi));
    ResidueOfZeros(lo);
    ResidueOfZeros(|d| - hi);
    ResidueOfZeros(|d|);
    if Residue(d) == 0 {
      AbsorbAllIsInjective(Residue(d[lo..hi]), 0, Zeros(|d| - hi));
      ShortResidue(d[lo..hi]);
    }
  }

  lemma FinishIsInjective(r: bv32, s: bv32)
    requires Finish(r) == Finish(s)
    ensures r == s
  {
  }

  predicate DifferOnlyWithin(a: seq<bv8>, b: seq<bv8>, lo: nat, hi: nat) {
    |a| == |b| && forall i :: 0 <= i < |a| && !(lo <= i < hi) ==> a[i] == b[i]
  }

  /** Two messages of one length that differ, but only within four consecutive
      bytes, never have the same checksum. */
  lemma BurstChangesCrc(a: seq<bv8>, b: seq<bv8>, lo: nat, hi: nat)
    requires lo <= hi <= |a| && hi <= lo + 4
    requires DifferOnlyWithin(a, b, lo, hi)
    ensures Crc(a) == Crc(b) <==> a == b
  {
    hide AbsorbAll, Finish, Xor;
    if Crc(a) == Crc(b) {
      var d := XorBytes(a, b);
      FinishIsInjective(AbsorbAll(ALL_ONES, a), AbsorbAll(ALL_ONES, b));
      RegistersDifferByResidue(ALL_ONES, a, b);
      XorSelf(AbsorbAll(ALL_ONES, a));
      BurstResidue(d, lo, hi);
      ZeroDifference(a, b);
    }
  }

  lemma ZeroDifference(a: seq<bv8>, b: seq<bv8>)
    requires |a| == |b|
    ensures XorBytes(a, b) == Zeros(|a|) <==> a == b
  {
    var d := XorBytes(a, b);
    forall i | 0 <= i < |a|
      ensures d[i] == 0 <==> a[i] == b[i]
    {
      assert d[i] == XorByte(a[i], b[i]);
    }
    if a != b {
      var i :| 0 <= i < |a| && a[i] != b[i];
      assert d[i] != Zeros(|a|)[i];
    }
  }

  // ---- packets that carry their checksum in bytes 8 to 11

  function Blanked(p: seq<bv8>): (q: seq<bv8>)
    requires |p| >= 12
    ensures |q| == |p|
  {
    p[..8] + [0, 0, 0, 0] + p[12..]
  }

  /** What a receiver checks: the stored word is the checksum of the packet with that word zeroed. */
  predicate IsSealed(p: seq<bv8>) {
    |p| >= 12 && p[8..12] == PackBig(Crc(Blanked(p)))
  }

  lemma PackBigIsInjective(x: bv32, y: bv32)
    requires PackBig(x) == PackBig(y)
    ensures x == y
  {
    var p, q := PackBig(x), PackBig(y);
    assert p[0] == q[0] && p[1] == q[1] && p[2] == q[2] && p[3] == q[3];
  }

  /** A window of four bytes lies beside the checksum field or inside it. */
  predicate Clear(lo: nat, hi: nat) {
    hi <= 8 || 12 <= lo || (8 <= lo && hi <= 12)
  }

  /** A change of a sealed packet within a clear window is always noticed. */
  lemma ClearBurstIsDetected(p: seq<bv8>, q: seq<bv8>, lo: nat, hi: nat)
    requires IsSealed(p)
    requires lo <= hi <= |p| && hi <= lo + 4 && Clear(lo, hi)
    requires DifferOnlyWithin(p, q, lo, hi)
    ensures IsSealed(q) <==> p == q
  {
    hide Crc, PackBig, Blanked;
    var x, y := Blanked(p), Blanked(q);
    BlankedParts(p, q, lo, hi);
    if IsSealed(q) {
      if !(8 <= lo && hi <= 12) {
        PackBigIsInjective(Crc(x), Crc(y));
        BurstChangesCrc(x, y, lo, hi);
      }
    }
  }

  lemma BlankedParts(p: seq<bv8>, q: seq<bv8>, lo: nat, hi: nat)
    requires |p| >= 12 && Clear(lo, hi) && DifferOnlyWithin(p, q, lo, hi)
    ensures 8 <= lo && hi <= 12 ==> Blanked(p) == Blanked(q)
    ensures !(8 <= lo && hi <= 12) ==> p[8..12] == q[8..12] && DifferOnlyWithin(Blanked(p), Blanked(q), lo, hi)
    ensures p == q <==> Blanked(p) == Blanked(q) && p[8..12] == q[8..12]
  {
    var x, y := Blanked(p), Blanked(q);
    assert p == p[..8] + p[8..12] + p[12..];
    assert q == q[..8] + q[8..12] + q[12..];
    assert p[..8] == x[..8] && q[..8] == y[..8];
    assert p[12..] == x[12..] && q[12..] == y[12..];
  }

  /** A difference pattern that no sealed packet notices. */
  predicate IsSilent(e: seq<bv8>) {
    |e| >= 12 && e[8..12] == PackLittle(Residue(Blanked(e)))
  }

  lemma PackBigOfFinish(r: bv32)
    ensures PackBig(Finish(r)) == PackLittle(!r)
  {
  }

  function ByteAt(w: bv32, k: bv32): bv8
    requires k < 32
  {
    ((w >> k) & 0xFF) as bv8
  }

  lemma ByteOfXor(x: bv32, y: bv32, k: bv32)
    requires k < 32
    ensures XorByte(ByteAt(!x, k), ByteAt(!y, k)) == ByteAt(Xor(x, y), k)
  {
  }

  lemma PackLittleAt(w: bv32)
    ensures PackLittle(w) == [ByteAt(w, 0), ByteAt(w, 8), ByteAt(w, 16), ByteAt(w, 24)]
  {
  }

  lemma PackLittleOfXor(x: bv32, y: bv32)
    ensures XorBytes(PackLittle(!x), PackLittle(!y)) == PackLittle(Xor(x, y))
  {
    hide Xor, XorByte, ByteAt, PackLittle;
    PackLittleAt(!x);
    PackLittleAt(!y);
    PackLittleAt(Xor(x, y));
    ByteOfXor(x, y, 0);
    ByteOfXor(x, y, 8);
    ByteOfXor(x, y, 16);
    ByteOfXor(x, y, 24);
  }

  lemma BlankedOfXor(p: seq<bv8>, q: seq<bv8>)
    requires |p| == |q| >= 12
    ensures Blanked(XorBytes(p, q)) == XorBytes(Blanked(p), Blanked(q))
    ensures XorBytes(p, q)[8..12] == XorBytes(p[8..12], q[8..12])
  {
  }

  lemma XorBytesCancels(a: seq<bv8>, b: seq<bv8>, c: seq<bv8>)
    requires |a| == |b| == |c|
    ensures XorBytes(a, b) == XorBytes(a, c) <==> b == c
  {
    hide XorByte;
    var x, y := XorBytes(a, b), XorBytes(a, c);
    forall i | 0 <= i < |a|
      ensures x[i] == y[i] <==> b[i] == c[i]
    {
      ByteXorCancels(a[i], b[i], c[i]);
    }
    if b != c {
      var i :| 0 <= i < |b| && b[i] != c[i];
      assert x[i] != y[i];
    }
  }

  lemma ByteXorCancels(a: bv8, b: bv8, c: bv8)
    ensures XorByte(a, b) == XorByte(a, c) <==> b == c
  {
  }

  /** Whether a change is noticed depends on the difference alone, never on the
      packet: it goes unnoticed exactly when the difference is silent. */
  lemma UndetectedIffSilent(p: seq<bv8>, q: seq<bv8>)
    requires IsSealed(p) && |q| == |p|
    ensures IsSealed(q) <==> IsSilent(XorBytes(p, q))
  {
    hide AbsorbAll, Finish, PackBig, PackLittle, Xor, Blanked, Residue;
    var x, y := AbsorbAll(ALL_ONES, Blanked(p)), AbsorbAll(ALL_ONES, Blanked(q));
    BlankedOfXor(p, q);
    PackBigOfFinish(x);
    PackBigOfFinish(y);
    RegistersDifferByResidue(ALL_ONES, Blanked(p), Blanked(q));
    PackLittleOfXor(x, y);
    XorBytesCancels(p[8..12], q[8..12], PackLittle(!y));
  }

  lemma AbsorbZeros(r: bv32, n: nat)
    ensures n == 0 ==> AbsorbAll(r, Zeros(n)) == r
    ensures n > 0 ==> AbsorbAll(r, Zeros(n)) == AbsorbAll(Step8(r), Zeros(n - 1))
  {
    hide Step8;
    if n > 0 {
      assert Zeros(n) == [0] + Zeros(n - 1);
      AbsorbAllConcat(r, [0], Zeros(n - 1));
      assert [0 as bv8][..0] == [];
      assert AbsorbAll(r, [0]) == Absorb(r, 0);
      XorZero(r);
    }
  }

  lemma AbsorbFourZeros(r: bv32, n: nat)
    requires n >= 4
    ensures AbsorbAll(r, Zeros(n)) == AbsorbAll(Step8(Step8(Step8(Step8(r)))), Zeros(n - 4))
  {
    hide Step8;
    AbsorbZeros(r, n);
    AbsorbZeros(Step8(r), n - 1);
    AbsorbZeros(Step8(Step8(r)), n - 2);
    AbsorbZeros(Step8(Step8(Step8(r))), n - 3);
  }

  /** A difference in the last two checksum bytes and the first two bytes of the chunk of an ABORT packet. */
  const ABORT_SILENT: seq<bv8> := Zeros(8) + [0, 0, 0x31, 0x80] + ([0xCB, 0xD6] + Zeros(2))

  /** A difference in the last header byte and the first three checksum bytes of an INIT packet. */
  const INIT_SILENT: seq<bv8> := (Zeros(7) + [0x7E]) + [0x2B, 0xD2, 0xC5, 0] + Zeros(20)

  lemma AbortPatternIsSilent()
    ensures |ABORT_SILENT| == 16 && IsSilent(ABORT_SILENT)
  {
    hide AbsorbAll, Absorb, Step8;
    assert Blanked(ABORT_SILENT) == Zeros(12) + ([0xCB, 0xD6] + Zeros(2));
    AbsorbAllConcat(0, Zeros(12), [0xCB, 0xD6] + Zeros(2));
    ResidueOfZeros(12);
    AbsorbAllConcat(0, [0xCB, 0xD6], Zeros(2));
    TwoBytes(0xCB, 0xD6);
    AbsorbZeros(Absorb(Absorb(0, 0xCB), 0xD6), 2);
    AbsorbZeros(Step8(Absorb(Absorb(0, 0xCB), 0xD6)), 1);
    AbsorbZeros(Step8(Step8(Absorb(Absorb(0, 0xCB), 0xD6))), 0);
    AbortRegister();
    assert PackLittle(0x8031_0000) == [0, 0, 0x31, 0x80];
  }

  lemma AbortRegister()
    ensures Step8(Step8(Absorb(Absorb(0, 0xCB), 0xD6))) == 0x8031_0000
  {
  }

  lemma TwoBytes(a: bv8, b: bv8)
    ensures AbsorbAll(0, [a, b]) == Absorb(Absorb(0, a), b)
    ensures AbsorbAll(0, [a]) == Absorb(0, a)
  {
    hide Absorb;
    assert [a][..0] == [];
    assert AbsorbAll(0, [a]) == Absorb(0, a);
    assert [a, b][..1] == [a];
  }

  lemma InitZerosFirstHalf()
    ensures AbsorbAll(0xDDE0EB2A, Zeros(24)) == AbsorbAll(0x28F4764E, Zeros(12))
  {
    hide AbsorbAll, Absorb, Step8, Zeros;
    InitRegisters();
    AbsorbFourZeros(0xDDE0EB2A, 24);
    AbsorbFourZeros(0xF6DBD453, 20);
    AbsorbFourZeros(0xC5F36729, 16);
  }

  lemma InitZerosSecondHalf()
    ensures AbsorbAll(0x28F4764E, Zeros(12)) == 0x00C5D22B
  {
    hide AbsorbAll, Absorb, Step8, Zeros;
    InitRegisters();
    AbsorbFourZeros(0x28F4764E, 12);
    AbsorbFourZeros(0xBEE14790, 8);
    AbsorbFourZeros(0x7EC116D4, 4);
    AbsorbZeros(0x00C5D22B, 0);
  }

  lemma InitPatternIsSilent()
    ensures |INIT_SILENT| == 32 && IsSilent(INIT_SILENT)
  {
    hide AbsorbAll, Absorb, Step8;
    assert Blanked(INIT_SILENT) == Zeros(7) + ([0x7E] + Zeros(24));
    AbsorbAllConcat(0, Zeros(7), [0x7E] + Zeros(24));
    ResidueOfZeros(7);
    AbsorbAllConcat(0, [0x7E], Zeros(24));
    TwoBytes(0x7E, 0);
    InitRegisters();
    InitZerosFirstHalf();
    InitZerosSecondHalf();
    assert PackLittle(0x00C5_D22B) == [0x2B, 0xD2, 0xC5, 0];
  }

  lemma InitRegisters()
    ensures Absorb(0, 0x7E) == 0xDDE0EB2A
    ensures Step8(Step8(Step8(Step8(0xDDE0EB2A)))) == 0xF6DBD453
    ensures Step8(Step8(Step8(Step8(0xF6DBD453)))) == 0xC5F36729
    ensures Step8(Step8(Step8(Step8(0xC5F36729)))) == 0x28F4764E
    ensures Step8(Step8(Step8(Step8(0x28F4764E)))) == 0xBEE14790
    ensures Step8(Step8(Step8(Step8(0xBEE14790)))) == 0x7EC116D4
    ensures Step8(Step8(Step8(Step8(0x7EC116D4)))) == 0x00C5D22B
  {
  }

  /** At the edges of the field the promise fails, for every sealed packet of the
      two lengths the program builds: four neighbouring bytes change, nothing shows. */
  lemma EdgeBurstsGoUnnoticed(p: seq<bv8>)
    requires IsSealed(p)
    ensures |p| == 16 ==>
              var q := XorBytes(p, ABORT_SILENT);
              q != p && DifferOnlyWithin(p, q, 10, 14) && IsSealed(q)
    ensures |p| == 32 ==>
              var q := XorBytes(p, INIT_SILENT);
              q != p && DifferOnlyWithin(p, q, 7, 11) && IsSealed(q)
  {
    hide IsSealed, IsSilent;
    AbortPatternIsSilent();
    InitPatternIsSilent();
    if |p| == 16 {
      ChangedBy(p, ABORT_SILENT, 10, 14);
    } else if |p| == 32 {
      ChangedBy(p, INIT_SILENT, 7, 11);
    }
  }

  lemma ChangedBy(p: seq<bv8>, e: seq<bv8>, lo: nat, hi: nat)
    requires IsSealed(p) && |p| == |e| && IsSilent(e)
    requires lo < |e| && e[lo] != 0
    requires forall i :: 0 <= i < |e| && !(lo <= i < hi) ==> e[i] == 0
    ensures XorBytes(p, e) != p && DifferOnlyWithin(p, XorBytes(p, e), lo, hi) && IsSealed(XorBytes(p, e))
  {
    hide IsSealed, IsSilent, XorByte;
    var q := XorBytes(p, e);
    forall i | 0 <= i < |p|
      ensures XorByte(p[i], q[i]) == e[i]
      ensures e[i] == 0 <==> q[i] == p[i]
    {
      XorByteTwice(p[i], e[i]);
    }
    assert XorBytes(p, q) == e;
    UndetectedIffSilent(p, q);
  }

  lemma XorByteTwice(a: bv8, b: bv8)
    ensures XorByte(a, XorByte(a, b)) == b
    ensures b == 0 <==> XorByte(a, b) == a
  {
  }

  // ---- building and decoding

  function PackBig16(w: bv16): (bytes: seq<bv8>)
    ensures |bytes| == 2
  {
    [((w >> 8) & 0xFF) as bv8, (w & 0xFF) as bv8]
  }

  /** Network byte order: the first byte is the highest. */
  lemma NetworkOrder(w: bv16, v: bv32)
    ensures var b := PackBig16(w); (b[0] as bv16 << 8) | (b[1] as bv16) == w
    ensures var b := PackBig(v); (b[0] as bv32 << 24) | (b[1] as bv32 << 16) | (b[2] as bv32 << 8) | (b[3] as bv32) == v
  {
  }

  /** struct.pack_into for a run of bytes: overwrites them in place, nothing else. */
  method PackInto(data: array<bv8>, offset: nat, bytes: seq<bv8>)
    requires offset + |bytes| <= data.Length
    modifies data
    ensures data[..] == old(data[..offset]) + bytes + old(data[offset + |bytes|..])
  {
    for i := 0 to |bytes|
      invariant data[..] == old(data[..offset]) + bytes[..i] + old(data[offset + i..])
    {
      assert data[..][offset + i + 1..] == old(data[offset + i + 1..]);
      data[offset + i] := bytes[i];
      assert bytes[..i + 1] == bytes[..i] + [bytes[i]];
      assert data[..] == old(data[..offset]) + bytes[..i + 1] + old(data[offset + i + 1..]);
    }
    assert bytes[..|bytes|] == bytes;
  }

  /** Stores the checksum of a packet whose checksum field is still zero. */
  method Seal(data: array<bv8>)
    requires data.Length >= 12 && data[8..12] == [0, 0, 0, 0]
    modifies data
    ensures IsSealed(data[..])
    ensures Blanked(data[..]) == old(data[..])
  {
    hide PackBig, Crc;
    ghost var blank := data[..];
    assert Blanked(blank) == blank;
    var checksum := Crc32c.Crc32c(data[..]);
    PackInto(data, 8, PackBig(checksum));
    assert data[..][8..12] == PackBig(checksum);
    assert Blanked(data[..]) == blank;
  }

  /** The ports, the tag and the start of the chunk that a receiver reads, highest byte first. */
  predicate Says(p: seq<bv8>, srcPort: bv16, destPort: bv16, tag: bv32, chunk: seq<bv8>) {
    && |p| >= 16 && p[12..16] == chunk
    && (p[0] as bv16 << 8) | (p[1] as bv16) == srcPort
    && (p[2] as bv16 << 8) | (p[3] as bv16) == destPort
    && HasWord(p, 4, tag)
  }

  predicate HasWord(p: seq<bv8>, i: nat, w: bv32) {
    |p| >= i + 4 && (p[i] as bv32 << 24) | (p[i + 1] as bv32 << 16) | (p[i + 2] as bv32 << 8) | (p[i + 3] as bv32) == w
  }

  lemma HasPacked(p: seq<bv8>, i: nat, w: bv32, after: seq<bv8>)
    requires |p| >= i + 4 && i >= 12 && Blanked(p)[i..] == PackBig(w) + after
    ensures HasWord(p, i, w)
  {
    hide PackBig;
    assert forall j :: 0 <= j < 4 ==> p[i + j] == Blanked(p)[i..][j] == PackBig(w)[j];
    NetworkOrder(0, w);
  }

  lemma SaysWhatIsPacked(p: seq<bv8>, srcPort: bv16, destPort: bv16, tag: bv32, chunk: seq<bv8>, after: seq<bv8>)
    requires |p| >= 16 && |chunk| == 4
    requires Blanked(p) == PackBig16(srcPort) + PackBig16(destPort) + PackBig(tag) + [0, 0, 0, 0] + chunk + after
    ensures Says(p, srcPort, destPort, tag, chunk)
  {
    hide PackBig, PackBig16;
    assert p[0..2] == Blanked(p)[0..2] == PackBig16(srcPort);
    assert p[2..4] == Blanked(p)[2..4] == PackBig16(destPort);
    assert p[4..8] == Blanked(p)[4..8] == PackBig(tag);
    assert p[12..16] == Blanked(p)[12..16] == chunk;
    NetworkOrder(srcPort, tag);
    NetworkOrder(destPort, tag);
  }

  lemma SmallWords()
    ensures PackBig16(20) == [0, 20] && PackBig16(4) == [0, 4]
  {
  }

  const INIT_CHUNK: bv8 := 1
  const ABORT_CHUNK: bv8 := 6

  lemma InitSays(p: seq<bv8>, srcPort: bv16, destPort: bv16, tag: bv32, initialTsn: bv32)
    requires |p| == 32
    requires Blanked(p) == PackBig16(srcPort) + PackBig16(destPort) + PackBig(0) + [0, 0, 0, 0]
                           + [INIT_CHUNK, 0] + PackBig16(20)
                           + (PackBig(tag) + PackBig(106496) + PackBig16(10) + PackBig16(65535) + PackBig(initialTsn))
    ensures Says(p, srcPort, destPort, 0, [1, 0, 0, 20]) && HasWord(p, 16, tag)
  {
    hide PackBig, PackBig16, Blanked, Says, HasWord;
    SmallWords();
    var after := PackBig(106496) + PackBig16(10) + PackBig16(65535) + PackBig(initialTsn);
    var header := PackBig16(srcPort) + PackBig16(destPort) + PackBig(0) + [0, 0, 0, 0];
    assert [INIT_CHUNK, 0] + PackBig16(20) == [1, 0, 0, 20];
    assert Blanked(p) == header + [1, 0, 0, 20] + (PackBig(tag) + after);
    SaysWhatIsPacked(p, srcPort, destPort, 0, [1, 0, 0, 20], PackBig(tag) + after);
    HasPacked(p, 16, tag, after);
  }

  method BuildInitPacket(srcPort: bv16, destPort: bv16, tag: bv32, initialTsn: bv32) returns (data: array<bv8>)
    ensures fresh(data) && data.Length == 32
    ensures IsSealed(data[..])
    ensures Blanked(data[..]) == PackBig16(srcPort) + PackBig16(destPort) + PackBig(0) + [0, 0, 0, 0]
                              + [INIT_CHUNK, 0] + PackBig16(20)
                              + (PackBig(tag) + PackBig(106496) + PackBig16(10) + PackBig16(65535) + PackBig(initialTsn))
    ensures Says(data[..], srcPort, destPort, 0, [1, 0, 0, 20]) && HasWord(data[..], 16, tag)
  {
    hide PackBig, PackBig16, IsSealed, Says, HasWord;
    var header := PackBig16(srcPort) + PackBig16(destPort) + PackBig(0) + [0, 0, 0, 0] + [INIT_CHUNK, 0];
    var chunk := PackBig(tag) + PackBig(106496) + PackBig16(10) + PackBig16(65535) + PackBig(initialTsn);
    var sctpHdr := header + PackBig16(0) + chunk;
    data := new bv8[|sctpHdr|](i requires 0 <= i < |sctpHdr| => sctpHdr[i]);
    assert data[..] == sctpHdr;
    var chunkLength := data.Length - 12;
    assert data[..14] == header && data[16..] == chunk;
    PackInto(data, 14, PackBig16(chunkLength as bv16));
    assert data[..] == header + PackBig16(20) + chunk;
    assert data[8..12] == header[8..12] == [0, 0, 0, 0];
    Seal(data);
    InitSays(data[..], srcPort, destPort, tag, initialTsn);
  }

  method BuildAbortPacket(srcPort: bv16, destPort: bv16, verificationTag: bv32) returns (data: array<bv8>)
    ensures fresh(data) && data.Length == 16
    ensures IsSealed(data[..])
    ensures Blanked(data[..]) == PackBig16(srcPort) + PackBig16(destPort) + PackBig(verificationTag) + [0, 0, 0, 0]
                              + [ABORT_CHUNK, 1] + PackBig16(4)
    ensures Says(data[..], srcPort, destPort, verificationTag, [6, 1, 0, 4])
  {
    hide PackBig, PackBig16, IsSealed;
    var header := PackBig16(srcPort) + PackBig16(destPort) + PackBig(verificationTag) + [0, 0, 0, 0];
    var sctpHdr := header + [ABORT_CHUNK, 1] + PackBig16(4);
    data := new bv8[|sctpHdr|](i requires 0 <= i < |sctpHdr| => sctpHdr[i]);
    assert data[..] == sctpHdr;
    assert data[8..12] == header[8..12] == [0, 0, 0, 0];
    Seal(data);
    SmallWords();
    SaysWhatIsPacked(data[..], srcPort, destPort, verificationTag, [6, 1, 0, 4], []);
  }

  datatype Family = Inet | Inet6

  /** The False of the program is NotOurs; an empty IPv4 datagram is an index error there. */
  datatype Decoded = IndexError | NotOurs | Response(chunk: bv8)

  function Decode(data: seq<bv8>, family: Family, expectedTag: bv32): Decoded {
    if family == Inet && data == [] then IndexError
    else
      var offset := if family == Inet then 4 * ((data[0] & 0xF) as nat) else 0;
      if |data| - offset < 16 then NotOurs
      else if UnpackBig(data[offset + 4..offset + 8]) != expectedTag then NotOurs
      else Response(data[offset + 12])
  }

  lemma UnpackOfPack(w: bv32)
    ensures UnpackBig(PackBig(w)) == w
  {
  }

  /** Decoding what a peer sends back: behind any IPv4 header of the length its
      first byte announces, or behind none for IPv6, the packet is taken as an
      answer exactly when its tag is the expected one, and then its chunk type is returned. */
  lemma DecodeFindsChunk(ip: seq<bv8>, family: Family, ports: seq<bv8>, tag: bv32, rest: seq<bv8>, expectedTag: bv32)
    requires family == Inet ==> ip != [] && |ip| == 4 * ((ip[0] & 0xF) as nat)
    requires family == Inet6 ==> ip == []
    requires |ports| == 4 && |rest| >= 8
    ensures Decode(ip + ports + PackBig(tag) + rest, family, expectedTag)
         == if tag == expectedTag then Response(rest[4]) else NotOurs
  {
    hide PackBig, UnpackBig;
    var data := ip + ports + PackBig(tag) + rest;
    assert data[|ip| + 4..|ip| + 8] == PackBig(tag);
    assert data[|ip| + 12] == rest[4];
    UnpackOfPack(tag);
  }

  /** Fewer than sixteen bytes behind the header are no answer. */
  lemma ShortIsRefused(ip: seq<bv8>, family: Family, packet: seq<bv8>, expectedTag: bv32)
    requires family == Inet ==> ip != [] && |ip| == 4 * ((ip[0] & 0xF) as nat)
    requires family == Inet6 ==> ip == []
    requires |packet| < 16
    ensures Decode(ip + packet, family, expectedTag) == NotOurs
  {
  }
}

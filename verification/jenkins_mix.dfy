/**
 The mixing functions of the Jenkins hash (jenkins_hash.c). A uint32_t is an integer below
 2^32 and every operation wraps.
 */
module JenkinsMix {
  import opened Common

  const M: nat := 0x1_0000_0000

  type Word = x: int | 0 <= x < M

  datatype Abc = Abc(a: Word, b: Word, c: Word)

  function Add(x: Word, y: Word): Word {
    if x + y < M then x + y else x + y - M
  }

  function Sub(x: Word, y: Word): Word {
    if x >= y then x - y else x - y + M
  }

  // ------------------------------------------------- exclusive or

  function Bit(x: nat, y: nat): (r: nat)
    ensures r < 2
  {
    if x % 2 == y % 2 then 0 else 1
  }

  lemma LowBit(p: nat, q: nat)
    requires p < 2
    ensures (p + 2 * q) / 2 == q && (p + 2 * q) % 2 == p
  {
  }

  function XorBits(x: nat, y: nat): nat {
    if x == 0 && y == 0 then 0 else Bit(x, y) + 2 * XorBits(x / 2, y / 2)
  }

  lemma BitTwice(x: nat, y: nat, z: nat)
    requires z % 2 == Bit(x, y)
    ensures Bit(z, y) + 2 * (x / 2) == x
  {
  }

  lemma XorUnfold(x: nat, y: nat)
    ensures XorBits(x, y) == Bit(x, y) + 2 * XorBits(x / 2, y / 2)
  {
    assert XorBits(0, 0) == 0;
  }

  lemma XorParts(x: nat, y: nat)
    ensures XorBits(x, y) % 2 == Bit(x, y) && XorBits(x, y) / 2 == XorBits(x / 2, y / 2)
  {
    XorUnfold(x, y);
    LowBit(Bit(x, y), XorBits(x / 2, y / 2));
  }

  lemma {:induction false} XorBitsTwice(x: nat, y: nat)
    ensures XorBits(XorBits(x, y), y) == x
    decreases x + y
  {
    if x != 0 || y != 0 {
      XorBitsTwice(x / 2, y / 2);
      XorParts(x, y);
      var z := XorBits(x, y);
      XorUnfold(z, y);
      BitTwice(x, y, z);
    }
  }

  lemma {:induction false} XorBitsBound(x: nat, y: nat, bound: nat, k: nat)
    requires x < bound && y < bound && bound == Pow2(k)
    ensures XorBits(x, y) < bound
    decreases k
  {
    if k > 0 && (x != 0 || y != 0) {
      XorBitsBound(x / 2, y / 2, Pow2(k - 1), k - 1);
    }
  }

  lemma WordSize()
    ensures Pow2(32) == M
  {
    assert Pow2(8) == 0x100 && Pow2(16) == 0x1_0000 && Pow2(24) == 0x100_0000;
  }

  function Xor(x: Word, y: Word): Word {
    WordSize();
    XorBitsBound(x, y, M, 32);
    XorBits(x, y)
  }

  lemma XorTwice(x: Word, y: Word)
    ensures Xor(Xor(x, y), y) == x
  {
    XorBitsTwice(x, y);
  }

  // ------------------------------------------------- mix and its inverse

  /** `(x << k) ^ (x >> (32 - k))`, where 2^k is `up` and 2^(32 - k) is `down`. */
  function Rot(x: Word, up: nat, down: nat): Word
    requires up > 0 && down > 0
  {
    Xor((x * up) % M, x / down)
  }

  function Rot4(x: Word): Word { Rot(x, 0x10, 0x1000_0000) }
  function Rot6(x: Word): Word { Rot(x, 0x40, 0x400_0000) }
  function Rot8(x: Word): Word { Rot(x, 0x100, 0x100_0000) }
  function Rot11(x: Word): Word { Rot(x, 0x800, 0x20_0000) }
  function Rot14(x: Word): Word { Rot(x, 0x4000, 0x4_0000) }
  function Rot16(x: Word): Word { Rot(x, 0x1_0000, 0x1_0000) }
  function Rot19(x: Word): Word { Rot(x, 0x8_0000, 0x2000) }
  function Rot24(x: Word): Word { Rot(x, 0x100_0000, 0x100) }
  function Rot25(x: Word): Word { Rot(x, 0x200_0000, 0x80) }

  /** The three shapes of a line of mix, such as `a -= c; a ^= rot(c, k); c += b`. */
  function MixA(t: Abc, rot: Word -> Word): Abc {
    Abc(Xor(Sub(t.a, t.c), rot(t.c)), t.b, Add(t.c, t.b))
  }

  function MixB(t: Abc, rot: Word -> Word): Abc {
    Abc(Add(t.a, t.c), Xor(Sub(t.b, t.a), rot(t.a)), t.c)
  }

  function MixC(t: Abc, rot: Word -> Word): Abc {
    Abc(t.a, Add(t.b, t.a), Xor(Sub(t.c, t.b), rot(t.b)))
  }

  function UnmixA(t: Abc, rot: Word -> Word): Abc {
    var c := Sub(t.c, t.b);
    Abc(Add(Xor(t.a, rot(c)), c), t.b, c)
  }

  function UnmixB(t: Abc, rot: Word -> Word): Abc {
    var a := Sub(t.a, t.c);
    Abc(a, Add(Xor(t.b, rot(a)), a), t.c)
  }

  function UnmixC(t: Abc, rot: Word -> Word): Abc {
    var b := Sub(t.b, t.a);
    Abc(t.a, b, Add(Xor(t.c, rot(b)), b))
  }

  function Mix(t: Abc): Abc {
    MixC(MixB(MixA(MixC(MixB(MixA(t, Rot4), Rot6), Rot8), Rot16), Rot19), Rot4)
  }

  function Unmix(t: Abc): Abc {
    UnmixA(UnmixB(UnmixC(UnmixA(UnmixB(UnmixC(t, Rot4), Rot19), Rot16), Rot8), Rot6), Rot4)
  }

  lemma StepsBack(t: Abc, rot: Word -> Word)
    ensures UnmixA(MixA(t, rot), rot) == t && UnmixB(MixB(t, rot), rot) == t && UnmixC(MixC(t, rot), rot) == t
  {
    XorTwice(Sub(t.a, t.c), rot(t.c));
    XorTwice(Sub(t.b, t.a), rot(t.a));
    XorTwice(Sub(t.c, t.b), rot(t.b));
  }

  lemma StepsForth(t: Abc, rot: Word -> Word)
    ensures MixA(UnmixA(t, rot), rot) == t && MixB(UnmixB(t, rot), rot) == t && MixC(UnmixC(t, rot), rot) == t
  {
    XorTwice(t.a, rot(Sub(t.c, t.b)));
    XorTwice(t.b, rot(Sub(t.a, t.c)));
    XorTwice(t.c, rot(Sub(t.b, t.a)));
  }

  /** mix is a bijection on triples: it has a two-sided inverse. */
  lemma MixIsBijective(t: Abc)
    ensures Unmix(Mix(t)) == t && Mix(Unmix(t)) == t
  {
    UnmixMix(t);
    MixUnmix(t);
  }

  lemma UnmixMix(t: Abc)
    ensures Unmix(Mix(t)) == t
  {
    var t1 := MixA(t, Rot4);
    var t2 := MixB(t1, Rot6);
    var t3 := MixC(t2, Rot8);
    var t4 := MixA(t3, Rot16);
    var t5 := MixB(t4, Rot19);
    StepsBack(t5, Rot4);
    StepsBack(t4, Rot19);
    StepsBack(t3, Rot16);
    StepsBack(t2, Rot8);
    StepsBack(t1, Rot6);
    StepsBack(t, Rot4);
  }

  lemma MixUnmix(t: Abc)
    ensures Mix(Unmix(t)) == t
  {
    var t1 := UnmixC(t, Rot4);
    var t2 := UnmixB(t1, Rot19);
    var t3 := UnmixA(t2, Rot16);
    var t4 := UnmixC(t3, Rot8);
    var t5 := UnmixB(t4, Rot6);
    StepsForth(t5, Rot4);
    StepsForth(t4, Rot6);
    StepsForth(t3, Rot8);
    StepsForth(t2, Rot16);
    StepsForth(t1, Rot19);
    StepsForth(t, Rot4);
  }

  /** final. */
  function Final(t: Abc): Abc {
    var c1 := Sub(Xor(t.c, t.b), Rot14(t.b));
    var a1 := Sub(Xor(t.a, c1), Rot11(c1));
    var b1 := Sub(Xor(t.b, a1), Rot25(a1));
    var c2 := Sub(Xor(c1, b1), Rot16(b1));
    var a2 := Sub(Xor(a1, c2), Rot4(c2));
    var b2 := Sub(Xor(b1, a2), Rot14(a2));
    Abc(a2, b2, Sub(Xor(c2, b2), Rot24(b2)))
  }
}

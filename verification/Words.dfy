/** The arithmetic of MT19937 on 32-bit words. */
module Words {

  function Sum(x: bv32, y: bv32): bv32 { x ^ y }

  /** The top bit of one word and the other bits of the next. */
  function MixBits(s0: bv32, s1: bv32): bv32 { (s0 & 0x8000_0000) | (s1 & 0x7fff_ffff) }

  function Shift(x: bv32): bv32 { x >> 1 }

  function Magic(s: bv32): bv32 { if s & 1 == 0 then 0 else 0x9908_b0df }

  function Twist(m: bv32, s0: bv32, s1: bv32): bv32 {
    Sum(Sum(m, Shift(MixBits(s0, s1))), Magic(s1))
  }

  // The four steps of the tempering.

  function Shift1(s: bv32): bv32 { s >> 11 }
  function Shift2(s: bv32): bv32 { (s << 7) & 0x9d2c_5680 }
  function Shift3(s: bv32): bv32 { (s << 15) & 0xefc6_0000 }
  function Shift4(s: bv32): bv32 { s >> 18 }

  function Temper(s: bv32): bv32 {
    var a := Sum(s, Shift1(s));
    var b := Sum(a, Shift2(a));
    var c := Sum(b, Shift3(b));
    Sum(c, Shift4(c))
  }

  /** One step of the initialisation by a single word (Knuth's multiplier). */
  function Stir(r: bv32, i: bv32): bv32 {
    Scatter(r) + i
  }

  function Scatter(r: bv32): bv32 { 1812433253 * (r ^ (r >> 30)) }

  // Twisting and tempering are linear over the two-element field, so that their values at single bits say all.

  lemma SumAssociates(x: bv32, y: bv32, z: bv32)
    ensures Sum(Sum(x, y), z) == Sum(x, Sum(y, z))
  {}

  lemma SumCommutes(x: bv32, y: bv32)
    ensures Sum(x, y) == Sum(y, x)
  {}

  lemma Exchange(x: bv32, y: bv32, z: bv32, w: bv32)
    ensures Sum(Sum(x, y), Sum(z, w)) == Sum(Sum(x, z), Sum(y, w))
  {
    hide *;
    SumAssociates(x, y, Sum(z, w));
    SumAssociates(y, z, w);
    SumCommutes(y, z);
    SumAssociates(z, y, w);
    SumAssociates(x, z, Sum(y, w));
  }

  lemma MixLinear(s0: bv32, s1: bv32, t0: bv32, t1: bv32)
    ensures MixBits(Sum(s0, t0), Sum(s1, t1)) == Sum(MixBits(s0, s1), MixBits(t0, t1))
  {}

  lemma ShiftLinear(x: bv32, y: bv32)
    ensures Shift(Sum(x, y)) == Sum(Shift(x), Shift(y))
  {}

  lemma LowBit(s: bv32, t: bv32)
    ensures Sum(s, t) & 1 == 0 <==> (s & 1 == 0 <==> t & 1 == 0)
  {
    assert s & 1 == 0 || s & 1 == 1;
    assert t & 1 == 0 || t & 1 == 1;
    assert (s ^ t) & 1 == (s & 1) ^ (t & 1);
  }

  lemma MagicLinear(s: bv32, t: bv32)
    ensures Magic(Sum(s, t)) == Sum(Magic(s), Magic(t))
  {
    LowBit(s, t);
  }

  lemma TwistLinear(m: bv32, s0: bv32, s1: bv32, m': bv32, t0: bv32, t1: bv32)
    ensures Twist(Sum(m, m'), Sum(s0, t0), Sum(s1, t1)) == Sum(Twist(m, s0, s1), Twist(m', t0, t1))
  {
    hide Sum, MixBits, Shift, Magic;
    var x, y := MixBits(s0, s1), MixBits(t0, t1);
    MixLinear(s0, s1, t0, t1);
    ShiftLinear(x, y);
    MagicLinear(s1, t1);
    Exchange(m, m', Shift(x), Shift(y));
    Exchange(Sum(m, Shift(x)), Sum(m', Shift(y)), Magic(s1), Magic(t1));
  }

  lemma TwistFirst(w: bv32)
    ensures Twist(w, 0, 0) == w
  {}

  lemma TwistSecond(w: bv32)
    ensures Twist(0, 0x8000_0000, 0) == 0x4000_0000 && Twist(0, w & 0x7fff_ffff, 0) == 0
  {}

  lemma TwistThird(w: bv32)
    ensures Twist(0, 0, 1) == 0x9908_b0df && Twist(0, 0, 0x8000_0000) == 0
    ensures Twist(0, 0, w & 0x7fff_fffe) == (w & 0x7fff_fffe) >> 1
  {}

  lemma ShiftsLinear(s: bv32, t: bv32)
    ensures Shift1(Sum(s, t)) == Sum(Shift1(s), Shift1(t)) && Shift4(Sum(s, t)) == Sum(Shift4(s), Shift4(t))
  {}

  lemma LeftShiftsLinear(s: bv32, t: bv32)
    ensures Shift2(Sum(s, t)) == Sum(Shift2(s), Shift2(t)) && Shift3(Sum(s, t)) == Sum(Shift3(s), Shift3(t))
  {}

  lemma TemperLinear(s: bv32, t: bv32)
    ensures Temper(Sum(s, t)) == Sum(Temper(s), Temper(t))
  {
    hide Sum, Shift1, Shift2, Shift3, Shift4;
    var a, a' := Sum(s, Shift1(s)), Sum(t, Shift1(t));
    ShiftsLinear(s, t);
    Exchange(s, t, Shift1(s), Shift1(t));
    var b, b' := Sum(a, Shift2(a)), Sum(a', Shift2(a'));
    LeftShiftsLinear(a, a');
    Exchange(a, a', Shift2(a), Shift2(a'));
    var c, c' := Sum(b, Shift3(b)), Sum(b', Shift3(b'));
    LeftShiftsLinear(b, b');
    Exchange(b, b', Shift3(b), Shift3(b'));
    ShiftsLinear(c, c');
    Exchange(c, c', Shift4(c), Shift4(c'));
  }

  lemma TemperValues()
    ensures Temper(0x0000_0001) == 0x0040_0091 && Temper(0x0000_0002) == 0x0000_0002 && Temper(0x0000_0004) == 0x0102_0244 && Temper(0x0000_0008) == 0x0204_0489
    ensures Temper(0x0000_0010) == 0x0000_0010 && Temper(0x0000_0020) == 0x0800_1220 && Temper(0x0000_0040) == 0x0000_0040 && Temper(0x0000_0080) == 0x2040_4890
    ensures Temper(0x0000_0100) == 0x0080_0120 && Temper(0x0000_0200) == 0x0100_0240 && Temper(0x0000_0400) == 0x0200_0480 && Temper(0x0000_0800) == 0x0444_0990
    ensures Temper(0x0000_1000) == 0x0808_1200 && Temper(0x0000_2000) == 0x0102_2244 && Temper(0x0000_4000) == 0x2224_4c81 && Temper(0x0000_8000) == 0x4000_9010
    ensures Temper(0x0001_0000) == 0x8801_3220 && Temper(0x0002_0000) == 0x0102_0000 && Temper(0x0004_0000) == 0x2044_4891 && Temper(0x0008_0000) == 0x0488_0022
    ensures Temper(0x0010_0000) == 0x0910_0044 && Temper(0x0020_0000) == 0x1220_0088 && Temper(0x0040_0000) == 0x0444_0911 && Temper(0x0080_0000) == 0x0888_1222
    ensures Temper(0x0100_0000) == 0x8100_0040 && Temper(0x0200_0000) == 0x2220_4888 && Temper(0x0400_0000) == 0x4400_9100 && Temper(0x0800_0000) == 0x8801_2200
    ensures Temper(0x1000_0000) == 0x1102_0440 && Temper(0x2000_0000) == 0x2004_0801 && Temper(0x4000_0000) == 0x4408_1102 && Temper(0x8000_0000) == 0x8810_2204
  {}

  /** The first words after the seed 5489 are those of the reference implementation. */
  lemma StirValues()
    ensures Stir(5489, 1) == 1301868182 && Stir(1301868182, 2) == 2938499221 && Stir(2938499221, 3) == 2950281878
    ensures Stir(2950281878, 4) == 1875628136 && Stir(0, 0) == 0 && Stir(1, 0) == 1812433253
  {}

  /** The smallest 2^k - 1 that is not below n. */
  function Used(n: bv32): bv32 {
    var a := n | (n >> 1);
    var b := a | (a >> 2);
    var c := b | (b >> 4);
    var d := c | (c >> 8);
    d | (d >> 16)
  }

  function Cut(draw: bv32, n: bv32): bv32 { draw & Used(n) }

  predicate Beyond(i: bv32, n: bv32) { i > n }

  /** Cutting a draw to the used bits of n loses no number in 0 .. n, and half of Used(n) is below n, so that at least
      half of the numbers it can leave are in 0 .. n. */
  lemma UsedBits(n: bv32, i: bv32)
    ensures i <= n ==> i & Used(n) == i
    ensures i & Used(n) <= Used(n) && (n == 0 || Used(n) >> 1 < n)
  {}
}

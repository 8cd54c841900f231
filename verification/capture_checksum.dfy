/** The checksum of a capture: a shift register over 32 bits that detects every change of a single byte. */
module CaptureChecksum {
  import opened Bytes

  /** One step of the register as the code computes it. */
  function BitStep(crc: bv32): bv32 {
    (crc >> 1) ^ (0xEDB8_8320 & ((!((crc & 1) - 1)) ^ 0xFFFF_FFFF))
  }

  lemma BitStepInjective(a: bv32, b: bv32)
    requires BitStep(a) == BitStep(b)
    ensures a == b
  {}

  function BitSteps(crc: bv32, n: nat): bv32 {
    if n == 0 then crc else BitStep(BitSteps(crc, n - 1))
  }

  lemma {:induction false} BitStepsInjective(a: bv32, b: bv32, n: nat)
    requires BitSteps(a, n) == BitSteps(b, n)
    ensures a == b
  {
    hide BitStep;
    if n > 0 {
      BitStepInjective(BitSteps(a, n - 1), BitSteps(b, n - 1));
      BitStepsInjective(a, b, n - 1);
    }
  }

  predicate Odd(n: nat) { n % 2 == 1 }

  function Flag(on: bool, value: bv32): bv32 { if on then value else 0 }

  function Spread(a: bool, b: bool, c: bool, d: bool, e: bool, f: bool, g: bool, h: bool): bv32 {
    Flag(a, 1) | Flag(b, 2) | Flag(c, 4) | Flag(d, 8) | Flag(e, 16) | Flag(f, 32) | Flag(g, 64) | Flag(h, 128)
  }

  /** A byte widened to 32 bits, bit by bit. */
  function Wide(byte: u8): bv32 {
    var n := byte as nat;
    var n1 := n / 2; var n2 := n1 / 2; var n3 := n2 / 2; var n4 := n3 / 2; var n5 := n4 / 2; var n6 := n5 / 2;
        var n7 := n6 / 2;
    Spread(Odd(n), Odd(n1), Odd(n2), Odd(n3), Odd(n4), Odd(n5), Odd(n6), Odd(n7))
  }

  function Place(on: bool, value: nat): nat { if on then value else 0 }

  /** The number that the low eight bits of a word stand for. */
  function LowByte(w: bv32): nat {
    Place(w & 1 != 0, 1) + Place(w & 2 != 0, 2) + Place(w & 4 != 0, 4) + Place(w & 8 != 0, 8)
    + Place(w & 16 != 0, 16) + Place(w & 32 != 0, 32) + Place(w & 64 != 0, 64) + Place(w & 128 != 0, 128)
  }

  /** Widening keeps the value of the byte and sets no other bit. */
  lemma WideKeepsValue(byte: u8)
    ensures LowByte(Wide(byte)) == byte as nat && Wide(byte) & 0xFFFF_FF00 == 0
  {
    hide Odd, Place, Spread, LowByte;
    var n := byte as nat;
    var n1 := n / 2; var n2 := n1 / 2; var n3 := n2 / 2; var n4 := n3 / 2;
    var n5 := n4 / 2; var n6 := n5 / 2; var n7 := n6 / 2;
    assert Wide(byte) == Spread(Odd(n), Odd(n1), Odd(n2), Odd(n3), Odd(n4), Odd(n5), Odd(n6), Odd(n7));
    SpreadLow(Odd(n), Odd(n1), Odd(n2), Odd(n3), Odd(n4), Odd(n5), Odd(n6), Odd(n7));
    Digits(n);
  }

  lemma SpreadLow(a: bool, b: bool, c: bool, d: bool, e: bool, f: bool, g: bool, h: bool)
    ensures LowByte(Spread(a, b, c, d, e, f, g, h))
         == Place(a, 1) + Place(b, 2) + Place(c, 4) + Place(d, 8) + Place(e, 16) + Place(f, 32) + Place(g, 64)
            + Place(h, 128)
    ensures Spread(a, b, c, d, e, f, g, h) & 0xFFFF_FF00 == 0
  {
    hide Place, Spread;
    SpreadBits(a, b, c, d, e, f, g, h);
  }

  lemma Digits(n: nat)
    requires n < 256
    ensures var n1 := n / 2; var n2 := n1 / 2; var n3 := n2 / 2; var n4 := n3 / 2;
            var n5 := n4 / 2; var n6 := n5 / 2; var n7 := n6 / 2;
            n == Place(Odd(n), 1) + Place(Odd(n1), 2) + Place(Odd(n2), 4) + Place(Odd(n3), 8) + Place(Odd(n4), 16)
                 + Place(Odd(n5), 32) + Place(Odd(n6), 64) + Place(Odd(n7), 128)
  {
    FourDigits(n);
    FourDigits(n / 2 / 2 / 2 / 2);
    Small(n);
    hide Odd, Place;
  }

  lemma FourDigits(n: nat)
    ensures var n1 := n / 2; var n2 := n1 / 2; var n3 := n2 / 2;
            n == Place(Odd(n), 1) + Place(Odd(n1), 2) + Place(Odd(n2), 4) + Place(Odd(n3), 8) + 16 * (n3 / 2)
    ensures forall on :: Place(on, 16) == 16 * Place(on, 1) && Place(on, 32) == 16 * Place(on, 2)
    ensures forall on :: Place(on, 64) == 16 * Place(on, 4) && Place(on, 128) == 16 * Place(on, 8)
  {
    var n1 := n / 2; var n2 := n1 / 2; var n3 := n2 / 2;
    hide Odd;
    Digit(n); Digit(n1); Digit(n2); Digit(n3);
  }

  lemma Digit(n: nat)
    ensures n == Place(Odd(n), 1) + 2 * (n / 2)
  {}

  lemma SpreadBits(a: bool, b: bool, c: bool, d: bool, e: bool, f: bool, g: bool, h: bool)
    ensures var w := Spread(a, b, c, d, e, f, g, h);
            && (w & 1 != 0 <==> a) && (w & 2 != 0 <==> b) && (w & 4 != 0 <==> c) && (w & 8 != 0 <==> d)
            && (w & 16 != 0 <==> e) && (w & 32 != 0 <==> f) && (w & 64 != 0 <==> g) && (w & 128 != 0 <==> h)
            && w & 0xFFFF_FF00 == 0
  {}

  lemma HalfBound(n: nat, bound: nat)
    requires n < 2 * bound
    ensures n / 2 < bound
  {}

  lemma Small(n: nat)
    requires n < 256
    ensures n / 2 / 2 / 2 / 2 / 2 / 2 / 2 / 2 == 0
  {
    HalfBound(n, 128);
    HalfBound(n / 2, 64);
    HalfBound(n / 2 / 2, 32);
    HalfBound(n / 2 / 2 / 2, 16);
    HalfBound(n / 2 / 2 / 2 / 2, 8);
    HalfBound(n / 2 / 2 / 2 / 2 / 2, 4);
    HalfBound(n / 2 / 2 / 2 / 2 / 2 / 2, 2);
  }

  lemma WideInjective(x: u8, y: u8)
    requires Wide(x) == Wide(y)
    ensures x == y
  {
    hide Wide, LowByte;
    WideKeepsValue(x);
    WideKeepsValue(y);
  }

  lemma XorInjective(a: bv32, b: bv32, x: bv32)
    ensures a ^ x == b ^ x ==> a == b
    ensures x ^ a == x ^ b ==> a == b
  {}

  function Mix(crc: bv32, byte: u8): bv32 { crc ^ Wide(byte) }

  lemma MixSameByte(a: bv32, b: bv32, x: u8)
    requires Mix(a, x) == Mix(b, x)
    ensures a == b
  {
    hide Wide;
    XorInjective(a, b, Wide(x));
  }

  lemma MixSameState(a: bv32, x: u8, y: u8)
    requires Mix(a, x) == Mix(a, y)
    ensures x == y
  {
    hide Wide;
    XorInjective(Wide(x), Wide(y), a);
    WideInjective(x, y);
  }

  function ByteStep(crc: bv32, byte: u8): bv32 {
    BitSteps(Mix(crc, byte), 8)
  }

  /** With one argument fixed, the step is injective in the other. */
  lemma ByteStepInjective(a: bv32, b: bv32, x: u8, y: u8)
    requires ByteStep(a, x) == ByteStep(b, y)
    ensures x == y ==> a == b
    ensures a == b ==> x == y
  {
    hide Mix, BitSteps;
    BitStepsInjective(Mix(a, x), Mix(b, y), 8);
    if x == y {
      MixSameByte(a, b, x);
    }
    if a == b {
      MixSameState(a, x, y);
    }
  }

  function Register(data: seq<u8>): bv32 {
    if data == [] then 0xFFFF_FFFF else ByteStep(Register(data[..|data| - 1]), data[|data| - 1])
  }

  lemma {:induction false} RegisterDiffers(data: seq<u8>, i: nat, b: u8)
    requires i < |data| && data[i] != b
    ensures Register(data[i := b]) != Register(data)
  {
    hide ByteStep;
    var n := |data| - 1;
    var other := data[i := b];
    if i == n {
      assert other[..n] == data[..n];
    } else {
      RegisterDiffers(data[..n], i, b);
      assert other[..n] == data[..n][i := b];
    }
    if Register(other) == Register(data) {
      ByteStepInjective(Register(other[..n]), Register(data[..n]), other[n], data[n]);
    }
  }

  function Complement(crc: bv32): nat { (!crc) as nat }

  function Checksum(data: seq<u8>): nat { Complement(Register(data)) }

  lemma ChecksumBound(data: seq<u8>)
    ensures Checksum(data) < U32
  {}

  lemma BackFrom32(x: bv32)
    ensures ((x as int) as bv32) == x
  {}

  lemma ComplementInjective(a: bv32, b: bv32)
    requires Complement(a) == Complement(b)
    ensures a == b
  {
    BackFrom32(!a);
    BackFrom32(!b);
    assert !(!a) == a && !(!b) == b;
  }

  /** Changing one byte changes the checksum. */
  lemma OneByteChangesChecksum(data: seq<u8>, i: nat, b: u8)
    requires i < |data| && data[i] != b
    ensures Checksum(data[i := b]) != Checksum(data)
  {
    hide Register, Complement;
    RegisterDiffers(data, i, b);
    if Checksum(data[i := b]) == Checksum(data) {
      ComplementInjective(Register(data[i := b]), Register(data));
    }
  }

  method ComputeChecksum(data: seq<u8>) returns (sum: nat)
    ensures sum == Checksum(data)
  {
    hide Mix, BitStep, Complement;
    var crc: bv32 := 0xFFFF_FFFF;
    for i := 0 to |data|
      invariant crc == Register(data[..i])
    {
      crc := Mix(crc, data[i]);
      ghost var before := crc;
      for k := 0 to 8
        invariant crc == BitSteps(before, k)
      {
        crc := BitStep(crc);
      }
      assert data[..i + 1][..i] == data[..i];
    }
    assert data[..|data|] == data;
    return Complement(crc);
  }

  // ----- The CRC-32 of IEEE 802.3

  const POLYNOMIAL: bv32 := 0xEDB8_8320

  function Xor(a: bv32, b: bv32): bv32 { a ^ b }

  function Half(crc: bv32): bv32 { crc >> 1 }

  predicate Low(crc: bv32) { crc & 1 == 1 }

  /** One step of the reflected CRC-32: the polynomial goes in when the low bit is set. */
  function IeeeStep(crc: bv32): bv32 {
    Xor(Half(crc), Flag(Low(crc), POLYNOMIAL))
  }

  function IeeeSteps(crc: bv32, n: nat): bv32 {
    if n == 0 then crc else IeeeStep(IeeeSteps(crc, n - 1))
  }

  function IeeeRegister(data: seq<u8>): bv32 {
    if data == [] then 0xFFFF_FFFF else IeeeSteps(Mix(IeeeRegister(data[..|data| - 1]), data[|data| - 1]), 8)
  }

  function IeeeChecksum(data: seq<u8>): nat { Complement(IeeeRegister(data)) }

  lemma XorAssociates(a: bv32, b: bv32, c: bv32)
    ensures Xor(Xor(a, b), c) == Xor(a, Xor(b, c))
  {}

  lemma XorCommutes(a: bv32, b: bv32)
    ensures Xor(a, b) == Xor(b, a)
  {}

  lemma XorCancels(a: bv32)
    ensures Xor(a, a) == 0 && Xor(a, 0) == a
  {}

  lemma Regroup(a: bv32, b: bv32, c: bv32, d: bv32)
    ensures Xor(Xor(a, b), Xor(c, d)) == Xor(Xor(a, c), Xor(b, d))
  {
    hide Xor;
    XorAssociates(a, b, Xor(c, d));
    XorAssociates(b, c, d);
    XorCommutes(b, c);
    XorAssociates(c, b, d);
    XorAssociates(a, c, Xor(b, d));
  }

  /** The code puts the polynomial in on the other value of the low bit. */
  lemma StepsDiffer(crc: bv32)
    ensures BitStep(crc) == Xor(IeeeStep(crc), POLYNOMIAL)
  {
    assert crc & 1 == 0 || crc & 1 == 1;
  }

  lemma HalfLinear(a: bv32, b: bv32)
    ensures Half(Xor(a, b)) == Xor(Half(a), Half(b))
  {}

  lemma LowLinear(a: bv32, b: bv32)
    ensures Low(Xor(a, b)) <==> Low(a) != Low(b)
  {}

  lemma FlagLinear(p: bool, q: bool, v: bv32)
    ensures Flag(p != q, v) == Xor(Flag(p, v), Flag(q, v))
  {
    hide Xor;
    XorCancels(v);
    XorCancels(0);
    XorCommutes(0, v);
  }

  /** The IEEE step is linear. */
  lemma IeeeLinear(a: bv32, b: bv32)
    ensures IeeeStep(Xor(a, b)) == Xor(IeeeStep(a), IeeeStep(b))
  {
    hide Xor, Half, Low, Flag;
    HalfLinear(a, b);
    LowLinear(a, b);
    FlagLinear(Low(a), Low(b), POLYNOMIAL);
    Regroup(Half(a), Half(b), Flag(Low(a), POLYNOMIAL), Flag(Low(b), POLYNOMIAL));
  }

  /** How far the two registers are apart after `n` steps from the same state. */
  function Delta(n: nat): bv32 {
    if n == 0 then 0 else BitStep(Delta(n - 1))
  }

  lemma StepApart(a: bv32, d: bv32)
    ensures BitStep(Xor(a, d)) == Xor(IeeeStep(a), BitStep(d))
  {
    hide Xor, IeeeStep, BitStep;
    StepsDiffer(Xor(a, d));
    StepsDiffer(d);
    IeeeLinear(a, d);
    XorAssociates(IeeeStep(a), IeeeStep(d), POLYNOMIAL);
  }

  lemma {:induction false} StepsApart(a: bv32, m: nat, n: nat)
    ensures BitSteps(Xor(a, Delta(m)), n) == Xor(IeeeSteps(a, n), Delta(m + n))
  {
    hide Xor, IeeeStep, BitStep;
    if n > 0 {
      StepsApart(a, m, n - 1);
      StepApart(IeeeSteps(a, n - 1), Delta(m + n - 1));
    }
  }

  lemma MixIsXor(a: bv32, byte: u8)
    ensures Mix(a, byte) == Xor(a, Wide(byte))
  {
    hide Wide;
  }

  lemma MixApart(a: bv32, d: bv32, byte: u8)
    ensures Mix(Xor(a, d), byte) == Xor(Mix(a, byte), d)
  {
    hide Xor, Wide, Mix;
    MixIsXor(Xor(a, d), byte);
    MixIsXor(a, byte);
    XorAssociates(a, d, Wide(byte));
    XorCommutes(d, Wide(byte));
    XorAssociates(a, Wide(byte), d);
  }

  /** The registers differ by an amount that depends on the length of the data alone. */
  lemma {:induction false} RegistersApart(data: seq<u8>)
    ensures Register(data) == Xor(IeeeRegister(data), Delta(8 * |data|))
  {
    hide Xor, BitSteps, IeeeSteps, Mix;
    if data == [] {
      XorCancels(0xFFFF_FFFF);
    } else {
      var n := |data| - 1;
      var before := IeeeRegister(data[..n]);
      RegistersApart(data[..n]);
      MixApart(before, Delta(8 * n), data[n]);
      StepsApart(Mix(before, data[n]), 8 * n, 8);
    }
  }

  lemma XorZero(a: bv32, d: bv32)
    ensures Xor(a, d) == a <==> d == 0
  {}

  /** The code's checksum is that of IEEE 802.3 exactly for the lengths at which the registers meet again. */
  lemma IeeeExactly(data: seq<u8>)
    ensures Checksum(data) == IeeeChecksum(data) <==> Delta(8 * |data|) == 0
    ensures data == [] ==> Checksum(data) == IeeeChecksum(data)
  {
    assert Delta(0) == 0;
    hide Xor, Register, IeeeRegister, Delta, Complement;
    RegistersApart(data);
    XorZero(IeeeRegister(data), Delta(8 * |data|));
    if Checksum(data) == IeeeChecksum(data) {
      ComplementInjective(Register(data), IeeeRegister(data));
    }
  }

  /** After one byte the registers are apart. */
  lemma ApartAfterOneByte()
    ensures Delta(8) == 0x2D02_EF8D
  {
    assert BitStep(0) == 0xEDB8_8320;
    assert BitStep(0xEDB8_8320) == 0x9B64_C2B0;
    assert BitStep(0x9B64_C2B0) == 0xA00A_E278;
    assert BitStep(0xA00A_E278) == 0xBDBD_F21C;
    assert BitStep(0xBDBD_F21C) == 0xB366_7A2E;
    assert BitStep(0xB366_7A2E) == 0xB40B_BE37;
    assert BitStep(0xB40B_BE37) == 0x5A05_DF1B;
    assert BitStep(0x5A05_DF1B) == 0x2D02_EF8D;
    hide BitStep;
    assert Delta(1) == 0xEDB8_8320 && Delta(2) == 0x9B64_C2B0 && Delta(3) == 0xA00A_E278;
    assert Delta(4) == 0xBDBD_F21C && Delta(5) == 0xB366_7A2E && Delta(6) == 0xB40B_BE37;
    assert Delta(7) == 0x5A05_DF1B;
  }

  /** No input of one byte has its IEEE checksum. */
  lemma OneByteNotIeee(byte: u8)
    ensures Checksum([byte]) != IeeeChecksum([byte])
  {
    hide Checksum, IeeeChecksum, Delta;
    ApartAfterOneByte();
    IeeeExactly([byte]);
  }

  lemma {:induction false} DeltaContinues(m: nat, n: nat)
    ensures Delta(m + n) == BitSteps(Delta(m), n)
  {
    hide BitStep;
    if n > 0 {
      DeltaContinues(m, n - 1);
    }
  }

  lemma {:induction false} DeltaIsSteps(n: nat)
    ensures Delta(n) == BitSteps(0, n)
  {
    hide BitStep;
    if n > 0 {
      DeltaIsSteps(n - 1);
    }
  }

  /** Where the checksum agrees with IEEE, it agrees again exactly at lengths that are as much longer. */
  lemma AgreementRepeats(data: seq<u8>, more: seq<u8>)
    requires Checksum(data) == IeeeChecksum(data)
    ensures Checksum(data + more) == IeeeChecksum(data + more) <==> Checksum(more) == IeeeChecksum(more)
  {
    hide Checksum, IeeeChecksum, Delta, BitSteps;
    IeeeExactly(data);
    IeeeExactly(more);
    IeeeExactly(data + more);
    DeltaContinues(8 * |data|, 8 * |more|);
    DeltaIsSteps(8 * |more|);
  }

  /** So the two never agree at two lengths in a row. */
  lemma NeverTwiceInARow(data: seq<u8>, longer: seq<u8>)
    requires Checksum(data) == IeeeChecksum(data) && |longer| == |data| + 1
    ensures Checksum(longer) != IeeeChecksum(longer)
  {
    hide Checksum, IeeeChecksum, Delta;
    var start, byte := longer[..|data|], longer[|data|];
    assert longer == start + [byte];
    IeeeExactly(data);
    IeeeExactly(start);
    AgreementRepeats(start, [byte]);
    OneByteNotIeee(byte);
  }
}

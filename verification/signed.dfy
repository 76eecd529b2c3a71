/** Two's-complement reinterpretation (`CallAnalyzer.to_signed`) and the
    immediate-call target arithmetic the lifters are measured against. */
module Signed {
  import opened ByteFmt

  function Pow2(n: nat): (r: nat)
    ensures r >= 1
  {
    if n == 0 then 1 else 2 * Pow2(n - 1)
  }

  lemma {:induction false} Pow2Add(m: nat, n: nat)
    ensures Pow2(m + n) == Pow2(m) * Pow2(n)
    decreases m
  {
    if m > 0 {
      Pow2Add(m - 1, n);
      assert Pow2(m + n) == 2 * Pow2(m - 1 + n);
    }
  }

  /** A bit width: BAP integer literals have at least one bit. */
  type Width = b: nat | b >= 1 witness 1

  /** `to_signed(val, bitness)`: `val` read as a `bitness`-bit two's-complement
      number, computed as `(val + 2^(b-1)) % 2^b - 2^(b-1)` with Python's
      floored `%` (which agrees with Dafny's for a positive modulus). */
  function ToSigned(v: int, bits: Width): (r: int)
    ensures -(Half(bits) as int) <= r < Half(bits)
    ensures (v - r) % Pow2(bits) == 0
  {
    var r := (v + Half(bits)) % Pow2(bits) - Half(bits);
    ToSignedFacts(v, bits, r);
    r
  }

  /** 2^(bits-1), the bound of the signed range. */
  function Half(bits: Width): (h: nat)
    ensures h >= 1 && Pow2(bits) == 2 * h
  {
    Pow2(bits - 1)
  }

  lemma ToSignedFacts(v: int, bits: Width, r: int)
    requires r == (v + Half(bits)) % Pow2(bits) - Half(bits)
    ensures -(Half(bits) as int) <= r < Half(bits)
    ensures (v - r) % Pow2(bits) == 0
  {
    ShiftedMod(v, Half(bits), Pow2(bits), r);
  }

  /** The same facts for any modulus `m` and shift `h`. */
  lemma ShiftedMod(v: int, h: int, m: int, r: int)
    requires m >= 1 && r == (v + h) % m - h
    ensures -h <= r < m - h
    ensures (v - r) % m == 0
  {
    var x := v + h;
    DivMod(x, m);
    var q := x / m;
    assert v - r == m * q;
    MultipleMod(m, q);
  }

  lemma DivMod(x: int, m: int)
    requires m >= 1
    ensures x == m * (x / m) + x % m
    ensures 0 <= x % m < m
  {
  }

  lemma MultipleMod(m: nat, q: int)
    requires m >= 1
    ensures (m * q) % m == 0
  {
    var x := m * q;
    assert x == m * q + 0;
    ModUnique(x, m, q, 0);
  }

  /** Euclidean division is unique. */
  lemma ModUnique(x: int, m: nat, q: int, rem: int)
    requires m >= 1 && 0 <= rem < m && x == m * q + rem
    ensures x % m == rem && x / m == q
  {
    var q' := x / m;
    var r' := x % m;
    assert x == m * q' + r';
    if q' > q {
      assert m * q' >= m * (q + 1) by { MulMonotone(m, q + 1, q'); }
    } else if q' < q {
      assert m * q >= m * (q' + 1) by { MulMonotone(m, q' + 1, q); }
    }
  }

  lemma MulMonotone(m: nat, a: int, b: int)
    requires a <= b
    ensures m * a <= m * b
  {
  }

  /** `to_signed` picks the only value of its range congruent to the input. */
  lemma {:induction false} ToSignedUnique(v: int, bits: Width, r: int)
    requires -(Half(bits) as int) <= r < Half(bits)
    requires (v - r) % Pow2(bits) == 0
    ensures r == ToSigned(v, bits)
  {
    var m := Pow2(bits);
    var s := ToSigned(v, bits);
    var qa := (v - r) / m;
    var qb := (v - s) / m;
    assert v - r == m * qa;
    assert v - s == m * qb;
    assert s - r == m * (qa - qb);
    if qa - qb >= 1 {
      MulMonotone(m, 1, qa - qb);
    } else if qa - qb <= -1 {
      MulMonotone(m, qa - qb, -1);
    }
  }

  /** Values already in range come back unchanged. */
  lemma ToSignedIdentity(v: int, bits: Width)
    requires -(Half(bits) as int) <= v < Half(bits)
    ensures ToSigned(v, bits) == v
  {
    ToSignedUnique(v, bits, v);
  }

  /** On unsigned `bits`-bit inputs, `to_signed` subtracts 2^bits exactly when
      the top bit is set. */
  lemma ToSignedUnsigned(v: int, bits: Width)
    requires 0 <= v < Pow2(bits)
    ensures v >= Half(bits) ==> ToSigned(v, bits) == v - Pow2(bits)
    ensures v < Half(bits) ==> ToSigned(v, bits) == v
  {
    var m := Pow2(bits);
    if v >= Half(bits) {
      assert v - (v - m) == m * 1;
      MultipleMod(m, 1);
      ToSignedUnique(v, bits, v - m);
    } else {
      ToSignedIdentity(v, bits);
    }
  }

  /** Little-endian value of a byte string. */
  function LittleEndian(bs: seq<byte>): nat {
    if |bs| == 0 then 0 else bs[0] as nat + 256 * LittleEndian(bs[1..])
  }

  lemma LittleEndian3(a: byte, b: byte, c: byte)
    ensures LittleEndian([a, b, c]) == a as nat + 0x100 * b as nat + 0x1_0000 * c as nat
  {
    assert [c][1..] == [];
    assert LittleEndian([c]) == c as nat;
    assert [b, c][1..] == [c];
    assert LittleEndian([b, c]) == b as nat + 0x100 * c as nat;
    assert [a, b, c][1..] == [b, c];
  }

  lemma LittleEndian4(a: byte, b: byte, c: byte, d: byte)
    ensures LittleEndian([a, b, c, d]) == a as nat + 0x100 * b as nat + 0x1_0000 * c as nat + 0x100_0000 * d as nat
  {
    assert [a, b, c, d][1..] == [b, c, d];
    LittleEndian3(b, c, d);
  }

  /** x86 `E8 cd` (near relative CALL, Intel SDM Vol. 2A "CALL—Call
      Procedure"): the next instruction's address plus the sign-extended
      32-bit displacement, in a 64-bit address space. */
  function X86CallTarget(insnAddr: nat, insn: seq<byte>): (target: nat)
    requires |insn| == 5 && insn[0] == 0xE8
    ensures target < 0x1_0000_0000_0000_0000
  {
    (insnAddr + 5 + ToSigned(LittleEndian(insn[1..5]), 32)) % 0x1_0000_0000_0000_0000
  }

  /** ARM `BL` (ARM Architecture Reference Manual, "BL, BLX (immediate)"):
      PC (the instruction's address plus 8) plus the sign-extended
      `imm24:'00'`, in a 32-bit address space. */
  function ArmBlTarget(insnAddr: nat, insn: seq<byte>): (target: nat)
    requires |insn| == 4
    ensures target < 0x1_0000_0000
  {
    var imm24 := LittleEndian(insn[..3]);
    (insnAddr + 8 + ToSigned(imm24 * 4, 26)) % 0x1_0000_0000
  }

  lemma Pow2Constants()
    ensures Pow2(8) == 0x100
    ensures Pow2(25) == 0x200_0000 && Pow2(26) == 0x400_0000
    ensures Pow2(31) == 0x8000_0000 && Pow2(32) == 0x1_0000_0000
    ensures Pow2(64) == 0x1_0000_0000_0000_0000
  {
    assert Pow2(4) == 16;
    Pow2Add(4, 4);
    Pow2Add(8, 8);
    Pow2Add(16, 8);
    Pow2Add(24, 1);
    Pow2Add(25, 1);
    Pow2Add(16, 15);
    Pow2Add(16, 16);
    Pow2Add(32, 32);
  }

  /** The two x86-64 calls of the fixtures and the ARM `bl`. */
  const ForwardCall: seq<byte> := [0xE8, 0x2C, 0x13, 0x00, 0x00]
  const BackwardCall: seq<byte> := [0xE8, 0xBE, 0xEC, 0xFF, 0xFF]
  const ArmBl: seq<byte> := [0xC9, 0x04, 0x00, 0xEB]

  /** The forward call of the x86-64 fixture: `call` at offset 6 of a block at
      0 with displacement 0x132c reaches 0x1337. */
  lemma X86ForwardFixture()
    ensures X86CallTarget(0 + 6, ForwardCall) == 0x1337
  {
    ForwardDisplacement();
  }

  lemma ForwardDisplacement()
    ensures ToSigned(LittleEndian(ForwardCall[1..5]), 32) == 0x132c
  {
    assert ForwardCall[1..5] == [0x2C, 0x13, 0x00, 0x00];
    LittleEndian4(0x2C, 0x13, 0x00, 0x00);
    Pow2Constants();
    ToSignedUnsigned(0x132c, 32);
  }

  /** The backward call of the x86-64 fixture: at offset 6 of a block at
      0x266e, `call` with displacement -0x1342 reaches 0x1337. */
  lemma X86BackwardFixture()
    ensures X86CallTarget(0x266e + 6, BackwardCall) == 0x1337
  {
    BackwardDisplacement();
  }

  lemma BackwardDisplacement()
    ensures ToSigned(LittleEndian(BackwardCall[1..5]), 32) == -0x1342
  {
    assert BackwardCall[1..5] == [0xBE, 0xEC, 0xFF, 0xFF];
    LittleEndian4(0xBE, 0xEC, 0xFF, 0xFF);
    Pow2Constants();
    ToSignedUnsigned(0xffff_ecbe, 32);
  }

  /** The ARM fixture: `bl` (bytes c9 04 00 eb) at offset 12 of a block at 0
      reaches 0x1338. */
  lemma ArmBlFixture()
    ensures ArmBlTarget(12, ArmBl) == 0x1338
  {
    ArmDisplacement();
  }

  lemma ArmDisplacement()
    ensures ToSigned(LittleEndian(ArmBl[..3]) * 4, 26) == 0x4c9 * 4
  {
    assert ArmBl[..3] == [0xC9, 0x04, 0x00];
    LittleEndian3(0xC9, 0x04, 0x00);
    Pow2Constants();
    ToSignedUnsigned(0x4c9 * 4, 26);
  }
}

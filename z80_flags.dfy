/**
 * The flag-derivation tables of the Z80 core: four constant 8-entry tables
 * for half carry and overflow, and three 256-entry tables (sign/zero/bit 5/
 * bit 3, parity, and their union) filled once at start-up.
 */
module Z80Flags {
  import opened Timing

  // Bits of the F register (Zilog Z80 CPU User Manual, "Flag Register").
  const FLAG_C: bv8 := 0x01
  const FLAG_N: bv8 := 0x02
  const FLAG_P: bv8 := 0x04
  const FLAG_V: bv8 := 0x04
  const FLAG_3: bv8 := 0x08
  const FLAG_H: bv8 := 0x10
  const FLAG_5: bv8 := 0x20
  const FLAG_Z: bv8 := 0x40
  const FLAG_S: bv8 := 0x80

  // Indexed by `r12`: bit 2 is the result's bit, bit 1 the second argument's,
  // bit 0 the first argument's (bit 3 for half carry, bit 7 for overflow).
  const HalfcarryAddTable: seq<bv8> := [0, FLAG_H, FLAG_H, FLAG_H, 0, 0, 0, FLAG_H]
  const HalfcarrySubTable: seq<bv8> := [0, 0, FLAG_H, 0, FLAG_H, 0, FLAG_H, FLAG_H]
  const OverflowAddTable: seq<bv8> := [0, 0, 0, FLAG_V, FLAG_V, 0, 0, 0]
  const OverflowSubTable: seq<bv8> := [0, FLAG_V, 0, 0, 0, 0, FLAG_V, 0]

  /** The `r12` index built from bit 3 of each argument and of the result. */
  function HalfcarryIndex(arg1: bv8, arg2: bv8, result: bv8): (k: nat)
    ensures k < 8
    ensures k % 2 == 1 <==> arg1 & 0x08 != 0
    ensures (k / 2) % 2 == 1 <==> arg2 & 0x08 != 0
    ensures k >= 4 <==> result & 0x08 != 0
  {
    (if arg1 & 0x08 != 0 then 1 else 0) + (if arg2 & 0x08 != 0 then 2 else 0) + (if result & 0x08 != 0 then 4 else 0)
  }

  /** The `r12` index built from bit 7 of each argument and of the result. */
  function OverflowIndex(arg1: Byte, arg2: Byte, result: Byte): (k: nat)
    ensures k < 8
    ensures k % 2 == 1 <==> arg1 >= 0x80
    ensures (k / 2) % 2 == 1 <==> arg2 >= 0x80
    ensures k >= 4 <==> result >= 0x80
  {
    (if arg1 >= 0x80 then 1 else 0) + (if arg2 >= 0x80 then 2 else 0) + (if result >= 0x80 then 4 else 0)
  }

  /** Two's-complement value of a byte. */
  function Signed8(x: Byte): (v: int)
    ensures -128 <= v < 128
    ensures v >= 0 <==> x < 0x80
  {
    if x < 0x80 then x else x - 0x100
  }

  /** An 8-bit add (with carry in `c`) sets H exactly when the low nibbles
      carry into bit 4. */
  lemma HalfcarryAdd(a: bv8, b: bv8, c: bool)
    ensures var res := a + b + (if c then 1 else 0);
      HalfcarryAddTable[HalfcarryIndex(a, b, res)] == (if (a & 0x0F) + (b & 0x0F) + (if c then 1 else 0) > 0x0F then FLAG_H else 0)
  {
  }

  /** An 8-bit subtract (with borrow in `c`) sets H exactly when the low
      nibble borrows from bit 4. */
  lemma HalfcarrySub(a: bv8, b: bv8, c: bool)
    ensures var res := a - b - (if c then 1 else 0);
      HalfcarrySubTable[HalfcarryIndex(a, b, res)] == (if a & 0x0F < (b & 0x0F) + (if c then 1 else 0) then FLAG_H else 0)
  {
  }

  /** An 8-bit add (with carry in `c`) sets V exactly when the signed sum
      leaves -128..127. */
  lemma OverflowAdd(a: Byte, b: Byte, c: bool)
    ensures var res := (a + b + (if c then 1 else 0)) % 0x100;
      var sum := Signed8(a) + Signed8(b) + (if c then 1 else 0);
      OverflowAddTable[OverflowIndex(a, b, res)] == (if sum < -128 || sum > 127 then FLAG_V else 0)
  {
    var total := a + b + (if c then 1 else 0);
    if total >= 0x100 {
      assert total % 0x100 == total - 0x100;
    } else {
      assert total % 0x100 == total;
    }
  }

  /** An 8-bit subtract (with borrow in `c`) sets V exactly when the signed
      difference leaves -128..127. */
  lemma OverflowSub(a: Byte, b: Byte, c: bool)
    ensures var res := (a - b - (if c then 1 else 0)) % 0x100;
      var diff := Signed8(a) - Signed8(b) - (if c then 1 else 0);
      OverflowSubTable[OverflowIndex(a, b, res)] == (if diff < -128 || diff > 127 then FLAG_V else 0)
  {
    var total := a - b - (if c then 1 else 0);
    if total < 0 {
      assert total % 0x100 == total + 0x100;
    } else {
      assert total % 0x100 == total;
    }
  }

  /** Number of set bits of `n`. */
  function Popcount(n: nat): nat
  {
    if n == 0 then 0 else n % 2 + Popcount(n / 2)
  }

  function Pow2(k: nat): (p: nat)
    ensures p >= 1
  {
    if k == 0 then 1 else 2 * Pow2(k - 1)
  }

  /** A byte has eight bits. */
  lemma ByteWidth()
    ensures Pow2(8) == 0x100
  {
    assert Pow2(2) == 4;
    assert Pow2(4) == 16;
    assert Pow2(6) == 64;
  }

  /** Exclusive or of two single bits. */
  function XorBit(x: nat, y: nat): (z: nat)
    requires x < 2 && y < 2
    ensures z < 2 && (z == 1 <==> x != y)
  {
    if x == y then 0 else 1
  }

  /** The XOR of the low `k` bits of `j`, as the inner loop of the table
      builder accumulates it. */
  function BitParity(j: nat, k: nat): (b: nat)
    ensures b < 2
  {
    if k == 0 then 0 else XorBit(j % 2, BitParity(j / 2, k - 1))
  }

  /** XOR-reducing all the bits of a number gives 1 exactly when it has an odd
      number of set bits. */
  lemma {:induction false} BitParityIsPopcountParity(j: nat, k: nat)
    requires j < Pow2(k)
    ensures BitParity(j, k) == Popcount(j) % 2
  {
    if k == 0 {
      assert j == 0;
    } else {
      BitParityIsPopcountParity(j / 2, k - 1);
      assert Popcount(j) == j % 2 + Popcount(j / 2);
    }
  }

  /** The S, 5 and 3 bits of `i`, masked directly from the byte. */
  function Sz53Bits(i: nat): bv8
    requires i < 0x100
  {
    (i as bv8) & (FLAG_3 | FLAG_5 | FLAG_S)
  }

  /** The entry of the sign/zero/bit 5/bit 3 table for `i`. */
  function Sz53Entry(i: nat): bv8
    requires i < 0x100
  {
    if i == 0 then Sz53Bits(i) | FLAG_Z else Sz53Bits(i)
  }

  /** The entry of the parity table for `i`: P for an even number of set bits. */
  function ParityEntry(i: nat): bv8
  {
    if Popcount(i) % 2 == 0 then FLAG_P else 0
  }

  /** The entry of the combined table for `i`. */
  function Sz53pEntry(i: nat): bv8
    requires i < 0x100
  {
    if i == 0 then Sz53Bits(i) | ParityEntry(i) | FLAG_Z else Sz53Bits(i) | ParityEntry(i)
  }

  /** The combined table is the union of the other two, Z included at index 0;
      only S, Z, 5, 3 and P can ever be set. */
  lemma CombinedTableIsUnion(i: nat)
    requires i < 0x100
    ensures Sz53pEntry(i) == Sz53Entry(i) | ParityEntry(i)
    ensures Sz53Entry(i) & (FLAG_C | FLAG_N | FLAG_P | FLAG_H) == 0
    ensures Sz53pEntry(i) & FLAG_Z != 0 <==> i == 0
    ensures Sz53Entry(i) & FLAG_S == (i as bv8) & 0x80
  {
  }

  /** XOR-reduces the eight bits of `i` one at a time, as the inner loop of
      the table builder does: the result is 1 for an odd number of set bits. */
  method ByteParity(i: nat) returns (p: nat)
    requires i < 0x100
    ensures p == Popcount(i) % 2
  {
    ghost var whole := BitParity(i, 8);
    var j := i;
    p := 0;
    var k := 0;
    while k < 8
      invariant 0 <= k <= 8 && p < 2
      invariant XorBit(p, BitParity(j, 8 - k)) == whole
    {
      p := XorBit(p, j % 2);
      j := j / 2;
      k := k + 1;
    }
    assert p == whole;
    ByteWidth();
    BitParityIsPopcountParity(i, 8);
  }

  /** Fills the three 256-entry tables, as the processor does once at start-up. */
  method InitTables(sz53: array<bv8>, parity: array<bv8>, sz53p: array<bv8>)
    requires sz53.Length == 0x100 && parity.Length == 0x100 && sz53p.Length == 0x100
    requires sz53 != parity && sz53 != sz53p && parity != sz53p
    modifies sz53, parity, sz53p
    ensures forall i :: 0 <= i < 0x100 ==> sz53[i] == Sz53Entry(i)
    ensures forall i :: 0 <= i < 0x100 ==> parity[i] == ParityEntry(i)
    ensures forall i :: 0 <= i < 0x100 ==> sz53p[i] == Sz53pEntry(i)
  {
    var i := 0;
    while i < 0x100
      invariant 0 <= i <= 0x100
      invariant forall n :: 0 <= n < i ==> sz53[n] == Sz53Bits(n)
      invariant forall n :: 0 <= n < i ==> parity[n] == ParityEntry(n)
      invariant forall n :: 0 <= n < i ==> sz53p[n] == Sz53Bits(n) | ParityEntry(n)
    {
      var bits := Sz53Bits(i);
      sz53[i] := bits;
      var p := ByteParity(i);
      var par := if p != 0 then 0 else FLAG_P;
      parity[i] := par;
      sz53p[i] := bits | par;
      i := i + 1;
    }
    sz53[0] := sz53[0] | FLAG_Z;
    sz53p[0] := sz53p[0] | FLAG_Z;
  }
}

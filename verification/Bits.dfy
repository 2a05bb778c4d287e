/** Bits of unsigned words, and the kernel's find-first-set. */
module Bits {

  /** Bit n of v. */
  predicate Bit(v: nat, n: nat) {
    if n == 0 then v % 2 == 1 else Bit(v / 2, n - 1)
  }

  /** v | (1 << n) */
  function SetBit(v: nat, n: nat): nat {
    if n == 0 then v - v % 2 + 1 else 2 * SetBit(v / 2, n - 1) + v % 2
  }

  /** v & ~(1 << n) */
  function ClearBit(v: nat, n: nat): nat {
    if n == 0 then v - v % 2 else 2 * ClearBit(v / 2, n - 1) + v % 2
  }

  function Pow2(n: nat): (p: nat)
    ensures 0 < p
  {
    if n == 0 then 1 else 2 * Pow2(n - 1)
  }

  lemma {:induction false} SetBitBits(v: nat, n: nat, k: nat)
    ensures Bit(SetBit(v, n), k) <==> k == n || Bit(v, k)
  {
    if n > 0 && k > 0 {
      SetBitBits(v / 2, n - 1, k - 1);
    }
  }

  lemma {:induction false} ClearBitBits(v: nat, n: nat, k: nat)
    ensures Bit(ClearBit(v, n), k) <==> k != n && Bit(v, k)
  {
    if n > 0 && k > 0 {
      ClearBitBits(v / 2, n - 1, k - 1);
    }
  }

  lemma {:induction false} SetBitBound(v: nat, n: nat, w: nat)
    requires v < Pow2(w) && n < w
    ensures SetBit(v, n) < Pow2(w)
  {
    if n > 0 {
      SetBitBound(v / 2, n - 1, w - 1);
    }
  }

  lemma {:induction false} ClearBitBound(v: nat, n: nat)
    ensures ClearBit(v, n) <= v
  {
    if n > 0 {
      ClearBitBound(v / 2, n - 1);
    }
  }

  lemma {:induction false} ZeroHasNoBits(k: nat)
    ensures !Bit(0, k)
  {
    if k > 0 {
      ZeroHasNoBits(k - 1);
    }
  }

  lemma {:induction false} NonzeroHasABit(v: nat) returns (k: nat)
    requires v != 0
    ensures Bit(v, k)
  {
    if v % 2 == 1 {
      k := 0;
    } else {
      k := NonzeroHasABit(v / 2);
      k := k + 1;
    }
  }

  /** The index of the least set bit. */
  function LowestBit(v: nat): (k: nat)
    requires v != 0
    ensures Bit(v, k)
    ensures forall j: nat | j < k :: !Bit(v, j)
  {
    if v % 2 == 1 then 0 else
    var k := LowestBit(v / 2) + 1;
    assert forall j: nat | 0 < j < k :: Bit(v, j) == Bit(v / 2, j - 1);
    k
  }

  // ---------- whole words ----------

  /** a & b */
  function And(a: nat, b: nat): nat {
    if a == 0 || b == 0 then 0
    else 2 * And(a / 2, b / 2) + if a % 2 == 1 && b % 2 == 1 then 1 else 0
  }

  /** a | b */
  function Or(a: nat, b: nat): nat {
    if a == 0 then b
    else if b == 0 then a
    else 2 * Or(a / 2, b / 2) + if a % 2 == 1 || b % 2 == 1 then 1 else 0
  }

  /** a & ~b */
  function AndNot(a: nat, b: nat): nat {
    if a == 0 || b == 0 then a
    else 2 * AndNot(a / 2, b / 2) + if a % 2 == 1 && b % 2 == 0 then 1 else 0
  }

  /** Every bit of a is a bit of b. */
  predicate Within(a: nat, b: nat) {
    And(a, b) == a
  }

  /** And, Or and AndNot are bitwise. */
  lemma {:induction false} WordBits(a: nat, b: nat, k: nat)
    ensures Bit(And(a, b), k) <==> Bit(a, k) && Bit(b, k)
    ensures Bit(Or(a, b), k) <==> Bit(a, k) || Bit(b, k)
    ensures Bit(AndNot(a, b), k) <==> Bit(a, k) && !Bit(b, k)
  {
    ZeroHasNoBits(k);
    if k > 0 && a != 0 && b != 0 {
      WordBits(a / 2, b / 2, k - 1);
    }
  }

  /** They stay within the width of their arguments. */
  lemma {:induction false} WordBound(a: nat, b: nat, w: nat)
    requires a < Pow2(w) && b < Pow2(w)
    ensures And(a, b) < Pow2(w) && Or(a, b) < Pow2(w) && AndNot(a, b) < Pow2(w)
  {
    if a != 0 && b != 0 {
      WordBound(a / 2, b / 2, w - 1);
    }
  }

  lemma {:induction false} AndCommutes(a: nat, b: nat)
    ensures And(a, b) == And(b, a)
  {
    if a != 0 && b != 0 {
      AndCommutes(a / 2, b / 2);
    }
  }

  lemma {:induction false} AndIsWithin(a: nat, b: nat)
    ensures Within(And(a, b), a) && Within(And(a, b), b) && Within(a, a)
  {
    if a != 0 && b != 0 {
      AndIsWithin(a / 2, b / 2);
    } else if a != 0 {
      AndIsWithin(a / 2, b);
    }
  }

  lemma {:induction false} OrHolds(a: nat, b: nat)
    ensures Within(a, Or(a, b))
  {
    if a != 0 && b != 0 {
      OrHolds(a / 2, b / 2);
    } else {
      AndIsWithin(a, a);
    }
  }

  lemma {:induction false} AndNotIsWithin(a: nat, b: nat)
    ensures Within(AndNot(a, b), a)
    ensures And(AndNot(a, b), b) == 0
    ensures Or(AndNot(a, b), And(a, b)) == a
  {
    if a != 0 && b != 0 {
      AndNotIsWithin(a / 2, b / 2);
    } else {
      AndIsWithin(a, a);
    }
  }

  /** What is within a and meets x, meets x in a. */
  lemma {:induction false} WithinMeets(x: nat, a: nat, b: nat)
    requires Within(a, b)
    ensures Within(And(x, a), And(x, b))
  {
    if x != 0 && a != 0 {
      WithinMeets(x / 2, a / 2, b / 2);
    }
  }

  lemma {:induction false} WithinChain(a: nat, b: nat, c: nat)
    requires Within(a, b) && Within(b, c)
    ensures Within(a, c)
  {
    if a != 0 {
      WithinChain(a / 2, b / 2, c / 2);
    }
  }

  lemma {:induction false} WithinCleared(x: nat, a: nat, b: nat)
    requires Within(x, AndNot(a, b))
    ensures And(x, b) == 0
  {
    if x != 0 && b != 0 {
      WithinCleared(x / 2, a / 2, b / 2);
    }
  }

  // ---------- __rt_ffs ----------

  /** __lowest_bit_bitmap, sixteen entries to a row. */
  const LOWEST_BIT_BITMAP: seq<seq<nat>> := [
    [0, 0, 1, 0, 2, 0, 1, 0, 3, 0, 1, 0, 2, 0, 1, 0],
    [4, 0, 1, 0, 2, 0, 1, 0, 3, 0, 1, 0, 2, 0, 1, 0],
    [5, 0, 1, 0, 2, 0, 1, 0, 3, 0, 1, 0, 2, 0, 1, 0],
    [4, 0, 1, 0, 2, 0, 1, 0, 3, 0, 1, 0, 2, 0, 1, 0],
    [6, 0, 1, 0, 2, 0, 1, 0, 3, 0, 1, 0, 2, 0, 1, 0],
    [4, 0, 1, 0, 2, 0, 1, 0, 3, 0, 1, 0, 2, 0, 1, 0],
    [5, 0, 1, 0, 2, 0, 1, 0, 3, 0, 1, 0, 2, 0, 1, 0],
    [4, 0, 1, 0, 2, 0, 1, 0, 3, 0, 1, 0, 2, 0, 1, 0],
    [7, 0, 1, 0, 2, 0, 1, 0, 3, 0, 1, 0, 2, 0, 1, 0],
    [4, 0, 1, 0, 2, 0, 1, 0, 3, 0, 1, 0, 2, 0, 1, 0],
    [5, 0, 1, 0, 2, 0, 1, 0, 3, 0, 1, 0, 2, 0, 1, 0],
    [4, 0, 1, 0, 2, 0, 1, 0, 3, 0, 1, 0, 2, 0, 1, 0],
    [6, 0, 1, 0, 2, 0, 1, 0, 3, 0, 1, 0, 2, 0, 1, 0],
    [4, 0, 1, 0, 2, 0, 1, 0, 3, 0, 1, 0, 2, 0, 1, 0],
    [5, 0, 1, 0, 2, 0, 1, 0, 3, 0, 1, 0, 2, 0, 1, 0],
    [4, 0, 1, 0, 2, 0, 1, 0, 3, 0, 1, 0, 2, 0, 1, 0]
  ]

  function TableEntry(i: nat): nat
    requires i < 256
  {
    assert |LOWEST_BIT_BITMAP| == 16;
    assert forall r | 0 <= r < 16 :: |LOWEST_BIT_BITMAP[r]| == 16;
    LOWEST_BIT_BITMAP[i / 16][i % 16]
  }

  /** v & (2^w - 1) */
  function LowBits(v: nat, w: nat): (r: nat)
    ensures r < Pow2(w)
  {
    if w == 0 then 0 else 2 * LowBits(v / 2, w - 1) + v % 2
  }

  /** v >> w */
  function ShiftRight(v: nat, w: nat): nat {
    if w == 0 then v else ShiftRight(v / 2, w - 1)
  }

  lemma {:induction false} ShiftRightBound(v: nat, w: nat, n: nat)
    requires v < Pow2(w + n)
    ensures ShiftRight(v, w) < Pow2(n)
  {
    if w > 0 {
      ShiftRightBound(v / 2, w - 1, n);
    }
  }

  lemma {:induction false} ShiftRightTwice(v: nat, w: nat, n: nat)
    ensures ShiftRight(ShiftRight(v, w), n) == ShiftRight(v, w + n)
  {
    if w > 0 {
      ShiftRightTwice(v / 2, w - 1, n);
    }
  }

  /** The least set bit is among the low w bits if one of those is set, and above them otherwise. */
  lemma {:induction false} LowestBitSplit(v: nat, w: nat)
    requires v != 0
    ensures LowBits(v, w) != 0 ==> LowestBit(v) == LowestBit(LowBits(v, w))
    ensures LowBits(v, w) == 0 ==> ShiftRight(v, w) != 0 && LowestBit(v) == w + LowestBit(ShiftRight(v, w))
  {
    if w > 0 {
      var low := LowBits(v / 2, w - 1);
      if v % 2 == 0 {
        LowestBitSplit(v / 2, w - 1);
        assert low != 0 ==> LowestBit(2 * low) == 1 + LowestBit(low) by { Doubling(low); }
      } else {
        assert (2 * low + 1) % 2 == 1;
      }
    }
  }

  lemma Doubling(x: nat)
    ensures (2 * x) % 2 == 0 && (2 * x) / 2 == x
    ensures x != 0 ==> LowestBit(2 * x) == 1 + LowestBit(x)
  {
  }

  lemma PowersUsed()
    ensures Pow2(4) == 16 && Pow2(8) == 256 && Pow2(32) == 0x1_0000_0000
  {
    assert Pow2(4) == 16;
    assert Pow2(8) == 16 * Pow2(4);
    assert Pow2(12) == 16 * Pow2(8);
    assert Pow2(16) == 16 * Pow2(12);
    assert Pow2(20) == 16 * Pow2(16);
    assert Pow2(24) == 16 * Pow2(20);
    assert Pow2(28) == 16 * Pow2(24);
  }

  lemma NibbleOf(i: nat)
    ensures LowBits(i, 4) == i % 16 && ShiftRight(i, 4) == i / 16
  {
    var a := i / 2;
    var b := a / 2;
    var c := b / 2;
    var d := c / 2;
    assert LowBits(c, 1) == c % 2 && ShiftRight(c, 1) == d;
    assert LowBits(b, 2) == 2 * (c % 2) + b % 2 && ShiftRight(b, 2) == d;
    assert LowBits(a, 3) == 2 * LowBits(b, 2) + a % 2 && ShiftRight(a, 3) == d;
  }

  lemma TableColumns(r: nat, j: nat)
    requires r < 16 && 0 < j < 16
    ensures TableEntry(16 * r + j) == LOWEST_BIT_BITMAP[0][j]
  {
    assert (16 * r + j) / 16 == r && (16 * r + j) % 16 == j;
  }

  lemma TableFirstRow(j: nat)
    requires 0 < j < 16
    ensures |LOWEST_BIT_BITMAP| == 16 && |LOWEST_BIT_BITMAP[0]| == 16
    ensures LOWEST_BIT_BITMAP[0][j] == LowestBit(j)
  {
    assert j % 4 == 0 ==> LowestBit(j) == 2 + LowestBit(j / 4);
  }

  lemma TableFirstColumn(r: nat)
    requires 0 < r < 16
    ensures TableEntry(16 * r) == if r % 2 == 1 then 4 else if r % 4 == 2 then 5 else if r % 8 == 4 then 6 else 7
  {
    assert (16 * r) / 16 == r && (16 * r) % 16 == 0;
  }

  lemma LowestBitOfNibble(r: nat)
    requires 0 < r < 16
    ensures LowestBit(r) == if r % 2 == 1 then 0 else if r % 4 == 2 then 1 else if r % 8 == 4 then 2 else 3
  {
    var a := r / 2;
    var b := a / 2;
    var c := b / 2;
    assert c < 2;
    assert r % 8 == 0 ==> LowestBit(c) == 0;
    assert r % 4 == 0 ==> LowestBit(b) == if b % 2 == 1 then 0 else 1;
    assert r % 2 == 0 ==> LowestBit(a) == if a % 2 == 1 then 0 else 1 + LowestBit(b);
  }

  /** The least set bit of a byte, by nibbles. */
  lemma LowestBitByNibble(i: nat, r: nat, j: nat, w: nat)
    requires 0 < i && i == 16 * r + j && j < 16 && w == 4
    ensures j != 0 ==> LowestBit(i) == LowestBit(j)
    ensures j == 0 ==> LowestBit(i) == 4 + LowestBit(r)
  {
    NibbleOf(i);
    assert i % 16 == j && i / 16 == r;
    LowestBitSplit(i, w);
  }

  lemma TableCell(r: nat, j: nat)
    requires r < 16 && j < 16 && 0 < 16 * r + j
    ensures TableEntry(16 * r + j) == LowestBit(16 * r + j)
  {
    LowestBitByNibble(16 * r + j, r, j, 4);
    if j == 0 {
      TableFirstColumn(r);
      LowestBitOfNibble(r);
    } else {
      TableColumns(r, j);
      TableFirstRow(j);
    }
  }

  /** The table holds the index of the least set bit of every byte. */
  lemma TableIsLowestBit(i: nat)
    requires 0 < i < 256
    ensures TableEntry(i) == LowestBit(i)
  {
    hide LowestBit, TableEntry;
    TableCell(i / 16, i % 16);
  }

  /** One byte of the search: the answer is in this byte, or eight bits further up. */
  lemma ByteStep(v: nat)
    requires v != 0
    ensures LowBits(v, 8) < 256
    ensures LowBits(v, 8) != 0 ==> TableEntry(LowBits(v, 8)) == LowestBit(v)
    ensures LowBits(v, 8) == 0 ==> ShiftRight(v, 8) != 0 && LowestBit(v) == 8 + LowestBit(ShiftRight(v, 8))
  {
    PowersUsed();
    LowestBitSplit(v, 8);
    if LowBits(v, 8) != 0 {
      TableIsLowestBit(LowBits(v, 8));
    }
  }

  lemma LastByte(value: nat)
    requires value < 0x1_0000_0000
    ensures ShiftRight(value, 24) < 256
    ensures ShiftRight(ShiftRight(value, 8), 8) == ShiftRight(value, 16)
    ensures ShiftRight(ShiftRight(value, 16), 8) == ShiftRight(value, 24)
  {
    PowersUsed();
    ShiftRightBound(value, 24, 8);
    ShiftRightTwice(value, 8, 8);
    ShiftRightTwice(value, 16, 8);
  }

  /** __rt_ffs on a 32-bit word: one more than the index of the least set bit, or 0 if there is none. */
  method Ffs(value: nat) returns (r: nat)
    requires value < 0x1_0000_0000
    ensures value == 0 <==> r == 0
    ensures value != 0 ==> Bit(value, r - 1) && forall j: nat | j < r - 1 :: !Bit(value, j)
    ensures value != 0 ==> r == LowestBit(value) + 1
  {
    LastByte(value);
    if value == 0 {
      return 0;
    }
    ByteStep(value);
    if LowBits(value, 8) != 0 {
      return TableEntry(LowBits(value, 8)) + 1;
    }
    ByteStep(ShiftRight(value, 8));
    if LowBits(ShiftRight(value, 8), 8) != 0 {
      return TableEntry(LowBits(ShiftRight(value, 8), 8)) + 9;
    }
    ByteStep(ShiftRight(value, 16));
    if LowBits(ShiftRight(value, 16), 8) != 0 {
      return TableEntry(LowBits(ShiftRight(value, 16), 8)) + 17;
    }
    TableIsLowestBit(ShiftRight(value, 24));
    return TableEntry(ShiftRight(value, 24)) + 25;
  }
}

/** Words as natural numbers: single bits, masks, and the find-first-set functions of kservice.c. */
module Bits {

  predicate Bit(v: nat, i: nat) {
    if i == 0 then v % 2 == 1 else Bit(v / 2, i - 1)
  }

  function Pow2(i: nat): (r: nat)
    ensures r >= 1
  {
    if i == 0 then 1 else 2 * Pow2(i - 1)
  }

  function Or(a: nat, b: nat): nat {
    if a == 0 then b
    else 2 * Or(a / 2, b / 2) + (if a % 2 == 1 || b % 2 == 1 then 1 else 0)
  }

  function And(a: nat, b: nat): nat {
    if a == 0 then 0
    else 2 * And(a / 2, b / 2) + (if a % 2 == 1 && b % 2 == 1 then 1 else 0)
  }

  function Xor(a: nat, b: nat): nat {
    if a == 0 then b
    else 2 * Xor(a / 2, b / 2) + (if a % 2 != b % 2 then 1 else 0)
  }

  /** a & ~b */
  function AndNot(a: nat, b: nat): nat {
    if a == 0 then 0
    else 2 * AndNot(a / 2, b / 2) + (if a % 2 == 1 && b % 2 == 0 then 1 else 0)
  }

  lemma {:induction false} ZeroBit(i: nat)
    ensures !Bit(0, i)
  {
    if i > 0 { ZeroBit(i - 1); }
  }

  lemma {:induction false} OrBit(a: nat, b: nat, i: nat)
    ensures Bit(Or(a, b), i) <==> Bit(a, i) || Bit(b, i)
  {
    if a == 0 {
      ZeroBit(i);
    } else if i > 0 {
      OrBit(a / 2, b / 2, i - 1);
      assert Or(a, b) / 2 == Or(a / 2, b / 2);
    }
  }

  lemma {:induction false} AndNotBit(a: nat, b: nat, i: nat)
    ensures Bit(AndNot(a, b), i) <==> Bit(a, i) && !Bit(b, i)
  {
    if a == 0 {
      ZeroBit(i);
    } else if i > 0 {
      AndNotBit(a / 2, b / 2, i - 1);
      assert AndNot(a, b) / 2 == AndNot(a / 2, b / 2);
    }
  }

  lemma {:induction false} Pow2Bit(p: nat, i: nat)
    ensures Bit(Pow2(p), i) <==> i == p
  {
    if p > 0 && i > 0 {
      Pow2Bit(p - 1, i - 1);
      assert Pow2(p) / 2 == Pow2(p - 1);
    } else if p == 0 && i > 0 {
      ZeroBit(i - 1);
    }
  }

  /** Number of the least significant bit that is set. */
  function LowBit(v: nat): nat
    requires v > 0
  {
    if v % 2 == 1 then 0 else 1 + LowBit(v / 2)
  }

  lemma {:induction false} LowBitLeast(v: nat, i: nat)
    requires v > 0
    ensures Bit(v, LowBit(v)) && (i < LowBit(v) ==> !Bit(v, i))
  {
    if v % 2 == 0 { LowBitLeast(v / 2, if i > 0 then i - 1 else 0); }
  }

  // ---------- __rt_ffs, byte table ----------

  /** The 256-entry table, row by row: every row is the same but for its first entry. */
  const ROW: seq<nat> := [0, 0, 1, 0, 2, 0, 1, 0, 3, 0, 1, 0, 2, 0, 1, 0]
  const FIRST: seq<nat> := [0, 4, 5, 4, 6, 4, 5, 4, 7, 4, 5, 4, 6, 4, 5, 4]

  function LowestBitBitmap(b: nat): nat
    requires b < 256
  {
    if b % 16 == 0 then FIRST[b / 16] else ROW[b % 16]
  }

  function Ffs(value: nat): nat
    requires value < 0x1_0000_0000
  {
    if value == 0 then 0
    else if value % 256 != 0 then LowestBitBitmap(value % 256) + 1
    else if value / 256 % 256 != 0 then LowestBitBitmap(value / 256 % 256) + 9
    else if value / 0x1_0000 % 256 != 0 then LowestBitBitmap(value / 0x1_0000 % 256) + 17
    else LowestBitBitmap(value / 0x100_0000 % 256) + 25
  }

  lemma LowBitEven(q: nat)
    requires q > 0
    ensures LowBit(2 * q) == 1 + LowBit(q)
  {
    assert 2 * q / 2 == q && 2 * q % 2 == 0;
  }

  lemma LowBitOdd(q: nat)
    ensures LowBit(2 * q + 1) == 0
  {
  }

  /** Low bits decide as long as one of them is set: below 2, 4, 8 and 16. */
  lemma Below4(q: nat, r: nat)
    requires 0 < r < 4
    ensures LowBit(4 * q + r) == LowBit(r)
  {
    if r == 2 {
      LowBitEven(2 * q + 1);
      LowBitEven(1);
      assert 4 * q + r == 2 * (2 * q + 1);
    } else {
      LowBitOdd(2 * q + r / 2);
      assert 4 * q + r == 2 * (2 * q + r / 2) + 1;
    }
  }

  lemma Below8(q: nat, r: nat)
    requires 0 < r < 8
    ensures LowBit(8 * q + r) == LowBit(r)
  {
    var h := r / 2;
    if r % 2 == 0 {
      assert r == 2 * h && 8 * q + r == 2 * (4 * q + h);
      Below4(q, h);
      LowBitEven(4 * q + h);
      LowBitEven(h);
    } else {
      assert 8 * q + r == 2 * (4 * q + h) + 1;
      LowBitOdd(4 * q + h);
    }
  }

  lemma Below16(q: nat, r: nat)
    requires 0 < r < 16
    ensures LowBit(16 * q + r) == LowBit(r)
  {
    var h := r / 2;
    if r % 2 == 0 {
      assert r == 2 * h && 16 * q + r == 2 * (8 * q + h);
      Below8(q, h);
      LowBitEven(8 * q + h);
      LowBitEven(h);
    } else {
      assert 16 * q + r == 2 * (8 * q + h) + 1;
      LowBitOdd(8 * q + h);
    }
  }

  lemma Shift4(q: nat)
    requires q > 0
    ensures LowBit(16 * q) == 4 + LowBit(q)
  {
    LowBitEven(8 * q);
    LowBitEven(4 * q);
    LowBitEven(2 * q);
    LowBitEven(q);
    assert 16 * q == 2 * (8 * q) && 8 * q == 2 * (4 * q) && 4 * q == 2 * (2 * q);
  }

  /** One nibble of the word decides, or is skipped. */
  lemma NibbleStep(v: nat)
    requires v > 0
    ensures if v % 16 != 0 then LowBit(v) == LowBit(v % 16) else v / 16 > 0 && LowBit(v) == 4 + LowBit(v / 16)
  {
    var q, r := v / 16, v % 16;
    assert v == 16 * q + r;
    if r != 0 { Below16(q, r); } else { Shift4(q); }
  }

  lemma ByteNibbles(v: nat)
    ensures v % 256 % 16 == v % 16 && v % 256 / 16 == v / 16 % 16 && v / 256 == v / 16 / 16
  {
  }

  lemma NibbleTable(b: nat)
    requires 0 < b < 16
    ensures ROW[b] == LowBit(b) && FIRST[b] == 4 + LowBit(b)
  {
  }

  lemma ByteTable(b: nat)
    requires 0 < b < 256
    ensures LowestBitBitmap(b) == LowBit(b)
  {
    NibbleStep(b);
    NibbleTable(if b % 16 == 0 then b / 16 else b % 16);
  }

  /** One byte of the word: found in the table, or skipped. */
  lemma ByteStep(v: nat)
    requires v > 0
    ensures if v % 256 != 0 then LowBit(v) == LowestBitBitmap(v % 256)
            else v / 256 > 0 && LowBit(v) == 8 + LowBit(v / 256)
  {
    ByteNibbles(v);
    NibbleStep(v);
    if v % 256 != 0 {
      ByteTable(v % 256);
      NibbleStep(v % 256);
    }
    if v % 16 == 0 { NibbleStep(v / 16); }
  }

  /** The byte-table form returns 0 for 0 and otherwise one more than the least set bit. */
  lemma FfsCorrect(value: nat)
    requires value < 0x1_0000_0000
    ensures Ffs(value) == if value == 0 then 0 else LowBit(value) + 1
  {
    if value > 0 {
      ByteStep(value);
      if value % 256 == 0 {
        ByteStep(value / 256);
        assert value / 256 / 256 == value / 0x1_0000;
        if value / 256 % 256 == 0 {
          ByteStep(value / 0x1_0000);
          assert value / 0x1_0000 / 256 == value / 0x100_0000;
          if value / 0x1_0000 % 256 == 0 { ByteStep(value / 0x100_0000); }
        }
      }
    }
  }

  // ---------- __rt_ffs, RT_USING_TINY_FFS ----------

  const TINY: seq<nat> :=
    [0, 1, 2, 27, 3, 24, 28, 32, 4, 17, 25, 31, 29, 12, 32, 14, 5, 8, 18, 32, 26, 23, 32, 16,
     30, 11, 13, 7, 32, 22, 15, 10, 6, 21, 9, 20, 19]

  function TinyFfs(value: nat): nat
    requires value < 0x1_0000_0000
  {
    TINY[Xor(And(value, if value == 0 then 0xFFFF_FFFF else value - 1), value) % 37]
  }

  lemma {:induction false} AndSelf(v: nat)
    ensures And(v, v) == v
  {
    if v > 0 { AndSelf(v / 2); }
  }

  lemma {:induction false} XorSelf(v: nat)
    ensures Xor(v, v) == 0
  {
    if v > 0 { XorSelf(v / 2); }
  }

  /** v & (v - 1) ^ v is the least set bit alone. */
  lemma {:induction false} Isolate(v: nat)
    requires v > 0
    ensures Xor(And(v, v - 1), v) == Pow2(LowBit(v))
  {
    if v % 2 == 1 {
      IsolateOdd(v / 2);
      assert v == 2 * (v / 2) + 1;
    } else {
      Isolate(v / 2);
      IsolateEven(v / 2);
      assert v == 2 * (v / 2);
    }
  }

  lemma AndHalves(a: nat, b: nat, x: nat, y: nat)
    requires a > 0 && a / 2 == x && b / 2 == y
    ensures And(a, b) == 2 * And(x, y) + (if a % 2 == 1 && b % 2 == 1 then 1 else 0)
  {
  }

  lemma XorHalves(a: nat, b: nat, x: nat, y: nat)
    requires a > 0 && a / 2 == x && b / 2 == y
    ensures Xor(a, b) == 2 * Xor(x, y) + (if a % 2 != b % 2 then 1 else 0)
  {
  }

  lemma IsolateOdd(h: nat)
    ensures Xor(And(2 * h + 1, 2 * h), 2 * h + 1) == 1
  {
    AndSelf(h);
    XorSelf(h);
    var even, odd := 2 * h, 2 * h + 1;
    assert odd / 2 == h && odd % 2 == 1 && even / 2 == h && even % 2 == 0;
    AndHalves(odd, even, h, h);
    assert And(odd, even) == even;
    if h > 0 {
      XorHalves(even, odd, h, h);
    } else {
      assert Xor(0, 1) == 1;
    }
  }

  lemma IsolateEven(h: nat)
    requires h > 0
    ensures Xor(And(2 * h, 2 * h - 1), 2 * h) == 2 * Xor(And(h, h - 1), h)
  {
    var a := And(h, h - 1);
    AndHalves(2 * h, 2 * h - 1, h, h - 1);
    if a > 0 { XorHalves(2 * a, 2 * h, a, h); }
  }

  lemma {:induction false} LowBitBound(v: nat, k: nat)
    requires 0 < v < Pow2(k)
    ensures LowBit(v) < k
  {
    if v % 2 == 0 { LowBitBound(v / 2, k - 1); }
  }

  /** The residues of the powers of two modulo 37. */
  const RESIDUES: seq<nat> :=
    [1, 2, 4, 8, 16, 32, 27, 17, 34, 31, 25, 13, 26, 15, 30, 23, 9, 18, 36, 35, 33, 29, 21, 5, 10, 20, 3, 6, 12, 24, 11, 22]

  function Residue(k: nat): nat {
    if k == 0 then 1 else 2 * Residue(k - 1) % 37
  }

  lemma {:induction false} PowResidue(k: nat)
    ensures Pow2(k) % 37 == Residue(k)
  {
    if k > 0 {
      PowResidue(k - 1);
      DoubleMod(Pow2(k - 1), Residue(k - 1), Residue(k));
    }
  }

  lemma {:induction false} ResidueTable(k: nat)
    requires k < 32
    ensures Residue(k) == RESIDUES[k]
  {
    if k > 0 {
      ResidueTable(k - 1);
      ResidueDouble(k - 1);
    }
  }

  lemma DoubleMod(x: nat, r: nat, d: nat)
    requires x % 37 == r && d == 2 * r % 37
    ensures 2 * x % 37 == d
  {
    assert x == 37 * (x / 37) + r;
  }

  lemma ResidueDouble(k: nat)
    requires k < 31
    ensures RESIDUES[k + 1] == 2 * RESIDUES[k] % 37 && RESIDUES[0] == 1
  {
  }

  /** The residues of the powers of two modulo 37 are distinct, and the table inverts them. */
  lemma TinyTable(k: nat)
    requires k < 32
    ensures RESIDUES[k] < 37 && TINY[RESIDUES[k]] == k + 1
  {
    if k < 8 { TinyRow(k, 0); } else if k < 16 { TinyRow(k, 8); } else if k < 24 { TinyRow(k, 16); } else { TinyRow(k, 24); }
  }

  lemma TinyRow(k: nat, row: nat)
    requires row in {0, 8, 16, 24} && row <= k < row + 8
    ensures RESIDUES[k] < 37 && TINY[RESIDUES[k]] == k + 1
  {
    var j := k - row;
    assert k == row || k == row + 1 || k == row + 2 || k == row + 3 || k == row + 4 || k == row + 5 || k == row + 6 || k == row + 7;
  }

  lemma WordSize()
    ensures Pow2(32) == 0x1_0000_0000
  {
    assert Pow2(8) == 256;
    assert Pow2(16) == 0x1_0000;
    assert Pow2(24) == 0x100_0000;
  }

  /** Both table forms of __rt_ffs agree on every 32-bit word. */
  lemma TinyFfsCorrect(value: nat)
    requires value < 0x1_0000_0000
    ensures TinyFfs(value) == Ffs(value)
  {
    FfsCorrect(value);
    if value > 0 {
      Isolate(value);
      WordSize();
      LowBitBound(value, 32);
      PowResidue(LowBit(value));
      ResidueTable(LowBit(value));
      TinyTable(LowBit(value));
    }
  }
}

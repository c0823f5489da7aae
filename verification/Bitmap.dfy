/** Single bits of a word: the free-block bitmap of the filesystem (os/rlfs3.c:115-164) tests, sets
    and clears them with masks. */
module Bitmap {
  import opened Words

  predicate TestBit(w: nat, k: nat)
    decreases k
  {
    if k == 0 then w % 2 == 1 else TestBit(w / 2, k - 1)
  }

  function BitAt(w: nat, k: nat): nat {
    if TestBit(w, k) then 1 else 0
  }

  lemma {:induction false} BitsTest(op: BitOp, x: nat, y: nat, n: nat, k: nat)
    requires k < n
    ensures BitAt(Bits(op, x, y, n), k) == Bit(op, BitAt(x, k), BitAt(y, k))
    decreases n
  {
    BitsUnfold(op, x, y, n);
    hide Bits, Bit, TestBit;
    var b, r := Bit(op, x % 2, y % 2), Bits(op, x / 2, y / 2, n - 1);
    Doubled(b, r, k);
    TestUnfold(x, k);
    TestUnfold(y, k);
    if k > 0 {
      BitsTest(op, x / 2, y / 2, n - 1, k - 1);
    }
  }

  lemma TestUnfold(w: nat, k: nat)
    ensures BitAt(w, k) == if k == 0 then w % 2 else BitAt(w / 2, k - 1)
  {
  }

  lemma {:induction false} Doubled(b: nat, r: nat, k: nat)
    requires b < 2
    ensures BitAt(b + 2 * r, k) == if k == 0 then b else BitAt(r, k - 1)
  {
    TestUnfold(b + 2 * r, k);
    hide TestBit;
    assert (b + 2 * r) / 2 == r && (b + 2 * r) % 2 == b;
  }

  lemma {:induction false} Pow2Test(j: nat, k: nat)
    ensures TestBit(Pow2(j), k) <==> j == k
    decreases j + k
  {
    if j == 0 {
      if k > 0 {
        ZeroTest(k - 1);
      }
    } else if k > 0 {
      Pow2Test(j - 1, k - 1);
    }
  }

  lemma {:induction false} ZeroTest(k: nat)
    ensures !TestBit(0, k)
    decreases k
  {
    if k > 0 {
      ZeroTest(k - 1);
    }
  }

  lemma {:induction false} AllClear(w: nat, n: nat)
    requires w < Pow2(n) && forall k | 0 <= k < n :: !TestBit(w, k)
    ensures w == 0
    decreases n
  {
    if n > 0 {
      forall k | 0 <= k < n - 1 ensures !TestBit(w / 2, k) {
        assert !TestBit(w, k + 1);
      }
      AllClear(w / 2, n - 1);
      assert !TestBit(w, 0);
    }
  }

  lemma {:induction false} OnesTest(k: nat)
    requires k < 16
    ensures TestBit(0xffff, k)
  {
    ZeroTest(k);
    ComplementTest(0, k);
  }

  lemma {:induction false} OnesBelow(ones: nat, n: nat, k: nat)
    requires k < n && ones + 1 == Pow2(n)
    ensures TestBit(ones, k)
    decreases n
  {
    assert ones % 2 == 1 && ones / 2 + 1 == Pow2(n - 1);
    if k > 0 {
      OnesBelow(ones / 2, n - 1, k - 1);
    }
  }

  lemma ComplementTest(x: Word, k: nat)
    requires k < 16
    ensures TestBit(0xffff - x, k) == !TestBit(x, k)
  {
    hide Bits, Pow2, TestBit;
    Pow2Of16();
    XorOnes(x, 16);
    BitsTest(Xor, x, 0xffff, 16, k);
    OnesBelow(0xffff, 16, k);
  }

  predicate AllSet(w: Word) {
    forall k | 0 <= k < 16 :: TestBit(w, k)
  }

  /** `w != 0xffff`: some bit is clear. */
  lemma FullIff(w: Word)
    ensures w == 0xffff <==> AllSet(w)
  {
    if w == 0xffff {
      forall k | 0 <= k < 16 ensures TestBit(w, k) {
        OnesTest(k);
      }
    } else if AllSet(w) {
      var c: nat := 0xffff - w;
      forall k | 0 <= k < 16 ensures !TestBit(c, k) {
        ComplementTest(w, k);
      }
      Pow2Of16();
      AllClear(c, 16);
      assert false;
    }
  }

  lemma {:induction false} PowBound(j: nat, n: nat)
    requires j < n
    ensures 0 < Pow2(j) < Pow2(n)
    decreases n
  {
    if j < n - 1 {
      PowBound(j, n - 1);
    } else if j > 0 {
      PowBound(j - 1, j);
    }
  }

  function Mask(j: nat): Word
    requires j < 16
  {
    PowBound(j, 16);
    Pow2Of16();
    Pow2(j)
  }

  /** `(w & (1 << j)) == 0`. */
  predicate MaskedOut(w: Word, j: nat)
    requires j < 16
  {
    BitWord(And, w, Mask(j)) == 0
  }

  /** `w | (1 << j)` or `w & ~(1 << j)`. */
  function Marked(w: Word, j: nat, val: bool): Word
    requires j < 16
  {
    if val then BitWord(Or, w, Mask(j)) else BitWord(And, w, 0xffff - Mask(j))
  }

  lemma {:induction false} MaskedOutIff(w: Word, j: nat)
    requires j < 16
    ensures MaskedOut(w, j) <==> !TestBit(w, j)
  {
    var r := BitWord(And, w, Mask(j));
    BitsTest(And, w, Mask(j), 16, j);
    Pow2Test(j, j);
    if r == 0 {
      ZeroTest(j);
    }
    if !TestBit(w, j) {
      forall k | 0 <= k < 16 ensures !TestBit(r, k) {
        BitsTest(And, w, Mask(j), 16, k);
        Pow2Test(j, k);
      }
      Pow2Of16();
      AllClear(r, 16);
    }
  }

  /** Marking changes one bit and leaves the other fifteen alone. */
  lemma {:induction false} MarkedTest(w: Word, j: nat, val: bool, k: nat)
    requires j < 16 && k < 16
    ensures TestBit(Marked(w, j, val), k) == if k == j then val else TestBit(w, k)
  {
    MaskTest(j, k);
    WordTest(Or, w, Mask(j), k);
    WordTest(And, w, 0xffff - Mask(j), k);
    ComplementTest(Mask(j), k);
    hide TestBit, Mask, BitWord;
  }

  lemma {:induction false} WordTest(op: BitOp, x: Word, y: Word, k: nat)
    requires k < 16
    ensures op == Or ==> (TestBit(BitWord(op, x, y), k) <==> TestBit(x, k) || TestBit(y, k))
    ensures op == And ==> (TestBit(BitWord(op, x, y), k) <==> TestBit(x, k) && TestBit(y, k))
  {
    BitsTest(op, x, y, 16, k);
    hide Bits;
  }

  lemma {:induction false} MaskTest(j: nat, k: nat)
    requires j < 16 && k < 16
    ensures TestBit(Mask(j), k) <==> k == j
  {
    Pow2Test(j, k);
    hide Pow2;
  }
}

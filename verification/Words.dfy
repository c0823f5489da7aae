/** Machine words of the rl_cpu: 16-bit values, two-word values stored low word first, and the
    bitwise operators on them. */
module Words {
  datatype Option<T> = None | Some(value: T)

  const WORD: int := 0x10000
  const DWORD: int := 0x1_0000_0000

  type Word = x: int | 0 <= x < 0x10000

  /** Truncation to 16 bits, also of negative intermediate results. */
  function W(x: int): Word {
    x % 0x10000
  }

  /** The low and the high word of a value, as `res&0xffff` and `(res>>16)&0xffff` take them. */
  function Low(x: int): Word {
    x % 0x10000
  }

  function High(x: int): Word {
    (x / 0x10000) % 0x10000
  }

  function Join(low: Word, high: Word): nat {
    high * 0x10000 + low
  }

  lemma JoinSplit(low: Word, high: Word)
    ensures Low(Join(low, high)) == low && High(Join(low, high)) == high
  {
  }

  lemma SplitJoin(x: int)
    ensures Join(Low(x), High(x)) == x % DWORD
  {
    var q, r := x / DWORD, x % DWORD;
    assert x == q * DWORD + r;
    assert x / 0x10000 == q * 0x10000 + r / 0x10000;
  }

  datatype BitOp = And | Or | Xor

  function Bit(op: BitOp, x: nat, y: nat): nat
    requires x < 2 && y < 2
    ensures Bit(op, x, y) < 2
  {
    match op
    case And => if x == 1 && y == 1 then 1 else 0
    case Or => if x == 1 || y == 1 then 1 else 0
    case Xor => if x == y then 0 else 1
  }

  /** The bitwise operators of C on values of at most n bits. */
  function Bits(op: BitOp, x: nat, y: nat, n: nat): (r: nat)
    decreases n
  {
    if n == 0 then 0 else Bit(op, x % 2, y % 2) + 2 * Bits(op, x / 2, y / 2, n - 1)
  }

  function Pow2(n: nat): (p: nat)
    ensures p > 0
  {
    if n == 0 then 1 else 2 * Pow2(n - 1)
  }

  lemma {:induction false} BitsBound(op: BitOp, x: nat, y: nat, n: nat)
    ensures Bits(op, x, y, n) < Pow2(n)
    decreases n
  {
    if n > 0 {
      BitsBound(op, x / 2, y / 2, n - 1);
    }
  }

  lemma Pow2Of16()
    ensures Pow2(16) == 0x10000
  {
    assert Pow2(4) == 16;
    assert Pow2(8) == 256;
    assert Pow2(12) == 4096;
  }

  lemma Pow2Of32()
    ensures Pow2(32) == 0x1_0000_0000
  {
    Pow2Of16();
    assert Pow2(20) == 16 * Pow2(16);
    assert Pow2(24) == 16 * Pow2(20);
    assert Pow2(28) == 16 * Pow2(24);
  }

  /** `x & y`, `x | y`, `x ^ y` on words. */
  function BitWord(op: BitOp, x: Word, y: Word): Word {
    BitsBound(op, x, y, 16);
    Pow2Of16();
    Bits(op, x, y, 16)
  }

  lemma BitsUnfold(op: BitOp, x: nat, y: nat, n: nat)
    requires n > 0
    ensures Bits(op, x, y, n) == Bit(op, x % 2, y % 2) + 2 * Bits(op, x / 2, y / 2, n - 1)
  {
  }

  lemma Double(h: int, p: int)
    ensures 2 * (h * p) == h * (2 * p)
  {
  }

  /** Exclusive-or with n ones is the complement: what `BCOM` and `NEG` rely on. */
  lemma {:induction false} XorOnes(x: nat, n: nat)
    requires x < Pow2(n)
    ensures Bits(Xor, x, Pow2(n) - 1, n) == Pow2(n) - 1 - x
    decreases n
  {
    if n > 0 {
      XorOnes(x / 2, n - 1);
      var ones := Pow2(n) - 1;
      assert ones == 2 * (Pow2(n - 1) - 1) + 1;
      assert ones / 2 == Pow2(n - 1) - 1 && ones % 2 == 1;
    }
  }

  lemma ComplementWord(x: Word)
    ensures BitWord(Xor, x, 0xffff) == 0xffff - x
  {
    Pow2Of16();
    XorOnes(x, 16);
  }

  lemma {:induction false} DwordBound(op: BitOp, x: nat, y: nat)
    ensures Bits(op, x, y, 32) < DWORD
  {
    BitsBound(op, x, y, 32);
    Pow2Of32();
  }

  lemma {:induction false} ComplementDword(x: nat)
    requires x < DWORD
    ensures Bits(Xor, x, 0xffff_ffff, 32) == 0xffff_ffff - x
  {
    Pow2Of32();
    XorOnes(x, 32);
  }

  lemma MulDistributes(a: int, b: int, p: int)
    ensures (a + b) * p == a * p + b * p
  {
  }

  lemma Grows(k: int, d: int)
    requires k >= 1 && d > 0
    ensures k * d >= d
  {
  }

  lemma QuotientIs(v: int, d: int, q: int, r: int)
    requires d > 0 && v == q * d + r && 0 <= r < d
    ensures v / d == q && v % d == r
  {
    var q1, r1 := v / d, v % d;
    assert v == q1 * d + r1;
    MulDistributes(q, -q1, d);
    MulDistributes(q1 - q, q - q1, d);
    if q - q1 >= 1 {
      Grows(q - q1, d);
    } else if q - q1 <= -1 {
      Grows(q1 - q, d);
    }
  }
}

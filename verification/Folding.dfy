/** What the operators of C mean, said without the functions that the constant folder and the machine share
    (lcc/src/simp.c:6-21, 210-604): both compute it, on every pair of operands. */
module Folding {
  import opened Words
  import opened Bitmap
  import opened Simp

  // ----- division towards zero -----

  /** q is x divided by y, without the part behind the point: below x in size, by less than one divisor. */
  predicate Truncates(x: int, y: int, q: int) {
    && Abs(q) * Abs(y) <= Abs(x) < (Abs(q) + 1) * Abs(y)
    && (q > 0 ==> (x > 0 <==> y > 0))
    && (q < 0 ==> (x > 0 <==> y < 0))
  }

  /** r is what is left: smaller than the divisor, and with the sign of x. */
  ghost predicate Remains(x: int, y: int, r: int) {
    && (exists q :: x == q * y + r)
    && Abs(r) < Abs(y) && (r > 0 ==> x > 0) && (r < 0 ==> x < 0)
  }

  /** There is one such quotient and one such remainder, and the folder's division finds them. */
  lemma QuotTruncates(x: int, y: int)
    requires y != 0
    ensures Truncates(x, y, Quot(x, y)) && Remains(x, y, Rem(x, y)) && x == Quot(x, y) * y + Rem(x, y)
  {
    var a, b := Abs(x), Abs(y);
    var q, r := a / b, a % b;
    assert a == q * b + r && 0 <= r < b;
    hide *;
    MulDistributes(q, 1, b);
    QuotFromParts(x, y, q, r);
  }

  lemma QuotFromParts(x: int, y: int, q: nat, r: nat)
    requires y != 0 && q == Abs(x) / Abs(y) && Abs(x) == q * Abs(y) + r && r < Abs(y)
    requires (q + 1) * Abs(y) == q * Abs(y) + Abs(y)
    ensures Truncates(x, y, Quot(x, y)) && Remains(x, y, Rem(x, y)) && x == Quot(x, y) * y + Rem(x, y)
  {
    var c: int := q;
    assert Quot(x, y) == if (x < 0) == (y < 0) then c else -c;
    SignedProduct(c, y);
    var product := Quot(x, y) * y;
    assert product == if x < 0 then -(c * Abs(y)) else c * Abs(y);
    assert Rem(x, y) == x - product;
    assert x == Quot(x, y) * y + Rem(x, y);
    NothingLess(q, Abs(y));
  }

  lemma SignedProduct(c: int, y: int)
    ensures c * Abs(y) == if y < 0 then -(c * y) else c * y
    ensures (-c) * y == -(c * y)
  {
  }

  lemma NothingLess(q: nat, b: nat)
    requires b > 0
    ensures q > 0 ==> q * b > 0
  {
  }

  lemma TruncatesOnce(x: int, y: int, q: int)
    requires y != 0 && Truncates(x, y, q)
    ensures q == Quot(x, y)
  {
    var a, b, c := Abs(x), Abs(y), Abs(q);
    MulDistributes(c, 1, b);
    QuotientIs(a, b, c, a - c * b);
  }

  lemma RemainsOnce(x: int, y: int, r: int)
    requires y != 0 && Remains(x, y, r)
    ensures r == Rem(x, y)
  {
    QuotTruncates(x, y);
    var q :| x == q * y + r;
    hide *;
    NearRemainders(x, y, r, Rem(x, y));
    DifferentMultiples(Quot(x, y), q, y, x, Rem(x, y), r);
    SmallMultiple(Quot(x, y) - q, y);
  }

  lemma NearRemainders(x: int, y: int, r: int, r1: int)
    requires Remains(x, y, r) && Remains(x, y, r1)
    ensures 0 - Abs(y) < r - r1 < Abs(y)
  {
  }

  lemma DifferentMultiples(q: int, q1: int, y: int, x: int, r: int, r1: int)
    requires x == q * y + r && x == q1 * y + r1
    ensures (q - q1) * y == r1 - r
    ensures q == q1 ==> r == r1
  {
  }

  lemma SmallMultiple(d: int, y: int)
    requires y != 0 && 0 - Abs(y) < d * y < Abs(y)
    ensures d == 0
  {
    SignedProduct(d, y);
    if d > 0 {
      Grows(d, Abs(y));
    } else if d < 0 {
      Grows(-d, Abs(y));
      SignedProduct(-d, y);
    }
  }

  // ----- bits -----

  /** v has exactly the bits below n that the operator makes of the bits of a and b. */
  predicate BitByBit(op: Op, n: nat, a: nat, b: nat, v: nat) {
    && v < Pow2(n)
    && forall k | 0 <= k < n ::
         TestBit(v, k) <==>
         match op
         case BAND => TestBit(a, k) && TestBit(b, k)
         case BOR => TestBit(a, k) || TestBit(b, k)
         case _ => TestBit(a, k) != TestBit(b, k)
  }

  lemma {:induction false} BitsAre(op: Op, n: nat, a: nat, b: nat)
    requires op in {BAND, BOR, BXOR}
    ensures BitByBit(op, n, a, b, Bits(BitsOf(op), a, b, n))
  {
    BitsBound(BitsOf(op), a, b, n);
    forall k | 0 <= k < n
      ensures TestBit(Bits(BitsOf(op), a, b, n), k) <==>
              match op
              case BAND => TestBit(a, k) && TestBit(b, k)
              case BOR => TestBit(a, k) || TestBit(b, k)
              case _ => TestBit(a, k) != TestBit(b, k)
    {
      BitsTest(BitsOf(op), a, b, n, k);
      hide Bits, TestBit;
    }
    hide Bits, TestBit;
  }

  lemma {:induction false} SameBits(n: nat, v: nat, w: nat)
    requires v < Pow2(n) && w < Pow2(n) && forall k | 0 <= k < n :: TestBit(v, k) == TestBit(w, k)
    ensures v == w
    decreases n
  {
    if n > 0 {
      forall k | 0 <= k < n - 1 ensures TestBit(v / 2, k) == TestBit(w / 2, k) {
        assert TestBit(v, k + 1) == TestBit(w, k + 1);
      }
      SameBits(n - 1, v / 2, w / 2);
      assert TestBit(v, 0) == TestBit(w, 0);
    }
  }

  // ----- every operator -----

  /** v is what the operator means for the numbers a and b. */
  ghost predicate Means(op: Op, ty: Ty, a: int, b: int, v: int) {
    match op
    case ADD => v == a + b
    case SUB => v + b == a
    case MUL => v == a * b
    case DIV => b != 0 && Truncates(a, b, v)
    case MOD => b != 0 && Remains(a, b, v)
    case BAND => BitByBit(op, Width(ty), a % M(ty), b % M(ty), v % M(ty))
    case BOR => BitByBit(op, Width(ty), a % M(ty), b % M(ty), v % M(ty))
    case BXOR => BitByBit(op, Width(ty), a % M(ty), b % M(ty), v % M(ty))
    case LSH => b >= 0 && v == a * Pow2(b)
    case RSH => b >= 0 && v * Pow2(b) <= a < (v + 1) * Pow2(b)
    case EQ => v == if a == b then 1 else 0
    case NE => v == if a == b then 0 else 1
    case LT => v == if a < b then 1 else 0
    case LE => v == if b < a then 0 else 1
    case GT => v == if b < a then 1 else 0
    case GE => v == if a < b then 0 else 1
  }

  function RightType(op: Op, ty: Ty): Ty {
    if Shifts(op) then INT else ty
  }

  /** Operands for which C defines the operator. */
  predicate Defined(op: Op, b: int) {
    ((op == DIV || op == MOD) ==> b != 0) && (Shifts(op) ==> b >= 0)
  }

  lemma {:induction false} ShiftedDown(a: int, p: nat, v: int)
    requires p > 0
    ensures v * p <= a < (v + 1) * p <==> v == a / p
  {
    var q, r := a / p, a % p;
    assert a == q * p + r && 0 <= r < p;
    MulDistributes(v, 1, p);
    if v * p <= a < (v + 1) * p {
      QuotientIs(a, p, v, a - v * p);
    }
  }

  /** The host's result for two constants of a type is what the operator means. */
  lemma {:induction false} HostMeans(op: Op, ty: Ty, a: int, b: int)
    requires Defined(op, b)
    ensures Means(op, ty, a, b, Host(op, a, b))
  {
    hide IntBits, Quot, Rem, Truncates, Remains, Pow2, BitByBit;
    match op
    case DIV => QuotTruncates(a, b);
    case MOD => QuotTruncates(a, b);
    case BAND => HostBits(op, ty, a, b);
    case BOR => HostBits(op, ty, a, b);
    case BXOR => HostBits(op, ty, a, b);
    case RSH => ShiftedDown(a, Pow2(b), a / Pow2(b));
    case _ =>
  }

  lemma {:induction false} HostBits(op: Op, ty: Ty, a: int, b: int)
    requires op in {BAND, BOR, BXOR}
    ensures BitByBit(op, Width(ty), a % M(ty), b % M(ty), Host(op, a, b) % M(ty))
  {
    WidthIs(ty);
    IntBitsLow(BitsOf(op), a, b, Width(ty));
    BitsAre(op, Width(ty), a % M(ty), b % M(ty));
    hide IntBits, Bits, Pow2, BitByBit;
  }

  /** There is only one such number, up to the words it stands for. */
  lemma {:induction false} MeansOnce(op: Op, ty: Ty, a: int, b: int, v: int)
    requires Means(op, ty, a, b, v)
    ensures Defined(op, b) && v % M(ty) == Host(op, a, b) % M(ty)
    ensures op !in {BAND, BOR, BXOR} ==> v == Host(op, a, b)
  {
    hide IntBits, Quot, Rem, Truncates, Remains, Pow2, BitByBit, Bits;
    match op
    case DIV => TruncatesOnce(a, b, v);
    case MOD => RemainsOnce(a, b, v);
    case BAND => BitsOnce(op, ty, a, b, v);
    case BOR => BitsOnce(op, ty, a, b, v);
    case BXOR => BitsOnce(op, ty, a, b, v);
    case RSH => ShiftedDown(a, Pow2(b), v);
    case _ =>
  }

  lemma {:induction false} BitsOnce(op: Op, ty: Ty, a: int, b: int, v: int)
    requires op in {BAND, BOR, BXOR} && BitByBit(op, Width(ty), a % M(ty), b % M(ty), v % M(ty))
    ensures v % M(ty) == Host(op, a, b) % M(ty)
  {
    HostBits(op, ty, a, b);
    SameBits(Width(ty), v % M(ty), Host(op, a, b) % M(ty));
  }

  /** On operands of their types host and machine agree. */
  lemma {:induction false} HostIsMachine(op: Op, ty: Ty, a: int, b: int)
    requires Ranged(ty, a) && Ranged(RightType(op, ty), b) && (op == RSH ==> ty.unsigned) && Defined(op, b)
    ensures Apply(op, ty, a % M(ty), b % M(RightType(op, ty))) == Host(op, a, b) % M(if Compares(op) then INT else ty)
  {
    if op in {ADD, SUB, MUL, BAND, BOR, BXOR} {
      hide Apply, Host, M, Ranged;
      FoldRing(op, ty, a, b);
    } else if Shifts(op) {
      ShiftIsMachine(op, ty, a, b);
    } else {
      FoldProper(op, ty, a, b);
      hide Apply, S, Quot, Rem, IntBits;
      if Compares(op) {
        SmallTruth(op, ty, a, b);
      }
    }
  }

  lemma {:induction false} SmallTruth(op: Op, ty: Ty, a: int, b: int)
    requires Compares(op)
    ensures Host(op, a, b) % M(ty) == Host(op, a, b) % M(INT)
  {
  }

  lemma {:induction false} ShiftParts(op: Op, ty: Ty, a: int, b: int)
    requires Ranged(ty, a) && Ranged(INT, b) && (op == RSH ==> ty.unsigned) && Shifts(op) && b >= 0
    ensures b % M(INT) == b && M(ty) > 0
    ensures op == LSH ==> Apply(op, ty, a % M(ty), b) == ((a % M(ty)) * Pow2(b)) % M(ty) && Host(op, a, b) == a * Pow2(b)
    ensures op == RSH ==> Apply(op, ty, a % M(ty), b) == Host(op, a, b) % M(ty)
  {
    if op == RSH {
      var p := Pow2(b);
      hide Pow2;
      assert a % M(ty) == a;
      QuotFacts(a, p);
      assert Whole(a, p) == a / p;
      SmallMod(a / p, M(ty));
    }
  }

  lemma ModTwice(a: int, m: nat)
    requires m > 0
    ensures a % m % m == a % m
  {
  }

  lemma {:induction false} ShiftIsMachine(op: Op, ty: Ty, a: int, b: int)
    requires Ranged(ty, a) && Ranged(INT, b) && (op == RSH ==> ty.unsigned) && Shifts(op) && b >= 0
    ensures Apply(op, ty, a % M(ty), b % M(INT)) == Host(op, a, b) % M(ty)
  {
    ShiftParts(op, ty, a, b);
    hide *;
    if op == LSH {
      MulMod(a, Pow2(b), M(ty));
      MulMod(a % M(ty), Pow2(b), M(ty));
      ModTwice(a, M(ty));
    }
  }

  /** The machine's operation on the words of a and b yields the words of what the operator means for a and b. */
  lemma {:induction false} MachineMeans(op: Op, ty: Ty, a: int, b: int, v: int)
    requires Ranged(ty, a) && Ranged(RightType(op, ty), b) && (op == RSH ==> ty.unsigned) && Means(op, ty, a, b, v)
    ensures Apply(op, ty, a % M(ty), b % M(RightType(op, ty))) == v % M(if Compares(op) then INT else ty)
  {
    MeansOnce(op, ty, a, b, v);
    HostIsMachine(op, ty, a, b);
    hide Means, Apply, Host;
  }

  /** Whatever simplifying makes of an operation on two constants of its types, it stands for the words of what
      the operator means for them. */
  lemma {:induction false} SimplifiedMeans(op: Op, ty: Ty, a: int, b: int, needconst: bool, v: int, env: nat -> nat)
    requires Ranged(ty, a) && Ranged(RightType(op, ty), b) && (op == RSH ==> ty.unsigned) && Means(op, ty, a, b, v)
    ensures var t := Simplify(op, ty, Cnst(ty, a), Cnst(RightType(op, ty), b), needconst);
            Eval(t, env) == v % M(if Compares(op) then INT else ty)
  {
    var l, r := Cnst(ty, a), Cnst(RightType(op, ty), b);
    assert Ok(l) && Ok(r) && Fits(op, ty, TypeOf(l), TypeOf(r));
    assert Eval(l, env) == a % M(ty) && Eval(r, env) == b % M(RightType(op, ty));
    assert Eval(Bin(op, ty, l, r), env) == Apply(op, ty, Eval(l, env), Eval(r, env));
    hide Means, Apply, Ok, Fits, Simplify, M, Ranged;
    MachineMeans(op, ty, a, b, v);
    SimplifyKeepsValue(op, ty, l, r, needconst, env);
  }

  /** A division of signed constants folds to their quotient, a remainder to theirs, except by 0 and for the
      smallest number by -1. */
  lemma {:induction false} DivisionFolds(ty: Ty, a: int, b: int, q: int, r: int)
    requires !ty.unsigned && Ranged(ty, a) && Ranged(ty, b) && b != 0 && !(a == Min(ty) && b == -1)
    requires Truncates(a, b, q) && Remains(a, b, r)
    ensures Simplify(DIV, ty, Cnst(ty, a), Cnst(ty, b), false) == Cnst(ty, q)
    ensures Simplify(MOD, ty, Cnst(ty, a), Cnst(ty, b), false) == Cnst(ty, r)
  {
    TruncatesOnce(a, b, q);
    RemainsOnce(a, b, r);
    QuotTruncates(a, b);
    assert b == 1 ==> q == a;
    hide Quot, Rem, Truncates, Remains;
  }

  lemma {:induction false} MaskOf(ty: Ty, a: nat, b: nat)
    requires ty.unsigned && a < M(ty) && b < M(ty) && Log2(b) > 0
    ensures b == Pow2(Log2(b)) && Host(BAND, a, b - 1) % M(ty) == a % b
  {
    var k := Log2(b);
    hide *;
    WidthIs(ty);
    PowerBelow(k, Width(ty));
    MaskValue(ty, a, k);
    FoldBits(BAND, ty, a, b - 1);
    SmallMod(a, M(ty));
    SmallMod(b - 1, M(ty));
  }

  lemma {:induction false} PowerBelow(k: nat, n: nat)
    requires Pow2(k) < Pow2(n)
    ensures k < n
    decreases n
  {
    if k > 0 && n > 0 {
      PowerBelow(k - 1, n - 1);
    }
  }

  lemma {:induction false} UnsignedQuotient(ty: Ty, a: nat, b: nat)
    requires ty.unsigned && a < M(ty) && 0 < b < M(ty)
    ensures Simplify(DIV, ty, Cnst(ty, a), Cnst(ty, b), false) ==
            if Log2(b) >= Width(ty) / 2 then Bin(RSH, ty, Cnst(ty, a), Cnst(INT, Log2(b))) else Cnst(ty, a / b)
  {
    QuotSigns(a, b);
    QuotFacts(a, b);
    SmallMod(a / b, M(ty));
    hide Quot, Pow2, Log2;
    assert Log2(1) == 0 by { LogOfOne(); }
    assert Log2(b) > 0 ==> b == Pow2(Log2(b));
  }

  lemma LogOfOne()
    ensures Log2(1) == 0
  {
  }

  lemma {:induction false} UnsignedRemainder(ty: Ty, a: nat, b: nat)
    requires ty.unsigned && a < M(ty) && 0 < b < M(ty)
    ensures Simplify(MOD, ty, Cnst(ty, a), Cnst(ty, b), false) == Cnst(ty, a % b)
  {
    QuotSigns(a, b);
    RestFacts(a, b);
    SmallMod(a % b, M(ty));
    if Log2(b) > 0 {
      MaskOf(ty, a, b);
    }
    hide Quot, Pow2, Log2, IntBits;
    SmallMod(b - 1, M(ty));
  }

  /** Unsigned constants too, but for a quotient by a power of two whose exponent is not below half the number of
      bits of the type: that is left as a shift. */
  lemma {:induction false} UnsignedDivisionFolds(ty: Ty, a: nat, b: nat, q: int, r: int)
    requires ty.unsigned && Ranged(ty, a) && Ranged(ty, b) && b > 0
    requires Truncates(a, b, q) && Remains(a, b, r)
    ensures Simplify(DIV, ty, Cnst(ty, a), Cnst(ty, b), false) ==
            if Log2(b) >= Width(ty) / 2 then Bin(RSH, ty, Cnst(ty, a), Cnst(INT, Log2(b))) else Cnst(ty, q)
    ensures Simplify(MOD, ty, Cnst(ty, a), Cnst(ty, b), false) == Cnst(ty, r)
  {
    assert a < M(ty) && b < M(ty);
    hide Truncates, Remains, Simplify, Log2, Width, M, Quot;
    TruncatesOnce(a, b, q);
    RemainsOnce(a, b, r);
    QuotSigns(a, b);
    RestFacts(a, b);
    assert q == a / b && r == a % b;
    UnsignedQuotient(ty, a, b);
    UnsignedRemainder(ty, a, b);
  }

  // ----- what is folded -----

  /** Two constants of their types are folded exactly in these cases: the exact result is in range, but for 0 - min,
      for shifts that are left to the machine, and for unsigned comparisons with 0, which keep the operand's effects. */
  predicate Foldable(op: Op, ty: Ty, a: int, b: int) {
    match op
    case ADD => ty.unsigned || Ranged(ty, a + b)
    case SUB => ty.unsigned || Ranged(ty, a - b) || (a == 0 && b == Min(ty))
    case MUL => if ty.unsigned then a >= 0 && Log2(a) < Width(ty) / 2 else Ranged(ty, a * b)
    case DIV => b == 1 || (b != 0 && if ty.unsigned then b > 0 && Log2(b) < Width(ty) / 2 else !(a == Min(ty) && b == -1))
    case MOD => b != 0 && (ty.unsigned || !(a == Min(ty) && b == -1))
    case LSH => b == 0 || (0 < b < Width(ty) / 2 && (ty.unsigned || Ranged(ty, a * Pow2(b))))
    case RSH => 0 <= b < Width(ty) / 2
    case LE => !(ty.unsigned && a == 0)
    case GT => !(ty.unsigned && a == 0)
    case GE => !(ty.unsigned && b == 0)
    case LT => !(ty.unsigned && b == 0)
    case _ => true
  }

  lemma {:induction false} FoldsExactly(op: Op, ty: Ty, a: int, b: int)
    requires Ranged(ty, a) && Ranged(RightType(op, ty), b) && (op == RSH ==> ty.unsigned)
    ensures Simplify(op, ty, Cnst(ty, a), Cnst(RightType(op, ty), b), false).Cnst? <==> Foldable(op, ty, a, b)
  {
    hide Quot, Rem, IntBits, Pow2, Log2, Muli, Addi, Divi;
    match op
    case ADD => if !ty.unsigned { AddiExact(a, b, ty); }
    case SUB => if !ty.unsigned { SubiExact(a, b, ty); }
    case MUL => ProductFolds(ty, a, b);
    case DIV => QuotientFolds(ty, a, b);
    case MOD => RemainderFolds(ty, a, b);
    case LSH => ShiftFolds(op, ty, a, b);
    case RSH => ShiftFolds(op, ty, a, b);
    case _ =>
  }

  lemma {:induction false} ProductFolds(ty: Ty, a: int, b: int)
    requires Ranged(ty, a) && Ranged(ty, b)
    ensures Simplify(MUL, ty, Cnst(ty, a), Cnst(ty, b), false).Cnst? <==> Foldable(MUL, ty, a, b)
  {
    if ty.unsigned {
      UnsignedProductFolds(ty, a, b);
    } else {
      MuliExact(a, b, ty);
      hide Quot, Pow2, Log2, Muli, Ranged;
      SignedProductIs(ty, a, b);
      if !Ranged(ty, a * b) && IsPower(Cnst(ty, a), ty) {
        PowerStays(ty, a, b);
      }
    }
  }

  lemma {:induction false} UnsignedProductFolds(ty: Ty, a: nat, b: nat)
    requires ty.unsigned && a < M(ty) && b < M(ty)
    ensures Simplify(MUL, ty, Cnst(ty, a), Cnst(ty, b), false).Cnst? <==> Log2(a) < Width(ty) / 2
  {
    var l, r := Cnst(ty, a), Cnst(ty, b);
    hide Muli, Pow2;
    assert Simplify(MUL, ty, l, r, false) == MulConstLeft(ty, l, r, false);
    if a > 0 && Log2(a) != 0 {
      assert IsPower(l, ty) && MulConstLeft(ty, l, r, false) == MulPower(ty, l, r, false);
    } else {
      if a == 0 {
        LogOfZero();
      }
      assert !IsPower(l, ty) && BothConst(ty, l, r) && Folds(MUL, ty, a, b, false);
      assert MulConstLeft(ty, l, r, false) == Const(ty, a * b);
    }
  }

  lemma {:induction false} SignedProductIs(ty: Ty, a: int, b: int)
    requires !ty.unsigned && Ranged(ty, a)
    ensures var l, r := Cnst(ty, a), Cnst(ty, b);
            Simplify(MUL, ty, l, r, false) ==
            if Muli(a, b, ty, false) then Const(ty, a * b)
            else if IsPower(l, ty) then MulPower(ty, l, r, false)
            else Bin(MUL, ty, l, r)
  {
    var l, r := Cnst(ty, a), Cnst(ty, b);
    assert b == 1 ==> Muli(a, b, ty, false);
    hide Muli, Pow2, Log2, MulPower, IsPower;
    assert Simplify(MUL, ty, l, r, false) == MulConstLeft(ty, l, r, false);
    assert !Distributes(ty, l, r);
  }

  lemma {:induction false} PowerStays(ty: Ty, a: int, b: int)
    requires !ty.unsigned && Ranged(ty, a) && Ranged(ty, b) && IsPower(Cnst(ty, a), ty) && !Ranged(ty, a * b)
    ensures MulPower(ty, Cnst(ty, a), Cnst(ty, b), false).Bin?
  {
    ShiftedTooFar(ty, a, b);
    hide Muli, Pow2, Log2, Ranged;
  }

  lemma {:induction false} ShiftedTooFar(ty: Ty, a: int, b: int)
    requires !ty.unsigned && Ranged(ty, a) && Ranged(ty, b) && IsPower(Cnst(ty, a), ty) && !Ranged(ty, a * b)
    ensures Log2(a) != 0 && Pow2(Log2(a)) == a && !Muli(b, Pow2(Log2(a)), ty, false)
  {
    MuliExact(b, a, ty);
    assert a * b == b * a;
    hide Muli, Pow2, Log2;
  }

  lemma {:induction false} QuotientFolds(ty: Ty, a: int, b: int)
    requires Ranged(ty, a) && Ranged(ty, b)
    ensures Simplify(DIV, ty, Cnst(ty, a), Cnst(ty, b), false).Cnst? <==> Foldable(DIV, ty, a, b)
  {
    if ty.unsigned && b > 0 {
      UnsignedQuotient(ty, a, b);
      LogOfOne();
    } else {
      hide Quot, Log2, Pow2;
    }
  }

  lemma {:induction false} RemainderFolds(ty: Ty, a: int, b: int)
    requires Ranged(ty, a) && Ranged(ty, b)
    ensures Simplify(MOD, ty, Cnst(ty, a), Cnst(ty, b), false).Cnst? <==> Foldable(MOD, ty, a, b)
  {
    if ty.unsigned && b > 0 {
      UnsignedRemainder(ty, a, b);
    } else {
      LogOfZero();
      hide Quot, Rem, Log2, IntBits;
    }
  }

  lemma LogOfZero()
    ensures Log2(0) == 0
  {
  }

  lemma {:induction false} ShiftFolds(op: Op, ty: Ty, a: int, b: int)
    requires Shifts(op) && Ranged(ty, a) && Ranged(INT, b) && (op == RSH ==> ty.unsigned)
    ensures Simplify(op, ty, Cnst(ty, a), Cnst(INT, b), false).Cnst? <==> Foldable(op, ty, a, b)
  {
    if !ty.unsigned && 0 < b < Width(ty) / 2 {
      SmallPower(ty, b);
      MuliExact(a, Pow2(b), ty);
    }
    hide Pow2, Muli, Quot;
  }

  lemma {:induction false} SmallPower(ty: Ty, b: nat)
    requires b < Width(ty) / 2
    ensures Pow2(b) <= Max(ty)
  {
    var n := Width(ty) / 2;
    Pow2Of16();
    assert Pow2(8) == 256;
    PowerGrows(b, n);
  }

  lemma {:induction false} PowerGrows(b: nat, n: nat)
    requires b < n
    ensures Pow2(b) < Pow2(n)
    decreases n
  {
    if b < n - 1 {
      PowerGrows(b, n - 1);
    }
  }

  /** An operation that leaves its operand as it is goes. */
  lemma {:induction false} NeutralGoes(ty: Ty, t: Tree, needconst: bool)
    requires !t.Cnst?
    ensures forall op | op in {ADD, SUB, BOR, BXOR} :: Simplify(op, ty, t, Cnst(ty, 0), needconst) == t
    ensures forall op | op in {ADD, BOR, BXOR} :: Simplify(op, ty, Cnst(ty, 0), t, needconst) == t
    ensures Simplify(BAND, ty, t, Cnst(ty, M(ty) - 1), needconst) == Simplify(BAND, ty, Cnst(ty, M(ty) - 1), t, needconst) == t
    ensures Simplify(DIV, ty, t, Cnst(ty, 1), needconst) == t
    ensures Simplify(LSH, ty, t, Cnst(INT, 0), needconst) == Simplify(RSH, ty, t, Cnst(INT, 0), needconst) == t
  {
    forall op | op in {ADD, SUB, BOR, BXOR} ensures Simplify(op, ty, t, Cnst(ty, 0), needconst) == t {
    }
    forall op | op in {ADD, BOR, BXOR} ensures Simplify(op, ty, Cnst(ty, 0), t, needconst) == t {
    }
  }
}

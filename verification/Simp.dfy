/** Algebraic simplification of integer trees (lcc/src/simp.c:55-190, 210-625) and the constants it makes
    (lcc/src/enode.c:183-199): simplifying keeps the value on the machine's words. */
module Simp {
  import opened Words

  /** An integer type: one or two words. */
  datatype Ty = Ty(unsigned: bool, long: bool)

  const INT := Ty(false, false)

  function M(ty: Ty): (m: nat)
    ensures m == if ty.long then 0x1_0000_0000 else 0x10000
  {
    if ty.long then 0x1_0000_0000 else 0x10000
  }

  function Width(ty: Ty): (n: nat)
    ensures n == if ty.long then 32 else 16
  {
    if ty.long then 32 else 16
  }

  function Max(ty: Ty): int {
    if ty.unsigned then M(ty) - 1 else M(ty) / 2 - 1
  }

  function Min(ty: Ty): int {
    if ty.unsigned then 0 else -(M(ty) / 2)
  }

  datatype Op = ADD | SUB | MUL | DIV | MOD | BAND | BOR | BXOR | LSH | RSH | EQ | NE | LT | LE | GT | GE

  datatype Tree =
    | Cnst(ty: Ty, v: int)
    | Leaf(ty: Ty, id: nat)
    | Bin(op: Op, ty: Ty, l: Tree, r: Tree)
    | Neg(ty: Ty, l: Tree)
    | Bcom(ty: Ty, l: Tree)
    | Right(l: Tree, r: Tree)

  predicate Compares(op: Op) {
    op in {EQ, NE, LT, LE, GT, GE}
  }

  predicate Shifts(op: Op) {
    op == LSH || op == RSH
  }

  function TypeOf(t: Tree): Ty {
    match t
    case Bin(op, ty, _, _) => if Compares(op) then INT else ty
    case Right(_, r) => TypeOf(r)
    case _ => t.ty
  }

  predicate Ranged(ty: Ty, v: int) {
    Min(ty) <= v <= Max(ty)
  }

  /** Operands have the type of the operation, shift counts are plain integers; signed right shifts are not
      part of this model. */
  predicate Fits(op: Op, ty: Ty, l: Ty, r: Ty) {
    l == ty && r == (if Shifts(op) then INT else ty) && (op == RSH ==> ty.unsigned)
  }

  predicate Typed(t: Tree) {
    match t
    case Bin(op, ty, l, r) => Typed(l) && Typed(r) && Fits(op, ty, TypeOf(l), TypeOf(r))
    case Neg(ty, l) => Typed(l) && TypeOf(l) == ty && !ty.unsigned
    case Bcom(ty, l) => Typed(l) && TypeOf(l) == ty
    case Right(l, r) => Typed(l) && Typed(r)
    case _ => true
  }

  /** A constant is a value of its type. */
  predicate Proper(t: Tree) {
    t.Cnst? ==> Ranged(t.ty, t.v)
  }

  /** A well-typed tree whose constants are values of their types. */
  predicate Ok(t: Tree) {
    match t
    case Bin(op, ty, l, r) => Ok(l) && Ok(r) && Fits(op, ty, TypeOf(l), TypeOf(r))
    case Neg(ty, l) => Ok(l) && TypeOf(l) == ty && !ty.unsigned
    case Bcom(ty, l) => Ok(l) && TypeOf(l) == ty
    case Right(l, r) => Ok(l) && Ok(r)
    case _ => Proper(t)
  }

  // ----- values on the machine -----

  /** The number a word or a pair of words stands for. */
  function S(ty: Ty, x: nat): int {
    if !ty.unsigned && x >= M(ty) / 2 then x - M(ty) else x
  }

  /** Division of C, towards zero. */
  function Quot(x: int, y: int): int
    requires y != 0
  {
    var q := Abs(x) / Abs(y);
    if (x < 0) == (y < 0) then q else -q
  }

  function Abs(x: int): nat {
    if x < 0 then -x else x
  }

  function Rem(x: int, y: int): int
    requires y != 0
  {
    x - Quot(x, y) * y
  }

  function Truth(b: bool): nat {
    if b then 1 else 0
  }

  function BitsOf(op: Op): BitOp {
    if op == BAND then And else if op == BOR then Or else Xor
  }

  predicate Holds(op: Op, x: int, y: int) {
    match op
    case EQ => x == y
    case NE => x != y
    case LT => x < y
    case LE => x <= y
    case GT => x > y
    case _ => x >= y
  }

  function Whole(x: nat, p: nat): nat
    requires p > 0
  {
    x / p
  }

  /** The result of an operation on operand words x and y. */
  function Apply(op: Op, ty: Ty, x: nat, y: nat): nat {
    match op
    case ADD => (x + y) % M(ty)
    case SUB => (x - y) % M(ty)
    case MUL => (x * y) % M(ty)
    case DIV => if y == 0 then 0 else Quot(S(ty, x), NonZero(S(ty, y))) % M(ty)
    case MOD => if y == 0 then 0 else Rem(S(ty, x), NonZero(S(ty, y))) % M(ty)
    case BAND => Bits(And, x, y, Width(ty))
    case BOR => Bits(Or, x, y, Width(ty))
    case BXOR => Bits(Xor, x, y, Width(ty))
    case LSH => (x * Pow2(y)) % M(ty)
    case RSH => Whole(x, Pow2(y))
    case _ => Truth(Holds(op, S(ty, x), S(ty, y)))
  }

  function NonZero(x: int): (y: int)
    ensures y != 0 && (x != 0 ==> y == x)
  {
    if x == 0 then 1 else x
  }

  function Eval(t: Tree, env: nat -> nat): nat {
    match t
    case Cnst(ty, v) => v % M(ty)
    case Leaf(ty, id) => env(id) % M(ty)
    case Bin(op, ty, l, r) => Apply(op, ty, Eval(l, env), Eval(r, env))
    case Neg(ty, l) => (0 - Eval(l, env)) % M(ty)
    case Bcom(ty, l) => (-1 - Eval(l, env)) % M(ty)
    case Right(_, r) => Eval(r, env)
  }

  // ----- bitwise operators of the host, on integers of any size in two's complement -----

  function IntBits(op: BitOp, x: int, y: int): int
    decreases Abs(x) + Abs(y)
  {
    if -1 <= x <= 0 && -1 <= y <= 0 then 0 - Bit(op, x % 2, y % 2)
    else Bit(op, x % 2, y % 2) + 2 * IntBits(op, x / 2, y / 2)
  }

  lemma {:induction false} IntBitsUnfold(op: BitOp, x: int, y: int)
    ensures IntBits(op, x, y) == Bit(op, x % 2, y % 2) + 2 * IntBits(op, x / 2, y / 2)
  {
    if -1 <= x <= 0 && -1 <= y <= 0 {
      hide Bit;
      assert x / 2 == x && y / 2 == y;
    }
  }

  /** The low n bits of the host's result are the machine's result on n bits. */
  lemma {:induction false} IntBitsLow(op: BitOp, x: int, y: int, n: nat)
    ensures IntBits(op, x, y) % Pow2(n) == Bits(op, x % Pow2(n), y % Pow2(n), n)
    decreases n
  {
    if n > 0 {
      IntBitsLow(op, x / 2, y / 2, n - 1);
      LowStep(op, x, y, n, Pow2(n - 1));
    }
  }

  lemma {:induction false} LowStep(op: BitOp, x: int, y: int, n: nat, p: nat)
    requires n > 0 && p > 0 && IntBits(op, x / 2, y / 2) % p == Bits(op, (x / 2) % p, (y / 2) % p, n - 1)
    ensures IntBits(op, x, y) % (2 * p) == Bits(op, x % (2 * p), y % (2 * p), n)
  {
    hide IntBits, Bits;
    IntBitsUnfold(op, x, y);
    HalfMod(x, p);
    HalfMod(y, p);
    HalfMod(IntBits(op, x, y), p);
    BitsUnfold(op, x % (2 * p), y % (2 * p), n);
  }

  lemma HalfMod(x: int, p: nat)
    requires p > 0
    ensures x % (2 * p) == x % 2 + 2 * ((x / 2) % p)
    ensures (x % (2 * p)) % 2 == x % 2 && (x % (2 * p)) / 2 == (x / 2) % p
  {
    var q, h := (x / 2) / p, (x / 2) % p;
    assert x / 2 == q * p + h;
    assert x == q * (2 * p) + (x % 2 + 2 * h) by {
      Double(q, p);
    }
    QuotientIs(x, 2 * p, q, x % 2 + 2 * h);
  }

  lemma {:induction false} IntBitsRange(op: BitOp, x: int, y: int, k: nat)
    requires 0 - Pow2(k) <= x < Pow2(k) && 0 - Pow2(k) <= y < Pow2(k)
    ensures 0 - Pow2(k) <= IntBits(op, x, y) < Pow2(k)
    ensures x >= 0 && y >= 0 ==> IntBits(op, x, y) >= 0
    decreases k
  {
    IntBitsUnfold(op, x, y);
    if k > 0 {
      IntBitsRange(op, x / 2, y / 2, k - 1);
    }
  }

  // ----- powers of two -----

  /** The result of `ispow2`. */
  function Log2(u: nat): (n: nat)
    ensures n > 0 ==> u == Pow2(n)
  {
    if u <= 1 || u % 2 == 1 then 0
    else if u == 2 then 1
    else var m := Log2(u / 2); if m == 0 then 0 else m + 1
  }

  lemma {:induction false} Log2Complete(n: nat)
    requires n > 0
    ensures Log2(Pow2(n)) == n
    decreases n
  {
    if n > 1 {
      Log2Complete(n - 1);
      assert Pow2(n) == 2 * Pow2(n - 1) && Pow2(n - 1) >= 2;
    }
  }

  lemma {:induction false} AndSelf(x: nat)
    ensures IntBits(And, x, x) == x
    decreases x
  {
    IntBitsUnfold(And, x, x);
    if x > 0 {
      AndSelf(x / 2);
    }
  }

  /** The test `(u&(u-1)) == 0`. */
  lemma {:induction false} LowestBitTest(u: nat)
    requires u > 1
    ensures IntBits(And, u, u - 1) == 0 <==> Log2(u) > 0
    decreases u
  {
    IntBitsUnfold(And, u, u - 1);
    if u % 2 == 1 {
      assert (u - 1) / 2 == u / 2;
      AndSelf(u / 2);
    } else {
      assert (u - 1) / 2 == u / 2 - 1;
      if u > 2 {
        LowestBitTest(u / 2);
      } else {
        assert IntBits(And, 1, 0) == 0 by { IntBitsUnfold(And, 1, 0); }
      }
    }
  }

  method Ispow2(u: nat) returns (n: nat)
    ensures n > 0 ==> u == Pow2(n)
    ensures n == 0 ==> forall k: nat | k > 0 :: u != Pow2(k)
    ensures n == Log2(u)
  {
    n := 0;
    if u > 1 && IntBits(And, u, u - 1) == 0 {
      LowestBitTest(u);
      var w := u;
      while w != 0
        invariant w > 0 && (w == 1 || Log2(w) > 0) && Log2(u) == n + Log2(w)
      {
        if w % 2 == 1 {
          return;
        }
        w, n := w / 2, n + 1;
      }
    } else {
      if u > 1 {
        LowestBitTest(u);
      }
      forall k: nat | k > 0 ensures u != Pow2(k) {
        Log2Complete(k);
      }
    }
  }

  /** Remainders by powers of two are masks. */
  lemma {:induction false} MaskIsMod(x: nat, k: nat, n: nat)
    requires k <= n
    ensures Bits(And, x, Pow2(k) - 1, n) == x % Pow2(k)
    decreases k
  {
    if k == 0 {
      AndZero(x, n);
    } else {
      MaskIsMod(x / 2, k - 1, n - 1);
      MaskStep(x, Pow2(k - 1), n);
    }
  }

  lemma MaskStep(x: nat, p: nat, n: nat)
    requires n > 0 && p > 0 && Bits(And, x / 2, p - 1, n - 1) == (x / 2) % p
    ensures Bits(And, x, 2 * p - 1, n) == x % (2 * p)
  {
    hide Bits;
    assert 2 * p - 1 == 2 * (p - 1) + 1;
    assert (2 * p - 1) / 2 == p - 1 && (2 * p - 1) % 2 == 1;
    BitsUnfold(And, x, 2 * p - 1, n);
    HalfMod(x, p);
  }

  lemma {:induction false} AndZero(x: nat, n: nat)
    ensures Bits(And, x, 0, n) == 0
    decreases n
  {
    if n > 0 {
      AndZero(x / 2, n - 1);
    }
  }

  lemma {:induction false} OrZero(op: BitOp, x: nat, n: nat)
    requires op != And && x < Pow2(n)
    ensures Bits(op, x, 0, n) == x
    decreases n
  {
    if n > 0 {
      OrZero(op, x / 2, n - 1);
    }
  }

  lemma {:induction false} BitsCommute(op: BitOp, x: nat, y: nat, n: nat)
    ensures Bits(op, x, y, n) == Bits(op, y, x, n)
    decreases n
  {
    if n > 0 {
      BitsCommute(op, x / 2, y / 2, n - 1);
    }
  }

  // ----- the range tests -----

  function Addi(x: int, y: int, ty: Ty, needconst: bool): bool {
    || x == 0 || y == 0
    || (x < 0 && y < 0 && x >= Min(ty) - y)
    || (x < 0 && y > 0)
    || (x > 0 && y < 0)
    || (x > 0 && y > 0 && x <= Max(ty) - y)
    || needconst
  }

  function Muli(x: int, y: int, ty: Ty, needconst: bool): bool {
    || -1 < x <= 1 || -1 < y <= 1
    || (x < 0 && y < 0 && -x <= Quot(Max(ty), -y))
    || (x < 0 && y > 0 && x >= Quot(Min(ty), y))
    || (x > 0 && y < 0 && y >= Quot(Min(ty), x))
    || (x > 0 && y > 0 && x <= Quot(Max(ty), y))
    || needconst
  }

  function Divi(x: int, y: int, ty: Ty, needconst: bool): bool {
    (y != 0 && !(x == Min(ty) && y == -1)) || needconst
  }

  /** `addi` accepts exactly sums in range. */
  lemma AddiExact(x: int, y: int, ty: Ty)
    requires !ty.unsigned && Ranged(ty, x) && Ranged(ty, y)
    ensures Addi(x, y, ty, false) <==> Ranged(ty, x + y)
  {
  }

  /** `subi` accepts exactly differences in range, and 0 - min. */
  lemma SubiExact(x: int, y: int, ty: Ty)
    requires !ty.unsigned && Ranged(ty, x) && Ranged(ty, y)
    ensures Addi(x, -y, ty, false) <==> Ranged(ty, x - y) || (x == 0 && y == Min(ty))
  {
  }

  lemma QuotBound(a: nat, b: nat, x: nat)
    requires b > 0
    ensures x <= a / b <==> x * b <= a
  {
    var q, r := a / b, a % b;
    assert a == q * b + r;
    if x < q {
      MulDistributes(x, q - x, b);
      Grows(q - x, b);
    } else if x > q {
      MulDistributes(q, x - q, b);
      Grows(x - q, b);
    }
  }

  lemma QuotSigns(a: nat, b: nat)
    requires b > 0
    ensures Quot(a, b) == a / b && Quot(0 - a, b) == 0 - Quot(a, b)
  {
    assert Abs(a) == a && Abs(0 - a) == a && Abs(b) == b;
    hide Abs;
    QuotFacts(a, b);
  }

  /** `muli` accepts exactly products in range. */
  lemma MuliExact(x: int, y: int, ty: Ty)
    requires !ty.unsigned && Ranged(ty, x) && Ranged(ty, y)
    ensures Muli(x, y, ty, false) <==> Ranged(ty, x * y)
  {
    var max, min, a, b := Max(ty), Min(ty), Abs(x), Abs(y);
    if x == 0 || y == 0 {
      assert x * y == 0;
    } else {
      hide Quot, M;
      QuotSigns(max, b);
      QuotSigns(0 - min, a);
      QuotSigns(0 - min, b);
      QuotBound(max, b, a);
      QuotBound(0 - min, b, a);
      QuotBound(0 - min, a, b);
      Signs(x, y);
      
    }
  }

  lemma Signs(x: int, y: int)
    requires x != 0 && y != 0
    ensures x * y == (if (x < 0) == (y < 0) then Abs(x) * Abs(y) else 0 - Abs(x) * Abs(y))
    ensures Abs(x) * Abs(y) == Abs(y) * Abs(x) && Abs(x) * Abs(y) >= 1
  {
    Grows(Abs(x), Abs(y));
  }

  /** `divi` accepts exactly the defined quotients in range. */
  lemma DiviExact(x: int, y: int, ty: Ty)
    requires !ty.unsigned && Ranged(ty, x) && Ranged(ty, y)
    ensures Divi(x, y, ty, false) <==> y != 0 && Ranged(ty, Quot(x, y))
  {
    if y != 0 {
      var a, b := Abs(x), Abs(y);
      QuotFacts(a, b);
      hide Abs;
      assert Quot(x, y) == a / b || Quot(x, y) + a / b == 0;
    }
  }

  lemma QuotFacts(a: nat, b: nat)
    requires b > 0
    ensures 0 <= a / b <= a && (b == 1 ==> a / b == a) && (b >= 2 ==> 2 * (a / b) <= a)
  {
    var q := a / b;
    QuotBound(a, b, q);
    if q >= 1 {
      assert q * b == q + q * (b - 1);
      if b >= 2 {
        Grows(b - 1, q);
      }
    }
  }

  // ----- simplify -----

  /** `cnsttree`: unsigned constants are cut to their width. */
  function Const(ty: Ty, v: int): Tree {
    Cnst(ty, if ty.unsigned then v % M(ty) else v)
  }

  predicate IsConst(t: Tree, unsigned: bool) {
    t.Cnst? && t.ty.unsigned == unsigned
  }

  predicate IsValue(t: Tree, ty: Ty, v: int) {
    IsConst(t, ty.unsigned) && t.v == v
  }

  /** What the host computes for two constants. */
  function Host(op: Op, x: int, y: int): int {
    match op
    case ADD => x + y
    case SUB => x - y
    case MUL => x * y
    case DIV => Quot(x, NonZero(y))
    case MOD => Rem(x, NonZero(y))
    case BAND => IntBits(And, x, y)
    case BOR => IntBits(Or, x, y)
    case BXOR => IntBits(Xor, x, y)
    case LSH => if y < 0 then 0 else x * Pow2(y)
    case RSH => if y < 0 then 0 else x / Pow2(y)
    case _ => Truth(Holds(op, x, y))
  }

  /** The test under which two constants of a type are folded. */
  predicate Folds(op: Op, ty: Ty, x: int, y: int, needconst: bool) {
    ty.unsigned ||
    match op
    case ADD => Addi(x, y, ty, needconst)
    case SUB => Addi(x, -y, ty, needconst)
    case MUL => Muli(x, y, ty, needconst)
    case DIV => Divi(x, y, ty, needconst)
    case MOD => Divi(x, y, ty, needconst)
    case _ => true
  }

  predicate BothConst(ty: Ty, l: Tree, r: Tree) {
    IsConst(l, ty.unsigned) && IsConst(r, ty.unsigned)
  }

  predicate Swaps(l: Tree, r: Tree) {
    l.Cnst? && !r.Cnst?
  }

  /** ADD, SUB, BOR, BXOR: fold, constant to the right (not for SUB), no-op with zero. */
  function SimplifyZero(op: Op, ty: Ty, l: Tree, r: Tree, needconst: bool): Tree {
    if BothConst(ty, l, r) && Folds(op, ty, l.v, r.v, needconst) then Const(ty, Host(op, l.v, r.v))
    else
      var a, b := if op != SUB && Swaps(l, r) then r else l, if op != SUB && Swaps(l, r) then l else r;
      if IsValue(b, ty, 0) then a else Bin(op, ty, a, b)
  }

  function SimplifyAnd(ty: Ty, l: Tree, r: Tree): Tree {
    if BothConst(ty, l, r) then Const(ty, Host(BAND, l.v, r.v))
    else
      var a, b := if Swaps(l, r) then r else l, if Swaps(l, r) then l else r;
      if IsValue(b, ty, M(ty) - 1) then a
      else if IsValue(b, ty, 0) then Right(a, Const(ty, 0))
      else Bin(BAND, ty, a, b)
  }

  function SimplifyShift(op: Op, ty: Ty, l: Tree, r: Tree, needconst: bool): Tree {
    if IsValue(r, INT, 0) then l
    else if IsConst(l, ty.unsigned) && IsConst(r, false) && 0 <= r.v < (if l.ty.long then 16 else 8)
            && (ty.unsigned || Muli(l.v, Pow2(r.v), ty, needconst)) then
      Const(ty, Host(op, l.v, r.v))
    else Bin(op, ty, l, r)
  }

  function Nodes(t: Tree): nat {
    match t
    case Bin(_, _, l, r) => 1 + Nodes(l) + Nodes(r)
    case _ => 1
  }

  function SimplifyMul(ty: Ty, l: Tree, r: Tree, needconst: bool): Tree
    decreases Nodes(l) + Nodes(r), 1
  {
    if Swaps(r, l) then MulConstLeft(ty, r, l, needconst) else MulConstLeft(ty, l, r, needconst)
  }

  /** The multiplication after a lone constant has been moved to the left. */
  function MulConstLeft(ty: Ty, l: Tree, r: Tree, needconst: bool): Tree
    decreases Nodes(l) + Nodes(r), 0
  {
    if ty.unsigned && IsPower(l, ty) then MulPower(ty, l, r, needconst)
    else if BothConst(ty, l, r) && Folds(MUL, ty, l.v, r.v, needconst) then Const(ty, Host(MUL, l.v, r.v))
    else if Distributes(ty, l, r) then
      SimplifyZero(r.op, ty, SimplifyMul(ty, l, r.l, needconst), SimplifyMul(ty, l, r.r, needconst), needconst)
    else if IsPower(l, ty) then MulPower(ty, l, r, needconst)
    else if IsValue(r, ty, 1) then l
    else Bin(MUL, ty, l, r)
  }

  /** A sum or difference of signed integers with a constant. */
  predicate Sums(t: Tree) {
    t.Bin? && (t.op == ADD || t.op == SUB) && !t.ty.unsigned && IsConst(t.r, false)
  }

  /** A signed constant times a sum or difference with a constant. */
  predicate Distributes(ty: Ty, l: Tree, r: Tree) {
    !ty.unsigned && IsConst(l, false) && Sums(r)
  }

  predicate IsPower(t: Tree, ty: Ty) {
    IsConst(t, ty.unsigned) && t.v > 0 && Log2(t.v) != 0
  }

  function MulPower(ty: Ty, l: Tree, r: Tree, needconst: bool): Tree
    requires IsPower(l, ty)
  {
    SimplifyShift(LSH, ty, r, Const(INT, Log2(l.v)), needconst)
  }

  function SimplifyDiv(ty: Ty, l: Tree, r: Tree, needconst: bool): Tree {
    if IsValue(r, ty, 1) then l
    else if IsValue(r, ty, 0) then Bin(DIV, ty, l, r)
    else if ty.unsigned then
      if IsPower(r, ty) then SimplifyShift(RSH, ty, l, Const(INT, Log2(r.v)), needconst)
      else if BothConst(ty, l, r) then Const(ty, Host(DIV, l.v, r.v))
      else Bin(DIV, ty, l, r)
    else if IsValue(l, ty, Min(ty)) && IsValue(r, ty, -1) then Bin(DIV, ty, l, r)
    else if BothConst(ty, l, r) && Folds(DIV, ty, l.v, r.v, needconst) then Const(ty, Host(DIV, l.v, r.v))
    else Bin(DIV, ty, l, r)
  }

  function SimplifyMod(ty: Ty, l: Tree, r: Tree, needconst: bool): Tree {
    if ty.unsigned then
      if IsPower(r, ty) then SimplifyAnd(ty, l, Const(ty, r.v - 1))
      else if BothConst(ty, l, r) && r.v != 0 then Const(ty, Host(MOD, l.v, r.v))
      else Bin(MOD, ty, l, r)
    else if IsValue(r, ty, 0) || (IsValue(l, ty, Min(ty)) && IsValue(r, ty, -1)) then Bin(MOD, ty, l, r)
    else if BothConst(ty, l, r) && Folds(MOD, ty, l.v, r.v, needconst) then Const(ty, Host(MOD, l.v, r.v))
    else if IsValue(r, ty, 1) then Right(l, Const(ty, 0))
    else Bin(MOD, ty, l, r)
  }

  function SimplifyEq(op: Op, ty: Ty, l: Tree, r: Tree): Tree {
    if BothConst(ty, l, r) then Const(INT, Truth(Holds(op, l.v, r.v)))
    else if Swaps(l, r) then Bin(op, ty, r, l)
    else Bin(op, ty, l, r)
  }

  /** Orderings; unsigned ones against zero are known or tests for zero. */
  function SimplifyOrder(op: Op, ty: Ty, l: Tree, r: Tree): Tree {
    if ty.unsigned && (op == GE || op == LT) && IsValue(r, ty, 0) then Right(l, Const(INT, Truth(op == GE)))
    else if ty.unsigned && (op == LE || op == GT) && IsValue(l, ty, 0) then Right(r, Const(INT, Truth(op == LE)))
    else if BothConst(ty, l, r) then Const(INT, Truth(Holds(op, l.v, r.v)))
    else if ty.unsigned && op == GE && IsValue(l, ty, 0) then SimplifyEq(EQ, ty, r, l)
    else if ty.unsigned && op == LT && IsValue(l, ty, 0) then SimplifyEq(NE, ty, r, l)
    else if ty.unsigned && op == GT && IsValue(r, ty, 0) then SimplifyEq(NE, ty, l, r)
    else if ty.unsigned && op == LE && IsValue(r, ty, 0) then SimplifyEq(EQ, ty, l, r)
    else Bin(op, ty, l, r)
  }

  function Simplify(op: Op, ty: Ty, l: Tree, r: Tree, needconst: bool): Tree {
    match op
    case ADD => SimplifyZero(op, ty, l, r, needconst)
    case SUB => SimplifyZero(op, ty, l, r, needconst)
    case BOR => SimplifyZero(op, ty, l, r, needconst)
    case BXOR => SimplifyZero(op, ty, l, r, needconst)
    case BAND => SimplifyAnd(ty, l, r)
    case MUL => SimplifyMul(ty, l, r, needconst)
    case DIV => SimplifyDiv(ty, l, r, needconst)
    case MOD => SimplifyMod(ty, l, r, needconst)
    case LSH => SimplifyShift(op, ty, l, r, needconst)
    case RSH => SimplifyShift(op, ty, l, r, needconst)
    case EQ => SimplifyEq(op, ty, l, r)
    case NE => SimplifyEq(op, ty, l, r)
    case _ => SimplifyOrder(op, ty, l, r)
  }

  // ----- folding two constants -----

  lemma SignConst(ty: Ty, v: int)
    requires Ranged(ty, v)
    ensures S(ty, v % M(ty)) == v
  {
  }

  lemma AddMultiple(k: int, m: int, r: int)
    requires m > 0
    ensures (k * m + r) % m == r % m
  {
    MulDistributes(k, r / m, m);
    QuotientIs(k * m + r, m, k + r / m, r % m);
  }

  lemma MulMod(x: int, y: int, m: int)
    requires m > 0
    ensures ((x % m) * (y % m)) % m == (x * y) % m
  {
    var q, a, p, b := x / m, x % m, y / m, y % m;
    assert x == q * m + a && y == p * m + b;
    var k := q * y + a * p;
    assert x * y == k * m + a * b by {
      MulDistributes(q * m, a, y);
      assert (q * m) * y == (q * y) * m;
      assert a * y == (a * p) * m + a * b;
      MulDistributes(q * y, a * p, m);
    }
    AddMultiple(k, m, a * b);
  }

  lemma WidthIs(ty: Ty)
    ensures Pow2(Width(ty)) == M(ty)
  {
    Pow2Of16();
    Pow2Of32();
  }

  lemma FoldBits(op: Op, ty: Ty, x: int, y: int)
    requires op in {BAND, BOR, BXOR}
    ensures Apply(op, ty, x % M(ty), y % M(ty)) == Host(op, x, y) % M(ty)
  {
    hide Pow2, Bits, IntBits, Quot, Rem, S, Width, M, Holds;
    WidthIs(ty);
    IntBitsLow(BitsOf(op), x, y, Width(ty));
  }

  lemma SumParts(x: int, y: int, q: int, a: int, p: int, b: int, m: int)
    requires m > 0 && x == q * m + a && y == p * m + b
    ensures (x + y) % m == (a + b) % m
  {
    MulDistributes(q, p, m);
    AddMultiple(q + p, m, a + b);
  }

  lemma DifferenceParts(x: int, y: int, q: int, a: int, p: int, b: int, m: int)
    requires m > 0 && x == q * m + a && y == p * m + b
    ensures (x - y) % m == (a - b) % m
  {
    MulDistributes(q - p, p, m);
    AddMultiple(q - p, m, a - b);
  }

  lemma Divided(x: int, m: int)
    requires m > 0
    ensures x == (x / m) * m + x % m
  {
  }

  lemma SumMod(x: int, y: int, m: int)
    requires m > 0
    ensures (x % m + y % m) % m == (x + y) % m && (x % m - y % m) % m == (x - y) % m
  {
    var q, a, p, b := x / m, x % m, y / m, y % m;
    Divided(x, m);
    Divided(y, m);
    SumParts(x, y, q, a, p, b, m);
    DifferenceParts(x, y, q, a, p, b, m);
  }

  /** Folding two constants of any value gives the words the machine would compute from theirs. */
  lemma FoldRing(op: Op, ty: Ty, x: int, y: int)
    requires op in {ADD, SUB, MUL, BAND, BOR, BXOR}
    ensures Apply(op, ty, x % M(ty), y % M(ty)) == Host(op, x, y) % M(ty)
  {
    hide Pow2, Bits, IntBits, Quot, Rem, S, Width, Holds, NonZero, Truth, M;
    MulMod(x, y, M(ty));
    SumMod(x, y, M(ty));
    if op in {BAND, BOR, BXOR} {
      FoldBits(op, ty, x, y);
    }
  }

  /** Folding a division or comparison does so for constants that are values of their type. */
  lemma FoldProper(op: Op, ty: Ty, x: int, y: int)
    requires Ranged(ty, x) && Ranged(ty, y) && (Compares(op) || op == DIV || op == MOD)
    requires !Compares(op) ==> y != 0
    ensures Apply(op, ty, x % M(ty), y % M(ty)) == Host(op, x, y) % M(ty)
  {
    SignConst(ty, x);
    SignConst(ty, y);
    hide Pow2, Bits, IntBits, Quot, Rem, S, Holds, Width;
  }

  // ----- values kept -----

  lemma {:induction false} EvalBound(t: Tree, env: nat -> nat)
    requires Typed(t)
    ensures Eval(t, env) < M(TypeOf(t))
    decreases t
  {
    match t
    case Bin(op, ty, l, r) =>
      EvalBound(l, env);
      EvalBound(r, env);
      ApplyBound(op, ty, Eval(l, env), Eval(r, env));
    case Right(_, r) => EvalBound(r, env);
    case _ =>
  }

  lemma ApplyBound(op: Op, ty: Ty, x: nat, y: nat)
    requires x < M(ty)
    ensures Apply(op, ty, x, y) < M(if Compares(op) then INT else ty)
  {
    hide Pow2, Bits, Quot, Rem, S, Holds;
    match op
    case BAND => WidthIs(ty); BitsBound(And, x, y, Width(ty));
    case BOR => WidthIs(ty); BitsBound(Or, x, y, Width(ty));
    case BXOR => WidthIs(ty); BitsBound(Xor, x, y, Width(ty));
    case RSH => QuotFacts(x, Pow2(y));
    case _ =>
  }

  /** The value of the operation on the trees as they are. */
  function Plain(op: Op, ty: Ty, l: Tree, r: Tree, env: nat -> nat): nat {
    Apply(op, ty, Eval(l, env), Eval(r, env))
  }

  function ResultType(op: Op, ty: Ty): Ty {
    if Compares(op) then INT else ty
  }

  /** A tree that stands for the operation on l and r. */
  ghost predicate Stands(t: Tree, op: Op, ty: Ty, l: Tree, r: Tree, env: nat -> nat) {
    Typed(t) && TypeOf(t) == ResultType(op, ty) && Eval(t, env) == Plain(op, ty, l, r, env)
  }

  ghost predicate Operands(op: Op, ty: Ty, l: Tree, r: Tree) {
    Typed(l) && Typed(r) && Fits(op, ty, TypeOf(l), TypeOf(r))
  }

  lemma ConstEval(ty: Ty, v: int, env: nat -> nat)
    ensures Typed(Const(ty, v)) && TypeOf(Const(ty, v)) == ty && Eval(Const(ty, v), env) == v % M(ty)
    ensures ty.unsigned ==> Proper(Const(ty, v))
  {
  }

  lemma CommuteValue(op: Op, ty: Ty, x: nat, y: nat)
    requires op in {ADD, MUL, BAND, BOR, BXOR, EQ, NE}
    ensures Apply(op, ty, x, y) == Apply(op, ty, y, x)
  {
    hide Pow2, Bits, Quot, Rem, S;
    BitsCommute(BitsOf(op), x, y, Width(ty));
  }

  lemma ZeroValue(op: Op, ty: Ty, x: nat)
    requires op in {ADD, SUB, BOR, BXOR} && x < M(ty)
    ensures Apply(op, ty, x, 0) == x
  {
    hide Pow2, Bits, Quot, Rem, S;
    WidthIs(ty);
    if op == BOR || op == BXOR {
      OrZero(BitsOf(op), x, Width(ty));
    }
  }

  lemma {:induction false} ValueEval(t: Tree, ty: Ty, v: int, env: nat -> nat)
    ensures IsValue(t, ty, v) && TypeOf(t) == ty ==> Eval(t, env) == v % M(ty)
    ensures IsConst(t, ty.unsigned) && TypeOf(t) == ty ==> Eval(t, env) == t.v % M(ty)
  {
  }

  lemma BinStands(op: Op, ty: Ty, l: Tree, r: Tree, env: nat -> nat)
    requires Operands(op, ty, l, r)
    ensures Stands(Bin(op, ty, l, r), op, ty, l, r, env)
    ensures op in {ADD, MUL, BAND, BOR, BXOR, EQ, NE} ==> Stands(Bin(op, ty, r, l), op, ty, l, r, env)
  {
    if op in {ADD, MUL, BAND, BOR, BXOR, EQ, NE} {
      CommuteValue(op, ty, Eval(l, env), Eval(r, env));
    }
  }

  lemma {:induction false} RightStands(op: Op, ty: Ty, l: Tree, r: Tree, a: Tree, c: Tree, env: nat -> nat)
    requires Typed(a) && Typed(c) && TypeOf(c) == ResultType(op, ty) && Eval(c, env) == Plain(op, ty, l, r, env)
    ensures Stands(Right(a, c), op, ty, l, r, env)
  {
  }

  lemma ZeroKeeps(op: Op, ty: Ty, l: Tree, r: Tree, needconst: bool, env: nat -> nat)
    requires op in {ADD, SUB, BOR, BXOR} && Operands(op, ty, l, r)
    ensures Stands(SimplifyZero(op, ty, l, r, needconst), op, ty, l, r, env)
  {
    hide Apply, Host, Folds, Const, M, Eval, Typed, TypeOf;
    EvalBound(l, env);
    EvalBound(r, env);
    if BothConst(ty, l, r) {
      FoldRing(op, ty, l.v, r.v);
      ConstEval(ty, Host(op, l.v, r.v), env);
      ValueEval(l, ty, l.v, env);
      ValueEval(r, ty, r.v, env);
    }
    ZeroValue(op, ty, Eval(l, env));
    ZeroValue(op, ty, Eval(r, env));
    if op != SUB {
      CommuteValue(op, ty, Eval(l, env), Eval(r, env));
    }
    BinStands(op, ty, l, r, env);
    ZeroConst(ty);
    ValueEval(l, ty, 0, env);
    ValueEval(r, ty, 0, env);
  }

  lemma ZeroConst(ty: Ty)
    ensures 0 % M(ty) == 0
  {
  }

  lemma {:induction false} MaskValue(ty: Ty, x: nat, k: nat)
    requires k <= Width(ty) && x < M(ty)
    ensures Apply(BAND, ty, x, Pow2(k) - 1) == x % Pow2(k)
    ensures k == Width(ty) ==> Pow2(k) == M(ty) && x % Pow2(k) == x
    ensures k == 0 ==> Pow2(k) == 1
  {
    WidthIs(ty);
    MaskIsMod(x, k, Width(ty));
  }

  lemma MaskEnds(ty: Ty, x: nat)
    requires x < M(ty)
    ensures Apply(BAND, ty, x, (M(ty) - 1) % M(ty)) == x && Apply(BAND, ty, x, 0) == 0
  {
    MaskValue(ty, x, Width(ty));
    MaskValue(ty, x, 0);
  }

  lemma AndKeeps(ty: Ty, l: Tree, r: Tree, env: nat -> nat)
    requires Operands(BAND, ty, l, r)
    ensures Stands(SimplifyAnd(ty, l, r), BAND, ty, l, r, env)
  {
    hide Apply, Host, Const, Eval, Typed, TypeOf, M;
    EvalBound(l, env);
    EvalBound(r, env);
    BinStands(BAND, ty, l, r, env);
    ZeroConst(ty);
    ConstEval(ty, 0, env);
    CommuteValue(BAND, ty, Eval(l, env), Eval(r, env));
    if BothConst(ty, l, r) {
      RingFold(BAND, ty, l, r, env);
    } else if Swaps(l, r) {
      AndConst(ty, r, l, env);
    } else {
      AndConst(ty, l, r, env);
    }
  }

  lemma AndConst(ty: Ty, a: Tree, b: Tree, env: nat -> nat)
    requires Operands(BAND, ty, a, b)
    ensures IsValue(b, ty, M(ty) - 1) ==> Stands(a, BAND, ty, a, b, env)
    ensures IsValue(b, ty, 0) ==> Stands(Right(a, Const(ty, 0)), BAND, ty, a, b, env)
  {
    hide Apply, Const, Eval, Typed, TypeOf, M;
    EvalBound(a, env);
    MaskEnds(ty, Eval(a, env));
    ZeroConst(ty);
    ConstEval(ty, 0, env);
    ValueEval(b, ty, M(ty) - 1, env);
    ValueEval(b, ty, 0, env);
    if IsValue(b, ty, 0) {
      RightStands(BAND, ty, a, b, a, Const(ty, 0), env);
    }
  }

  lemma ShiftKeeps(op: Op, ty: Ty, l: Tree, r: Tree, needconst: bool, env: nat -> nat)
    requires Shifts(op) && Operands(op, ty, l, r) && (op == RSH ==> Proper(l))
    ensures Stands(SimplifyShift(op, ty, l, r, needconst), op, ty, l, r, env)
  {
    hide Muli, Eval, Typed, TypeOf, Const, Apply, Host, Pow2;
    EvalBound(l, env);
    BinStands(op, ty, l, r, env);
    ValueEval(r, INT, 0, env);
    ShiftZero(op, ty, Eval(l, env));
    if IsConst(l, ty.unsigned) && IsConst(r, false) && 0 <= r.v < 16 {
      ValueEval(l, ty, l.v, env);
      ValueEval(r, INT, r.v, env);
      ConstEval(ty, Host(op, l.v, r.v), env);
      TyOfConst(l);
      ShiftFold(op, ty, l.v, r.v);
    }
  }

  lemma {:induction false} TyOfConst(t: Tree)
    requires t.Cnst?
    ensures TypeOf(t) == t.ty
  {
  }

  lemma ShiftZero(op: Op, ty: Ty, x: nat)
    requires Shifts(op) && x < M(ty)
    ensures Apply(op, ty, x, 0) == x
  {
    assert Pow2(0) == 1;
  }

  lemma ShiftFold(op: Op, ty: Ty, x: int, n: nat)
    requires Shifts(op) && (op == RSH ==> ty.unsigned && Ranged(ty, x))
    ensures Apply(op, ty, x % M(ty), n) == Host(op, x, n) % M(ty)
  {
    hide Pow2, Bits, S;
    ShiftMod(x, Pow2(n), M(ty));
    if op == RSH {
      QuotFacts(x, Pow2(n));
    }
  }

  lemma ShiftMod(x: int, p: nat, m: int)
    requires m > 0
    ensures ((x % m) * p) % m == (x * p) % m
  {
    var q := x / m;
    assert x == q * m + x % m;
    MulDistributes(q * m, x % m, p);
    assert (q * m) * p == (q * p) * m;
    AddMultiple(q * p, m, (x % m) * p);
  }

  /** Multiplying by a power of two is shifting. */
  lemma {:induction false} PowerValue(ty: Ty, n: nat, y: nat)
    requires y < M(ty)
    ensures Apply(MUL, ty, Pow2(n) % M(ty), y) == Apply(LSH, ty, y, n)
    ensures Apply(MUL, ty, y, Pow2(n) % M(ty)) == Apply(LSH, ty, y, n)
  {
    hide Pow2, Bits, S, Quot, Rem, M;
    PowerMod(Pow2(n), y, M(ty));
  }

  lemma PowerMod(p: nat, y: nat, m: nat)
    requires y < m
    ensures ((p % m) * y) % m == (y * p) % m && (y * (p % m)) % m == (y * p) % m
  {
    MulMod(p, y, m);
    SmallMod(y, m);
    assert p * y == y * p && (p % m) * y == y * (p % m);
  }

  lemma SmallMod(y: nat, m: nat)
    requires y < m
    ensures y % m == y
  {
  }

  lemma {:induction false} Log2Small(u: nat)
    requires u < 0x1_0000_0000
    ensures Log2(u) < 32
  {
    if Log2(u) >= 32 {
      Pow2Of32();
      Pow2Grows(32, Log2(u));
    }
  }

  lemma {:induction false} Pow2Grows(a: nat, b: nat)
    requires a <= b
    ensures Pow2(a) <= Pow2(b)
    decreases b
  {
    if a < b {
      Pow2Grows(a, b - 1);
    }
  }

  /** A power of two times a tree, as a shift. */
  lemma PowerKeeps(ty: Ty, l: Tree, r: Tree, needconst: bool, env: nat -> nat)
    requires Operands(MUL, ty, l, r) && IsPower(l, ty) && Proper(l)
    ensures Stands(MulPower(ty, l, r, needconst), MUL, ty, l, r, env)
  {
    hide Apply, SimplifyShift, Log2, Eval;
    var n := Log2(l.v);
    Log2Small(l.v);
    ConstEval(INT, n, env);
    ShiftKeeps(LSH, ty, r, Const(INT, n), needconst, env);
    EvalBound(r, env);
    ValueEval(l, ty, l.v, env);
    PowerValue(ty, n, Eval(r, env));
  }

  lemma OneValue(ty: Ty, x: nat)
    requires x < M(ty)
    ensures Apply(MUL, ty, x, 1 % M(ty)) == x && Apply(MUL, ty, 1 % M(ty), x) == x && Apply(DIV, ty, x, 1 % M(ty)) == x
  {
    SignBack(ty, x);
    assert 1 % M(ty) == 1 && S(ty, 1) == 1;
    hide Pow2, Bits, Quot, Rem, S;
  }

  lemma SignBack(ty: Ty, x: nat)
    requires x < M(ty)
    ensures S(ty, x) % M(ty) == x && x % M(ty) == x && Quot(S(ty, x), 1) == S(ty, x)
  {
  }

  lemma MulDistributesLeft(c: int, x: int, y: int)
    ensures c * (x + y) == c * x + c * y && c * (x - y) == c * x - c * y
  {
  }

  lemma MulModRight(c: int, z: int, m: int)
    requires m > 0
    ensures (c * (z % m)) % m == (c * z) % m
  {
    MulMod(c, z, m);
    MulMod(c, z % m, m);
    ModTwice(z, m);
  }

  lemma DistributeMod(c: int, x: int, y: int, z: int, m: int)
    requires m > 0 && (z == x + y || z == x - y)
    ensures (c * (z % m)) % m == (c * z) % m
    ensures z == x + y ==> (c * z) % m == ((c * x) % m + (c * y) % m) % m
    ensures z == x - y ==> (c * z) % m == ((c * x) % m - (c * y) % m) % m
  {
    MulModRight(c, z, m);
    var cx, cy := c * x, c * y;
    MulDistributesLeft(c, x, y);
    SumMod(cx, cy, m);
  }

  /** c1 * (x + c2) == c1 * x + c1 * c2, and for differences. */
  lemma DistributeValue(op: Op, ty: Ty, c: nat, x: nat, y: nat)
    requires op == ADD || op == SUB
    ensures Apply(MUL, ty, c, Apply(op, ty, x, y)) == Apply(op, ty, Apply(MUL, ty, c, x), Apply(MUL, ty, c, y))
  {
    hide Pow2, Bits, S, Quot, Rem, M;
    DistributeMod(c, x, y, if op == ADD then x + y else x - y, M(ty));
  }

  lemma ModTwice(z: int, m: int)
    requires m > 0
    ensures (z % m) % m == z % m
  {
  }

  /** The tree c1 * x op c1 * c2 made of simplified products. */
  lemma DistributeKeeps(op: Op, ty: Ty, l: Tree, r: Tree, a: Tree, b: Tree, needconst: bool, env: nat -> nat)
    requires Operands(MUL, ty, l, r) && r.Bin? && r.op == op && (op == ADD || op == SUB)
    requires Stands(a, MUL, ty, l, r.l, env) && Stands(b, MUL, ty, l, r.r, env)
    ensures Stands(SimplifyZero(op, ty, a, b, needconst), MUL, ty, l, r, env)
  {
    hide Apply, SimplifyZero;
    ZeroKeeps(op, ty, a, b, needconst, env);
    DistributeValue(op, ty, Eval(l, env), Eval(r.l, env), Eval(r.r, env));
  }

  lemma {:induction false} BinParts(ty: Ty, l: Tree, r: Tree)
    requires Operands(MUL, ty, l, r) && Ok(l) && Ok(r) && Distributes(ty, l, r)
    ensures Operands(MUL, ty, l, r.l) && Operands(MUL, ty, l, r.r) && Ok(r.l) && Ok(r.r)
    ensures Nodes(r.l) + 1 <= Nodes(r) && Nodes(r.r) + 1 <= Nodes(r)
  {
  }

  lemma {:induction false} OkIsTyped(t: Tree)
    requires Ok(t)
    ensures Typed(t) && Proper(t)
    decreases t
  {
    match t
    case Bin(_, _, l, r) => OkIsTyped(l); OkIsTyped(r);
    case Neg(_, l) => OkIsTyped(l);
    case Bcom(_, l) => OkIsTyped(l);
    case Right(l, r) => OkIsTyped(l); OkIsTyped(r);
    case _ =>
  }

  lemma RingFold(op: Op, ty: Ty, l: Tree, r: Tree, env: nat -> nat)
    requires Operands(op, ty, l, r) && BothConst(ty, l, r) && op in {ADD, SUB, MUL, BAND, BOR, BXOR}
    ensures Stands(Const(ty, Host(op, l.v, r.v)), op, ty, l, r, env)
  {
    hide Apply, Host, Const;
    FoldRing(op, ty, l.v, r.v);
    ConstEval(ty, Host(op, l.v, r.v), env);
    ValueEval(l, ty, l.v, env);
    ValueEval(r, ty, r.v, env);
  }

  lemma OneKeeps(op: Op, ty: Ty, l: Tree, r: Tree, env: nat -> nat)
    requires Operands(op, ty, l, r) && (op == MUL || op == DIV) && IsValue(r, ty, 1)
    ensures Stands(l, op, ty, l, r, env)
  {
    hide Apply;
    EvalBound(l, env);
    ValueEval(r, ty, 1, env);
    OneValue(ty, Eval(l, env));
  }

  lemma {:induction false} MulKeeps(ty: Ty, l: Tree, r: Tree, needconst: bool, env: nat -> nat)
    requires Operands(MUL, ty, l, r) && Ok(l) && Ok(r)
    ensures Stands(SimplifyMul(ty, l, r, needconst), MUL, ty, l, r, env)
    decreases Nodes(l) + Nodes(r), 1
  {
    hide Apply, MulConstLeft, Eval, Ok, Typed, TypeOf;
    if Swaps(r, l) {
      MulConstLeftKeeps(ty, r, l, needconst, env);
      CommuteValue(MUL, ty, Eval(l, env), Eval(r, env));
    } else {
      MulConstLeftKeeps(ty, l, r, needconst, env);
    }
  }

  lemma {:induction false} MulConstLeftKeeps(ty: Ty, l: Tree, r: Tree, needconst: bool, env: nat -> nat)
    requires Operands(MUL, ty, l, r) && Ok(l) && Ok(r)
    ensures Stands(MulConstLeft(ty, l, r, needconst), MUL, ty, l, r, env)
    decreases Nodes(l) + Nodes(r), 0
  {
    hide Apply, SimplifyMul, SimplifyZero, MulPower, Folds, Host, Const, Eval, Ok, Typed, TypeOf, Log2, Stands, Operands, Nodes;
    OkIsTyped(l);
    BinStands(MUL, ty, l, r, env);
    if IsPower(l, ty) {
      PowerKeeps(ty, l, r, needconst, env);
    }
    if BothConst(ty, l, r) {
      RingFold(MUL, ty, l, r, env);
    }
    if IsValue(r, ty, 1) {
      OneKeeps(MUL, ty, l, r, env);
    }
    if Distributes(ty, l, r) {
      BinParts(ty, l, r);
      MulKeeps(ty, l, r.l, needconst, env);
      MulKeeps(ty, l, r.r, needconst, env);
      DistributeKeeps(r.op, ty, l, r, SimplifyMul(ty, l, r.l, needconst), SimplifyMul(ty, l, r.r, needconst), needconst, env);
    }
  }

  // --- division and remainder

  lemma ProperFold(op: Op, ty: Ty, l: Tree, r: Tree, env: nat -> nat)
    requires Operands(op, ty, l, r) && BothConst(ty, l, r) && Proper(l) && Proper(r)
    requires Compares(op) || ((op == DIV || op == MOD) && r.v != 0)
    ensures Stands(Const(ResultType(op, ty), Host(op, l.v, r.v)), op, ty, l, r, env)
  {
    hide Apply, Host, Const, Ranged;
    TyOfConst(l);
    TyOfConst(r);
    FoldProper(op, ty, l.v, r.v);
    ConstEval(ResultType(op, ty), Host(op, l.v, r.v), env);
    ValueEval(l, ty, l.v, env);
    ValueEval(r, ty, r.v, env);
    if Compares(op) {
      SmallTruth(op, ty, l.v, r.v);
    }
  }

  lemma SmallTruth(op: Op, ty: Ty, x: int, y: int)
    requires Compares(op)
    ensures Host(op, x, y) % M(ty) == Host(op, x, y) % M(INT)
  {
  }

  lemma {:induction false} PowerDivides(ty: Ty, x: nat, n: nat)
    requires ty.unsigned && x < M(ty) && Pow2(n) < M(ty)
    ensures Apply(DIV, ty, x, Pow2(n) % M(ty)) == Apply(RSH, ty, x, n)
    ensures Apply(MOD, ty, x, Pow2(n) % M(ty)) == x % Pow2(n)
  {
    hide Pow2, M;
    var p := Pow2(n);
    QuotFacts(x, p);
    SmallMod(p, M(ty));
    SmallMod(x / p, M(ty));
    RestFacts(x, p);
    SmallMod(x % p, M(ty));
  }

  lemma RestFacts(x: nat, p: nat)
    requires p > 0
    ensures x - (x / p) * p == x % p <= x
  {
    QuotFacts(x, p);
    assert x == (x / p) * p + x % p;
    assert (x / p) * p >= 0;
  }

  /** Division by a power of two is a shift. */
  lemma DivPowerKeeps(ty: Ty, l: Tree, r: Tree, needconst: bool, env: nat -> nat)
    requires Operands(DIV, ty, l, r) && ty.unsigned && IsPower(r, ty) && Proper(l) && Proper(r)
    ensures Stands(SimplifyShift(RSH, ty, l, Const(INT, Log2(r.v)), needconst), DIV, ty, l, r, env)
  {
    hide Apply, SimplifyShift, Log2, Eval;
    var n := Log2(r.v);
    Log2Small(r.v);
    ConstEval(INT, n, env);
    ShiftKeeps(RSH, ty, l, Const(INT, n), needconst, env);
    EvalBound(l, env);
    ValueEval(r, ty, r.v, env);
    PowerDivides(ty, Eval(l, env), n);
  }

  lemma {:induction false} MaskRemainder(ty: Ty, x: nat, u: nat)
    requires ty.unsigned && x < M(ty) && 0 < u < M(ty) && Log2(u) != 0
    ensures Apply(MOD, ty, x, u % M(ty)) == Apply(BAND, ty, x, (u - 1) % M(ty))
  {
    hide Apply, Log2, Pow2, M;
    Log2Width(ty, u);
    PowerDivides(ty, x, Log2(u));
    MaskValue(ty, x, Log2(u));
    SmallMod(u - 1, M(ty));
  }

  /** A remainder by a power of two is a mask. */
  lemma ModPowerKeeps(ty: Ty, l: Tree, r: Tree, env: nat -> nat)
    requires Operands(MOD, ty, l, r) && ty.unsigned && IsPower(r, ty) && Proper(r)
    ensures Stands(SimplifyAnd(ty, l, Const(ty, r.v - 1)), MOD, ty, l, r, env)
  {
    TyOfConst(r);
    hide Apply, SimplifyAnd, Log2, Eval, Const, Typed, TypeOf;
    ConstEval(ty, r.v - 1, env);
    AndKeeps(ty, l, Const(ty, r.v - 1), env);
    EvalBound(l, env);
    ValueEval(r, ty, r.v, env);
    MaskRemainder(ty, Eval(l, env), r.v);
  }

  lemma {:induction false} Log2Width(ty: Ty, u: nat)
    requires u < M(ty)
    ensures Log2(u) < Width(ty)
  {
    if Log2(u) >= Width(ty) {
      WidthIs(ty);
      Pow2Grows(Width(ty), Log2(u));
    }
  }

  lemma DivKeeps(ty: Ty, l: Tree, r: Tree, needconst: bool, env: nat -> nat)
    requires Operands(DIV, ty, l, r) && Proper(l) && Proper(r)
    ensures Stands(SimplifyDiv(ty, l, r, needconst), DIV, ty, l, r, env)
  {
    hide Apply, SimplifyShift, Folds, Host, Const, Eval, Typed, TypeOf, Log2, Stands, Operands, Min, Ranged;
    BinStands(DIV, ty, l, r, env);
    if IsValue(r, ty, 1) {
      OneKeeps(DIV, ty, l, r, env);
    }
    if ty.unsigned && IsPower(r, ty) {
      DivPowerKeeps(ty, l, r, needconst, env);
    }
    if BothConst(ty, l, r) && r.v != 0 {
      ProperFold(DIV, ty, l, r, env);
    }
  }

  lemma RemOne(ty: Ty, x: nat)
    requires x < M(ty)
    ensures Apply(MOD, ty, x, 1 % M(ty)) == 0
  {
    hide Pow2, Bits;
    assert Quot(S(ty, x), 1) == S(ty, x);
  }

  lemma ModKeeps(ty: Ty, l: Tree, r: Tree, needconst: bool, env: nat -> nat)
    requires Operands(MOD, ty, l, r) && Proper(l) && Proper(r)
    ensures Stands(SimplifyMod(ty, l, r, needconst), MOD, ty, l, r, env)
  {
    hide Apply, SimplifyAnd, Folds, Host, Const, Eval, TypeOf, Log2, Min, Ranged;
    BinStands(MOD, ty, l, r, env);
    ConstEval(ty, 0, env);
    EvalBound(l, env);
    if IsValue(r, ty, 1) {
      ValueEval(r, ty, 1, env);
      RemOne(ty, Eval(l, env));
      ZeroConst(ty);
      RightStands(MOD, ty, l, r, l, Const(ty, 0), env);
    }
    if ty.unsigned && IsPower(r, ty) {
      ModPowerKeeps(ty, l, r, env);
    }
    if BothConst(ty, l, r) && r.v != 0 {
      ProperFold(MOD, ty, l, r, env);
    }
  }

  // --- comparisons

  lemma EqKeeps(op: Op, ty: Ty, l: Tree, r: Tree, env: nat -> nat)
    requires (op == EQ || op == NE) && Operands(op, ty, l, r) && Proper(l) && Proper(r)
    ensures Stands(SimplifyEq(op, ty, l, r), op, ty, l, r, env)
  {
    hide Apply, Const, Eval, TypeOf, Typed, Stands, Operands, Ranged, Holds, Truth;
    BinStands(op, ty, l, r, env);
    if BothConst(ty, l, r) {
      ProperFold(op, ty, l, r, env);
    }
  }

  /** Unsigned orderings against zero. */
  lemma OrderZero(ty: Ty, x: nat)
    requires ty.unsigned
    ensures Apply(GE, ty, x, 0) == 1 && Apply(LT, ty, x, 0) == 0 && Apply(LE, ty, 0, x) == 1 && Apply(GT, ty, 0, x) == 0
    ensures Apply(GE, ty, 0, x) == Apply(EQ, ty, x, 0) && Apply(LT, ty, 0, x) == Apply(NE, ty, x, 0)
    ensures Apply(GT, ty, x, 0) == Apply(NE, ty, x, 0) && Apply(LE, ty, x, 0) == Apply(EQ, ty, x, 0)
  {
  }

  lemma OrderKeeps(op: Op, ty: Ty, l: Tree, r: Tree, env: nat -> nat)
    requires op in {LT, LE, GT, GE} && Operands(op, ty, l, r) && Proper(l) && Proper(r)
    ensures Stands(SimplifyOrder(op, ty, l, r), op, ty, l, r, env)
  {
    hide Apply, Eval, TypeOf, Typed, Stands, Operands, SimplifyEq, Ranged, Const;
    BinStands(op, ty, l, r, env);
    if ty.unsigned {
      UnsignedZero(op, ty, l, r, env);
    }
    if BothConst(ty, l, r) {
      ProperFold(op, ty, l, r, env);
    }
  }

  lemma UnsignedZero(op: Op, ty: Ty, l: Tree, r: Tree, env: nat -> nat)
    requires ty.unsigned && op in {LT, LE, GT, GE} && Operands(op, ty, l, r) && Proper(l) && Proper(r)
    ensures (op == GE || op == LT) && IsValue(r, ty, 0) ==> Stands(Right(l, Const(INT, Truth(op == GE))), op, ty, l, r, env)
    ensures (op == LE || op == GT) && IsValue(l, ty, 0) ==> Stands(Right(r, Const(INT, Truth(op == LE))), op, ty, l, r, env)
    ensures op == GE && IsValue(l, ty, 0) ==> Stands(SimplifyEq(EQ, ty, r, l), op, ty, l, r, env)
    ensures op == LT && IsValue(l, ty, 0) ==> Stands(SimplifyEq(NE, ty, r, l), op, ty, l, r, env)
    ensures op == GT && IsValue(r, ty, 0) ==> Stands(SimplifyEq(NE, ty, l, r), op, ty, l, r, env)
    ensures op == LE && IsValue(r, ty, 0) ==> Stands(SimplifyEq(EQ, ty, l, r), op, ty, l, r, env)
  {
    hide Apply, Eval, SimplifyEq, Ranged, Const;
    ValueEval(l, ty, 0, env);
    ValueEval(r, ty, 0, env);
    ZeroConst(ty);
    ConstEval(INT, 0, env);
    ConstEval(INT, 1, env);
    OrderZero(ty, Eval(l, env));
    OrderZero(ty, Eval(r, env));
    var e := if op == GE || op == LE then EQ else NE;
    if op == GE || op == LT {
      EqKeeps(e, ty, r, l, env);
    } else {
      EqKeeps(e, ty, l, r, env);
    }
    if (op == GE || op == LT) && IsValue(r, ty, 0) {
      RightStands(op, ty, l, r, l, Const(INT, Truth(op == GE)), env);
    }
    if (op == LE || op == GT) && IsValue(l, ty, 0) {
      RightStands(op, ty, l, r, r, Const(INT, Truth(op == LE)), env);
    }
  }

  lemma {:induction false} SimplifyStands(op: Op, ty: Ty, l: Tree, r: Tree, needconst: bool, env: nat -> nat)
    requires Ok(l) && Ok(r) && Operands(op, ty, l, r) && Proper(l) && Proper(r)
    ensures Stands(Simplify(op, ty, l, r, needconst), op, ty, l, r, env)
  {
    hide Stands, Operands, SimplifyZero, SimplifyAnd, SimplifyMul, SimplifyDiv, SimplifyMod, SimplifyShift, SimplifyEq, SimplifyOrder, Ok, Proper;
    match op
    case BAND => AndKeeps(ty, l, r, env);
    case MUL => MulKeeps(ty, l, r, needconst, env);
    case DIV => DivKeeps(ty, l, r, needconst, env);
    case MOD => ModKeeps(ty, l, r, needconst, env);
    case LSH => ShiftKeeps(op, ty, l, r, needconst, env);
    case RSH => ShiftKeeps(op, ty, l, r, needconst, env);
    case EQ => EqKeeps(op, ty, l, r, env);
    case NE => EqKeeps(op, ty, l, r, env);
    case LT => OrderKeeps(op, ty, l, r, env);
    case LE => OrderKeeps(op, ty, l, r, env);
    case GT => OrderKeeps(op, ty, l, r, env);
    case GE => OrderKeeps(op, ty, l, r, env);
    case _ => ZeroKeeps(op, ty, l, r, needconst, env);
  }

  /** Simplifying keeps types and the value, for all operand trees and whatever the leaves hold. */
  lemma {:induction false} SimplifyKeepsValue(op: Op, ty: Ty, l: Tree, r: Tree, needconst: bool, env: nat -> nat)
    requires Ok(l) && Ok(r) && Fits(op, ty, TypeOf(l), TypeOf(r))
    ensures Typed(Simplify(op, ty, l, r, needconst)) && TypeOf(Simplify(op, ty, l, r, needconst)) == ResultType(op, ty)
    ensures Eval(Simplify(op, ty, l, r, needconst), env) == Eval(Bin(op, ty, l, r), env)
  {
    hide *;
    OkIsTyped(l);
    OkIsTyped(r);
    OperandsFit(op, ty, l, r);
    SimplifyStands(op, ty, l, r, needconst, env);
    StandsFor(Simplify(op, ty, l, r, needconst), op, ty, l, r, env);
  }

  lemma {:induction false} OperandsFit(op: Op, ty: Ty, l: Tree, r: Tree)
    requires Typed(l) && Typed(r) && Fits(op, ty, TypeOf(l), TypeOf(r))
    ensures Operands(op, ty, l, r)
  {
  }

  lemma {:induction false} StandsFor(t: Tree, op: Op, ty: Ty, l: Tree, r: Tree, env: nat -> nat)
    requires Stands(t, op, ty, l, r, env)
    ensures Typed(t) && TypeOf(t) == ResultType(op, ty) && Eval(t, env) == Eval(Bin(op, ty, l, r), env)
  {
    EvalBin(op, ty, l, r, env);
    hide Plain, Eval, Typed, TypeOf, ResultType;
  }

  lemma {:induction false} EvalBin(op: Op, ty: Ty, l: Tree, r: Tree, env: nat -> nat)
    ensures Eval(Bin(op, ty, l, r), env) == Plain(op, ty, l, r, env)
  {
    hide Apply;
  }

  // ----- constants stay in range -----

  /** The difference that `subi` lets through, here or among the terms of a product with a signed constant. */
  predicate Escapes(op: Op, ty: Ty, l: Tree, r: Tree) {
    if op == SUB then Lets(ty, l, r)
    else if op != MUL || ty.unsigned then false
    else if Swaps(r, l) then ProductEscapes(ty, r.v, l)
    else l.Cnst? && ProductEscapes(ty, l.v, r)
  }

  predicate Lets(ty: Ty, l: Tree, r: Tree) {
    !ty.unsigned && IsValue(l, ty, 0) && IsValue(r, ty, Min(ty))
  }

  /** The number to which c times t folds, term by term. */
  function Product(ty: Ty, c: int, t: Tree): Option<int> {
    if t.Cnst? then
      if Folds(MUL, ty, c, t.v, false) then Some(c * t.v) else None
    else if Sums(t) then
      var u, w := Product(ty, c, t.l), Product(ty, c, t.r);
      if u.Some? && w.Some? && Folds(t.op, ty, u.value, w.value, false) then Some(Host(t.op, u.value, w.value)) else None
    else None
  }

  /** c times t has a constant outside its type: the product folds to one, or cannot be folded and has one in it. */
  predicate ProductEscapes(ty: Ty, c: int, t: Tree) {
    Sums(t)
    && var u, w := Product(ty, c, t.l), Product(ty, c, t.r);
       if u.Some? && w.Some? then
         !Ranged(ty, if Folds(t.op, ty, u.value, w.value, false) then Host(t.op, u.value, w.value) else u.value)
       else ProductEscapes(ty, c, t.l)
  }

  lemma FoldRanged(op: Op, ty: Ty, x: int, y: int)
    requires Ranged(ty, x) && Ranged(ty, y) && op in {ADD, SUB, MUL, DIV, MOD, BAND, BOR, BXOR}
    requires op == DIV || op == MOD ==> y != 0
    requires Folds(op, ty, x, y, false)
    ensures Proper(Const(ty, Host(op, x, y))) <==> !(op == SUB && !ty.unsigned && x == 0 && y == Min(ty))
  {
    hide IntBits, Quot, Rem, Pow2, Addi, Muli, Divi;
    if !ty.unsigned {
      match op
      case ADD => AddiExact(x, y, ty);
      case SUB => SubiExact(x, y, ty);
      case MUL => MuliExact(x, y, ty);
      case DIV => DiviExact(x, y, ty);
      case MOD => RemRanged(x, y, ty);
      case _ => BitsRanged(op, x, y, ty);
    }
  }

  lemma RemRanged(x: int, y: int, ty: Ty)
    requires Ranged(ty, x) && Ranged(ty, y) && y != 0 && !ty.unsigned
    ensures Ranged(ty, Rem(x, y))
  {
    RestFacts(Abs(x), Abs(y));
    var q := Abs(x) / Abs(y);
    assert Quot(x, y) * y == if x < 0 then -(q * Abs(y)) else q * Abs(y);
  }

  lemma BitsRanged(op: Op, x: int, y: int, ty: Ty)
    requires Ranged(ty, x) && Ranged(ty, y) && op in {BAND, BOR, BXOR} && !ty.unsigned
    ensures Ranged(ty, Host(op, x, y))
  {
    hide IntBits, Pow2;
    HalfWidth(ty);
    IntBitsRange(BitsOf(op), x, y, Width(ty) - 1);
  }

  lemma HalfWidth(ty: Ty)
    ensures Pow2(Width(ty) - 1) == M(ty) / 2
  {
    WidthIs(ty);
    assert Pow2(Width(ty)) == 2 * Pow2(Width(ty) - 1);
  }

  lemma {:induction false} ZeroProper(op: Op, ty: Ty, l: Tree, r: Tree)
    requires op in {ADD, SUB, BOR, BXOR} && Ok(l) && Ok(r) && Fits(op, ty, TypeOf(l), TypeOf(r))
    ensures Ok(SimplifyZero(op, ty, l, r, false)) <==> !(op == SUB && Lets(ty, l, r))
  {
    hide Host, Folds, Const, Min;
    if BothConst(ty, l, r) {
      TyOfConst(l);
      TyOfConst(r);
      if Folds(op, ty, l.v, r.v, false) {
        FoldRanged(op, ty, l.v, r.v);
        ConstOk(ty, Host(op, l.v, r.v));
      } else {
        ZeroFolds(ty, r.v);
      }
    }
  }

  lemma ZeroFolds(ty: Ty, y: int)
    ensures Folds(SUB, ty, 0, y, false)
  {
  }

  lemma {:induction false} AndProper(ty: Ty, l: Tree, r: Tree)
    requires Ok(l) && Ok(r) && Fits(BAND, ty, TypeOf(l), TypeOf(r))
    ensures Ok(SimplifyAnd(ty, l, r))
  {
    hide Host, Const;
    ConstOk(ty, 0);
    if BothConst(ty, l, r) {
      TyOfConst(l);
      TyOfConst(r);
      FoldRanged(BAND, ty, l.v, r.v);
      ConstOk(ty, Host(BAND, l.v, r.v));
    }
  }

  lemma {:induction false} ShiftProper(op: Op, ty: Ty, l: Tree, r: Tree)
    requires Shifts(op) && Ok(l) && Ok(r) && Fits(op, ty, TypeOf(l), TypeOf(r))
    ensures Ok(SimplifyShift(op, ty, l, r, false))
  {
    hide Const, Pow2, Muli, M;
    if IsConst(l, ty.unsigned) && IsConst(r, false) && 0 <= r.v {
      TyOfConst(l);
      ConstOk(ty, Host(op, l.v, r.v));
      UnsignedConst(ty, Host(op, l.v, r.v));
      if !ty.unsigned && Muli(l.v, Pow2(r.v), ty, false) && r.v < 16 && r.v < (if l.ty.long then 16 else 8) {
        Pow2Range(ty, r.v);
        MuliExact(l.v, Pow2(r.v), ty);
      }
    }
  }

  lemma UnsignedConst(ty: Ty, v: int)
    ensures ty.unsigned ==> Ok(Const(ty, v))
  {
  }

  lemma {:induction false} Pow2Range(ty: Ty, n: nat)
    requires n < (if ty.long then 16 else 8) && !ty.unsigned
    ensures Ranged(ty, Pow2(n))
  {
    Pow2Of16();
    assert Pow2(8) == 256;
    Pow2Grows(n, if ty.long then 16 else 8);
  }

  lemma CountOk(n: nat)
    requires n < 32
    ensures Ok(Const(INT, n)) && TypeOf(Const(INT, n)) == INT
  {
  }

  lemma {:induction false} DivProper(ty: Ty, l: Tree, r: Tree)
    requires Ok(l) && Ok(r) && Fits(DIV, ty, TypeOf(l), TypeOf(r))
    ensures Ok(SimplifyDiv(ty, l, r, false))
  {
    hide Host, Const, Min, Divi, Log2, SimplifyShift;
    if ty.unsigned && IsPower(r, ty) {
      TyOfConst(r);
      Log2Small(r.v);
      CountOk(Log2(r.v));
      ShiftProper(RSH, ty, l, Const(INT, Log2(r.v)));
    }
    if BothConst(ty, l, r) && r.v != 0 && Folds(DIV, ty, l.v, r.v, false) {
      TyOfConst(l);
      TyOfConst(r);
      FoldRanged(DIV, ty, l.v, r.v);
      ConstOk(ty, Host(DIV, l.v, r.v));
    }
  }

  lemma {:induction false} ModProper(ty: Ty, l: Tree, r: Tree)
    requires Ok(l) && Ok(r) && Fits(MOD, ty, TypeOf(l), TypeOf(r))
    ensures Ok(SimplifyMod(ty, l, r, false))
  {
    hide Host, Const, Divi, Log2, SimplifyAnd;
    ConstOk(ty, 0);
    if ty.unsigned && IsPower(r, ty) {
      TyOfConst(r);
      ConstOk(ty, r.v - 1);
      UnsignedConst(ty, r.v - 1);
      AndProper(ty, l, Const(ty, r.v - 1));
    }
    if BothConst(ty, l, r) && r.v != 0 && Folds(MOD, ty, l.v, r.v, false) {
      TyOfConst(l);
      TyOfConst(r);
      FoldRanged(MOD, ty, l.v, r.v);
      ConstOk(ty, Host(MOD, l.v, r.v));
    }
  }

  lemma {:induction false} MulProper(ty: Ty, l: Tree, r: Tree)
    requires Ok(l) && Ok(r) && Fits(MUL, ty, TypeOf(l), TypeOf(r))
    requires !Distributes(ty, l, r)
    ensures Ok(MulConstLeft(ty, l, r, false))
  {
    hide Host, Const, Folds, Log2, SimplifyShift;
    if IsPower(l, ty) {
      TyOfConst(l);
      Log2Small(l.v);
      CountOk(Log2(l.v));
      ShiftProper(LSH, ty, r, Const(INT, Log2(l.v)));
    }
    if BothConst(ty, l, r) && Folds(MUL, ty, l.v, r.v, false) {
      TyOfConst(l);
      TyOfConst(r);
      FoldRanged(MUL, ty, l.v, r.v);
      ConstOk(ty, Host(MUL, l.v, r.v));
    }
  }

  lemma {:induction false} EqProper(op: Op, ty: Ty, l: Tree, r: Tree)
    requires (op == EQ || op == NE) && Ok(l) && Ok(r) && Fits(op, ty, TypeOf(l), TypeOf(r))
    ensures Ok(SimplifyEq(op, ty, l, r))
  {
    hide Holds, Const, Ranged, M, Min, Max;
    CountOk(0);
    CountOk(1);
  }

  lemma {:induction false} OrderProper(op: Op, ty: Ty, l: Tree, r: Tree)
    requires op in {LT, LE, GT, GE} && Ok(l) && Ok(r) && Fits(op, ty, TypeOf(l), TypeOf(r))
    ensures Ok(SimplifyOrder(op, ty, l, r))
  {
    CountOk(0);
    CountOk(1);
    OkParts(op, ty, l, r);
    OkParts(op, ty, l, Const(INT, Truth(op == GE)));
    OkParts(op, ty, r, Const(INT, Truth(op == LE)));
    hide Holds, Const, SimplifyEq, Ok;
    if ty.unsigned && (op == GE || op == LT) {
      EqProper(if op == GE then EQ else NE, ty, r, l);
    } else if ty.unsigned {
      EqProper(if op == LE then EQ else NE, ty, l, r);
    }
  }

  lemma {:induction false} OkParts(op: Op, ty: Ty, l: Tree, r: Tree)
    requires Ok(l) && Ok(r)
    ensures Ok(Right(l, r)) && (Fits(op, ty, TypeOf(l), TypeOf(r)) ==> Ok(Bin(op, ty, l, r)))
  {
  }

  /** A sum or difference of terms, the second proper. */
  lemma {:induction false} SumProper(op: Op, ty: Ty, a: Tree, b: Tree)
    requires (op == ADD || op == SUB) && !ty.unsigned && TypeOf(a) == ty && TypeOf(b) == ty && Ok(b)
    ensures var s := SimplifyZero(op, ty, a, b, false);
            if a.Cnst? && b.Cnst? then
              && (s.Cnst? <==> Folds(op, ty, a.v, b.v, false)) && (s.Cnst? ==> s == Cnst(ty, Host(op, a.v, b.v)))
              && (Ok(s) <==> Ranged(ty, if Folds(op, ty, a.v, b.v, false) then Host(op, a.v, b.v) else a.v))
            else !s.Cnst? && (Ok(s) <==> Ok(a))
  {
    hide Host, Ranged;
    if a.Cnst? && b.Cnst? {
      ZeroRight(op, ty, a.v);
    }
    if a.Cnst? {
      ZeroRanged(ty);
    }
  }

  lemma ZeroRight(op: Op, ty: Ty, x: int)
    requires op == ADD || op == SUB
    ensures Folds(op, ty, x, 0, false)
  {
  }

  lemma ZeroRanged(ty: Ty)
    ensures Ranged(ty, 0)
  {
  }

  /** A product with a constant is proper, and a constant, as told beforehand. */
  lemma {:induction false} ProductProper(ty: Ty, l: Tree, r: Tree)
    requires !ty.unsigned && l.Cnst? && Ok(l) && Ok(r) && TypeOf(l) == ty && TypeOf(r) == ty
    ensures var p := SimplifyMul(ty, l, r, false);
            && TypeOf(p) == ty && (Ok(p) <==> !ProductEscapes(ty, l.v, r))
            && (p.Cnst? <==> Product(ty, l.v, r).Some?) && (p.Cnst? ==> p == Cnst(ty, Product(ty, l.v, r).value))
    decreases Nodes(r)
  {
    MulKeeps(ty, l, r, false, x => 0) by { OkIsTyped(l); OkIsTyped(r); }
    if Sums(r) && !Folding(ty, l, r) {
      BinParts(ty, l, r) by { OkIsTyped(l); OkIsTyped(r); }
      var a, b := SimplifyMul(ty, l, r.l, false), SimplifyMul(ty, l, r.r, false);
      ProductProper(ty, l, r.l);
      ProductProper(ty, l, r.r);
      Distributed(ty, l, r);
      hide SimplifyMul, Ok, SimplifyZero, Ranged, Folds, Host, Eval;
      assert !ProductEscapes(ty, l.v, r.r);
      SumProper(r.op, ty, a, b);
    } else {
      ProductOfOther(ty, l, r);
    }
  }

  predicate Folding(ty: Ty, l: Tree, r: Tree) {
    BothConst(ty, l, r) && Folds(MUL, ty, l.v, r.v, false)
  }

  lemma {:induction false} Distributed(ty: Ty, l: Tree, r: Tree)
    requires !ty.unsigned && l.Cnst? && l.ty == ty && Sums(r)
    ensures SimplifyMul(ty, l, r, false) ==
            SimplifyZero(r.op, ty, SimplifyMul(ty, l, r.l, false), SimplifyMul(ty, l, r.r, false), false)
  {
    hide SimplifyZero, Folds, Host, Log2;
  }

  /** A product that is not distributed. */
  lemma {:induction false} ProductOfOther(ty: Ty, l: Tree, r: Tree)
    requires !ty.unsigned && l.Cnst? && Ok(l) && Ok(r) && TypeOf(l) == ty && TypeOf(r) == ty && !Sums(r)
    ensures var p := SimplifyMul(ty, l, r, false);
            && Ok(p) && (p.Cnst? <==> r.Cnst? && Folds(MUL, ty, l.v, r.v, false))
            && (p.Cnst? ==> p == Cnst(ty, l.v * r.v))
  {
    TyOfConst(l);
    MulProper(ty, l, r);
    if r.Cnst? {
      TyOfConst(r);
      if IsPower(l, ty) {
        PowerTwice(ty, l.v, r.v);
        MulCommutes(l.v, r.v);
      }
      OneFolds(ty, l.v);
    }
    hide Ok, Log2, Folds, Pow2, Muli;
  }

  lemma {:induction false} PowerTwice(ty: Ty, c: int, v: int)
    requires !ty.unsigned && Ranged(ty, c) && Ranged(ty, v) && c > 0 && Log2(c) != 0
    ensures Pow2(Log2(c)) == c && (Muli(v, c, ty, false) <==> Muli(c, v, ty, false))
  {
    MuliExact(c, v, ty);
    MuliExact(v, c, ty);
    MulCommutes(c, v);
  }

  lemma MulCommutes(x: int, y: int)
    ensures x * y == y * x
  {
  }

  lemma OneFolds(ty: Ty, c: int)
    ensures Folds(MUL, ty, c, 1, false)
  {
  }

  /** Without forced folding simplifying proper trees yields a proper tree, but for 0 - min, where a constant
      outside its type comes out, alone or among the terms of a product. */
  lemma {:induction false} SimplifyKeepsProper(op: Op, ty: Ty, l: Tree, r: Tree)
    requires Ok(l) && Ok(r) && Fits(op, ty, TypeOf(l), TypeOf(r))
    ensures Ok(Simplify(op, ty, l, r, false)) <==> !Escapes(op, ty, l, r)
  {
    hide SimplifyZero, SimplifyAnd, SimplifyMul, SimplifyDiv, SimplifyMod, SimplifyShift, SimplifyEq, SimplifyOrder, Ok, TypeOf,
      ProductEscapes, Lets;
    match op
    case BAND => AndProper(ty, l, r);
    case MUL => MulEscapes(ty, l, r);
    case DIV => DivProper(ty, l, r);
    case MOD => ModProper(ty, l, r);
    case LSH => ShiftProper(op, ty, l, r);
    case RSH => ShiftProper(op, ty, l, r);
    case EQ => EqProper(op, ty, l, r);
    case NE => EqProper(op, ty, l, r);
    case LT => OrderProper(op, ty, l, r);
    case LE => OrderProper(op, ty, l, r);
    case GT => OrderProper(op, ty, l, r);
    case GE => OrderProper(op, ty, l, r);
    case _ => ZeroProper(op, ty, l, r);
  }

  lemma {:induction false} MulEscapes(ty: Ty, l: Tree, r: Tree)
    requires Ok(l) && Ok(r) && Fits(MUL, ty, TypeOf(l), TypeOf(r))
    ensures Ok(SimplifyMul(ty, l, r, false)) <==> !Escapes(MUL, ty, l, r)
  {
    hide Ok, MulConstLeft, ProductEscapes;
    if !ty.unsigned && Swaps(r, l) {
      TyOfConst(r);
      ProductProper(ty, r, l);
      assert SimplifyMul(ty, r, l, false) == SimplifyMul(ty, l, r, false);
    } else if !ty.unsigned && l.Cnst? {
      TyOfConst(l);
      ProductProper(ty, l, r);
    } else if Swaps(r, l) {
      MulProper(ty, r, l);
    } else {
      MulProper(ty, l, r);
    }
  }

  lemma ConstOk(ty: Ty, v: int)
    ensures Ok(Const(ty, v)) <==> Proper(Const(ty, v))
    ensures Ranged(ty, v) ==> Ok(Const(ty, v)) && Const(ty, v) == Cnst(ty, v)
    ensures TypeOf(Const(ty, v)) == ty
  {
  }

  // ----- unary operators and whole trees -----

  /** The sign extension of constants: from the low 8 bits of a word, or 16 of two. */
  function Extend(x: int, ty: Ty): int {
    var full := if ty.long then 0x10000 else 0x100;
    var y := x % full;
    if y >= full / 2 then y - full else y
  }

  predicate Narrow(ty: Ty, v: int) {
    var half := if ty.long then 0x8000 else 0x80;
    -half <= v < half
  }

  lemma ExtendIs(x: int, ty: Ty)
    requires Ranged(ty, x)
    ensures Extend(x, ty) == x <==> Narrow(ty, x)
    ensures !ty.unsigned ==> Ranged(ty, Extend(x, ty))
  {
  }

  lemma CutMod(x: int, k: int, f: int)
    requires k > 0 && f > 0 && k * f > 0
    ensures (x % (k * f)) % f == x % f
  {
    var q := x / (k * f);
    Divided(x, k * f);
    assert q * (k * f) == (q * k) * f;
    AddMultiple(q * k, f, x % (k * f));
  }

  lemma ExtendCut(x: int, ty: Ty)
    ensures Extend(x % M(ty), ty) == Extend(x, ty)
  {
    CutMod(x, 0x100, 0x100);
    CutMod(x, 0x10000, 0x10000);
  }

  /** Converting or complementing a constant keeps it exactly if it fits in half its type. */
  lemma ExtendExact(x: int, ty: Ty)
    requires !ty.unsigned && Ranged(ty, x)
    ensures Extend(x, ty) == x <==> Narrow(ty, x)
    ensures Extend((-1 - x) % M(ty), ty) % M(ty) == (-1 - x) % M(ty) <==> Narrow(ty, x)
  {
    var z := -1 - x;
    ExtendIs(x, ty);
    ExtendIs(z, ty);
    ExtendCut(z, ty);
    hide Extend;
    SignConst(ty, z);
    SignConst(ty, Extend(z, ty));
  }

  function SimplifyNeg(ty: Ty, l: Tree, needconst: bool): Tree {
    if IsConst(l, false) && (needconst || l.v != Min(ty)) then Const(ty, -l.v)
    else if l.Neg? then l.l
    else Neg(ty, l)
  }

  function SimplifyBcom(ty: Ty, l: Tree): Tree {
    if IsConst(l, ty.unsigned) then Const(ty, if ty.unsigned then (-1 - l.v) % M(ty) else Extend((-1 - l.v) % M(ty), ty))
    else if l.Bcom? && l.ty.unsigned then l.l
    else Bcom(ty, l)
  }

  lemma {:induction false} NegKeeps(ty: Ty, l: Tree, needconst: bool, env: nat -> nat)
    requires Ok(l) && TypeOf(l) == ty && !ty.unsigned
    ensures var t := SimplifyNeg(ty, l, needconst);
            Typed(t) && TypeOf(t) == ty && Eval(t, env) == Eval(Neg(ty, l), env)
  {
    OkIsTyped(l);
    EvalBound(l, env);
    if l.Neg? {
      EvalBound(l.l, env);
    }
    hide Apply, M;
    if IsConst(l, false) {
      NegMod(l.v, M(ty));
    }
    if l.Neg? {
      NegMod(0 - Eval(l.l, env), M(ty));
      SmallMod(Eval(l.l, env), M(ty));
    }
  }

  lemma NegMod(x: int, m: int)
    requires m > 0
    ensures (0 - x % m) % m == (0 - x) % m && (-1 - x % m) % m == (-1 - x) % m
  {
    var q, a := x / m, x % m;
    Divided(x, m);
    MulDistributes(q, -q, m);
    AddMultiple(-q, m, 0 - a);
    AddMultiple(-q, m, -1 - a);
  }

  /** Complementing keeps the value exactly if a signed constant fits in half its type. */
  lemma {:induction false} BcomKeeps(ty: Ty, l: Tree, env: nat -> nat)
    requires Ok(l) && TypeOf(l) == ty
    ensures var t := SimplifyBcom(ty, l);
            && Typed(t) && TypeOf(t) == ty
            && (Eval(t, env) == Eval(Bcom(ty, l), env) <==> !(IsConst(l, false) && !Narrow(ty, l.v)))
  {
    OkIsTyped(l);
    EvalBound(l, env);
    if l.Bcom? {
      EvalBound(l.l, env);
    }
    if l.Cnst? {
      TyOfConst(l);
      if !ty.unsigned {
        ExtendExact(l.v, ty);
      }
    }
    hide Apply, M, Extend, Narrow;
    if l.Cnst? {
      NegMod(l.v, M(ty));
      ModTwice(-1 - l.v, M(ty));
    }
    if l.Bcom? {
      NegMod(-1 - Eval(l.l, env), M(ty));
      SmallMod(Eval(l.l, env), M(ty));
    }
  }

  /** A tree as the parser builds it: every operation is simplified as it is made. */
  function Build(t: Tree): Tree {
    match t
    case Bin(op, ty, l, r) => Simplify(op, ty, Build(l), Build(r), false)
    case Neg(ty, l) => SimplifyNeg(ty, Build(l), false)
    case Bcom(ty, l) => SimplifyBcom(ty, Build(l))
    case Right(l, r) => Right(Build(l), Build(r))
    case _ => t
  }

  /** In no part is min taken from 0 or the complement of a constant that is too wide for half its type. */
  predicate Clean(t: Tree) {
    match t
    case Bin(op, ty, l, r) => Clean(l) && Clean(r) && !(op == SUB && Lets(ty, Build(l), Build(r)))
    case Neg(ty, l) => Clean(l)
    case Bcom(ty, l) => Clean(l) && !(IsConst(Build(l), false) && !Narrow(ty, Build(l).v))
    case Right(l, r) => Clean(l) && Clean(r)
    case _ => true
  }

  /** Every part builds to a tree whose constants are values of their types, and no complement is taken of a
      constant too wide. */
  predicate StaysProper(t: Tree) {
    && Ok(Build(t))
    && match t
       case Bin(op, ty, l, r) => StaysProper(l) && StaysProper(r)
       case Neg(ty, l) => StaysProper(l)
       case Bcom(ty, l) => StaysProper(l) && !(IsConst(Build(l), false) && !Narrow(ty, Build(l).v))
       case Right(l, r) => StaysProper(l) && StaysProper(r)
       case _ => true
  }

  /** No sum or difference of two constants that should have been folded. */
  predicate Folded(t: Tree) {
    match t
    case Bin(op, ty, l, r) =>
      && Folded(l) && Folded(r)
      && !(Sums(t) && l.Cnst? && Folds(op, l.ty, l.v, r.v, false))
    case Neg(_, l) => Folded(l)
    case Bcom(_, l) => Folded(l)
    case Right(l, r) => Folded(l) && Folded(r)
    case _ => true
  }

  lemma ScaleRanged(ty: Ty, c: int, z: int)
    requires !ty.unsigned && (c >= 1 || c <= -2) && Ranged(ty, c * z)
    ensures Ranged(ty, z)
  {
    if z > 0 && c >= 1 {
      Grows(z, c);
    } else if z < 0 && c >= 1 {
      Grows(-z, c);
    } else if z > 0 {
      Grows(z, -c);
      assert c * z == -(z * -c);
    } else if z < 0 {
      Doubled(-z, -c);
      assert c * z == -z * -c;
    }
  }

  lemma Doubled(a: nat, b: nat)
    requires b >= 2
    ensures a * b >= 2 * a
  {
    assert a * b == 2 * a + a * (b - 2);
  }

  /** A sum of constants that was not folded does not fold when it is multiplied, but by -1 or 0. */
  lemma {:induction false} ChainUnfolded(ty: Ty, c: int, t: Tree)
    requires !ty.unsigned && (c >= 1 || c <= -2) && Ranged(ty, c) && Ok(t) && TypeOf(t) == ty && Folded(t) && !t.Cnst?
    ensures Product(ty, c, t).None?
    decreases t
  {
    hide Folds, Host;
    if Sums(t) {
      if t.l.Cnst? {
        TyOfConst(t.l);
        TyOfConst(t.r);
        assert Product(ty, c, t.l).Some? ==> Folds(MUL, ty, c, t.l.v, false) && Product(ty, c, t.l).value == c * t.l.v;
        assert Product(ty, c, t.r).Some? ==> Folds(MUL, ty, c, t.r.v, false) && Product(ty, c, t.r).value == c * t.r.v;
        if Product(ty, c, t).Some? {
          ChainOfTwo(ty, c, t.op, t.l.v, t.r.v);
        }
      } else {
        ChainUnfolded(ty, c, t.l);
      }
    }
  }

  lemma ChainOfTwo(ty: Ty, c: int, op: Op, x: int, y: int)
    requires !ty.unsigned && (c >= 1 || c <= -2) && Ranged(ty, c) && Ranged(ty, x) && Ranged(ty, y) && (op == ADD || op == SUB)
    requires Folds(MUL, ty, c, x, false) && Folds(MUL, ty, c, y, false) && Folds(op, ty, c * x, c * y, false)
    ensures Folds(op, ty, x, y, false)
  {
    MuliExact(c, x, ty);
    MuliExact(c, y, ty);
    MulDistributesLeft(c, x, y);
    if op == ADD {
      AddiExact(c * x, c * y, ty);
      ScaleRanged(ty, c, x + y);
      AddiExact(x, y, ty);
    } else {
      SubiExact(c * x, c * y, ty);
      if c * x != 0 {
        ScaleRanged(ty, c, x - y);
        SubiExact(x, y, ty);
      } else {
        NonZeroProduct(c, x);
      }
    }
  }

  lemma NonZeroProduct(c: int, x: int)
    requires c != 0 && c * x == 0
    ensures x == 0
  {
    if x != 0 {
      Signs(c, x);
    }
  }

  /** Products of trees that have been folded stay proper. */
  lemma {:induction false} FoldedProduct(ty: Ty, c: int, t: Tree)
    requires !ty.unsigned && Ranged(ty, c) && Ok(t) && TypeOf(t) == ty && Folded(t)
    ensures !ProductEscapes(ty, c, t)
    ensures Product(ty, c, t).Some? ==> Ranged(ty, Product(ty, c, t).value)
    decreases t
  {
    if t.Cnst? {
      TyOfConst(t);
      MuliExact(c, t.v, ty);
    } else if Sums(t) {
      FoldedProduct(ty, c, t.l);
      FoldedProduct(ty, c, t.r);
      var u, w := Product(ty, c, t.l), Product(ty, c, t.r);
      if u.Some? && w.Some? && Folds(t.op, ty, u.value, w.value, false) {
        FoldRanged(t.op, ty, u.value, w.value);
        if t.op == SUB {
          ZeroTerm(ty, c, t);
          MinTerm(ty, c, t);
        }
      }
    }
  }

  /** The left term is not zero if c is neither 0 nor -1, and the right one not min if it is. */
  lemma {:induction false} ZeroTerm(ty: Ty, c: int, t: Tree)
    requires !ty.unsigned && Ranged(ty, c) && Ok(t) && TypeOf(t) == ty && Folded(t) && Sums(t) && t.op == SUB
    ensures c >= 1 || c <= -2 ==> Product(ty, c, t.l) != Some(0)
  {
    hide Folds;
    if c >= 1 || c <= -2 {
      if t.l.Cnst? {
        ZeroFolds(t.l.ty, t.r.v);
        if c * t.l.v == 0 {
          NonZeroProduct(c, t.l.v);
        }
      } else {
        ChainUnfolded(ty, c, t.l);
      }
    }
  }

  lemma {:induction false} MinTerm(ty: Ty, c: int, t: Tree)
    requires !ty.unsigned && Ok(t) && TypeOf(t) == ty && Sums(t)
    ensures c == 0 || c == -1 ==> Product(ty, c, t.r) != Some(Min(ty))
  {
    hide Folds;
    TyOfConst(t.r);
    assert c == 0 ==> c * t.r.v == 0;
    assert c == -1 ==> c * t.r.v == -t.r.v;
  }

  // --- what is built is folded

  lemma {:induction false} ZeroFolded(op: Op, ty: Ty, l: Tree, r: Tree)
    requires op in {ADD, SUB, BOR, BXOR} && Folded(l) && Folded(r) && TypeOf(l) == ty && TypeOf(r) == ty
    ensures Folded(SimplifyZero(op, ty, l, r, false))
  {
    hide Host, Const, Folds;
    assert Folded(Const(ty, if l.Cnst? && r.Cnst? then Host(op, l.v, r.v) else 0)) by { ConstFolded(ty, if l.Cnst? && r.Cnst? then Host(op, l.v, r.v) else 0); }
    if l.Cnst? {
      TyOfConst(l);
    }
  }

  lemma ConstFolded(ty: Ty, v: int)
    ensures Folded(Const(ty, v))
  {
  }

  lemma {:induction false} MulFolded(ty: Ty, l: Tree, r: Tree)
    requires Ok(l) && Ok(r) && TypeOf(l) == ty && TypeOf(r) == ty && Folded(l) && Folded(r)
    ensures Folded(SimplifyMul(ty, l, r, false))
    decreases Nodes(l) + Nodes(r)
  {
    if Swaps(r, l) {
      MulFoldedLeft(ty, r, l);
    } else {
      MulFoldedLeft(ty, l, r);
    }
  }

  lemma {:induction false} MulFoldedLeft(ty: Ty, l: Tree, r: Tree)
    requires Ok(l) && Ok(r) && TypeOf(l) == ty && TypeOf(r) == ty && Folded(l) && Folded(r)
    ensures Folded(MulConstLeft(ty, l, r, false))
    decreases Nodes(l) + Nodes(r), 0
  {
    assert forall v :: Folded(Const(ty, v)) && Folded(Const(INT, v));
    if Distributes(ty, l, r) {
      DistributedParts(ty, l, r);
      MulFoldedLeft(ty, l, r.l);
      MulFoldedLeft(ty, l, r.r);
      ZeroFolded(r.op, ty, MulConstLeft(ty, l, r.l, false), MulConstLeft(ty, l, r.r, false));
    }
    hide Ok, SimplifyZero, Log2, Folds, Host, Const;
  }

  lemma {:induction false} DistributedParts(ty: Ty, l: Tree, r: Tree)
    requires Ok(l) && Ok(r) && TypeOf(l) == ty && TypeOf(r) == ty && Folded(l) && Folded(r) && Distributes(ty, l, r)
    ensures Ok(r.l) && Ok(r.r) && TypeOf(r.l) == ty && TypeOf(r.r) == ty && Folded(r.l) && Folded(r.r)
    ensures Nodes(r.l) + 1 <= Nodes(r) && Nodes(r.r) + 1 <= Nodes(r)
    ensures SimplifyMul(ty, l, r.l, false) == MulConstLeft(ty, l, r.l, false)
    ensures SimplifyMul(ty, l, r.r, false) == MulConstLeft(ty, l, r.r, false)
    ensures TypeOf(MulConstLeft(ty, l, r.l, false)) == ty && TypeOf(MulConstLeft(ty, l, r.r, false)) == ty
  {
    OkIsTyped(l);
    OkIsTyped(r);
    BinParts(ty, l, r);
    ProductProper(ty, l, r.l);
    ProductProper(ty, l, r.r);
    hide MulConstLeft, Folds;
  }

  lemma {:induction false} SimplifyFolded(op: Op, ty: Ty, l: Tree, r: Tree)
    requires Ok(l) && Ok(r) && Fits(op, ty, TypeOf(l), TypeOf(r)) && Folded(l) && Folded(r)
    ensures Folded(Simplify(op, ty, l, r, false))
  {
    hide Ok, Host, Const, Log2, SimplifyZero, SimplifyMul;
    forall ty, v ensures Folded(Const(ty, v)) {
      ConstFolded(ty, v);
    }
    match op
    case MUL => MulFolded(ty, l, r);
    case ADD => ZeroFolded(op, ty, l, r);
    case SUB => ZeroFolded(op, ty, l, r);
    case BOR => ZeroFolded(op, ty, l, r);
    case BXOR => ZeroFolded(op, ty, l, r);
    case BAND => BitwiseFolded(ty, l, r);
    case DIV => QuotientFolded(ty, l, r);
    case MOD => QuotientFolded(ty, l, r);
    case LSH => ShiftFolded(op, ty, l, r);
    case RSH => ShiftFolded(op, ty, l, r);
    case _ => CompareFolded(op, ty, l, r);
  }

  lemma {:induction false} BitwiseFolded(ty: Ty, l: Tree, r: Tree)
    requires Folded(l) && Folded(r)
    ensures Folded(SimplifyAnd(ty, l, r))
  {
    hide Host;
  }

  lemma {:induction false} ShiftFolded(op: Op, ty: Ty, l: Tree, r: Tree)
    requires (op == LSH || op == RSH) && Folded(l) && Folded(r)
    ensures Folded(SimplifyShift(op, ty, l, r, false))
  {
    hide Host, Muli, Pow2;
  }

  lemma {:induction false} QuotientFolded(ty: Ty, l: Tree, r: Tree)
    requires Folded(l) && Folded(r)
    ensures Folded(SimplifyDiv(ty, l, r, false)) && Folded(SimplifyMod(ty, l, r, false))
  {
    hide Host, Log2, Folds, SimplifyShift, SimplifyAnd;
    if IsPower(r, ty) {
      ShiftFolded(RSH, ty, l, Const(INT, Log2(r.v)));
      BitwiseFolded(ty, l, Const(ty, r.v - 1));
    }
  }

  lemma CompareFolded(op: Op, ty: Ty, l: Tree, r: Tree)
    requires op in {EQ, NE, LT, LE, GT, GE} && Folded(l) && Folded(r)
    ensures Folded(if op == EQ || op == NE then SimplifyEq(op, ty, l, r) else SimplifyOrder(op, ty, l, r))
  {
    hide Holds, Folds;
  }

  /** The condition on the written tree says exactly that all its parts stay proper. */
  lemma {:induction false} CleanIff(t: Tree)
    requires Ok(t)
    ensures Clean(t) <==> StaysProper(t)
    ensures Clean(t) ==> Folded(Build(t)) && TypeOf(Build(t)) == TypeOf(t)
    decreases t
  {
    hide Simplify, SimplifyNeg, SimplifyBcom, Escapes, Lets, Narrow, Folded;
    match t
    case Bin(op, ty, l, r) =>
      CleanIff(l);
      CleanIff(r);
      if Clean(l) && Clean(r) {
        SimplifyKeepsProper(op, ty, Build(l), Build(r));
        SimplifyKeepsValue(op, ty, Build(l), Build(r), false, x => 0);
        SimplifyFolded(op, ty, Build(l), Build(r));
        EscapesBuilt(op, ty, Build(l), Build(r));
      }
    case Neg(ty, l) =>
      CleanIff(l);
      if Clean(l) {
        NegProper(ty, Build(l));
      }
    case Bcom(ty, l) =>
      CleanIff(l);
      if Clean(l) {
        BcomProper(ty, Build(l));
      }
    case Right(l, r) =>
      CleanIff(l);
      CleanIff(r);
      RightFolded(Build(l), Build(r));
    case _ => LeafFolded(t);
  }

  lemma {:induction false} EscapesBuilt(op: Op, ty: Ty, l: Tree, r: Tree)
    requires Ok(l) && Ok(r) && Fits(op, ty, TypeOf(l), TypeOf(r)) && Folded(l) && Folded(r)
    ensures Escapes(op, ty, l, r) <==> op == SUB && Lets(ty, l, r)
  {
    hide Ok, Folded, Lets, ProductEscapes;
    if op == MUL && !ty.unsigned {
      if Swaps(r, l) {
        TyOfConst(r);
        ConstRanged(r);
        FoldedProduct(ty, r.v, l);
      } else if l.Cnst? {
        TyOfConst(l);
        ConstRanged(l);
        FoldedProduct(ty, l.v, r);
      }
    }
  }

  lemma {:induction false} ConstRanged(t: Tree)
    requires t.Cnst? && Ok(t)
    ensures Ranged(t.ty, t.v)
  {
  }

  lemma {:induction false} NegProper(ty: Ty, l: Tree)
    requires Ok(l) && TypeOf(l) == ty && !ty.unsigned && Folded(l)
    ensures var t := SimplifyNeg(ty, l, false); Ok(t) && TypeOf(t) == ty && Folded(t)
  {
  }

  lemma {:induction false} BcomProper(ty: Ty, l: Tree)
    requires Ok(l) && TypeOf(l) == ty && Folded(l)
    ensures var t := SimplifyBcom(ty, l); Ok(t) && TypeOf(t) == ty && Folded(t)
  {
  }

  lemma {:induction false} RightFolded(l: Tree, r: Tree)
    ensures Folded(l) && Folded(r) ==> Folded(Right(l, r))
  {
  }

  lemma {:induction false} LeafFolded(t: Tree)
    requires t.Cnst? || t.Leaf?
    ensures Folded(t)
  {
  }

  /** The tree that is built has the value of the tree that is written. */
  lemma {:induction false} BuildKeepsValue(t: Tree, env: nat -> nat)
    requires Ok(t) && Clean(t)
    ensures TypeOf(Build(t)) == TypeOf(t) && Eval(Build(t), env) == Eval(t, env)
    decreases t
  {
    CleanIff(t);
    BuiltValue(t, env);
  }

  lemma {:induction false} BuiltValue(t: Tree, env: nat -> nat)
    requires Ok(t) && StaysProper(t)
    ensures TypeOf(Build(t)) == TypeOf(t) && Eval(Build(t), env) == Eval(t, env)
    decreases t
  {
    hide Apply, Simplify, SimplifyNeg, SimplifyBcom;
    match t
    case Bin(op, ty, l, r) =>
      BuiltValue(l, env);
      BuiltValue(r, env);
      SimplifyKeepsValue(op, ty, Build(l), Build(r), false, env);
    case Neg(ty, l) =>
      BuiltValue(l, env);
      NegKeeps(ty, Build(l), false, env);
    case Bcom(ty, l) =>
      BuiltValue(l, env);
      BcomKeeps(ty, Build(l), env);
    case Right(l, r) =>
      BuiltValue(l, env);
      BuiltValue(r, env);
    case _ =>
  }

  /** `(0 - min) / 2`: the difference escapes as the constant 32768, which is then divided as it is. */
  function EscapedQuotient(): Tree {
    var ty := Ty(false, false);
    Bin(DIV, ty, Bin(SUB, ty, Cnst(ty, 0), Cnst(ty, Min(ty))), Cnst(ty, 2))
  }

  /** Cleanness is needed: the built tree is 16384 where the machine's value of the written one is -16384. */
  lemma UncleanChangesValue(env: nat -> nat)
    ensures Ok(EscapedQuotient()) && !Clean(EscapedQuotient())
    ensures Build(EscapedQuotient()) == Cnst(Ty(false, false), 16384)
    ensures Eval(Build(EscapedQuotient()), env) == 16384 && S(Ty(false, false), Eval(EscapedQuotient(), env)) == -16384
  {
    var ty := Ty(false, false);
    var difference := EscapedQuotient().l;
    assert Build(difference) == Cnst(ty, 32768);
    assert Quot(32768, 2) == 16384;
    assert Build(EscapedQuotient()) == Cnst(ty, 16384);
    assert Eval(difference, env) == 32768 && S(ty, 32768) == -32768;
    assert Quot(-32768, 2) == -16384;
    assert Eval(EscapedQuotient(), env) == (-16384) % 0x10000;
  }
}

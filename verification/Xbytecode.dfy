/** Trees printed in postfix by the compiler's back end (lcc/src/xbytecode.c:81-143), translated line
    by line (binutils/trans2.cpp:153-479) and run on the simulator, push exactly their value. */
module Xbytecode {
  import opened Words
  import opened Sim
  import opened Trans2
  import opened Peephole

  /** Expression trees over one- and two-word integers; sizes are counted in words. */
  datatype Expr =
    | Const(n: int, size: nat)
    | Global(arg: Text)
    | Param(arg: Text)
    | LocalVar(arg: Text)
    | Load(addr: Expr, size: nat)
    | Negate(e: Expr, size: nat)
    | Complement(e: Expr, size: nat)
    | Binary(op: BinOp, l: Expr, r: Expr, size: nat)
    | ShiftBy(left: bool, text: string, e: Expr, count: int)
    | Convert(e: Expr, size: nat)

  function Width(e: Expr): nat {
    match e
    case Global(_) => 1
    case Param(_) => 1
    case LocalVar(_) => 1
    case ShiftBy(_, _, _, _) => 1
    case _ => e.size
  }

  predicate Typed(e: Expr) {
    && 1 <= Width(e) <= 2
    && match e
       case Load(a, _) => Typed(a) && Width(a) == 1
       case Negate(x, n) => Typed(x) && Width(x) == n
       case Complement(x, n) => Typed(x) && Width(x) == n
       case Binary(_, x, y, n) => Typed(x) && Typed(y) && Width(x) == Width(y) == n
       case ShiftBy(_, _, x, _) => Typed(x) && Width(x) == 1
       case Convert(x, _) => Typed(x)
       case _ => true
  }

  /** `dumptree`: operands first, then the operator. */
  function DumpTree(e: Expr): seq<Line> {
    match e
    case Const(n, size) => [LCnst(n, size)]
    case Global(t) => [LAddrG(t)]
    case Param(t) => [LAddrF(t)]
    case LocalVar(t) => [LAddrL(t)]
    case Load(a, size) => DumpTree(a) + [LIndir(size)]
    case Negate(x, size) => DumpTree(x) + [LNeg(size)]
    case Complement(x, size) => DumpTree(x) + [LBcom(size)]
    case Binary(op, x, y, size) => DumpTree(x) + DumpTree(y) + [LBin(op, size)]
    case ShiftBy(left, text, x, count) => DumpTree(x) + [LCnst(count, 1), LShift(left, text, 1)]
    case Convert(x, size) => DumpTree(x) + [LConvert(Width(x), size)]
  }

  // ----- the value of a tree -----

  function Modulus(size: nat): nat {
    if size == 1 then WORD else DWORD
  }

  function Mod(x: int, size: nat): nat {
    x % Modulus(size)
  }

  function BitsOf(op: BitOp, x: nat, y: nat, size: nat): nat {
    if size == 1 then BitWord(op, W(x), W(y)) else Bits(op, x, y, 32)
  }

  function BinaryValue(op: BinOp, x: nat, y: nat, size: nat): nat {
    match op
    case AddOp => (x + y) % Modulus(size)
    case SubOp => (x - y) % Modulus(size)
    case BAndOp => BitsOf(And, x, y, size)
    case BOrOp => BitsOf(Or, x, y, size)
    case BXorOp => BitsOf(Xor, x, y, size)
  }

  /** A shift by n places; to the right the word is filled up with zeros. */
  function ShiftValue(left: bool, v: nat, n: nat): Word {
    Pow2Positive(n);
    W(if left then v * Pow2(n) else v / Pow2(n))
  }

  /** The value of a tree in a machine state: operations on mathematical integers modulo the size,
      right shifts filling with zeros, conversions cutting off or filling up with zeros. */
  function Eval(env: Env, nArgs: nat, s: State, e: Expr): nat
    decreases e
  {
    match e
    case Const(n, size) => Mod(n, size)
    case Global(t) => W(Value(env, t))
    case Param(t) => W(s.ap + Value(env, t))
    case LocalVar(t) => W(s.bp + Value(env, t) + nArgs)
    case Load(a, size) =>
      var p := W(Eval(env, nArgs, s, a));
      LoadedValue(s, p, size)
    case Negate(x, size) => Mod(0 - Eval(env, nArgs, s, x), size)
    case Complement(x, size) => Mod(-1 - Eval(env, nArgs, s, x), size)
    case Binary(op, x, y, size) => BinaryValue(op, Eval(env, nArgs, s, x), Eval(env, nArgs, s, y), size)
    case ShiftBy(left, _, x, count) => ShiftValue(left, Eval(env, nArgs, s, x), W(count))
    case Convert(x, size) => Mod(Eval(env, nArgs, s, x), size)
  }

  lemma {:induction false} EvalBound(env: Env, nArgs: nat, s: State, e: Expr)
    requires Typed(e)
    ensures Eval(env, nArgs, s, e) < Modulus(Width(e))
    decreases e
  {
    match e
    case Binary(op, x, y, size) =>
      var v, w := Eval(env, nArgs, s, x), Eval(env, nArgs, s, y);
      DwordBound(And, v, w);
      DwordBound(Or, v, w);
      DwordBound(Xor, v, w);
    case _ =>
  }

  // ----- the code of a tree -----

  function Code(nArgs: nat, e: Expr): seq<Entry>
    requires Typed(e)
  {
    match e
    case Const(n, size) => CnstEntries(n, size)
    case Global(t) => Emitted(LAddrG(t), nArgs, 0)
    case Param(t) => Emitted(LAddrF(t), nArgs, 0)
    case LocalVar(t) => Emitted(LAddrL(t), nArgs, 0)
    case Load(a, size) => Code(nArgs, a) + Emitted(LIndir(size), nArgs, 0)
    case Negate(x, size) => Code(nArgs, x) + Emitted(LNeg(size), nArgs, 0)
    case Complement(x, size) => Code(nArgs, x) + Emitted(LBcom(size), nArgs, 0)
    case Binary(op, x, y, size) => Code(nArgs, x) + Code(nArgs, y) + Emitted(LBin(op, size), nArgs, 0)
    case ShiftBy(left, _, x, count) => Code(nArgs, x) + Repeat(Op(if left then LSH else RSH), W(count))
    case Convert(x, size) => Code(nArgs, x) + ConvertEntries(Width(x), size)
  }

  lemma Assoc<T>(a: seq<T>, b: seq<T>, c: seq<T>)
    ensures a + b + c == a + (b + c)
  {
  }

  lemma {:induction false} OneLine(l: Line, rest: seq<Line>, out: seq<Entry>, nArgs: nat, cArg: nat)
    requires Accepted(l) && AllAccepted(rest)
    ensures AllAccepted([l] + rest)
    ensures TranslatedAll([l] + rest, out, nArgs, cArg) ==
            TranslatedAll(rest, Translated(l, out, nArgs, cArg), nArgs, NextArg(l, cArg))
  {
    assert ([l] + rest)[1..] == rest;
  }

  lemma {:induction false} OnePlainLine(l: Line, rest: seq<Line>, out: seq<Entry>, nArgs: nat, cArg: nat)
    requires Accepted(l) && AllAccepted(rest)
    requires !l.LShift? && !l.LArg? && !l.LCall?
    ensures AllAccepted([l] + rest)
    ensures TranslatedAll([l] + rest, out, nArgs, cArg) ==
            TranslatedAll(rest, out + Emitted(l, nArgs, 0), nArgs, cArg)
  {
    OneLine(l, rest, out, nArgs, cArg);
  }

  /** The translator's output for a printed tree is the tree's code, whatever came before. */
  lemma {:induction false} TranslateTree(e: Expr, rest: seq<Line>, out: seq<Entry>, nArgs: nat, cArg: nat)
    requires Typed(e) && AllAccepted(rest)
    ensures AllAccepted(DumpTree(e) + rest)
    ensures TranslatedAll(DumpTree(e) + rest, out, nArgs, cArg) ==
            TranslatedAll(rest, out + Code(nArgs, e), nArgs, cArg)
    decreases e, 1
  {
    hide Emitted, AllAccepted, TranslatedAll, CnstEntries, ConvertEntries, Repeat;
    match e
    case Load(a, size) => TranslateUnary(e, a, LIndir(size), rest, out, nArgs, cArg);
    case Negate(x, size) => TranslateUnary(e, x, LNeg(size), rest, out, nArgs, cArg);
    case Complement(x, size) => TranslateUnary(e, x, LBcom(size), rest, out, nArgs, cArg);
    case Convert(x, size) =>
      ConvertLine(Width(x), size, nArgs);
      TranslateUnary(e, x, LConvert(Width(x), size), rest, out, nArgs, cArg);
    case Binary(_, _, _, _) => TranslateBinary(e, rest, out, nArgs, cArg);
    case ShiftBy(_, _, _, _) => TranslateShift(e, rest, out, nArgs, cArg);
    case Const(n, size) =>
      ConstLine(n, size, nArgs);
      OnePlainLine(LCnst(n, size), rest, out, nArgs, cArg);
    case Global(t) => OnePlainLine(LAddrG(t), rest, out, nArgs, cArg);
    case Param(t) => OnePlainLine(LAddrF(t), rest, out, nArgs, cArg);
    case LocalVar(t) => OnePlainLine(LAddrL(t), rest, out, nArgs, cArg);
  }

  lemma ConvertLine(from: nat, to: nat, nArgs: nat)
    ensures Emitted(LConvert(from, to), nArgs, 0) == ConvertEntries(from, to)
  {
  }

  lemma ConstLine(n: int, size: nat, nArgs: nat)
    ensures Emitted(LCnst(n, size), nArgs, 0) == CnstEntries(n, size)
  {
  }

  lemma {:induction false} TranslateUnary(e: Expr, x: Expr, l: Line, rest: seq<Line>, out: seq<Entry>, nArgs: nat, cArg: nat)
    requires Typed(e) && Typed(x) && x < e && AllAccepted(rest) && Accepted(l)
    requires !l.LShift? && !l.LArg? && !l.LCall?
    requires DumpTree(e) == DumpTree(x) + [l] && Code(nArgs, e) == Code(nArgs, x) + Emitted(l, nArgs, 0)
    ensures AllAccepted(DumpTree(e) + rest)
    ensures TranslatedAll(DumpTree(e) + rest, out, nArgs, cArg) ==
            TranslatedAll(rest, out + Code(nArgs, e), nArgs, cArg)
    decreases e, 0
  {
    hide Emitted, AllAccepted, TranslatedAll, Accepted, DumpTree, Code, Typed;
    OnePlainLine(l, rest, out + Code(nArgs, x), nArgs, cArg);
    TranslateTree(x, [l] + rest, out, nArgs, cArg);
    Assoc(DumpTree(x), [l], rest);
    Assoc(out, Code(nArgs, x), Emitted(l, nArgs, 0));
  }

  lemma {:induction false} TranslateBinary(e: Expr, rest: seq<Line>, out: seq<Entry>, nArgs: nat, cArg: nat)
    requires Typed(e) && e.Binary? && AllAccepted(rest)
    ensures AllAccepted(DumpTree(e) + rest)
    ensures TranslatedAll(DumpTree(e) + rest, out, nArgs, cArg) ==
            TranslatedAll(rest, out + Code(nArgs, e), nArgs, cArg)
    decreases e, 0
  {
    var Binary(op, x, y, size) := e;
    var l := LBin(op, size);
    var code := Emitted(l, nArgs, 0);
    assert DumpTree(e) == DumpTree(x) + DumpTree(y) + [l];
    assert Code(nArgs, e) == Code(nArgs, x) + Code(nArgs, y) + code;
    hide Emitted, AllAccepted, TranslatedAll, DumpTree, Code;
    OnePlainLine(l, rest, out + Code(nArgs, x) + Code(nArgs, y), nArgs, cArg);
    TranslateTree(y, [l] + rest, out + Code(nArgs, x), nArgs, cArg);
    TranslateTree(x, DumpTree(y) + ([l] + rest), out, nArgs, cArg);
    Assoc(DumpTree(x) + DumpTree(y), [l], rest);
    Assoc(DumpTree(x), DumpTree(y), [l] + rest);
    Assoc(out, Code(nArgs, x) + Code(nArgs, y), code);
    Assoc(out, Code(nArgs, x), Code(nArgs, y));
  }

  /** The constant count is emitted, taken back and unrolled. */
  lemma UnrollShift(left: bool, text: string, count: int, out: seq<Entry>, nArgs: nat, cArg: nat)
    ensures Translated(LShift(left, text, 1), out + CnstEntries(count, 1), nArgs, cArg) ==
            out + Repeat(Op(if left then LSH else RSH), W(count))
  {
    var k := CnstEntry(count, 0);
    assert Pow2(16 * 0) == 1;
    assert k.arg == Number(W(count));
    assert CnstEntries(count, 1) == [k];
    assert (out + [k])[..|out|] == out;
  }

  lemma {:induction false} TranslateShift(e: Expr, rest: seq<Line>, out: seq<Entry>, nArgs: nat, cArg: nat)
    requires Typed(e) && e.ShiftBy? && AllAccepted(rest)
    ensures AllAccepted(DumpTree(e) + rest)
    ensures TranslatedAll(DumpTree(e) + rest, out, nArgs, cArg) ==
            TranslatedAll(rest, out + Code(nArgs, e), nArgs, cArg)
    decreases e, 0
  {
    var ShiftBy(left, text, x, count) := e;
    var c, l := LCnst(count, 1), LShift(left, text, 1);
    var shifts := Repeat(Op(if left then LSH else RSH), W(count));
    assert DumpTree(e) == DumpTree(x) + ([c] + [l]);
    assert Code(nArgs, e) == Code(nArgs, x) + shifts;
    ConstLine(count, 1, nArgs);
    hide AllAccepted, TranslatedAll, DumpTree, Code, Emitted, Translated, CnstEntries, Repeat;
    var out1 := out + Code(nArgs, x);
    OneLine(l, rest, out1 + CnstEntries(count, 1), nArgs, cArg);
    UnrollShift(left, text, count, out1, nArgs, cArg);
    OnePlainLine(c, [l] + rest, out1, nArgs, cArg);
    TranslateTree(x, [c] + ([l] + rest), out, nArgs, cArg);
    Assoc(DumpTree(x), [c] + [l], rest);
    Assoc([c], [l], rest);
    Assoc(out, Code(nArgs, x), shifts);
  }

  // ----- running the code of a tree -----

  /** Stack words needed while the tree is evaluated. */
  function Depth(e: Expr): nat {
    match e
    case Load(a, size) => Max(Depth(a), size)
    case Negate(x, size) => Max(Depth(x), if size == 1 then 1 else 4)
    case Complement(x, size) => Max(Depth(x), if size == 1 then 1 else 4)
    case Binary(_, x, y, _) => Max(Depth(x), Width(x) + Depth(y))
    case ShiftBy(_, _, x, _) => Depth(x)
    case Convert(x, size) => Max(Depth(x), size)
    case _ => Width(e)
  }

  function Max(a: nat, b: nat): nat {
    if a < b then b else a
  }

  /** Every address the tree loads from lies outside the evaluation stack and holds a written word. */
  ghost predicate ReadsOk(env: Env, nArgs: nat, s: State, e: Expr, z: Zone)
    decreases e
  {
    match e
    case Load(a, size) =>
      var p := W(Eval(env, nArgs, s, a));
      ReadsOk(env, nArgs, s, a, z) && Readable(p, z) && (size != 1 ==> Readable(W(p + 1), z))
    case Negate(x, _) => ReadsOk(env, nArgs, s, x, z)
    case Complement(x, _) => ReadsOk(env, nArgs, s, x, z)
    case Binary(_, x, y, _) => ReadsOk(env, nArgs, s, x, z) && ReadsOk(env, nArgs, s, y, z)
    case ShiftBy(_, _, x, _) => ReadsOk(env, nArgs, s, x, z)
    case Convert(x, _) => ReadsOk(env, nArgs, s, x, z)
    case _ => true
  }

  /** Operand texts the assembler keeps exactly: no byte operand out of range, and for a local no
      offset written without `+`, which the translator drops. */
  predicate TextOk(t: Text) {
    match t
    case Empty => false
    case Number(_) => true
    case Offset(n, k) => Lead(n, k) <= 127 && k <= 0 ==> -128 <= Lead(n, k) + k
    case Symbol(_, _) => true
  }

  predicate TextsOk(e: Expr) {
    match e
    case Global(t) => TextOk(t)
    case Param(t) => TextOk(t)
    case LocalVar(t) => TextOk(t) && (t.Offset? ==> t.offset >= 0)
    case Load(a, _) => TextsOk(a)
    case Negate(x, _) => TextsOk(x)
    case Complement(x, _) => TextsOk(x)
    case Binary(_, x, y, _) => TextsOk(x) && TextsOk(y)
    case ShiftBy(_, _, x, _) => TextsOk(x)
    case Convert(x, _) => TextsOk(x)
    case _ => true
  }

  /** The operand of a local is its offset above the argument area, except that a negative offset
      in the text is lost: exactly then the address is wrong. */
  lemma LocalOperand(env: Env, t: Text, nArgs: nat)
    ensures Operand(env, LocalEntry(t, nArgs)) == W(Value(env, t) + nArgs)
            <==> !(t.Offset? && t.offset < 0 && t.offset % WORD != 0)
  {
    var e := LocalEntry(t, nArgs);
    ByteOperand(env, e);
    if t.Offset? && t.offset <= 0 {
      assert Value(env, e.arg) == Lead(t.base, t.offset) + nArgs;
      hide W, Operand, LocalEntry;
      SameResidue(Lead(t.base, t.offset) + nArgs, t.offset);
    }
  }

  lemma ByteOperand(env: Env, e: Entry)
    requires e.argType == ArgChar ==> 0 <= Value(env, e.arg) <= 127
    ensures Operand(env, e) == W(Value(env, e.arg))
  {
  }

  lemma SameResidue(a: int, k: int)
    ensures W(a) == W(a + k) <==> k % WORD == 0
  {
    var q, r := a / WORD, k / WORD;
    assert a == q * WORD + W(a) && k == r * WORD + k % WORD;
  }

  lemma GlobalOperand(env: Env, t: Text, name: nat)
    requires TextOk(t)
    ensures Operand(env, Op(name, t, SizeWord, KindOf(t))) == W(Value(env, t)) && KindOf(t) != ArgNone
  {
  }

  ghost predicate Above(s: State, t: State, z: Zone) {
    && ZoneOk(t, z) && s.sp <= t.sp && t.bp == s.bp && t.ap == s.ap
    && forall a: Word | !(s.sp <= a < z.limit) :: t.mem[a] == s.mem[a]
  }

  /** t is s with a value of one or two words pushed; nothing live below has changed. */
  ghost predicate Pushed(s: State, t: State, z: Zone, v: nat, size: nat) {
    && Above(s, t, z)
    && t.sp == s.sp + size
    && (size == 1 ==> t.mem[s.sp] == v)
    && (size == 2 ==> s.sp + 1 < 0x10000 && t.mem[s.sp] == Low(v) && t.mem[s.sp + 1] == High(v))
  }

  lemma PushedWord(s: State, t: State, z: Zone, k: nat, v: Word)
    requires ZoneOk(s, z) && Above(s, t, z) && t.sp == s.sp + k && s.sp + 1 <= z.limit
    ensures Pushed(s, Push(Drop(t, k), v), z, v, 1)
  {
  }

  lemma PushedDword(s: State, t: State, z: Zone, k: nat, v: int)
    requires ZoneOk(s, z) && Above(s, t, z) && t.sp == s.sp + k && s.sp + 2 <= z.limit
    ensures Pushed(s, Push2(Drop(t, k), v), z, v % DWORD, 2)
  {
    var t1 := Push(Drop(t, k), Low(v));
    PushedWord(s, t, z, k, Low(v));
    assert t1.sp == s.sp + 1;
    LowHighMod(v);
  }

  lemma LowHighMod(v: int)
    ensures Low(v % DWORD) == Low(v) && High(v % DWORD) == High(v)
  {
    SplitJoin(v);
    JoinSplit(Low(v), High(v));
  }

  lemma {:induction false} EvalSame(env: Env, nArgs: nat, s: State, t: State, e: Expr, z: Zone)
    requires Above(s, t, z) && ZoneOk(s, z) && ReadsOk(env, nArgs, s, e, z)
    ensures Eval(env, nArgs, t, e) == Eval(env, nArgs, s, e) && ReadsOk(env, nArgs, t, e, z)
    decreases e
  {
    match e
    case Load(a, _) => EvalSame(env, nArgs, s, t, a, z);
    case Negate(x, _) => EvalSame(env, nArgs, s, t, x, z);
    case Complement(x, _) => EvalSame(env, nArgs, s, t, x, z);
    case Binary(_, x, y, _) =>
      EvalSame(env, nArgs, s, t, x, z);
      EvalSame(env, nArgs, s, t, y, z);
    case ShiftBy(_, _, x, _) => EvalSame(env, nArgs, s, t, x, z);
    case Convert(x, _) => EvalSame(env, nArgs, s, t, x, z);
    case _ =>
  }

  lemma {:induction false} RunOne(env: Env, prog: seq<Entry>, e: Entry, rest: seq<Entry>, s: State, z: Zone, fuel: nat, rs: seq<Resume>)
    requires !e.isDirective && Decode(env, e).Some?
    requires FallsThrough(Decode(env, e).value) && Tame(Decode(env, e).value, s, z)
    ensures var i := Decode(env, e).value;
            Run(env, prog, [e] + rest, s, z, fuel, rs) == Run(env, prog, rest, Step(i, s), ZoneAfter(i, s, z), fuel, rs)
  {
    assert ([e] + rest)[1..] == rest;
  }

  /** Running the code of a tree, in front of any other code, pushes its value. */
  lemma {:induction false} RunExpr(env: Env, prog: seq<Entry>, nArgs: nat, e: Expr, rest: seq<Entry>,
                                   s: State, z: Zone, fuel: nat, rs: seq<Resume>) returns (t: State)
    requires Typed(e) && TextsOk(e) && ZoneOk(s, z) && s.sp + Depth(e) <= z.limit
    requires ReadsOk(env, nArgs, s, e, z)
    ensures Run(env, prog, Code(nArgs, e) + rest, s, z, fuel, rs) == Run(env, prog, rest, t, z, fuel, rs)
    ensures Pushed(s, t, z, Eval(env, nArgs, s, e), Width(e))
    decreases e, 1
  {
    hide Run, Pushed, Eval, ReadsOk;
    match e
    case Const(_, _) => t := RunConst(env, prog, nArgs, e, rest, s, z, fuel, rs);
    case Global(_) => t := RunLeaf(env, prog, nArgs, e, rest, s, z, fuel, rs);
    case Param(_) => t := RunLeaf(env, prog, nArgs, e, rest, s, z, fuel, rs);
    case LocalVar(_) => t := RunLeaf(env, prog, nArgs, e, rest, s, z, fuel, rs);
    case Load(_, _) => t := RunLoad(env, prog, nArgs, e, rest, s, z, fuel, rs);
    case Negate(_, _) => t := RunNegate(env, prog, nArgs, e, rest, s, z, fuel, rs);
    case Complement(_, _) => t := RunNegate(env, prog, nArgs, e, rest, s, z, fuel, rs);
    case Binary(_, _, _, _) => t := RunBinary(env, prog, nArgs, e, rest, s, z, fuel, rs);
    case ShiftBy(_, _, _, _) => t := RunShift(env, prog, nArgs, e, rest, s, z, fuel, rs);
    case Convert(_, _) => t := RunConvert(env, prog, nArgs, e, rest, s, z, fuel, rs);
  }

  /** A push of a constant word. */
  lemma RunPush(env: Env, prog: seq<Entry>, e: Entry, rest: seq<Entry>, s: State, z: Zone, fuel: nat, rs: seq<Resume>) returns (t: State)
    requires ZoneOk(s, z) && s.sp + 1 <= z.limit
    requires !e.isDirective && ADDRF <= e.name <= CNST && !e.needIndir && e.size == SizeWord && e.argType != ArgNone
    ensures Run(env, prog, [e] + rest, s, z, fuel, rs) == Run(env, prog, rest, t, z, fuel, rs)
    ensures t == Push(s, AddressOf(s, BaseOfName(e.name), Operand(env, e)))
    ensures Pushed(s, t, z, AddressOf(s, BaseOfName(e.name), Operand(env, e)), 1)
  {
    RunOne(env, prog, e, rest, s, z, fuel, rs);
    var v := AddressOf(s, BaseOfName(e.name), Operand(env, e));
    t := Push(s, v);
    assert Above(s, s, z) && Drop(s, 0) == s;
    PushedWord(s, s, z, 0, v);
  }

  lemma RunLeaf(env: Env, prog: seq<Entry>, nArgs: nat, e: Expr, rest: seq<Entry>,
                s: State, z: Zone, fuel: nat, rs: seq<Resume>) returns (t: State)
    requires (e.Global? || e.Param? || e.LocalVar?) && TextsOk(e) && ZoneOk(s, z) && s.sp + 1 <= z.limit
    ensures Run(env, prog, Code(nArgs, e) + rest, s, z, fuel, rs) == Run(env, prog, rest, t, z, fuel, rs)
    ensures Pushed(s, t, z, Eval(env, nArgs, s, e), 1)
  {
    var c := Code(nArgs, e)[0];
    LeafFacts(env, nArgs, e, s);
    hide *;
    t := RunPush(env, prog, c, rest, s, z, fuel, rs);
  }

  lemma {:induction false} LeafFacts(env: Env, nArgs: nat, e: Expr, s: State)
    requires (e.Global? || e.Param? || e.LocalVar?) && TextsOk(e)
    ensures var code := Code(nArgs, e);
            && |code| == 1 && code == [code[0]]
            && !code[0].isDirective && ADDRF <= code[0].name <= CNST && !code[0].needIndir
            && code[0].size == SizeWord && code[0].argType != ArgNone
            && AddressOf(s, BaseOfName(code[0].name), Operand(env, code[0])) == Eval(env, nArgs, s, e)
  {
    match e
    case Global(text) =>
      GlobalOperand(env, text, CNST);
      hide Operand;
    case Param(text) =>
      GlobalOperand(env, text, ADDRF);
      AddResidue(s.ap, Value(env, text));
      hide Operand;
    case LocalVar(text) =>
      LocalOperand(env, text, nArgs);
      AddResidue(s.bp, Value(env, text) + nArgs);
      hide Operand;
  }

  lemma AddResidue(a: int, b: int)
    ensures W(a + W(b)) == W(a + b)
  {
    var q := b / WORD;
    assert b == q * WORD + W(b);
    SameResidue(a + W(b), q * WORD);
  }

  lemma CnstEntryOperand(env: Env, n: int, k: nat)
    requires k < 2
    ensures Operand(env, CnstEntry(n, k)) == if k == 0 then Low(n) else High(n)
    ensures PlainConstant(CnstEntry(n, k))
  {
    hide CnstWord, Low, High, Operand;
    CnstWordIs(n, k);
    WordOperand(env, CnstWord(n, k));
  }

  lemma WordOperand(env: Env, w: Word)
    ensures Operand(env, Op(CNST, Number(w), SizeWord, ByteOrWord(w))) == w
  {
    ByteOperand(env, Op(CNST, Number(w), SizeWord, ByteOrWord(w)));
  }

  lemma CnstWordIs(n: int, k: nat)
    requires k < 2
    ensures CnstWord(n, k) == if k == 0 then Low(n) else High(n)
  {
    assert Pow2(16 * 0) == 1;
    Pow2Of16();
    hide Pow2;
  }

  predicate PlainConstant(e: Entry) {
    !e.isDirective && e.name == CNST && !e.needIndir && e.size == SizeWord && e.argType != ArgNone
  }

  lemma RunConst(env: Env, prog: seq<Entry>, nArgs: nat, e: Expr, rest: seq<Entry>,
                 s: State, z: Zone, fuel: nat, rs: seq<Resume>) returns (t: State)
    requires e.Const? && 1 <= e.size <= 2 && ZoneOk(s, z) && s.sp + e.size <= z.limit
    ensures Run(env, prog, Code(nArgs, e) + rest, s, z, fuel, rs) == Run(env, prog, rest, t, z, fuel, rs)
    ensures Pushed(s, t, z, Eval(env, nArgs, s, e), Width(e))
  {
    var e0, e1 := CnstEntry(e.n, 0), CnstEntry(e.n, 1);
    CnstEntriesOf(e.n, nArgs, e);
    CnstEntryOperand(env, e.n, 0);
    CnstEntryOperand(env, e.n, 1);
    if e.size == 1 {
      assert Code(nArgs, e) == [e0] && Eval(env, nArgs, s, e) == e.n % WORD && Width(e) == 1;
      hide *;
      t := RunConst1(env, prog, e.n, e0, rest, s, z, fuel, rs);
    } else {
      assert Code(nArgs, e) == [e0] + [e1] && Eval(env, nArgs, s, e) == e.n % DWORD && Width(e) == 2;
      hide *;
      Assoc([e0], [e1], rest);
      t := RunConst2(env, prog, e.n, e0, e1, rest, s, z, fuel, rs);
    }
  }

  lemma RunConst1(env: Env, prog: seq<Entry>, n: int, e0: Entry, rest: seq<Entry>,
                  s: State, z: Zone, fuel: nat, rs: seq<Resume>) returns (t: State)
    requires ZoneOk(s, z) && s.sp + 1 <= z.limit && PlainConstant(e0) && Operand(env, e0) == Low(n)
    ensures Run(env, prog, [e0] + rest, s, z, fuel, rs) == Run(env, prog, rest, t, z, fuel, rs)
    ensures Pushed(s, t, z, n % WORD, 1)
  {
    hide Run, Operand, Pushed;
    t := RunPush(env, prog, e0, rest, s, z, fuel, rs);
  }

  lemma {:induction false} CnstEntriesOf(n: int, nArgs: nat, e: Expr)
    requires e.Const? && e.n == n && 1 <= e.size <= 2
    ensures Code(nArgs, e) == if e.size == 1 then [CnstEntry(n, 0)] else [CnstEntry(n, 0)] + [CnstEntry(n, 1)]
  {
  }

  lemma RunConst2(env: Env, prog: seq<Entry>, n: int, e0: Entry, e1: Entry, rest: seq<Entry>,
                  s: State, z: Zone, fuel: nat, rs: seq<Resume>) returns (t: State)
    requires ZoneOk(s, z) && s.sp + 2 <= z.limit && PlainConstant(e0) && PlainConstant(e1)
    requires Operand(env, e0) == Low(n) && Operand(env, e1) == High(n)
    ensures Run(env, prog, [e0] + ([e1] + rest), s, z, fuel, rs) == Run(env, prog, rest, t, z, fuel, rs)
    ensures Pushed(s, t, z, n % DWORD, 2)
  {
    hide Run, Operand;
    var t0 := RunPush(env, prog, e0, [e1] + rest, s, z, fuel, rs);
    t := RunPush(env, prog, e1, rest, t0, z, fuel, rs);
    LowHighMod(n);
  }

  lemma RunLoad(env: Env, prog: seq<Entry>, nArgs: nat, e: Expr, rest: seq<Entry>,
                s: State, z: Zone, fuel: nat, rs: seq<Resume>) returns (t: State)
    requires Typed(e) && e.Load? && TextsOk(e) && ZoneOk(s, z) && s.sp + Depth(e) <= z.limit
    requires ReadsOk(env, nArgs, s, e, z)
    ensures Run(env, prog, Code(nArgs, e) + rest, s, z, fuel, rs) == Run(env, prog, rest, t, z, fuel, rs)
    ensures Pushed(s, t, z, Eval(env, nArgs, s, e), Width(e))
    decreases e, 0
  {
    hide *;
    LoadFacts(env, nArgs, e, s, z);
    var a, size := e.addr, e.size;
    var op := Op(INDIR, Empty, SizeOf(size));
    var p: Word := Eval(env, nArgs, s, a);
    Assoc(Code(nArgs, a), [op], rest);
    var t1 := RunExpr(env, prog, nArgs, a, [op] + rest, s, z, fuel, rs);
    t := RunLoadStep(env, prog, op, size, rest, s, t1, p, z, fuel, rs);
  }

  lemma {:induction false} LoadFacts(env: Env, nArgs: nat, e: Expr, s: State, z: Zone)
    requires Typed(e) && e.Load? && TextsOk(e) && ZoneOk(s, z) && s.sp + Depth(e) <= z.limit
    requires ReadsOk(env, nArgs, s, e, z)
    ensures Typed(e.addr) && TextsOk(e.addr) && s.sp + Depth(e.addr) <= z.limit && s.sp + e.size <= z.limit
    ensures Width(e.addr) == 1 && 1 <= e.size <= 2 && Width(e) == e.size
    ensures Code(nArgs, e) == Code(nArgs, e.addr) + [Op(INDIR, Empty, SizeOf(e.size))]
    ensures ReadsOk(env, nArgs, s, e.addr, z)
    ensures var p := Eval(env, nArgs, s, e.addr);
            && p < 0x10000 && Eval(env, nArgs, s, e) == LoadedValue(s, p, e.size)
            && Readable(p, z) && (e.size != 1 ==> Readable(W(p + 1), z))
  {
    assert Typed(e.addr) && Width(e.addr) == 1;
    hide ZoneOk;
    LoadEval(env, nArgs, e, s, z);
    hide Eval, ReadsOk, Readable, LoadedValue;
  }

  lemma {:induction false} LoadEval(env: Env, nArgs: nat, e: Expr, s: State, z: Zone)
    requires e.Load? && Typed(e.addr) && Width(e.addr) == 1 && ReadsOk(env, nArgs, s, e, z)
    ensures ReadsOk(env, nArgs, s, e.addr, z)
    ensures var p := Eval(env, nArgs, s, e.addr);
            && p < 0x10000 && Eval(env, nArgs, s, e) == LoadedValue(s, p, e.size)
            && Readable(p, z) && (e.size != 1 ==> Readable(W(p + 1), z))
  {
    EvalBound(env, nArgs, s, e.addr);
    WordValue(Eval(env, nArgs, s, e.addr));
    hide LoadedValue, Readable, Mod, ShiftValue, BinaryValue, W, Modulus;
  }

  lemma WordValue(v: nat)
    requires v < Modulus(1)
    ensures v < 0x10000 && W(v) == v
  {
  }

  function LoadedValue(s: State, p: Word, size: nat): nat {
    if size == 1 then s.mem[p] else Join(s.mem[p], s.mem[W(p + 1)])
  }

  lemma RunLoadStep(env: Env, prog: seq<Entry>, op: Entry, size: nat, rest: seq<Entry>, s: State, t1: State, p: Word,
                    z: Zone, fuel: nat, rs: seq<Resume>) returns (t: State)
    requires op == Op(INDIR, Empty, SizeOf(size)) && 1 <= size <= 2
    requires ZoneOk(s, z) && Pushed(s, t1, z, p, 1) && s.sp + size <= z.limit
    requires Readable(p, z) && (size != 1 ==> Readable(W(p + 1), z))
    ensures Run(env, prog, [op] + rest, t1, z, fuel, rs) == Run(env, prog, rest, t, z, fuel, rs)
    ensures Pushed(s, t, z, LoadedValue(s, p, size), size)
  {
    assert Top(t1, 1) == p;
    assert t1.mem[p] == s.mem[p];
    RunOne(env, prog, op, rest, t1, z, fuel, rs);
    hide Run;
    if size == 1 {
      t := Step(Indir, t1);
      PushedWord(s, t1, z, 1, s.mem[p]);
    } else {
      t := Step(Indir2, t1);
      var q := W(p + 1);
      var t2 := Push(Pop(t1), t1.mem[p]);
      PushedWord(s, t1, z, 1, t1.mem[p]);
      assert t2.mem[q] == s.mem[q];
      var v := Join(s.mem[p], s.mem[q]);
      JoinSplit(s.mem[p], s.mem[q]);
      PushedDword(s, t1, z, 1, v);
      SplitJoin(v);
    }
  }

  lemma PushedTwice(s: State, t1: State, t2: State, z: Zone, v: nat, w: nat, size: nat)
    requires 1 <= size <= 2 && v < Modulus(size) && w < Modulus(size)
    requires ZoneOk(s, z) && Pushed(s, t1, z, v, size) && Pushed(t1, t2, z, w, size)
    ensures Above(s, t2, z) && t2.sp == s.sp + 2 * size
    ensures size == 1 ==> Top(t2, 2) == v && Top(t2, 1) == w
    ensures size == 2 ==> Join(Top(t2, 4), Top(t2, 3)) == v && Join(Top(t2, 2), Top(t2, 1)) == w
  {
    var n: int := s.sp;
    PushedWords(s, t1, z, v, size);
    PushedWords(t1, t2, z, w, size);
    AboveTwice(s, t1, t2, z);
    AboveAt(t1, t2, z, n);
    hide Pushed, Above, Top, Join, Low, High, W;
    if size == 1 {
      TopTwo(t2, n);
    } else {
      AboveAt(t1, t2, z, n + 1);
      TopFour(t2, n);
    }
  }

  lemma PushedWords(s: State, t: State, z: Zone, v: nat, size: nat)
    requires 1 <= size <= 2 && v < Modulus(size) && Pushed(s, t, z, v, size)
    ensures Above(s, t, z) && t.sp == s.sp + size
    ensures size == 1 ==> t.mem[s.sp] == v
    ensures size == 2 ==> s.sp + 1 < 0x10000 && Join(t.mem[s.sp], t.mem[s.sp + 1]) == v
  {
    SplitJoin(v);
  }

  lemma AboveAt(s: State, t: State, z: Zone, a: int)
    requires Above(s, t, z) && 0 <= a < s.sp
    ensures t.mem[a] == s.mem[a]
  {
  }

  lemma AboveTwice(s: State, t: State, u: State, z: Zone)
    requires Above(s, t, z) && Above(t, u, z)
    ensures Above(s, u, z)
  {
  }

  lemma TopTwo(t: State, n: int)
    requires 0 <= n && t.sp == n + 2
    ensures Top(t, 2) == t.mem[n] && Top(t, 1) == t.mem[n + 1]
  {
  }

  lemma TopFour(t: State, n: int)
    requires 0 <= n && t.sp == n + 4
    ensures Top(t, 4) == t.mem[n] && Top(t, 3) == t.mem[n + 1] && Top(t, 2) == t.mem[n + 2] && Top(t, 1) == t.mem[n + 3]
  {
  }

  function AluOf(op: BinOp): AluOp {
    match op
    case AddOp => Add
    case SubOp => Sub
    case BAndOp => Logic(And)
    case BOrOp => Logic(Or)
    case BXorOp => Logic(Xor)
  }

  lemma DecodeBinary(env: Env, op: BinOp, size: nat)
    requires 1 <= size <= 2
    ensures Decode(env, Op(NameOfBin(op), Empty, SizeOf(size))) ==
            Some(if size == 1 then Alu(AluOf(op)) else Alu2(AluOf(op)))
  {
  }

  lemma AluIsBinary(op: BinOp, v: nat, w: nat, size: nat)
    requires 1 <= size <= 2 && v < Modulus(size) && w < Modulus(size)
    ensures size == 1 ==> AluWord(AluOf(op), v, w) == BinaryValue(op, v, w, 1)
    ensures size == 2 ==> AluDword(AluOf(op), v, w) % DWORD == BinaryValue(op, v, w, 2)
  {
    hide Bits;
    DwordBound(And, v, w);
    DwordBound(Or, v, w);
    DwordBound(Xor, v, w);
  }

  /** An operator takes two operands of its size off the stack and pushes the result. */
  lemma RunOperator(env: Env, prog: seq<Entry>, op: BinOp, size: nat, rest: seq<Entry>,
                    s: State, t1: State, t2: State, v: nat, w: nat, z: Zone, fuel: nat, rs: seq<Resume>) returns (t: State)
    requires 1 <= size <= 2 && v < Modulus(size) && w < Modulus(size)
    requires ZoneOk(s, z) && Pushed(s, t1, z, v, size) && Pushed(t1, t2, z, w, size)
    ensures Run(env, prog, [Op(NameOfBin(op), Empty, SizeOf(size))] + rest, t2, z, fuel, rs) ==
            Run(env, prog, rest, t, z, fuel, rs)
    ensures Pushed(s, t, z, BinaryValue(op, v, w, size), size)
  {
    var e := Op(NameOfBin(op), Empty, SizeOf(size));
    PushedTwice(s, t1, t2, z, v, w, size);
    DecodeBinary(env, op, size);
    AluIsBinary(op, v, w, size);
    assert t2.sp <= z.limit && z.base <= s.sp;
    hide Pushed, Above, BinaryValue, AluWord, AluDword, Decode, Run, Join;
    RunOne(env, prog, e, rest, t2, z, fuel, rs);
    if size == 1 {
      t := Push(Drop(t2, 2), AluWord(AluOf(op), v, w));
      PushedWord(s, t2, z, 2, AluWord(AluOf(op), v, w));
    } else {
      t := Push2(Drop(t2, 4), AluDword(AluOf(op), v, w));
      PushedDword(s, t2, z, 4, AluDword(AluOf(op), v, w));
    }
  }

  lemma {:induction false} RunBinary(env: Env, prog: seq<Entry>, nArgs: nat, e: Expr, rest: seq<Entry>,
                                     s: State, z: Zone, fuel: nat, rs: seq<Resume>) returns (t: State)
    requires Typed(e) && e.Binary? && TextsOk(e) && ZoneOk(s, z) && s.sp + Depth(e) <= z.limit
    requires ReadsOk(env, nArgs, s, e, z)
    ensures Run(env, prog, Code(nArgs, e) + rest, s, z, fuel, rs) == Run(env, prog, rest, t, z, fuel, rs)
    ensures Pushed(s, t, z, Eval(env, nArgs, s, e), Width(e))
    decreases e, 0
  {
    var Binary(op, x, y, size) := e;
    var o := Op(NameOfBin(op), Empty, SizeOf(size));
    assert Code(nArgs, e) == Code(nArgs, x) + Code(nArgs, y) + [o];
    var v, w := Eval(env, nArgs, s, x), Eval(env, nArgs, s, y);
    EvalBound(env, nArgs, s, x);
    EvalBound(env, nArgs, s, y);
    assert Eval(env, nArgs, s, e) == BinaryValue(op, v, w, size);
    assert ReadsOk(env, nArgs, s, x, z) && ReadsOk(env, nArgs, s, y, z);
    assert s.sp + Depth(x) <= z.limit && s.sp + size + Depth(y) <= z.limit;
    hide Run, Code, Eval, ReadsOk, BinaryValue, Depth;
    Assoc(Code(nArgs, x) + Code(nArgs, y), [o], rest);
    Assoc(Code(nArgs, x), Code(nArgs, y), [o] + rest);
    var t1 := RunExpr(env, prog, nArgs, x, Code(nArgs, y) + ([o] + rest), s, z, fuel, rs);
    EvalSame(env, nArgs, s, t1, y, z);
    var t2 := RunExpr(env, prog, nArgs, y, [o] + rest, t1, z, fuel, rs);
    t := RunOperator(env, prog, op, size, rest, s, t1, t2, v, w, z, fuel, rs);
  }

  /** An operator with an immediate operand. */
  lemma RunImmediate(env: Env, prog: seq<Entry>, e: Entry, op: AluOp, imm: Word, rest: seq<Entry>,
                     s: State, t1: State, v: Word, z: Zone, fuel: nat, rs: seq<Resume>) returns (t: State)
    requires ZoneOk(s, z) && Pushed(s, t1, z, v, 1) && !e.isDirective && Decode(env, e) == Some(AluImm(op, imm))
    ensures Run(env, prog, [e] + rest, t1, z, fuel, rs) == Run(env, prog, rest, t, z, fuel, rs)
    ensures Pushed(s, t, z, AluWord(op, v, imm), 1)
  {
    hide AluWord, Decode;
    RunOne(env, prog, e, rest, t1, z, fuel, rs);
    t := Push(Pop(t1), AluWord(op, v, imm));
    assert Top(t1, 1) == v;
    PushedWord(s, t1, z, 1, AluWord(op, v, imm));
  }

  lemma RunComplement1(env: Env, prog: seq<Entry>, rest: seq<Entry>,
                       s: State, t1: State, v: Word, z: Zone, fuel: nat, rs: seq<Resume>) returns (t: State)
    requires ZoneOk(s, z) && Pushed(s, t1, z, v, 1)
    ensures Run(env, prog, ONES1 + rest, t1, z, fuel, rs) == Run(env, prog, rest, t, z, fuel, rs)
    ensures Pushed(s, t, z, 0xffff - v, 1)
  {
    var e := Op(BXOR, Number(0xffff), SizeWord, ArgWord);
    assert ONES1 == [e];
    assert Decode(env, e) == Some(AluImm(Logic(Xor), 0xffff));
    ComplementWord(v);
    t := RunImmediate(env, prog, e, Logic(Xor), 0xffff, rest, s, t1, v, z, fuel, rs);
  }

  lemma OnesFacts(env: Env, v: nat)
    requires v < DWORD
    ensures var e, o := Op(CNST, Number(0xffff), SizeWord, ArgWord), Op(NameOfBin(BXorOp), Empty, SizeOf(2));
            ONES2 == [e] + ([e] + [o]) && PlainConstant(e) && Operand(env, e) == Low(0xffff_ffff) == High(0xffff_ffff)
    ensures BinaryValue(BXorOp, v, 0xffff_ffff, 2) == 0xffff_ffff - v
    ensures 0xffff_ffff % DWORD == 0xffff_ffff && v < Modulus(2) && 0xffff_ffff < Modulus(2)
  {
    ComplementDword(v);
    hide Bits;
  }

  /** Two constants that make up the value w, and an operator. */
  lemma RunWithConstant(env: Env, prog: seq<Entry>, e0: Entry, e1: Entry, op: BinOp, w: int, rest: seq<Entry>,
                        s: State, t1: State, v: nat, z: Zone, fuel: nat, rs: seq<Resume>) returns (t: State)
    requires ZoneOk(s, z) && Pushed(s, t1, z, v, 2) && v < Modulus(2) && 0 <= w < Modulus(2) && w % DWORD == w
    requires t1.sp + 2 <= z.limit && PlainConstant(e0) && PlainConstant(e1)
    requires Operand(env, e0) == Low(w) && Operand(env, e1) == High(w)
    ensures Run(env, prog, [e0] + ([e1] + ([Op(NameOfBin(op), Empty, SizeOf(2))] + rest)), t1, z, fuel, rs) ==
            Run(env, prog, rest, t, z, fuel, rs)
    ensures Pushed(s, t, z, BinaryValue(op, v, w, 2), 2)
  {
    hide *;
    PushedFacts(s, t1, z, v, 2);
    var o := Op(NameOfBin(op), Empty, SizeOf(2));
    var t2 := RunConst2(env, prog, w, e0, e1, [o] + rest, t1, z, fuel, rs);
    t := RunOperator(env, prog, op, 2, rest, s, t1, t2, v, w, z, fuel, rs);
  }

  lemma RunComplement2(env: Env, prog: seq<Entry>, rest: seq<Entry>,
                       s: State, t1: State, v: nat, z: Zone, fuel: nat, rs: seq<Resume>) returns (t: State)
    requires ZoneOk(s, z) && Pushed(s, t1, z, v, 2) && v < DWORD && t1.sp + 2 <= z.limit
    ensures Run(env, prog, ONES2 + rest, t1, z, fuel, rs) == Run(env, prog, rest, t, z, fuel, rs)
    ensures Pushed(s, t, z, 0xffff_ffff - v, 2)
  {
    hide *;
    var e := Op(CNST, Number(0xffff), SizeWord, ArgWord);
    OnesFacts(env, v);
    OnesRest(rest);
    t := RunWithConstant(env, prog, e, e, BXorOp, 0xffff_ffff, rest, s, t1, v, z, fuel, rs);
  }

  lemma OnesRest(rest: seq<Entry>)
    ensures var e, o := Op(CNST, Number(0xffff), SizeWord, ArgWord), Op(NameOfBin(BXorOp), Empty, SizeOf(2));
            ONES2 + rest == [e] + ([e] + ([o] + rest))
  {
  }

  lemma RunPlusOne(env: Env, prog: seq<Entry>, size: nat, rest: seq<Entry>,
                   s: State, t1: State, v: nat, z: Zone, fuel: nat, rs: seq<Resume>) returns (t: State)
    requires 1 <= size <= 2 && v < Modulus(size) && ZoneOk(s, z) && Pushed(s, t1, z, v, size)
    requires size == 2 ==> t1.sp + 2 <= z.limit
    ensures Run(env, prog, PlusOne(size) + rest, t1, z, fuel, rs) == Run(env, prog, rest, t, z, fuel, rs)
    ensures Pushed(s, t, z, (v + 1) % Modulus(size), size)
  {
    if size == 1 {
      var e := Op(ADD, Number(1), SizeWord, ArgChar);
      assert Decode(env, e) == Some(AluImm(Add, 1));
      t := RunImmediate(env, prog, e, Add, 1, rest, s, t1, v, z, fuel, rs);
    } else {
      var e1, e0 := Op(CNST, Number(1), SizeWord, ArgChar), Op(CNST, Number(0), SizeWord, ArgChar);
      var o := Op(NameOfBin(AddOp), Empty, SizeOf(2));
      assert PlusOne(2) == [e1] + ([e0] + [o]);
      assert Operand(env, e1) == Low(1) && Operand(env, e0) == High(1);
      hide Run, Pushed, Operand;
      Assoc([e1], [e0] + [o], rest);
      Assoc([e0], [o], rest);
      t := RunWithConstant(env, prog, e1, e0, AddOp, 1, rest, s, t1, v, z, fuel, rs);
    }
  }

  /** The second half of the code of `NEG`. */
  function PlusOne(size: nat): seq<Entry> {
    if size == 1 then [Op(ADD, Number(1), SizeWord, ArgChar)]
    else [Op(CNST, Number(1), SizeWord, ArgChar), Op(CNST, Number(0), SizeWord, ArgChar), Op(ADD, Empty, SizeDword)]
  }

  function Ones(size: nat): seq<Entry> {
    if size == 1 then ONES1 else ONES2
  }

  lemma RunComplement(env: Env, prog: seq<Entry>, size: nat, rest: seq<Entry>,
                      s: State, t1: State, v: nat, z: Zone, fuel: nat, rs: seq<Resume>) returns (t: State)
    requires 1 <= size <= 2 && v < Modulus(size) && ZoneOk(s, z) && Pushed(s, t1, z, v, size)
    requires size == 2 ==> t1.sp + 2 <= z.limit
    ensures Run(env, prog, Ones(size) + rest, t1, z, fuel, rs) == Run(env, prog, rest, t, z, fuel, rs)
    ensures Pushed(s, t, z, (-1 - v) % Modulus(size), size)
  {
    hide Run, Pushed;
    if size == 1 {
      t := RunComplement1(env, prog, rest, s, t1, v, z, fuel, rs);
    } else {
      t := RunComplement2(env, prog, rest, s, t1, v, z, fuel, rs);
    }
  }

  lemma {:induction false} NegateCode(e: Expr, nArgs: nat)
    requires Typed(e) && (e.Negate? || e.Complement?)
    ensures Code(nArgs, e) == Code(nArgs, e.e) + (Ones(e.size) + if e.Negate? then PlusOne(e.size) else [])
  {
  }

  lemma NegateValue(v: nat, size: nat)
    requires v < Modulus(size)
    ensures ((-1 - v) % Modulus(size) + 1) % Modulus(size) == (0 - v) % Modulus(size)
  {
  }

  lemma PushedSp(s: State, t: State, z: Zone, v: nat, size: nat)
    requires Pushed(s, t, z, v, size)
    ensures t.sp == s.sp + size
  {
  }

  lemma RunNegateTail(env: Env, prog: seq<Entry>, negate: bool, size: nat, rest: seq<Entry>,
                      s: State, t1: State, v: nat, z: Zone, fuel: nat, rs: seq<Resume>) returns (t: State)
    requires 1 <= size <= 2 && v < Modulus(size) && ZoneOk(s, z) && Pushed(s, t1, z, v, size)
    requires size == 2 ==> s.sp + 4 <= z.limit
    ensures Run(env, prog, Ones(size) + ((if negate then PlusOne(size) else []) + rest), t1, z, fuel, rs) ==
            Run(env, prog, rest, t, z, fuel, rs)
    ensures Pushed(s, t, z, (if negate then 0 - v else -1 - v) % Modulus(size), size)
  {
    var c := (-1 - v) % Modulus(size);
    NegateValue(v, size);
    assert c < Modulus(size);
    hide Run, Ones, PlusOne, Modulus, Pushed;
    PushedSp(s, t1, z, v, size);
    if negate {
      t := RunComplement(env, prog, size, PlusOne(size) + rest, s, t1, v, z, fuel, rs);
      PushedSp(s, t, z, c, size);
      t := RunPlusOne(env, prog, size, rest, s, t, c, z, fuel, rs);
    } else {
      assert [] + rest == rest;
      t := RunComplement(env, prog, size, rest, s, t1, v, z, fuel, rs);
    }
  }

  lemma {:induction false} RunNegate(env: Env, prog: seq<Entry>, nArgs: nat, e: Expr, rest: seq<Entry>,
                                     s: State, z: Zone, fuel: nat, rs: seq<Resume>) returns (t: State)
    requires Typed(e) && (e.Negate? || e.Complement?) && TextsOk(e) && ZoneOk(s, z) && s.sp + Depth(e) <= z.limit
    requires ReadsOk(env, nArgs, s, e, z)
    ensures Run(env, prog, Code(nArgs, e) + rest, s, z, fuel, rs) == Run(env, prog, rest, t, z, fuel, rs)
    ensures Pushed(s, t, z, Eval(env, nArgs, s, e), Width(e))
    decreases e, 0
  {
    hide *;
    NegateFacts(env, nArgs, e, s, z);
    var x, size := e.e, e.size;
    var v := Eval(env, nArgs, s, x);
    var ones, tail := Ones(size), if e.Negate? then PlusOne(size) else [];
    Assoc(Code(nArgs, x), ones + tail, rest);
    Assoc(ones, tail, rest);
    var t1 := RunExpr(env, prog, nArgs, x, ones + (tail + rest), s, z, fuel, rs);
    t := RunNegateTail(env, prog, e.Negate?, size, rest, s, t1, v, z, fuel, rs);
  }

  lemma {:induction false} NegateFacts(env: Env, nArgs: nat, e: Expr, s: State, z: Zone)
    requires Typed(e) && (e.Negate? || e.Complement?) && TextsOk(e) && ZoneOk(s, z) && s.sp + Depth(e) <= z.limit
    requires ReadsOk(env, nArgs, s, e, z)
    ensures Code(nArgs, e) == Code(nArgs, e.e) + (Ones(e.size) + if e.Negate? then PlusOne(e.size) else [])
    ensures var v := Eval(env, nArgs, s, e.e);
            && v < Modulus(e.size)
            && Eval(env, nArgs, s, e) == (if e.Negate? then 0 - v else -1 - v) % Modulus(e.size)
    ensures ReadsOk(env, nArgs, s, e.e, z) && TextsOk(e.e) && Typed(e.e)
    ensures Width(e.e) == e.size && Width(e) == e.size && 1 <= e.size <= 2
    ensures s.sp + Depth(e.e) <= z.limit && (e.size == 2 ==> s.sp + 4 <= z.limit)
  {
    hide *;
    NegateCode(e, nArgs);
    NegateShape(env, nArgs, e, s, z);
    NegateEval(env, nArgs, e, s);
  }

  lemma {:induction false} NegateShape(env: Env, nArgs: nat, e: Expr, s: State, z: Zone)
    requires Typed(e) && (e.Negate? || e.Complement?) && TextsOk(e) && s.sp + Depth(e) <= z.limit
    requires ReadsOk(env, nArgs, s, e, z)
    ensures ReadsOk(env, nArgs, s, e.e, z) && TextsOk(e.e) && Typed(e.e)
    ensures Width(e.e) == e.size && Width(e) == e.size && 1 <= e.size <= 2
    ensures s.sp + Depth(e.e) <= z.limit && (e.size == 2 ==> s.sp + 4 <= z.limit)
  {
    hide Eval, Readable, W;
  }

  lemma {:induction false} NegateEval(env: Env, nArgs: nat, e: Expr, s: State)
    requires (e.Negate? || e.Complement?) && Typed(e) && Typed(e.e) && Width(e.e) == e.size
    ensures var v := Eval(env, nArgs, s, e.e);
            && v < Modulus(e.size)
            && Eval(env, nArgs, s, e) == (if e.Negate? then 0 - v else -1 - v) % Modulus(e.size)
  {
    EvalBound(env, nArgs, s, e.e);
    hide ShiftValue, BinaryValue, LoadedValue, Modulus, Typed;
  }

  lemma ShiftStep(left: bool, v: Word, n: nat)
    requires n > 0
    ensures ShiftValue(left, v, n) == ShiftValue(left, if left then W(2 * v) else v / 2, n - 1)
  {
    var p := Pow2(n - 1);
    Pow2Positive(n - 1);
    assert Pow2(n) == 2 * p;
    hide W, Pow2;
    if left {
      LeftStep(v, p);
    } else {
      HalfThenDivide(v, p);
    }
  }

  lemma LeftStep(v: nat, p: nat)
    ensures W(v * (2 * p)) == W(W(2 * v) * p)
  {
    MulResidue(2 * v, p);
    Double(v, p);
    MulAssocTwo(v, p);
  }

  lemma MulAssocTwo(v: nat, p: nat)
    ensures 2 * v * p == v * (2 * p)
  {
  }

  lemma MulResidue(a: nat, p: nat)
    ensures W(W(a) * p) == W(a * p)
  {
    var q := a / WORD;
    assert a * p == W(a) * p + q * p * WORD by {
      assert a == q * WORD + W(a);
      MulDistributes(q * WORD, W(a), p);
      MulAssoc(q, p);
    }
    SameResidue(W(a) * p, q * p * WORD);
    MultipleOfWord(q * p);
  }

  lemma MulAssoc(q: int, p: int)
    ensures q * WORD * p == q * p * WORD
  {
  }

  lemma MultipleOfWord(k: int)
    ensures k * WORD % WORD == 0
  {
  }

  lemma HalfThenDivide(v: nat, p: nat)
    requires p > 0
    ensures v / 2 / p == v / (2 * p)
  {
    var q := v / 2 / p;
    var r := v / 2 % p;
    assert v / 2 == q * p + r;
    assert v == q * (2 * p) + (2 * r + v % 2) by {
      Double(q, p);
    }
    assert 0 <= 2 * r + v % 2 < 2 * p;
    QuotientIs(v, 2 * p, q, 2 * r + v % 2);
  }

  lemma {:induction false} RunShifts(env: Env, prog: seq<Entry>, left: bool, n: nat, rest: seq<Entry>,
                                     s: State, t1: State, v: Word, z: Zone, fuel: nat, rs: seq<Resume>) returns (t: State)
    requires ZoneOk(s, z) && Pushed(s, t1, z, v, 1)
    ensures Run(env, prog, Repeat(Op(if left then LSH else RSH), n) + rest, t1, z, fuel, rs) ==
            Run(env, prog, rest, t, z, fuel, rs)
    ensures Pushed(s, t, z, ShiftValue(left, v, n), 1)
    decreases n
  {
    var o := Op(if left then LSH else RSH);
    if n == 0 {
      assert Repeat(o, 0) + rest == rest;
      assert ShiftValue(left, v, 0) == v by { assert Pow2(0) == 1; }
      t := t1;
    } else {
      assert Repeat(o, n) == [o] + Repeat(o, n - 1);
      assert Decode(env, o) == Some(if left then Shl else Shr);
      var v1: Word := if left then W(2 * v) else v / 2;
      assert Top(t1, 1) == v;
      ShiftStep(left, v, n);
      hide Decode, ShiftValue, Repeat, W;
      Assoc([o], Repeat(o, n - 1), rest);
      RunOne(env, prog, o, Repeat(o, n - 1) + rest, t1, z, fuel, rs);
      PushedWord(s, t1, z, 1, v1);
      hide Pushed;
      t := RunShifts(env, prog, left, n - 1, rest, s, Push(Pop(t1), v1), v1, z, fuel, rs);
    }
  }

  lemma {:induction false} RunShift(env: Env, prog: seq<Entry>, nArgs: nat, e: Expr, rest: seq<Entry>,
                                    s: State, z: Zone, fuel: nat, rs: seq<Resume>) returns (t: State)
    requires Typed(e) && e.ShiftBy? && TextsOk(e) && ZoneOk(s, z) && s.sp + Depth(e) <= z.limit
    requires ReadsOk(env, nArgs, s, e, z)
    ensures Run(env, prog, Code(nArgs, e) + rest, s, z, fuel, rs) == Run(env, prog, rest, t, z, fuel, rs)
    ensures Pushed(s, t, z, Eval(env, nArgs, s, e), Width(e))
    decreases e, 0
  {
    var ShiftBy(left, _, x, count) := e;
    var n := W(count);
    var shifts := Repeat(Op(if left then LSH else RSH), n);
    assert Code(nArgs, e) == Code(nArgs, x) + shifts;
    var v := Eval(env, nArgs, s, x);
    EvalBound(env, nArgs, s, x);
    assert Eval(env, nArgs, s, e) == ShiftValue(left, v, n);
    hide Run, Code, Eval, Repeat;
    Assoc(Code(nArgs, x), shifts, rest);
    var t1 := RunExpr(env, prog, nArgs, x, shifts + rest, s, z, fuel, rs);
    t := RunShifts(env, prog, left, n, rest, s, t1, v, z, fuel, rs);
  }

  /** A narrowing conversion discards the high word, a widening one pushes a zero above. */
  lemma RunResize(env: Env, prog: seq<Entry>, from: nat, to: nat, rest: seq<Entry>,
                  s: State, t1: State, v: nat, z: Zone, fuel: nat, rs: seq<Resume>) returns (t: State)
    requires 1 <= from <= 2 && 1 <= to <= 2 && v < Modulus(from) && s.sp + to <= z.limit
    requires ZoneOk(s, z) && Pushed(s, t1, z, v, from)
    ensures Run(env, prog, ConvertEntries(from, to) + rest, t1, z, fuel, rs) == Run(env, prog, rest, t, z, fuel, rs)
    ensures Pushed(s, t, z, v % Modulus(to), to)
  {
    SmallModulus(v, from, to);
    ResizeCode(env, from, to);
    hide Run, Operand, Pushed, ConvertEntries, Modulus, ZoneOk;
    if from == to {
      assert [] + rest == rest;
      t := t1;
    } else if from > to {
      t := RunNarrow(env, prog, rest, s, t1, v, z, fuel, rs);
    } else {
      PushedFacts(s, t1, z, v, 1);
      t := RunPush(env, prog, ZeroEntry(), rest, t1, z, fuel, rs);
      WidenedZero(s, t1, t, v, z);
    }
  }

  function ZeroEntry(): Entry {
    Op(CNST, Number(0), SizeWord, ArgChar)
  }

  lemma ResizeCode(env: Env, from: nat, to: nat)
    requires 1 <= from <= 2 && 1 <= to <= 2
    ensures ConvertEntries(from, to) ==
            if from == to then [] else if from > to then [Op(DISCARD, Number(1), SizeWord, ArgChar)] else [ZeroEntry()]
    ensures Operand(env, ZeroEntry()) == 0
  {
  }

  lemma SmallModulus(v: nat, from: nat, to: nat)
    requires 1 <= from <= 2 && 1 <= to <= 2 && v < Modulus(from)
    ensures Modulus(to) > 0 && Modulus(1) == WORD && Modulus(2) == DWORD && (from <= to ==> v % Modulus(to) == v)
  {
  }

  lemma RunNarrow(env: Env, prog: seq<Entry>, rest: seq<Entry>, s: State, t1: State, v: nat, z: Zone, fuel: nat, rs: seq<Resume>)
    returns (t: State)
    requires v < DWORD && ZoneOk(s, z) && Pushed(s, t1, z, v, 2)
    ensures Run(env, prog, [Op(DISCARD, Number(1), SizeWord, ArgChar)] + rest, t1, z, fuel, rs) ==
            Run(env, prog, rest, t, z, fuel, rs)
    ensures Pushed(s, t, z, v % WORD, 1)
  {
    var o := Op(DISCARD, Number(1), SizeWord, ArgChar);
    assert Decode(env, o) == Some(Discard(1));
    RunOne(env, prog, o, rest, t1, z, fuel, rs);
    t := Drop(t1, 1);
    hide Run, Decode;
    assert t.sp == s.sp + 1 && t.mem[s.sp] == v % WORD;
  }

  lemma WidenedZero(s: State, t1: State, t: State, v: Word, z: Zone)
    requires ZoneOk(s, z) && Pushed(s, t1, z, v, 1) && Pushed(t1, t, z, 0, 1)
    ensures Pushed(s, t, z, v, 2)
  {
  }

  lemma {:induction false} RunConvert(env: Env, prog: seq<Entry>, nArgs: nat, e: Expr, rest: seq<Entry>,
                                      s: State, z: Zone, fuel: nat, rs: seq<Resume>) returns (t: State)
    requires Typed(e) && e.Convert? && TextsOk(e) && ZoneOk(s, z) && s.sp + Depth(e) <= z.limit
    requires ReadsOk(env, nArgs, s, e, z)
    ensures Run(env, prog, Code(nArgs, e) + rest, s, z, fuel, rs) == Run(env, prog, rest, t, z, fuel, rs)
    ensures Pushed(s, t, z, Eval(env, nArgs, s, e), Width(e))
    decreases e, 0
  {
    var Convert(x, size) := e;
    var c := ConvertEntries(Width(x), size);
    assert Code(nArgs, e) == Code(nArgs, x) + c;
    var v := Eval(env, nArgs, s, x);
    EvalBound(env, nArgs, s, x);
    assert Eval(env, nArgs, s, e) == v % Modulus(size);
    hide Run, Code, Eval, ConvertEntries;
    Assoc(Code(nArgs, x), c, rest);
    var t1 := RunExpr(env, prog, nArgs, x, c + rest, s, z, fuel, rs);
    t := RunResize(env, prog, Width(x), size, rest, s, t1, v, z, fuel, rs);
  }

  // ----- assignments -----

  /** The assignment trees of a forest: `ASGN` of one or two words. */
  datatype Assignment = Assignment(addr: Expr, value: Expr, size: nat)

  predicate TypedAssignment(a: Assignment) {
    && Typed(a.addr) && Typed(a.value) && TextsOk(a.addr) && TextsOk(a.value)
    && 1 <= a.size <= 2 && Width(a.addr) == 1 && Width(a.value) == a.size
  }

  function DumpAssignment(a: Assignment): seq<Line> {
    DumpTree(a.addr) + (DumpTree(a.value) + [LAsgn(a.size)])
  }

  function AssignmentCode(nArgs: nat, a: Assignment): seq<Entry>
    requires TypedAssignment(a)
  {
    Code(nArgs, a.addr) + (Code(nArgs, a.value) + [Op(STORE, Empty, SizeOf(a.size))])
  }

  /** What an assignment does to the state. */
  function Assigned(env: Env, nArgs: nat, s: State, a: Assignment): State {
    StoredValue(s, W(Eval(env, nArgs, s, a.addr)), Eval(env, nArgs, s, a.value), a.size)
  }

  function ZoneAssigned(env: Env, nArgs: nat, s: State, a: Assignment, z: Zone): Zone {
    var p := W(Eval(env, nArgs, s, a.addr));
    z.(junk := z.junk - if a.size == 1 then {p} else {p, W(p + 1)})
  }

  /** The trees fit the stack, load only written words outside it, and store outside it. */
  ghost predicate AssignmentOk(env: Env, nArgs: nat, s: State, a: Assignment, z: Zone) {
    var p := W(Eval(env, nArgs, s, a.addr));
    && TypedAssignment(a)
    && s.sp + Depth(a.addr) <= z.limit && s.sp + 1 + Depth(a.value) <= z.limit
    && ReadsOk(env, nArgs, s, a.addr, z) && ReadsOk(env, nArgs, s, a.value, z)
    && Outside(p, z) && (a.size == 2 ==> Outside(W(p + 1), z))
  }

  lemma {:induction false} EvalRelated(env: Env, nArgs: nat, s: State, t: State, e: Expr, z: Zone)
    requires ZoneOk(s, z) && Related(s, t, z) && ReadsOk(env, nArgs, s, e, z)
    ensures Eval(env, nArgs, t, e) == Eval(env, nArgs, s, e) && ReadsOk(env, nArgs, t, e, z)
    decreases e
  {
    match e
    case Load(a, _) => EvalRelated(env, nArgs, s, t, a, z);
    case Negate(x, _) => EvalRelated(env, nArgs, s, t, x, z);
    case Complement(x, _) => EvalRelated(env, nArgs, s, t, x, z);
    case Binary(_, x, y, _) =>
      EvalRelated(env, nArgs, s, t, x, z);
      EvalRelated(env, nArgs, s, t, y, z);
    case ShiftBy(_, _, x, _) => EvalRelated(env, nArgs, s, t, x, z);
    case Convert(x, _) => EvalRelated(env, nArgs, s, t, x, z);
    case _ =>
  }

  lemma AboveIsRelated(s: State, t: State, z: Zone)
    requires ZoneOk(s, z) && Above(s, t, z) && t.sp == s.sp
    ensures Related(s, t, z)
  {
  }

  lemma RunStore(env: Env, prog: seq<Entry>, size: nat, rest: seq<Entry>, s: State, t1: State, t2: State,
                 p: Word, v: nat, z: Zone, fuel: nat, rs: seq<Resume>) returns (t: State)
    requires 1 <= size <= 2 && v < Modulus(size) && ZoneOk(s, z)
    requires Pushed(s, t1, z, p, 1) && Pushed(t1, t2, z, v, size)
    requires Outside(p, z) && (size == 2 ==> Outside(W(p + 1), z))
    ensures var z1 := z.(junk := z.junk - if size == 1 then {p} else {p, W(p + 1)});
            var u := StoredValue(s, p, v, size);
            && Run(env, prog, [Op(STORE, Empty, SizeOf(size))] + rest, t2, z, fuel, rs) == Run(env, prog, rest, t, z1, fuel, rs)
            && Related(u, t, z1) && ZoneOk(u, z1)
  {
    hide Related, Pushed, Above, Run, Write, Drop, Top, ZoneOk, W;
    var o := Op(STORE, Empty, SizeOf(size));
    assert Decode(env, o) == Some(if size == 1 then Store else Store2);
    StoreOperands(s, t1, t2, p, v, z, size);
    var t3 := Drop(t2, size + 1);
    AboveIsRelated(s, t3, z);
    if size == 1 {
      RunOne(env, prog, o, rest, t2, z, fuel, rs);
      SameWrite(s, t3, z, p, v);
      t := Write(t3, p, v);
    } else {
      RunOne(env, prog, o, rest, t2, z, fuel, rs);
      SameWrite2(s, t3, z, p, Low(v), High(v));
      t := Write(Write(t3, p, Low(v)), W(p + 1), High(v));
    }
  }

  lemma StoreOperands(s: State, t1: State, t2: State, p: Word, v: nat, z: Zone, size: nat)
    requires 1 <= size <= 2 && v < Modulus(size) && ZoneOk(s, z)
    requires Pushed(s, t1, z, p, 1) && Pushed(t1, t2, z, v, size)
    requires Outside(p, z) && (size == 2 ==> Outside(W(p + 1), z))
    ensures Above(s, Drop(t2, size + 1), z) && Drop(t2, size + 1).sp == s.sp
    ensures Tame(if size == 1 then Store else Store2, t2, z)
    ensures size == 1 ==> Top(t2, 2) == p && Top(t2, 1) == v && W(v) == v
    ensures size == 2 ==> Top(t2, 3) == p && Top(t2, 2) == Low(v) && Top(t2, 1) == High(v)
  {
    var n := s.sp;
    var t3 := Drop(t2, size + 1);
    assert t1.sp == n + 1 && t2.sp == n + 1 + size;
    assert t2.mem[n] == t1.mem[n] == p;
    assert size == 2 ==> t2.mem[n + 1] == Low(v) && t2.mem[n + 2] == High(v);
    assert Above(s, t2, z);
    hide Pushed;
    assert t3.sp == n && t3.mem == t2.mem;
    TopsAt(t2, n, size);
  }

  lemma TopsAt(t: State, n: int, size: nat)
    requires 0 <= n && 1 <= size <= 2 && t.sp == n + 1 + size
    ensures Top(t, size + 1) == t.mem[n]
    ensures size == 1 ==> Top(t, 1) == t.mem[n + 1]
    ensures size == 2 ==> Top(t, 2) == t.mem[n + 1] && Top(t, 1) == t.mem[n + 2]
  {
  }

  /** The code of an assignment, from any state that agrees with s on live memory, does to live
      memory what the assignment does to s. */
  lemma RunAssignment(env: Env, prog: seq<Entry>, nArgs: nat, a: Assignment, rest: seq<Entry>,
                      s: State, c: State, z: Zone, fuel: nat, rs: seq<Resume>) returns (t: State)
    requires ZoneOk(s, z) && Related(s, c, z) && AssignmentOk(env, nArgs, s, a, z)
    ensures var z1 := ZoneAssigned(env, nArgs, s, a, z);
            && Run(env, prog, AssignmentCode(nArgs, a) + rest, c, z, fuel, rs) == Run(env, prog, rest, t, z1, fuel, rs)
            && Related(Assigned(env, nArgs, s, a), t, z1) && ZoneOk(Assigned(env, nArgs, s, a), z1)
  {
    hide *;
    AssignmentFacts(env, nArgs, a, s, c, z);
    var o := Op(STORE, Empty, SizeOf(a.size));
    var code1, code2 := Code(nArgs, a.addr), Code(nArgs, a.value);
    var p: Word, v := Eval(env, nArgs, c, a.addr), Eval(env, nArgs, c, a.value);
    Assoc(code1, code2 + [o], rest);
    Assoc(code2, [o], rest);
    var t1 := RunExpr(env, prog, nArgs, a.addr, code2 + ([o] + rest), c, z, fuel, rs);
    PushedFacts(c, t1, z, p, 1);
    EvalSame(env, nArgs, c, t1, a.value, z);
    var t2 := RunExpr(env, prog, nArgs, a.value, [o] + rest, t1, z, fuel, rs);
    t := RunStore(env, prog, a.size, rest, c, t1, t2, p, v, z, fuel, rs);
    AssignRelated(s, c, z, a.size, p, v);
    RelatedTrans(Assigned(env, nArgs, s, a), Assigned(env, nArgs, c, a), t, ZoneAssigned(env, nArgs, s, a, z));
  }

  lemma {:induction false} AssignmentFacts(env: Env, nArgs: nat, a: Assignment, s: State, c: State, z: Zone)
    requires ZoneOk(s, z) && Related(s, c, z) && AssignmentOk(env, nArgs, s, a, z)
    ensures ZoneOk(c, z) && c.sp == s.sp
    ensures TypedAssignment(a) && 1 <= a.size <= 2
    ensures Typed(a.addr) && TextsOk(a.addr) && Typed(a.value) && TextsOk(a.value)
    ensures Width(a.addr) == 1 && Width(a.value) == a.size
    ensures c.sp + Depth(a.addr) <= z.limit && c.sp + 1 + Depth(a.value) <= z.limit
    ensures ReadsOk(env, nArgs, c, a.addr, z) && ReadsOk(env, nArgs, c, a.value, z)
    ensures AssignmentCode(nArgs, a) == Code(nArgs, a.addr) + (Code(nArgs, a.value) + [Op(STORE, Empty, SizeOf(a.size))])
    ensures var p, v := Eval(env, nArgs, c, a.addr), Eval(env, nArgs, c, a.value);
            var junk := z.junk - if a.size == 1 then {p} else {p, W(p + 1)};
            && p < 0x10000 && v < Modulus(a.size) && Outside(p, z) && (a.size == 2 ==> Outside(W(p + 1), z))
            && ZoneAssigned(env, nArgs, s, a, z) == z.(junk := junk)
            && Assigned(env, nArgs, s, a) == StoredValue(s, p, v, a.size)
            && Assigned(env, nArgs, c, a) == StoredValue(c, p, v, a.size)
  {
    EvalRelated(env, nArgs, s, c, a.addr, z);
    EvalRelated(env, nArgs, s, c, a.value, z);
    EvalBound(env, nArgs, c, a.addr);
    EvalBound(env, nArgs, c, a.value);
  }

  function StoredValue(s: State, p: Word, v: nat, size: nat): State {
    if size == 1 then Write(s, p, W(v)) else Write(Write(s, p, Low(v)), W(p + 1), High(v))
  }

  lemma AssignRelated(s: State, c: State, z: Zone, size: nat, p: Word, v: nat)
    requires 1 <= size <= 2 && ZoneOk(s, z) && Related(s, c, z)
    requires Outside(p, z) && (size == 2 ==> Outside(W(p + 1), z))
    ensures var z1 := z.(junk := z.junk - if size == 1 then {p} else {p, W(p + 1)});
            var u, w := StoredValue(s, p, v, size), StoredValue(c, p, v, size);
            Related(u, w, z1) && ZoneOk(u, z1)
  {
    hide Related, ZoneOk, Write;
    if size == 1 {
      SameWrite(s, c, z, p, W(v));
    } else {
      SameWrite2(s, c, z, p, Low(v), High(v));
    }
  }

  lemma {:induction false} TranslateAssignment(a: Assignment, rest: seq<Line>, out: seq<Entry>, nArgs: nat, cArg: nat)
    requires TypedAssignment(a) && AllAccepted(rest)
    ensures AllAccepted(DumpAssignment(a) + rest)
    ensures TranslatedAll(DumpAssignment(a) + rest, out, nArgs, cArg) ==
            TranslatedAll(rest, out + AssignmentCode(nArgs, a), nArgs, cArg)
  {
    var l := LAsgn(a.size);
    var o := [Op(STORE, Empty, SizeOf(a.size))];
    var c1, c2 := Code(nArgs, a.addr), Code(nArgs, a.value);
    assert Emitted(l, nArgs, 0) == o && Accepted(l);
    hide TranslatedAll, AllAccepted, Code, DumpTree, Emitted;
    Assoc(DumpTree(a.addr), DumpTree(a.value) + [l], rest);
    Assoc(DumpTree(a.value), [l], rest);
    OnePlainLine(l, rest, out + c1 + c2, nArgs, cArg);
    TranslateTree(a.value, [l] + rest, out + c1, nArgs, cArg);
    TranslateTree(a.addr, DumpTree(a.value) + ([l] + rest), out, nArgs, cArg);
    Assoc(out, c1, c2 + o);
    Assoc(out + c1, c2, o);
  }

  /** Only operations, with byte operands in range. */
  ghost predicate Plain(code: seq<Entry>) {
    forall i | 0 <= i < |code| :: !code[i].isDirective && (code[i].argType == ArgChar ==> FitsByte(code[i].arg))
  }

  lemma PlainConcat(a: seq<Entry>, b: seq<Entry>)
    requires Plain(a) && Plain(b)
    ensures Plain(a + b)
  {
  }

  /** Every operation a plain line emits is plain. */
  lemma EmittedPlain(l: Line, nArgs: nat)
    requires Accepted(l) && (l.LIndir? || l.LNeg? || l.LBcom? || l.LBin?)
    ensures Plain(Emitted(l, nArgs, 0))
  {
  }

  lemma {:induction false} LeafPlain(nArgs: nat, e: Expr)
    requires Typed(e) && TextsOk(e) && (e.Const? || e.Global? || e.Param? || e.LocalVar?)
    ensures Plain(Code(nArgs, e))
  {
  }

  lemma {:induction false} CodeIsPlain(nArgs: nat, e: Expr)
    requires Typed(e) && TextsOk(e)
    ensures Plain(Code(nArgs, e))
    decreases e
  {
    hide Plain, Emitted;
    match e
    case Load(a, size) =>
      CodeIsPlain(nArgs, a);
      EmittedPlain(LIndir(size), nArgs);
      PlainConcat(Code(nArgs, a), Emitted(LIndir(size), nArgs, 0));
    case Negate(x, size) =>
      CodeIsPlain(nArgs, x);
      EmittedPlain(LNeg(size), nArgs);
      PlainConcat(Code(nArgs, x), Emitted(LNeg(size), nArgs, 0));
    case Complement(x, size) =>
      CodeIsPlain(nArgs, x);
      EmittedPlain(LBcom(size), nArgs);
      PlainConcat(Code(nArgs, x), Emitted(LBcom(size), nArgs, 0));
    case Binary(op, x, y, size) =>
      CodeIsPlain(nArgs, x);
      CodeIsPlain(nArgs, y);
      EmittedPlain(LBin(op, size), nArgs);
      PlainConcat(Code(nArgs, x), Code(nArgs, y));
      PlainConcat(Code(nArgs, x) + Code(nArgs, y), Emitted(LBin(op, size), nArgs, 0));
    case ShiftBy(left, _, x, count) =>
      CodeIsPlain(nArgs, x);
      RepeatPlain(left, W(count));
      PlainConcat(Code(nArgs, x), Repeat(Op(if left then LSH else RSH), W(count)));
    case Convert(x, size) =>
      CodeIsPlain(nArgs, x);
      ConvertPlain(Width(x), size);
      PlainConcat(Code(nArgs, x), ConvertEntries(Width(x), size));
    case _ =>
      LeafPlain(nArgs, e);
  }

  lemma RepeatPlain(left: bool, n: nat)
    ensures Plain(Repeat(Op(if left then LSH else RSH), n))
  {
  }

  lemma ConvertPlain(from: nat, to: nat)
    requires from <= 2
    ensures Plain(ConvertEntries(from, to))
  {
  }

  lemma {:induction false} AssignmentIsPlain(nArgs: nat, a: Assignment)
    requires TypedAssignment(a)
    ensures Plain(AssignmentCode(nArgs, a))
  {
    var o := [Op(STORE, Empty, SizeOf(a.size))];
    CodeIsPlain(nArgs, a.addr);
    CodeIsPlain(nArgs, a.value);
    PlainConcat(Code(nArgs, a.value), o);
    PlainConcat(Code(nArgs, a.addr), Code(nArgs, a.value) + o);
  }

  // ----- comparisons -----

  /** A comparison tree jumps to its label exactly when the comparison of the values holds. */
  lemma RunCompare(env: Env, prog: seq<Entry>, nArgs: nat, c: Cond, x: Expr, y: Expr, target: Text, rest: seq<Entry>,
                   s: State, z: Zone, fuel: nat, rs: seq<Resume>) returns (t: State)
    requires Typed(x) && Typed(y) && Width(x) == 1 && Width(y) == 1 && TextsOk(x) && TextsOk(y) && ZoneOk(s, z)
    requires s.sp + Depth(x) <= z.limit && s.sp + 1 + Depth(y) <= z.limit
    requires ReadsOk(env, nArgs, s, x, z) && ReadsOk(env, nArgs, s, y, z)
    ensures var code := Code(nArgs, x) + (Code(nArgs, y) + Emitted(LCompare(c, "", 1, target), nArgs, 0)) + rest;
            Run(env, prog, code, s, z, fuel, rs) ==
            if Holds(c, W(Eval(env, nArgs, s, x)), W(Eval(env, nArgs, s, y)))
            then Transfer(env, prog, W(Value(env, target)), t, z, fuel, rs)
            else Run(env, prog, rest, t, z, fuel, rs)
    ensures Related(s, t, z)
  {
    hide *;
    CompareFacts(env, nArgs, c, x, y, target, s, z);
    var o := Op(NameOfCond(c), target, SizeWord, ArgLink);
    var cx, cy := Code(nArgs, x), Code(nArgs, y);
    var v: Word, w: Word := Eval(env, nArgs, s, x), Eval(env, nArgs, s, y);
    Assoc(cx, cy + [o], rest);
    Assoc(cy, [o], rest);
    var t1 := RunExpr(env, prog, nArgs, x, cy + ([o] + rest), s, z, fuel, rs);
    PushedFacts(s, t1, z, v, 1);
    EvalSame(env, nArgs, s, t1, y, z);
    var t2 := RunExpr(env, prog, nArgs, y, [o] + rest, t1, z, fuel, rs);
    PushedTwice(s, t1, t2, z, v, w, 1);
    t := Drop(t2, 2);
    RunBranch(env, prog, c, target, rest, s, t2, v, w, z, fuel, rs);
  }

  lemma {:induction false} CompareFacts(env: Env, nArgs: nat, c: Cond, x: Expr, y: Expr, target: Text, s: State, z: Zone)
    requires Typed(x) && Typed(y) && Width(x) == Width(y) == 1
    ensures Emitted(LCompare(c, "", 1, target), nArgs, 0) == [Op(NameOfCond(c), target, SizeWord, ArgLink)]
    ensures var v, w := Eval(env, nArgs, s, x), Eval(env, nArgs, s, y);
            v < 0x10000 && w < 0x10000 && v < Modulus(1) && w < Modulus(1) && W(v) == v && W(w) == w
  {
    EvalBound(env, nArgs, s, x);
    EvalBound(env, nArgs, s, y);
  }

  lemma PushedFacts(s: State, t: State, z: Zone, v: nat, size: nat)
    requires Pushed(s, t, z, v, size)
    ensures Above(s, t, z) && ZoneOk(t, z) && t.sp == s.sp + size
  {
  }

  lemma {:induction false} RunBranch(env: Env, prog: seq<Entry>, c: Cond, target: Text, rest: seq<Entry>, s: State, t2: State,
                  v: Word, w: Word, z: Zone, fuel: nat, rs: seq<Resume>)
    requires ZoneOk(s, z) && Above(s, t2, z) && t2.sp == s.sp + 2 && Top(t2, 2) == v && Top(t2, 1) == w
    ensures Run(env, prog, [Op(NameOfCond(c), target, SizeWord, ArgLink)] + rest, t2, z, fuel, rs) ==
            if Holds(c, v, w) then Transfer(env, prog, W(Value(env, target)), Drop(t2, 2), z, fuel, rs)
            else Run(env, prog, rest, Drop(t2, 2), z, fuel, rs)
    ensures Related(s, Drop(t2, 2), z)
  {
    var o := Op(NameOfCond(c), target, SizeWord, ArgLink);
    assert Decode(env, o) == Some(Branch(c, W(Value(env, target))));
    assert ([o] + rest)[1..] == rest;
  }
}

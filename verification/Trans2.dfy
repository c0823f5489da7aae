/** The bytecode translator (binutils/trans2.cpp): lines printed by the compiler become machine
    operations, and two passes over the finished list fuse and delete operations. */
module Trans2 {
  import opened Words
  import Sim

  // ----- entries -----

  datatype Size = SizeWord | SizeDword
  datatype ArgType = ArgNone | ArgChar | ArgWord | ArgLink

  /** The operand text: a decimal number, a number with an offset behind it (`3+2`, `3-2`), or a
      symbol with an offset. */
  datatype Text =
    | Empty
    | Number(n: int)
    | Offset(base: nat, offset: int)
    | Symbol(name: string, shift: int)

  /** Operations and directives share one record, and their names share one range of numbers. */
  datatype Entry = Entry(isDirective: bool, name: nat, arg: Text, size: Size, argType: ArgType, needIndir: bool)

  const ADDRF: nat := 1
  const ADDRL: nat := 2
  const CNST: nat := 3
  const ADDRS: nat := 4
  const INDIR: nat := 5
  const ADD: nat := 6
  const SUB: nat := 7
  const BAND: nat := 8
  const BOR: nat := 9
  const BXOR: nat := 10
  const LSH: nat := 12
  const RSH: nat := 13
  const EQ: nat := 14
  const NE: nat := 15
  const GE: nat := 16
  const GT: nat := 17
  const LE: nat := 18
  const LT: nat := 19
  const UGE: nat := 20
  const UGT: nat := 21
  const ULE: nat := 22
  const ULT: nat := 23
  const CALL0: nat := 24
  const CALL2: nat := 26
  const RET: nat := 27
  const JUMP: nat := 28
  const DISCARD: nat := 29
  const ALLOC: nat := 30
  const STORE: nat := 31
  const RSTORE: nat := 32

  const D_PROC: nat := 2
  const D_LABEL: nat := 10

  function Op(name: nat, arg: Text := Empty, size: Size := SizeWord, argType: ArgType := ArgNone): Entry {
    Entry(false, name, arg, size, argType, false)
  }

  function Directive(name: nat, arg: Text): Entry {
    Entry(true, name, arg, SizeWord, ArgNone, false)
  }

  function Label(arg: Text): Entry {
    Entry(true, D_LABEL, arg, SizeWord, ArgWord, false)
  }

  // ----- what the assembler makes of an entry -----

  /** The values the linker gives to symbols. */
  type Env = string -> Word

  /** The digits an offset text starts with: an offset of 0 is printed without a sign, as one digit more. */
  function Lead(n: nat, k: int): nat {
    if k == 0 then 10 * n else n
  }

  function Value(env: Env, t: Text): int {
    match t
    case Empty => 0
    case Number(n) => n
    case Offset(n, k) => Lead(n, k) + k
    case Symbol(s, k) => env(s) + k
  }

  /** The operand the instruction sees: a byte operand is cut to 8 bits and sign-extended. */
  function Operand(env: Env, e: Entry): Word {
    var v := Value(env, e.arg);
    if e.argType == ArgChar then
      (if v % 0x100 < 0x80 then v % 0x100 else 0xff00 + v % 0x100)
    else W(v)
  }

  function BaseOfName(name: nat): Sim.Base
    requires ADDRF <= name <= ADDRS
  {
    if name == ADDRF then Sim.Frame else if name == ADDRL then Sim.Local
    else if name == CNST then Sim.Zero else Sim.Stack
  }

  function AluOfName(name: nat): Sim.AluOp
    requires ADD <= name <= BXOR
  {
    if name == ADD then Sim.Add else if name == SUB then Sim.Sub
    else if name == BAND then Sim.Logic(And) else if name == BOR then Sim.Logic(Or) else Sim.Logic(Xor)
  }

  function CondOfName(name: nat): Sim.Cond
    requires EQ <= name <= ULT
  {
    if name == EQ then Sim.Eq else if name == NE then Sim.Ne else if name == GE then Sim.Ge
    else if name == GT then Sim.Gt else if name == LE then Sim.Le else if name == LT then Sim.Lt
    else if name == UGE then Sim.UGe else if name == UGT then Sim.UGt
    else if name == ULE then Sim.ULe else Sim.ULt
  }

  /** The instruction an operation assembles to; None where the assembler knows no such mnemonic. */
  function Decode(env: Env, e: Entry): Option<Sim.Instr>
    requires !e.isDirective
  {
    var imm := Operand(env, e);
    var bare := e.argType == ArgNone;
    if ADDRF <= e.name <= ADDRS then
      if bare || e.size != SizeWord then None
      else if e.needIndir then Some(Sim.LoadAt(BaseOfName(e.name), imm))
      else Some(Sim.Address(BaseOfName(e.name), imm))
    else if e.needIndir then None
    else if e.name == INDIR then
      if !bare then None else Some(if e.size == SizeWord then Sim.Indir else Sim.Indir2)
    else if ADD <= e.name <= BXOR then
      if bare then Some(if e.size == SizeWord then Sim.Alu(AluOfName(e.name)) else Sim.Alu2(AluOfName(e.name)))
      else if e.size == SizeWord then Some(Sim.AluImm(AluOfName(e.name), imm))
      else None
    else if e.name == STORE && bare then Some(if e.size == SizeWord then Sim.Store else Sim.Store2)
    else if e.name == RSTORE && bare then Some(if e.size == SizeWord then Sim.RStore else Sim.RStore2)
    else if e.size != SizeWord then None
    else if e.name == LSH && bare then Some(Sim.Shl)
    else if e.name == RSH && bare then Some(Sim.Shr)
    else if EQ <= e.name <= ULT && !bare && e.argType != ArgChar then Some(Sim.Branch(CondOfName(e.name), imm))
    else if CALL0 <= e.name <= CALL2 && bare then Some(Sim.CallTop(e.name - CALL0))
    else if CALL0 <= e.name <= CALL2 && e.argType != ArgChar then Some(Sim.CallTo(e.name - CALL0, imm))
    else if e.name == RET && bare then Some(Sim.Ret)
    else if e.name == JUMP && bare then Some(Sim.JumpTop)
    else if e.name == JUMP && e.argType != ArgChar then Some(Sim.JumpTo(imm))
    else if e.name == DISCARD && !bare then Some(Sim.Discard(imm))
    else if e.name == ALLOC && !bare then Some(Sim.Alloc(imm))
    else None
  }

  // ----- input lines -----

  datatype BinOp = AddOp | SubOp | BAndOp | BOrOp | BXorOp

  datatype Line =
    | LAddrF(arg: Text)
    | LAddrG(arg: Text)
    | LAddrL(arg: Text)
    | LCnst(n: int, size: nat)
    | LIndir(size: nat)
    | LIndirB
    | LNeg(size: nat)
    | LBcom(size: nat)
    | LBin(op: BinOp, size: nat)
    | LBuiltin(text: string, size: nat)
    | LShift(left: bool, text: string, size: nat)
    | LAsgn(size: nat)
    | LAsgnB(arg: Text)
    | LCompare(cond: Sim.Cond, text: string, size: nat, target: Text)
    | LArg(size: nat)
    | LCall(size: nat)
    | LRet(size: nat)
    | LJump
    | LLabel(arg: Text)
    | LConvert(from: nat, to: nat)
    | LDiscard(words: nat)

  /** The type `parseOp` gives an operand from its first character, its value and a `+` in it. */
  function KindOf(t: Text): ArgType {
    match t
    case Empty => ArgNone
    case Number(n) => if n < 0 then ArgLink else if n <= 127 then ArgChar else ArgWord
    case Offset(n, k) => if k <= 0 && Lead(n, k) <= 127 then ArgChar else ArgWord
    case Symbol(_, _) => ArgLink
  }

  /** `atoi`: digits at the front of the text, else 0. */
  function Atoi(t: Text): int {
    match t
    case Number(n) => n
    case Offset(n, k) => Lead(n, k)
    case _ => 0
  }

  function ByteOrWord(n: int): ArgType {
    if n <= 127 then ArgChar else ArgWord
  }

  /** An `ADDRL` operand moves up by the argument area; an offset is kept only when it has a `+`. */
  function LocalEntry(t: Text, nArgs: nat): Entry {
    match t
    case Number(n) =>
      if n < 0 then Op(ADDRL, Number(n + nArgs), SizeWord, ArgLink)
      else Op(ADDRL, Number(n + nArgs), SizeWord, ByteOrWord(n + nArgs))
    case Offset(n, k) =>
      if k > 0 then Op(ADDRL, Offset(n, k + nArgs), SizeWord, ArgLink)
      else Op(ADDRL, Number(Lead(n, k) + nArgs), SizeWord, ByteOrWord(Lead(n, k) + nArgs))
    case Symbol(s, k) => Op(ADDRL, Symbol(s, k + nArgs), SizeWord, ArgLink)
    case Empty => Op(ADDRL, Number(nArgs), SizeWord, ArgLink)
  }

  lemma {:induction false} Pow2Positive(n: nat)
    ensures Pow2(n) > 0
  {
  }

  function CnstWord(n: int, i: nat): Word {
    Pow2Positive(16 * i);
    W(n / Pow2(16 * i))
  }

  function CnstEntry(n: int, i: nat): Entry {
    Op(CNST, Number(CnstWord(n, i)), SizeWord, ByteOrWord(CnstWord(n, i)))
  }

  /** The words of a constant, low word first. */
  function CnstEntries(n: int, size: nat): seq<Entry> {
    seq(size, i requires 0 <= i => CnstEntry(n, i))
  }

  function Repeat(e: Entry, n: nat): seq<Entry> {
    seq(n, i => e)
  }

  function SizeOf(size: nat): Size {
    if size == 1 then SizeWord else SizeDword
  }

  function NameOfBin(op: BinOp): nat {
    match op
    case AddOp => ADD
    case SubOp => SUB
    case BAndOp => BAND
    case BOrOp => BOR
    case BXorOp => BXOR
  }

  function NameOfCond(c: Sim.Cond): nat {
    match c
    case Eq => EQ
    case Ne => NE
    case Ge => GE
    case Gt => GT
    case Le => LE
    case Lt => LT
    case UGe => UGE
    case UGt => UGT
    case ULe => ULE
    case ULt => ULT
  }

  const ONES1 := [Op(BXOR, Number(0xffff), SizeWord, ArgWord)]
  const ONES2 := [Op(CNST, Number(0xffff), SizeWord, ArgWord), Op(CNST, Number(0xffff), SizeWord, ArgWord),
                  Op(BXOR, Empty, SizeDword)]

  function Builtin(text: string, size: nat): seq<Entry>
    requires size == 1 || size == 2
  {
    [Op(CALL0, Symbol("__builtin_" + text, 0), SizeWord, ArgLink), Op(DISCARD, Number(size), SizeWord, ArgChar)]
  }

  function RetEntries(size: nat): seq<Entry> {
    (if size == 1 then [Op(ADDRL, Number(-5), SizeWord, ArgChar), Op(RSTORE)]
     else if size == 2 then [Op(ADDRL, Number(-6), SizeWord, ArgChar), Op(RSTORE, Empty, SizeDword)]
     else [])
    + [Op(RET)]
  }

  function ConvertEntries(from: nat, to: nat): seq<Entry> {
    if from > to then
      [Op(DISCARD, Number(from - to), SizeWord, if from - to < 127 then ArgChar else ArgWord)]
    else Repeat(Op(CNST, Number(0), SizeWord, ArgChar), to - from)
  }

  /** A size `parseOp` accepts for the line; any other ends in `fail`. */
  predicate Accepted(l: Line) {
    match l
    case LIndir(size) => size == 1 || size == 2
    case LNeg(size) => size == 1 || size == 2
    case LBcom(size) => size == 1 || size == 2
    case LBin(_, size) => size == 1 || size == 2
    case LBuiltin(_, size) => size == 1 || size == 2
    case LAsgn(size) => size == 1 || size == 2
    case LCompare(_, _, size, _) => size == 1 || size == 2
    case LArg(size) => size == 1 || size == 2
    case LCall(size) => size <= 2
    case _ => true
  }

  /** A shift by the constant just emitted: the constant is taken back and unrolled. */
  predicate ShiftsByConstant(l: Line, out: seq<Entry>) {
    l.LShift? && l.size == 1 && out != [] && out[|out| - 1].name == CNST
  }

  function Max0(n: int): nat {
    if n < 0 then 0 else n
  }

  /** The operations one line appends. */
  function Emitted(l: Line, nArgs: nat, cArg: nat): seq<Entry>
    requires Accepted(l)
  {
    match l
    case LAddrF(t) => [Op(ADDRF, t, SizeWord, KindOf(t))]
    case LAddrG(t) => [Op(CNST, t, SizeWord, KindOf(t))]
    case LAddrL(t) => [LocalEntry(t, nArgs)]
    case LCnst(n, size) => CnstEntries(n, size)
    case LIndir(size) => [Op(INDIR, Empty, SizeOf(size))]
    case LIndirB => []
    case LNeg(size) =>
      if size == 1 then ONES1 + [Op(ADD, Number(1), SizeWord, ArgChar)]
      else ONES2 + [Op(CNST, Number(1), SizeWord, ArgChar), Op(CNST, Number(0), SizeWord, ArgChar),
                    Op(ADD, Empty, SizeDword)]
    case LBcom(size) => if size == 1 then ONES1 else ONES2
    case LBin(op, size) => [Op(NameOfBin(op), Empty, SizeOf(size))]
    case LBuiltin(text, size) => Builtin(text, size)
    case LShift(_, text, _) => Builtin(text, 1)
    case LAsgn(size) => [Op(STORE, Empty, SizeOf(size))]
    case LAsgnB(t) =>
      [Op(CNST, t, SizeWord, KindOf(t)), Op(CALL0, Symbol("__builtin_memcpy", 0), SizeWord, ArgLink),
       Op(DISCARD, Number(3), SizeWord, ArgChar)]
    case LCompare(c, text, size, target) =>
      if size == 1 then [Op(NameOfCond(c), target, SizeWord, ArgLink)]
      else [Op(CALL0, Symbol("__builtin_cmp_" + text, 0), SizeWord, ArgLink),
            Op(DISCARD, Number(3), SizeWord, ArgChar), Op(CNST, Number(0), SizeWord, ArgChar),
            Op(NE, target, SizeWord, ArgLink)]
    case LArg(size) =>
      [Op(ADDRL, Number(cArg), SizeWord, ByteOrWord(cArg)), Op(RSTORE, Empty, SizeOf(size))]
    case LCall(size) => [Op(CALL0 + size)]
    case LRet(size) => RetEntries(size)
    case LJump => [Op(JUMP)]
    case LLabel(t) => [Label(t)]
    case LConvert(from, to) => ConvertEntries(from, to)
    case LDiscard(n) => if n == 0 then [] else [Op(DISCARD, Number(n), SizeWord, KindOf(Number(n)))]
  }

  /** The list after one line. */
  function Translated(l: Line, out: seq<Entry>, nArgs: nat, cArg: nat): seq<Entry>
    requires Accepted(l)
  {
    if ShiftsByConstant(l, out) then
      out[..|out| - 1] + Repeat(Op(if l.left then LSH else RSH), Max0(Atoi(out[|out| - 1].arg)))
    else out + Emitted(l, nArgs, cArg)
  }

  function NextArg(l: Line, cArg: nat): nat {
    if l.LArg? then cArg + l.size else if l.LCall? then 0 else cArg
  }

  predicate AllAccepted(ls: seq<Line>) {
    forall l | l in ls :: Accepted(l)
  }

  /** The list after all lines, and the state carried between them. */
  function TranslatedAll(ls: seq<Line>, out: seq<Entry>, nArgs: nat, cArg: nat): seq<Entry>
    requires AllAccepted(ls)
  {
    if ls == [] then out
    else TranslatedAll(ls[1..], Translated(ls[0], out, nArgs, cArg), nArgs, NextArg(ls[0], cArg))
  }

  /** `genProcHeader`: the label, and room for locals and outgoing arguments. */
  function ProcHeader(name: string, nLocals: nat, nArgs: nat): seq<Entry> {
    var total := nLocals + nArgs;
    [Directive(D_LABEL, Symbol(name, 0))]
    + if total > 0 then [Op(ALLOC, Number(total), SizeWord, ByteOrWord(total))] else []
  }

  // ----- the two passes -----

  /** The tests of `optimize` on an operation without operand and the entry before it. */
  predicate Fusable(prev: Entry, it: Entry) {
    && !it.isDirective && it.argType == ArgNone
    && if it.name == INDIR && it.size == SizeWord then
         ADDRF <= prev.name <= ADDRS && !prev.needIndir
       else
         && (ADD <= it.name <= BXOR || CALL0 <= it.name <= CALL2 || it.name == JUMP)
         && it.size == SizeWord && prev.name == CNST && prev.size == SizeWord && !prev.needIndir
  }

  function Fuse(prev: Entry, it: Entry): Entry {
    if it.name == INDIR then prev.(needIndir := true)
    else if CALL0 <= it.name <= CALL2 || it.name == JUMP then prev.(name := it.name, argType := ArgLink)
    else prev.(name := it.name)
  }

  /** The loop of `optimize`: `done` has been passed, `rest` is still ahead of the iterator. */
  function OptimizeFrom(done: seq<Entry>, rest: seq<Entry>): seq<Entry>
    decreases |rest|
  {
    if rest == [] then done
    else if done != [] && Fusable(done[|done| - 1], rest[0]) then
      OptimizeFrom(done[..|done| - 1] + [Fuse(done[|done| - 1], rest[0])], rest[1..])
    else OptimizeFrom(done + [rest[0]], rest[1..])
  }

  /** The tests of `optimize2`: an argument stored into itself. */
  predicate SelfStore(p2: Entry, p1: Entry, it: Entry) {
    && !it.isDirective && it.argType == ArgNone && it.name == STORE && it.size == SizeWord
    && !p1.isDirective && p1.name == ADDRF && p1.needIndir
    && !p2.isDirective && p2.name == ADDRF && !p2.needIndir
    && p1.arg == p2.arg
  }

  function Optimize2From(done: seq<Entry>, rest: seq<Entry>): seq<Entry>
    decreases |rest|
  {
    if rest == [] then done
    else if |done| >= 2 && SelfStore(done[|done| - 2], done[|done| - 1], rest[0]) then
      Optimize2From(done[..|done| - 2], rest[1..])
    else Optimize2From(done + [rest[0]], rest[1..])
  }

  // ----- the translator -----

  class Translator {
    var output: seq<Entry>
    var nLocals: nat
    var nArgs: nat
    var cArg: nat

    constructor ()
      ensures output == [] && nLocals == nArgs == cArg == 0
    {
      output, nLocals, nArgs, cArg := [], 0, 0, 0;
    }

    method GenProcHeader(name: string, locals: nat, args: nat)
      modifies this
      ensures output == old(output) + ProcHeader(name, locals, args)
      ensures nLocals == locals && nArgs == args && cArg == 0
    {
      nLocals, nArgs, cArg := locals, args, 0;
      output := output + [Directive(D_LABEL, Symbol(name, 0))];
      var totalReserve := nLocals + nArgs;
      if totalReserve > 0 {
        output := output + [Op(ALLOC, Number(totalReserve), SizeWord, ByteOrWord(totalReserve))];
      }
    }

    method GenRet(size: nat)
      modifies this`output
      ensures output == old(output) + RetEntries(size)
    {
      if size == 1 {
        output := output + [Op(ADDRL, Number(-5), SizeWord, ArgChar)];
        output := output + [Op(RSTORE)];
      } else if size == 2 {
        output := output + [Op(ADDRL, Number(-6), SizeWord, ArgChar)];
        output := output + [Op(RSTORE, Empty, SizeDword)];
      }
      output := output + [Op(RET)];
    }

    method PushConstants(n: int, size: nat)
      modifies this`output
      ensures output == old(output) + CnstEntries(n, size)
    {
      for i := 0 to size
        invariant output == old(output) + CnstEntries(n, size)[..i]
      {
        output := output + [CnstEntry(n, i)];
        assert CnstEntries(n, size)[..i + 1] == CnstEntries(n, size)[..i] + [CnstEntry(n, i)];
      }
    }

    method PushRepeated(e: Entry, n: int)
      modifies this`output
      ensures output == old(output) + Repeat(e, Max0(n))
    {
      var val := n;
      while val > 0
        invariant val <= n && (n >= 0 ==> val >= 0)
        invariant output == old(output) + Repeat(e, Max0(n) - Max0(val))
      {
        output := output + [e];
        val := val - 1;
        assert Repeat(e, Max0(n) - Max0(val)) == Repeat(e, Max0(n) - Max0(val) - 1) + [e];
      }
    }

    /** `parseOp`; false where the source calls `fail`. */
    method ParseOp(l: Line) returns (ok: bool)
      modifies this`output, this`cArg
      ensures ok == Accepted(l)
      ensures ok ==> output == Translated(l, old(output), nArgs, old(cArg)) && cArg == NextArg(l, old(cArg))
    {
      ok := Accepted(l);
      if !ok {
        return;
      }
      if ShiftsByConstant(l, output) {
        var val := Atoi(output[|output| - 1].arg);
        output := output[..|output| - 1];
        PushRepeated(Op(if l.left then LSH else RSH), val);
      } else if l.LCnst? {
        PushConstants(l.n, l.size);
      } else if l.LRet? {
        GenRet(l.size);
      } else if l.LConvert? && l.from <= l.to {
        PushRepeated(Op(CNST, Number(0), SizeWord, ArgChar), l.to - l.from);
      } else if l.LArg? {
        output := output + [Op(ADDRL, Number(cArg), SizeWord, ByteOrWord(cArg))];
        output := output + [Op(RSTORE, Empty, SizeOf(l.size))];
        cArg := cArg + l.size;
      } else {
        output := output + Emitted(l, nArgs, cArg);
        if l.LCall? {
          cArg := 0;
        }
      }
    }

    /** `optimize`: entries behind the iterator are final except the last, which may still fuse. */
    method Optimize()
      modifies this`output
      ensures output == OptimizeFrom([], old(output))
    {
      var it := 0;
      while it < |output|
        invariant 0 <= it <= |output|
        invariant OptimizeFrom(output[..it], output[it..]) == OptimizeFrom([], old(output))
        decreases |output| - it
      {
        ghost var done, rest := output[..it], output[it..];
        if it != 0 && Fusable(output[it - 1], output[it]) {
          var fused := Fuse(output[it - 1], output[it]);
          output := output[..it - 1] + [fused] + output[it + 1..];
          assert output[..it] == done[..it - 1] + [fused] && output[it..] == rest[1..];
        } else {
          it := it + 1;
          assert output[..it] == done + [rest[0]] && output[it..] == rest[1..];
        }
      }
      assert output[..it] == output;
    }

    /** `optimize2`: after a deletion the iterator stands behind the entries that came closer. */
    method Optimize2()
      modifies this`output
      ensures output == Optimize2From([], old(output))
    {
      var it := 0;
      while it < |output|
        invariant 0 <= it <= |output|
        invariant Optimize2From(output[..it], output[it..]) == Optimize2From([], old(output))
        decreases |output| - it
      {
        ghost var done, rest := output[..it], output[it..];
        if it >= 2 && SelfStore(output[it - 2], output[it - 1], output[it]) {
          output := output[..it - 2] + output[it + 1..];
          it := it - 2;
          assert output[..it] == done[..|done| - 2] && output[it..] == rest[1..];
        } else {
          it := it + 1;
          assert output[..it] == done + [rest[0]] && output[it..] == rest[1..];
        }
      }
      assert output[..it] == output;
    }
  }
}

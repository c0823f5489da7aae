/** The rl_cpu as the simulator defines it (sim/sim.cpp, sim/sim.hpp): registers SP, BP, AP, a PC
    made of a 16-bit block number and a 3-bit position in the block, and 65536 words of data memory.
    An instruction is modelled after decoding, with its operand already sign-extended. */
module Sim {
  import opened Words

  type Memory = m: seq<Word> | |m| == 0x10000 witness seq(0x10000, i => 0)

  datatype State = State(sp: Word, bp: Word, ap: Word, mem: Memory)

  /** What `addrf`, `addrl`, `addrs` and `cnst` add their operand to. */
  datatype Base = Frame | Local | Stack | Zero

  datatype AluOp = Add | Sub | Logic(op: BitOp)

  datatype Cond = Eq | Ne | Ge | Gt | Le | Lt | UGe | UGt | ULe | ULt

  datatype Instr =
    | Nop
    | Address(base: Base, imm: Word)
    | LoadAt(base: Base, imm: Word)
    | Indir
    | Indir2
    | Alu(aluOp: AluOp)
    | AluImm(aluOp: AluOp, imm: Word)
    | Alu2(aluOp: AluOp)
    | Shl
    | Shr
    | Branch(cond: Cond, target: Word)
    | CallTop(k: nat)
    | CallTo(k: nat, target: Word)
    | Ret
    | JumpTop
    | JumpTo(target: Word)
    | Discard(imm: Word)
    | Alloc(imm: Word)
    | Store
    | Store2
    | RStore
    | RStore2
    | Dup

  // ----- stack and memory -----

  function Push(s: State, v: Word): State {
    s.(mem := s.mem[s.sp := v], sp := W(s.sp + 1))
  }

  /** The word k places below the stack pointer; Top(s, 1) is what `pop` returns. */
  function Top(s: State, k: nat): Word {
    s.mem[W(s.sp - k)]
  }

  function Drop(s: State, k: nat): State {
    s.(sp := W(s.sp - k))
  }

  function Pop(s: State): State {
    Drop(s, 1)
  }

  lemma DropDrop(s: State, j: nat, k: nat)
    ensures Drop(Drop(s, j), k) == Drop(s, j + k)
    ensures Top(Drop(s, j), k) == Top(s, j + k)
  {
    ModMinus(s.sp, j, k);
  }

  lemma ModMinus(x: int, j: int, k: int)
    ensures W(W(x - j) - k) == W(x - (j + k))
  {
    var q := (x - j) / 0x10000;
    assert x - j == q * 0x10000 + W(x - j);
    assert x - (j + k) == q * 0x10000 + (W(x - j) - k);
  }

  function Write(s: State, a: Word, v: Word): State {
    s.(mem := s.mem[a := v])
  }

  function BaseOf(s: State, b: Base): Word {
    match b
    case Frame => s.ap
    case Local => s.bp
    case Stack => s.sp
    case Zero => 0
  }

  function AddressOf(s: State, b: Base, imm: Word): Word {
    W(BaseOf(s, b) + imm)
  }

  // ----- values -----

  function Signed(x: Word): int {
    if x < 0x8000 then x else x - 0x10000
  }

  function AluWord(op: AluOp, x: Word, y: Word): Word {
    match op
    case Add => W(x + y)
    case Sub => W(x - y)
    case Logic(o) => BitWord(o, x, y)
  }

  /** The two-word instructions: the operation on the joined values, mod 2^32. */
  function AluDword(op: AluOp, x: nat, y: nat): int {
    match op
    case Add => x + y
    case Sub => x - y
    case Logic(o) => Bits(o, x, y, 32)
  }

  predicate Holds(c: Cond, x: Word, y: Word) {
    match c
    case Eq => Signed(x) == Signed(y)
    case Ne => Signed(x) != Signed(y)
    case Ge => Signed(x) >= Signed(y)
    case Gt => Signed(x) > Signed(y)
    case Le => Signed(x) <= Signed(y)
    case Lt => Signed(x) < Signed(y)
    case UGe => x >= y
    case UGt => x > y
    case ULe => x <= y
    case ULt => x < y
  }

  // ----- instructions that fall through -----

  function Push2(s: State, v: int): State {
    Push(Push(s, Low(v)), High(v))
  }

  /** The effect of an instruction that does not change the flow of control. */
  function Step(i: Instr, s: State): State {
    match i
    case Address(b, imm) => Push(s, AddressOf(s, b, imm))
    case LoadAt(b, imm) => Push(s, s.mem[AddressOf(s, b, imm)])
    case Indir => Push(Pop(s), s.mem[Top(s, 1)])
    case Indir2 => Push(Push(Pop(s), s.mem[Top(s, 1)]), Second(s))
    case Alu(op) => Push(Drop(s, 2), AluWord(op, Top(s, 2), Top(s, 1)))
    case AluImm(op, imm) => Push(Pop(s), AluWord(op, Top(s, 1), imm))
    case Alu2(op) =>
      Push2(Drop(s, 4), AluDword(op, Join(Top(s, 4), Top(s, 3)), Join(Top(s, 2), Top(s, 1))))
    case Shl => Push(Pop(s), W(2 * Top(s, 1)))
    case Shr => Push(Pop(s), Top(s, 1) / 2)
    case Discard(imm) => Drop(s, imm)
    case Alloc(imm) => s.(sp := W(s.sp + imm))
    case Store => Write(Drop(s, 2), Top(s, 2), Top(s, 1))
    case Store2 => Write(Write(Drop(s, 3), Top(s, 3), Top(s, 2)), W(Top(s, 3) + 1), Top(s, 1))
    case RStore => Write(Drop(s, 2), Top(s, 1), Top(s, 2))
    case RStore2 => Write(Write(Drop(s, 3), Top(s, 1), Top(s, 3)), W(Top(s, 1) + 1), Top(s, 2))
    case Dup => Push(s, Top(s, 1))
    case _ => s
  }

  lemma StepNop(s: State)
    ensures Step(Nop, s) == s
  {
  }

  /** The second word `indir2` reads: after the first result word has been pushed. */
  function Second(s: State): Word {
    Push(Pop(s), s.mem[Top(s, 1)]).mem[W(Top(s, 1) + 1)]
  }

  // ----- the program counter -----

  function HighPC(pc: nat): Word {
    W(pc / 8)
  }

  function MPC(pc: nat): Word {
    pc % 8
  }

  function SetHighPC(pc: nat, v: Word): nat {
    pc % 8 + v * 8
  }

  function SetMPC(pc: nat, v: Word): nat {
    ResetMPC(pc) + v % 8
  }

  /** `PC & (0xffff * code_block_size)`. */
  function ResetMPC(pc: nat): nat {
    pc % 0x80000 / 8 * 8
  }

  /** A block address with position 0: where taken branches, jumps and calls continue. */
  function GoTo(pc: nat, target: Word): (r: nat)
    ensures r == 8 * target
  {
    ResetMPC(SetHighPC(pc, target))
  }

  /** The frame a call pushes: k result words, then PC high and low part, AP and BP. */
  function Enter(s: State, k: nat, pc: nat): State {
    var s1 := Push(Push(Push(Push(s.(sp := W(s.sp + k)), HighPC(pc)), MPC(pc)), s.ap), s.bp);
    s1.(ap := s1.bp, bp := s1.sp)
  }

  function Leave(s: State): State {
    s.(sp := W(s.bp - 4), bp := s.mem[W(s.bp - 1)], ap := s.mem[W(s.bp - 2)])
  }

  function ReturnPC(s: State, pc: nat): nat {
    SetHighPC(SetMPC(pc, s.mem[W(s.bp - 3)]), s.mem[W(s.bp - 4)])
  }

  /** One instruction of `words` code words, control transfers included. */
  function Next(i: Instr, words: nat, s: State, pc: nat): (State, nat) {
    var pc1 := pc + words;
    match i
    case Branch(c, t) => (Drop(s, 2), if Holds(c, Top(s, 2), Top(s, 1)) then GoTo(pc1, t) else pc1)
    case CallTop(k) => (Enter(Pop(s), k, pc1), GoTo(pc1, Top(s, 1)))
    case CallTo(k, t) => (Enter(s, k, pc1), GoTo(pc1, t))
    case Ret => (Leave(s), ReturnPC(s, pc1))
    case JumpTop => (Pop(s), GoTo(pc1, Top(s, 1)))
    case JumpTo(t) => (s, GoTo(pc1, t))
    case _ => (Step(i, s), pc1)
  }

  // ----- the simulator's object -----

  class Cpu {
    var sp: Word
    var bp: Word
    var ap: Word
    var pc: nat
    const mem: array<Word>

    ghost predicate Valid()
      reads this
    {
      mem.Length == 0x10000
    }

    function Snapshot(): State
      requires Valid()
      reads this, mem
    {
      State(sp, bp, ap, mem[..])
    }

    method PushWord(val: Word)
      requires Valid()
      modifies this`sp, mem
      ensures Valid() && Snapshot() == Push(old(Snapshot()), val)
    {
      mem[sp] := val;
      sp := W(sp + 1);
    }

    method PopWord() returns (val: Word)
      requires Valid()
      modifies this`sp
      ensures Valid() && Snapshot() == Pop(old(Snapshot())) && val == Top(old(Snapshot()), 1)
    {
      sp := W(sp - 1);
      val := mem[sp];
    }

    method WriteWord(a: Word, val: Word)
      requires Valid()
      modifies mem
      ensures Valid() && Snapshot() == Write(old(Snapshot()), a, val)
    {
      mem[a] := val;
    }

    method BaseAddress(b: Base, imm: Word) returns (a: Word)
      requires Valid()
      ensures a == AddressOf(Snapshot(), b, imm)
    {
      a := W((match b case Frame => ap case Local => bp case Stack => sp case Zero => 0) + imm);
    }

    method Jump(target: Word)
      modifies this`pc
      ensures pc == GoTo(old(pc), target)
    {
      pc := SetHighPC(pc, target);
      pc := ResetMPC(pc);
    }

    method ExecuteCall(k: nat, target: Word)
      requires Valid()
      modifies this, mem
      ensures Valid()
      ensures Snapshot() == Enter(old(Snapshot()), k, old(pc)) && pc == GoTo(old(pc), target)
    {
      hide W, HighPC, MPC, GoTo;
      sp := W(sp + k);
      PushWord(HighPC(pc));
      PushWord(MPC(pc));
      PushWord(ap);
      PushWord(bp);
      ap := bp;
      bp := sp;
      Jump(target);
    }

    method ExecuteRet()
      requires Valid()
      modifies this
      ensures Valid()
      ensures Snapshot() == Leave(old(Snapshot())) && pc == ReturnPC(old(Snapshot()), old(pc))
    {
      hide W, SetMPC, SetHighPC;
      ghost var s := Snapshot().(sp := bp);
      DropDrop(s, 1, 1);
      DropDrop(s, 2, 1);
      DropDrop(s, 3, 1);
      sp := bp;
      var v := PopWord();
      bp := v;
      v := PopWord();
      ap := v;
      v := PopWord();
      pc := SetMPC(pc, v);
      v := PopWord();
      pc := SetHighPC(pc, v);
    }

    method ExecuteAlu(i: Instr)
      requires Valid() && (i.Alu? || i.AluImm? || i.Alu2? || i.Shl? || i.Shr?)
      modifies this`sp, mem
      ensures Valid() && Snapshot() == Step(i, old(Snapshot()))
    {
      hide W, AluWord, AluDword;
      ghost var s := Snapshot();
      DropDrop(s, 1, 1);
      DropDrop(s, 2, 1);
      DropDrop(s, 3, 1);
      match i
      case Alu(op) =>
        var ra := PopWord();
        var rb := PopWord();
        PushWord(AluWord(op, rb, ra));
      case AluImm(op, imm) =>
        var ra := PopWord();
        PushWord(AluWord(op, ra, imm));
      case Alu2(op) =>
        var ah := PopWord();
        var al := PopWord();
        var bh := PopWord();
        var bl := PopWord();
        var res := AluDword(op, Join(bl, bh), Join(al, ah));
        PushWord(Low(res));
        PushWord(High(res));
      case Shl =>
        var v: int := PopWord();
        PushWord(W(2 * v));
      case Shr =>
        var v := PopWord();
        PushWord(v / 2);
    }

    method ExecuteLoad(i: Instr)
      requires Valid() && (i.Address? || i.LoadAt? || i.Indir?)
      modifies this`sp, mem
      ensures Valid() && Snapshot() == Step(i, old(Snapshot()))
    {
      hide W;
      match i
      case Address(b, imm) =>
        var a := BaseAddress(b, imm);
        PushWord(a);
      case LoadAt(b, imm) =>
        var a := BaseAddress(b, imm);
        PushWord(mem[a]);
      case Indir =>
        var a := PopWord();
        PushWord(mem[a]);
    }

    method ExecuteIndir2()
      requires Valid()
      modifies this`sp, mem
      ensures Valid() && Snapshot() == Step(Indir2, old(Snapshot()))
    {
      hide W;
      var a: int := PopWord();
      PushWord(mem[a]);
      PushWord(mem[W(a + 1)]);
    }

    method ExecuteDup()
      requires Valid()
      modifies this`sp, mem
      ensures Valid() && Snapshot() == Step(Dup, old(Snapshot()))
    {
      var v := PopWord();
      PushWord(v);
      assert mem[..] == old(mem[..]);
      PushWord(v);
    }

    method ExecuteStore(i: Instr)
      requires Valid() && (i.Store? || i.RStore? || i.Discard? || i.Alloc?)
      modifies this`sp, mem
      ensures Valid() && Snapshot() == Step(i, old(Snapshot()))
    {
      hide W;
      DropDrop(Snapshot(), 1, 1);
      match i
      case Store =>
        var val := PopWord();
        var target := PopWord();
        WriteWord(target, val);
      case RStore =>
        var target := PopWord();
        var val := PopWord();
        WriteWord(target, val);
      case Discard(imm) =>
        sp := W(sp - imm);
      case Alloc(imm) =>
        sp := W(sp + imm);
    }

    method ExecuteStore2(i: Instr)
      requires Valid() && (i.Store2? || i.RStore2?)
      modifies this`sp, mem
      ensures Valid() && Snapshot() == Step(i, old(Snapshot()))
    {
      hide W;
      DropDrop(Snapshot(), 1, 1);
      DropDrop(Snapshot(), 2, 1);
      match i
      case Store2 =>
        var valh := PopWord();
        var vall := PopWord();
        var target: int := PopWord();
        WriteWord(target, vall);
        WriteWord(W(target + 1), valh);
      case RStore2 =>
        var target: int := PopWord();
        var valh := PopWord();
        var vall := PopWord();
        WriteWord(target, vall);
        WriteWord(W(target + 1), valh);
    }

    /** Branches, jumps, calls and returns; `pc` is already behind the instruction. */
    method ExecuteControl(i: Instr, ghost words: nat, ghost pc0: nat)
      requires Valid() && pc == pc0 + words
      requires i.Branch? || i.CallTop? || i.CallTo? || i.Ret? || i.JumpTop? || i.JumpTo?
      modifies this, mem
      ensures Valid()
      ensures (Snapshot(), pc) == Next(i, words, old(Snapshot()), pc0)
    {
      hide Step, Enter, Leave, ReturnPC, GoTo, Holds, W;
      DropDrop(Snapshot(), 1, 1);
      match i
      case Branch(c, t) =>
        var v2 := PopWord();
        var v1 := PopWord();
        if Holds(c, v1, v2) {
          Jump(t);
        }
      case CallTop(k) =>
        var target := PopWord();
        ExecuteCall(k, target);
      case CallTo(k, t) =>
        ExecuteCall(k, t);
      case Ret =>
        ExecuteRet();
      case JumpTop =>
        var target := PopWord();
        Jump(target);
      case JumpTo(t) =>
        Jump(t);
    }

    /** `execute`, after the instruction and its operand have been fetched. */
    method Execute(i: Instr, words: nat)
      requires Valid()
      modifies this, mem
      ensures Valid()
      ensures (Snapshot(), pc) == Next(i, words, old(Snapshot()), old(pc))
    {
      StepNop(Snapshot());
      hide Step, Enter, Leave, ReturnPC, GoTo, Holds, W, Drop, Top;
      ghost var pc0 := pc;
      pc := pc + words;
      if i.Branch? || i.CallTop? || i.CallTo? || i.Ret? || i.JumpTop? || i.JumpTo? {
        ExecuteControl(i, words, pc0);
      } else if i.Alu? || i.AluImm? || i.Alu2? || i.Shl? || i.Shr? {
        ExecuteAlu(i);
      } else if i.Nop? {
        // nothing to do
      } else if i.Address? || i.LoadAt? || i.Indir? {
        ExecuteLoad(i);
      } else if i.Indir2? {
        ExecuteIndir2();
      } else if i.Dup? {
        ExecuteDup();
      } else if i.Store2? || i.RStore2? {
        ExecuteStore2(i);
      } else {
        ExecuteStore(i);
      }
    }
  }
}

/** Calls nest: the frame pushed by `call0`, `call1`, `call2` and taken down by `ret`
    (sim/sim.cpp:652-732), the result words `genRet` stores (binutils/trans2.cpp:138-151), and the
    argument area shared by caller and callee (binutils/trans2.cpp:419-447, lcc/src/xbytecode.c). */
module Calls {
  import opened Words
  import opened Sim
  import opened Trans2

  /** An activation: plain instructions, and calls whose bodies are activations themselves.  `words`
      is the length of an instruction in code words. */
  datatype Item =
    | Do(i: Instr, words: nat)
    | Invoke(call: Instr, words: nat, body: seq<Item>)

  predicate Plain(i: Instr) {
    !i.CallTop? && !i.CallTo? && !i.Ret?
  }

  predicate IsCall(i: Instr) {
    i.CallTop? || i.CallTo?
  }

  /** Running an activation; a call runs its body and then the callee's `ret`. */
  function Run(items: seq<Item>, s: State, pc: nat): (State, nat)
    decreases items
  {
    if items == [] then (s, pc)
    else
      var r := RunItem(items[0], s, pc);
      Run(items[1..], r.0, r.1)
  }

  function RunItem(it: Item, s: State, pc: nat): (State, nat)
    decreases it
  {
    match it
    case Do(i, words) => Next(i, words, s, pc)
    case Invoke(call, words, body) =>
      var entered := Next(call, words, s, pc);
      var done := Run(body, entered.0, entered.1);
      Next(Ret, 1, done.0, done.1)
  }

  /** The addresses an instruction writes. */
  function Writes(i: Instr, s: State): set<int> {
    match i
    case Store => {Top(s, 2)}
    case Store2 => {Top(s, 3), W(Top(s, 3) + 1)}
    case RStore => {Top(s, 1)}
    case RStore2 => {Top(s, 1), W(Top(s, 1) + 1)}
    case _ => {}
  }

  /** Words pushed on top of what an instruction pops. */
  function Pops(i: Instr): nat {
    match i
    case Indir => 1
    case Indir2 => 1
    case Alu(_) => 2
    case AluImm(_, _) => 1
    case Alu2(_) => 4
    case Shl => 1
    case Shr => 1
    case Branch(_, _) => 2
    case JumpTop => 1
    case Discard(imm) => imm
    case Store => 2
    case Store2 => 3
    case RStore => 2
    case RStore2 => 3
    case Dup => 1
    case _ => 0
  }

  function Grows(i: Instr): nat {
    match i
    case Address(_, _) => 1
    case LoadAt(_, _) => 1
    case Indir2 => 2
    case Alloc(imm) => imm
    case Dup => 2
    case _ => 1
  }

  /** The saved words of the frame whose base is bp. */
  function SavedWords(bp: int): set<int> {
    {bp - 4, bp - 3, bp - 2, bp - 1}
  }

  /** The activation stays above `base`, does not run off the end of memory, and neither it
      nor anything it calls stores into a guarded word; each call adds its own saved words. */
  ghost predicate Behaves(items: seq<Item>, s: State, pc: nat, guard: set<int>, base: int)
    decreases items
  {
    items != [] ==>
      && ItemBehaves(items[0], s, pc, guard, base)
      && var r := RunItem(items[0], s, pc);
         Behaves(items[1..], r.0, r.1, guard, base)
  }

  ghost predicate ItemBehaves(it: Item, s: State, pc: nat, guard: set<int>, base: int)
    decreases it
  {
    match it
    case Do(i, _) =>
      && Plain(i)
      && base + Pops(i) <= s.sp && s.sp + Grows(i) <= 0xffff
      && Writes(i, s) !! guard
    case Invoke(call, words, body) =>
      && IsCall(call) && call.k <= 2
      && (call.CallTop? ==> base + 1 <= s.sp)
      && s.sp + call.k + 4 <= 0xffff
      && pc + words < 0x80000
      && var entered := Next(call, words, s, pc);
         Behaves(body, entered.0, entered.1, guard + SavedWords(entered.0.bp), entered.0.bp)
  }

  /** Guarded words lie below `base`, the lowest word of the evaluation stack, which lies between the
      frame base and the stack pointer. */
  ghost predicate Guarded(s: State, guard: set<int>, base: int) {
    && s.bp <= base <= s.sp
    && forall a | a in guard :: 0 <= a < base
  }

  ghost predicate Keeps(s: State, t: State, guard: set<int>) {
    forall a: Word | a in guard :: t.mem[a] == s.mem[a]
  }

  // ----- one instruction -----

  lemma PushKeeps(s: State, v: Word, guard: set<int>, base: int)
    requires Guarded(s, guard, base) && s.sp < 0xffff
    ensures Guarded(Push(s, v), guard, base) && Keeps(s, Push(s, v), guard) && Push(s, v).sp == s.sp + 1
  {
  }

  lemma DropKeeps(s: State, k: nat, guard: set<int>, base: int)
    requires Guarded(s, guard, base) && base + k <= s.sp
    ensures Guarded(Drop(s, k), guard, base) && Keeps(s, Drop(s, k), guard) && Drop(s, k).sp == s.sp - k
  {
  }

  lemma WriteKeeps(s: State, a: Word, v: Word, guard: set<int>, base: int)
    requires Guarded(s, guard, base) && a !in guard
    ensures Guarded(Write(s, a, v), guard, base) && Keeps(s, Write(s, a, v), guard)
  {
  }

  lemma KeepsTrans(s: State, t: State, u: State, guard: set<int>)
    requires Keeps(s, t, guard) && Keeps(t, u, guard)
    ensures Keeps(s, u, guard)
  {
  }

  lemma ReplaceKeeps(s: State, k: nat, v: Word, guard: set<int>, base: int)
    requires Guarded(s, guard, base) && 1 <= k && base + k <= s.sp
    ensures Guarded(Push(Drop(s, k), v), guard, base) && Keeps(s, Push(Drop(s, k), v), guard)
    ensures Push(Drop(s, k), v).sp == s.sp - k + 1
  {
    DropKeeps(s, k, guard, base);
    PushKeeps(Drop(s, k), v, guard, base);
  }

  lemma StackStepKeeps(i: Instr, s: State, guard: set<int>, base: int)
    requires i.Address? || i.LoadAt? || i.Indir? || i.Indir2? || i.Dup? || i.Discard? || i.Alloc?
    requires Guarded(s, guard, base) && base + Pops(i) <= s.sp && s.sp + Grows(i) <= 0xffff
    ensures Guarded(Step(i, s), guard, base) && Keeps(s, Step(i, s), guard)
  {
    hide Keeps, Guarded, Push, Drop, W, Top;
    match i
    case Address(b, imm) => PushKeeps(s, AddressOf(s, b, imm), guard, base);
    case LoadAt(b, imm) => PushKeeps(s, s.mem[AddressOf(s, b, imm)], guard, base);
    case Indir => ReplaceKeeps(s, 1, s.mem[Top(s, 1)], guard, base);
    case Indir2 =>
      ReplaceKeeps(s, 1, s.mem[Top(s, 1)], guard, base);
      var t := Push(Pop(s), s.mem[Top(s, 1)]);
      PushKeeps(t, Second(s), guard, base);
      KeepsTrans(s, t, Push(t, Second(s)), guard);
    case Dup => PushKeeps(s, Top(s, 1), guard, base);
    case Discard(imm) => DropKeeps(s, imm, guard, base);
    case Alloc(imm) => AllocKeeps(s, imm, guard, base);
  }

  lemma AllocKeeps(s: State, imm: Word, guard: set<int>, base: int)
    requires Guarded(s, guard, base) && s.sp + imm <= 0xffff
    ensures Guarded(Step(Alloc(imm), s), guard, base) && Keeps(s, Step(Alloc(imm), s), guard)
  {
  }

  lemma AluStepKeeps(i: Instr, s: State, guard: set<int>, base: int)
    requires i.Alu? || i.AluImm? || i.Alu2? || i.Shl? || i.Shr?
    requires Guarded(s, guard, base) && base + Pops(i) <= s.sp
    ensures Guarded(Step(i, s), guard, base) && Keeps(s, Step(i, s), guard)
  {
    hide Keeps, Guarded, Push, Drop, W, Top, AluWord, AluDword, Low, High, Join;
    match i
    case Alu(op) => ReplaceKeeps(s, 2, AluWord(op, Top(s, 2), Top(s, 1)), guard, base);
    case AluImm(op, imm) => ReplaceKeeps(s, 1, AluWord(op, Top(s, 1), imm), guard, base);
    case Alu2(op) =>
      var v := AluDword(op, Join(Top(s, 4), Top(s, 3)), Join(Top(s, 2), Top(s, 1)));
      ReplaceKeeps(s, 4, Low(v), guard, base);
      var t := Push(Drop(s, 4), Low(v));
      PushKeeps(t, High(v), guard, base);
      KeepsTrans(s, t, Push(t, High(v)), guard);
    case Shl => ReplaceKeeps(s, 1, W(2 * Top(s, 1)), guard, base);
    case Shr => ReplaceKeeps(s, 1, Top(s, 1) / 2, guard, base);
  }

  lemma StoreStepKeeps(i: Instr, s: State, guard: set<int>, base: int)
    requires i.Store? || i.Store2? || i.RStore? || i.RStore2?
    requires Guarded(s, guard, base) && base + Pops(i) <= s.sp && Writes(i, s) !! guard
    ensures Guarded(Step(i, s), guard, base) && Keeps(s, Step(i, s), guard)
  {
    hide Keeps, Guarded, Drop, W, Top, Write;
    DropKeeps(s, Pops(i), guard, base);
    var t := Drop(s, Pops(i));
    match i
    case Store =>
      WriteKeeps(t, Top(s, 2), Top(s, 1), guard, base);
      KeepsTrans(s, t, Step(i, s), guard);
    case RStore =>
      WriteKeeps(t, Top(s, 1), Top(s, 2), guard, base);
      KeepsTrans(s, t, Step(i, s), guard);
    case Store2 => Write2Keeps(s, t, Top(s, 3), Top(s, 2), Top(s, 1), guard, base);
    case RStore2 => Write2Keeps(s, t, Top(s, 1), Top(s, 3), Top(s, 2), guard, base);
  }

  lemma Write2Keeps(s: State, t: State, a: Word, low: Word, high: Word, guard: set<int>, base: int)
    requires Guarded(t, guard, base) && Keeps(s, t, guard) && a !in guard && W(a + 1) !in guard
    ensures var u := Write(Write(t, a, low), W(a + 1), high); Guarded(u, guard, base) && Keeps(s, u, guard)
  {
    hide Keeps, Guarded, W, Write;
    WriteKeeps(t, a, low, guard, base);
    WriteKeeps(Write(t, a, low), W(a + 1), high, guard, base);
    KeepsTrans(s, t, Write(t, a, low), guard);
    KeepsTrans(s, Write(t, a, low), Write(Write(t, a, low), W(a + 1), high), guard);
  }

  lemma RegistersKept(i: Instr, words: nat, s: State, pc: nat)
    requires Plain(i)
    ensures Next(i, words, s, pc).0.bp == s.bp && Next(i, words, s, pc).0.ap == s.ap
  {
  }

  /** A plain instruction leaves BP, AP and every guarded word alone. */
  lemma {:induction false} DoKeeps(i: Instr, words: nat, s: State, pc: nat, guard: set<int>, base: int)
    requires Guarded(s, guard, base) && ItemBehaves(Do(i, words), s, pc, guard, base)
    ensures var t := Next(i, words, s, pc).0;
            Guarded(t, guard, base) && Keeps(s, t, guard) && t.bp == s.bp && t.ap == s.ap
  {
    RegistersKept(i, words, s, pc);
    hide Keeps, Guarded, Step, Writes;
    if i.Branch? || i.JumpTop? {
      DropKeeps(s, Pops(i), guard, base);
    } else if i.JumpTo? || i.Nop? {
      StepNop(s);
      JumpKeeps(s, guard);
    } else if i.Alu? || i.AluImm? || i.Alu2? || i.Shl? || i.Shr? {
      AluStepKeeps(i, s, guard, base);
    } else if i.Store? || i.Store2? || i.RStore? || i.RStore2? {
      StoreStepKeeps(i, s, guard, base);
    } else {
      StackStepKeeps(i, s, guard, base);
    }
  }

  lemma JumpKeeps(s: State, guard: set<int>)
    ensures Keeps(s, s, guard)
  {
  }

  // ----- calls -----

  /** What a call leaves in its frame. */
  lemma EnterFrame(s: State, k: nat, pc: nat)
    requires k <= 2 && s.sp + k + 4 <= 0xffff
    ensures var t := Enter(s, k, pc);
            && t.bp == t.sp == s.sp + k + 4 && t.ap == s.bp
            && t.mem[t.bp - 4] == HighPC(pc) && t.mem[t.bp - 3] == MPC(pc)
            && t.mem[t.bp - 2] == s.ap && t.mem[t.bp - 1] == s.bp
            && (forall a: Word | a < s.sp + k :: t.mem[a] == s.mem[a])
  {
    hide HighPC, MPC;
    var n := s.sp + k;
    var s0 := s.(sp := W(n));
    assert s0.sp == n;
    var s1 := Push(s0, HighPC(pc));
    var s2 := Push(s1, MPC(pc));
    var s3 := Push(s2, s2.ap);
    var s4 := Push(s3, s3.bp);
    assert Enter(s, k, pc) == s4.(ap := s4.bp, bp := s4.sp) by { Pushes(s0, HighPC(pc)); Pushes(s1, MPC(pc)); Pushes(s2, s.ap); }
    hide Enter, W, Push;
    Pushes(s0, HighPC(pc));
    Pushes(s1, MPC(pc));
    Pushes(s2, s2.ap);
    Pushes(s3, s3.bp);
  }

  lemma Pushes(s: State, v: Word)
    requires s.sp < 0xffff
    ensures var t := Push(s, v);
            t.sp == s.sp + 1 && t.bp == s.bp && t.ap == s.ap && t.mem == s.mem[s.sp := v]
  {
  }

  lemma EnterKeeps(s: State, k: nat, pc: nat, guard: set<int>, base: int)
    requires Guarded(s, guard, base) && k <= 2 && s.sp + k + 4 <= 0xffff
    ensures var t := Enter(s, k, pc);
            Guarded(t, guard + SavedWords(t.bp), t.bp) && Keeps(s, t, guard)
  {
    EnterFrame(s, k, pc);
    hide Enter;
  }

  /** The full 19-bit program counter survives the split into block number and position. */
  lemma PCRoundTrip(pc: nat, other: nat)
    requires pc < 0x80000
    ensures SetHighPC(SetMPC(other, MPC(pc)), HighPC(pc)) == pc
  {
    var m: int, h: int := MPC(pc), HighPC(pc);
    assert pc == h * 8 + m;
    var r := other % 0x80000 / 8;
    assert SetMPC(other, m) == r * 8 + m;
  }

  lemma LeaveFrame(t: State, pc: nat, pc0: nat)
    requires 4 <= t.bp && pc0 < 0x80000
    requires t.mem[t.bp - 4] == HighPC(pc0) && t.mem[t.bp - 3] == MPC(pc0)
    ensures var u := Leave(t);
            && u.sp == t.bp - 4 && u.bp == t.mem[t.bp - 1] && u.ap == t.mem[t.bp - 2] && u.mem == t.mem
            && ReturnPC(t, pc) == pc0
  {
    PCRoundTrip(pc0, pc);
  }

  /** Whatever a well-behaved activation does, it ends with BP, AP and the guarded words it started
      with. */
  lemma {:induction false} RunKeeps(items: seq<Item>, s: State, pc: nat, guard: set<int>, base: int)
    requires Guarded(s, guard, base) && Behaves(items, s, pc, guard, base)
    ensures var t := Run(items, s, pc).0;
            Guarded(t, guard, base) && Keeps(s, t, guard) && t.bp == s.bp && t.ap == s.ap
    decreases items, 1
  {
    if items == [] {
    } else {
      var r := RunItem(items[0], s, pc);
      match items[0] {
        case Do(i, words) => DoKeeps(i, words, s, pc, guard, base);
        case Invoke(call, words, body) => CallReturns(call, words, body, s, pc, guard, base);
      }
      hide ItemBehaves;
      RunKeeps(items[1..], r.0, r.1, guard, base);
    }
  }

  /** The main result: a call, its whole body with all the calls nested in it, and the `ret` put
      back AP, BP and the program counter behind the call; the stack is k words higher than before,
      and those k words are what the body left in the words below its saved words. */
  lemma {:induction false} CallReturns(call: Instr, words: nat, body: seq<Item>, s: State, pc: nat, guard: set<int>, base: int)
    requires Guarded(s, guard, base) && ItemBehaves(Invoke(call, words, body), s, pc, guard, base)
    ensures var (t, pc1) := RunItem(Invoke(call, words, body), s, pc);
            var entered := Next(call, words, s, pc);
            var last := Run(body, entered.0, entered.1).0;
            && t.bp == s.bp && t.ap == s.ap && pc1 == pc + words
            && t.sp == s.sp + call.k - (if call.CallTop? then 1 else 0)
            && t.mem == last.mem && last.bp == t.sp + 4
            && Guarded(t, guard, base) && Keeps(s, t, guard)
    decreases body, 2
  {
    hide *;
    CallEntered(call, words, body, s, pc, guard, base);
    RunInvoke(call, words, body, s, pc);
    var entered := Next(call, words, s, pc);
    var done := Run(body, entered.0, entered.1);
    RunKeeps(body, entered.0, entered.1, guard + SavedWords(entered.0.bp), entered.0.bp);
    SavedWordsKept(entered.0, done.0, guard);
    LeaveFrame(done.0, done.1 + 1, pc + words);
    KeepsTrans(s, entered.0, done.0, guard);
    LeaveKeeps(s, done.0, Leave(done.0), guard, base);
  }

  lemma {:induction false} RunInvoke(call: Instr, words: nat, body: seq<Item>, s: State, pc: nat)
    ensures var entered := Next(call, words, s, pc);
            var (last, pc1) := Run(body, entered.0, entered.1);
            RunItem(Invoke(call, words, body), s, pc) == (Leave(last), ReturnPC(last, pc1 + 1))
  {
    hide Run, Leave, ReturnPC;
  }

  lemma {:induction false} CallEntered(call: Instr, words: nat, body: seq<Item>, s: State, pc: nat, guard: set<int>, base: int)
    requires Guarded(s, guard, base) && ItemBehaves(Invoke(call, words, body), s, pc, guard, base)
    ensures var (t, pc1) := Next(call, words, s, pc);
            && t.bp == t.sp == s.sp + call.k + 4 - (if call.CallTop? then 1 else 0) && t.ap == s.bp
            && base + 4 <= t.bp && 4 <= t.bp && pc + words < 0x80000
            && t.mem[t.bp - 4] == HighPC(pc + words) && t.mem[t.bp - 3] == MPC(pc + words)
            && t.mem[t.bp - 2] == s.ap && t.mem[t.bp - 1] == s.bp
            && Guarded(t, guard + SavedWords(t.bp), t.bp) && Keeps(s, t, guard)
            && Behaves(body, t, pc1, guard + SavedWords(t.bp), t.bp)
  {
    var s0 := if call.CallTop? then Pop(s) else s;
    if call.CallTop? {
      DropKeeps(s, 1, guard, base);
    }
    assert Next(call, words, s, pc).0 == Enter(s0, call.k, pc + words);
    hide Behaves, Enter, Keeps, W, Drop, HighPC, MPC;
    EnterFrame(s0, call.k, pc + words);
    EnterKeeps(s0, call.k, pc + words, guard, base);
    hide Guarded;
    if call.CallTop? {
      KeepsTrans(s, s0, Enter(s0, call.k, pc + words), guard);
    }
  }

  lemma LeaveKeeps(s: State, last: State, t: State, guard: set<int>, base: int)
    requires Guarded(s, guard, base) && Keeps(s, last, guard) && t.mem == last.mem
    requires t.bp == s.bp && base <= t.sp
    ensures Guarded(t, guard, base) && Keeps(s, t, guard)
  {
  }

  lemma SavedWordsKept(s: State, t: State, guard: set<int>)
    requires 4 <= s.bp && Keeps(s, t, guard + SavedWords(s.bp))
    ensures t.mem[s.bp - 4] == s.mem[s.bp - 4] && t.mem[s.bp - 3] == s.mem[s.bp - 3]
    ensures t.mem[s.bp - 2] == s.mem[s.bp - 2] && t.mem[s.bp - 1] == s.mem[s.bp - 1]
    ensures Keeps(s, t, guard)
  {
    var b := s.bp;
    assert b - 4 in SavedWords(b) && b - 3 in SavedWords(b) && b - 2 in SavedWords(b) && b - 1 in SavedWords(b);
  }

  // ----- result words -----

  lemma {:induction false} RunAppend(a: seq<Item>, b: seq<Item>, s: State, pc: nat)
    ensures var (t, pc1) := Run(a, s, pc); Run(a + b, s, pc) == Run(b, t, pc1)
    decreases a
  {
    if a == [] {
      assert a + b == b;
    } else {
      var r := RunItem(a[0], s, pc);
      assert (a + b)[1..] == a[1..] + b;
      RunAppend(a[1..], b, r.0, r.1);
    }
  }

  lemma {:induction false} BehavesAppend(a: seq<Item>, b: seq<Item>, s: State, pc: nat, guard: set<int>, base: int)
    ensures var (t, pc1) := Run(a, s, pc);
            Behaves(a + b, s, pc, guard, base) <==>
            Behaves(a, s, pc, guard, base) && Behaves(b, t, pc1, guard, base)
    decreases a
  {
    if a == [] {
      assert a + b == b;
    } else {
      var r := RunItem(a[0], s, pc);
      assert (a + b)[1..] == a[1..] + b;
      BehavesAppend(a[1..], b, r.0, r.1, guard, base);
    }
  }

  /** The instructions `genRet` puts before the `ret`. */
  function ResultStore(size: nat, words: nat): seq<Item> {
    if size == 1 then [Do(Address(Local, 0xfffb), words), Do(RStore, words)]
    else if size == 2 then [Do(Address(Local, 0xfffa), words), Do(RStore2, words)]
    else []
  }

  function Instructions(items: seq<Item>): seq<Instr> {
    seq(|items|, i requires 0 <= i < |items| => if items[i].Do? then items[i].i else items[i].call)
  }

  /** What a list of operations assembles to, when all mnemonics exist. */
  function DecodeAll(env: Env, es: seq<Entry>): Option<seq<Instr>>
    requires forall e | e in es :: !e.isDirective
  {
    if es == [] then Some([])
    else
      var first, rest := Decode(env, es[0]), DecodeAll(env, es[1..]);
      if first.None? || rest.None? then None else Some([first.value] + rest.value)
  }

  lemma {:induction false} DecodeCons(env: Env, e: Entry, i: Instr, es: seq<Entry>, ops: seq<Instr>)
    requires !e.isDirective && Decode(env, e) == Some(i)
    requires forall x | x in es :: !x.isDirective
    requires DecodeAll(env, es) == Some(ops)
    ensures DecodeAll(env, [e] + es) == Some([i] + ops)
  {
    hide Decode;
    assert ([e] + es)[1..] == es;
  }

  lemma RetEntriesDecode(env: Env, size: nat, words: nat)
    ensures DecodeAll(env, RetEntries(size)) == Some(Instructions(ResultStore(size, words)) + [Ret])
  {
    var es := RetEntries(size);
    var last := es[|es| - 1];
    DecodeCons(env, last, Ret, [], []);
    assert [last] + [] == [last] && [Ret] + [] == [Ret];
    if size == 1 || size == 2 {
      var i0, i1 := ResultStore(size, words)[0].i, ResultStore(size, words)[1].i;
      DecodeCons(env, es[1], i1, [last], [Ret]);
      assert [es[1]] + [last] == [es[1], last] && [i1] + [Ret] == [i1, Ret];
      DecodeCons(env, es[0], i0, [es[1], last], [i1, Ret]);
      assert es == [es[0]] + [es[1], last];
      assert [i0] + [i1, Ret] == Instructions(ResultStore(size, words)) + [Ret];
    } else {
      assert es == [last] && Instructions(ResultStore(size, words)) + [Ret] == [Ret];
    }
  }

  lemma {:induction false} ResultStored(size: nat, words: nat, s: State, pc: nat, guard: set<int>)
    requires (size == 1 || size == 2) && 4 + size <= s.bp
    requires Behaves(ResultStore(size, words), s, pc, guard, s.bp)
    ensures var t := Run(ResultStore(size, words), s, pc).0;
            && t.bp == s.bp
            && t.mem[s.bp - 5] == Top(s, 1)
            && (size == 2 ==> t.mem[s.bp - 6] == Top(s, 2))
  {
    ResultItems(size, words, s, pc, guard);
    hide Behaves, ItemBehaves, Run, Top, Step, Push;
    ResultWords(size, s, Push(s, s.bp - 4 - size));
  }

  /** Both items of the store, one after the other. */
  lemma {:induction false} ResultItems(size: nat, words: nat, s: State, pc: nat, guard: set<int>)
    requires (size == 1 || size == 2) && 4 + size <= s.bp
    requires Behaves(ResultStore(size, words), s, pc, guard, s.bp)
    ensures s.bp + size <= s.sp < 0xffff
    ensures Run(ResultStore(size, words), s, pc).0 == Step(if size == 1 then RStore else RStore2, Push(s, s.bp - 4 - size))
  {
    var items, s1 := ResultStore(size, words), Push(s, s.bp - 4 - size);
    LocalAddress(s, size);
    assert items[1..] == [items[1]] && [items[1]][1..] == [];
    hide Push;
    assert RunItem(items[0], s, pc) == (s1, pc + words);
    assert ItemBehaves(items[1], s1, pc + words, guard, s.bp);
    assert s1.sp == s.sp + 1 && s1.bp == s.bp by { Pushes(s, s.bp - 4 - size); }
    assert Run(items, s, pc) == Run([items[1]], s1, pc + words);
    assert Run([items[1]], s1, pc + words) == RunItem(items[1], s1, pc + words);
    hide Step, ItemBehaves, Behaves;
  }

  lemma LocalAddress(s: State, size: nat)
    requires (size == 1 || size == 2) && 4 + size <= s.bp
    ensures AddressOf(s, Local, ResultStore(size, 0)[0].i.imm) == s.bp - 4 - size
  {
  }

  lemma ResultWords(size: nat, s: State, s1: State)
    requires (size == 1 || size == 2) && 4 + size <= s.bp && s.bp + size <= s.sp < 0xffff
    requires s1 == Push(s, s.bp - 4 - size)
    ensures var t := Step(if size == 1 then RStore else RStore2, s1);
            && t.bp == s.bp
            && t.mem[s.bp - 5] == Top(s, 1)
            && (size == 2 ==> t.mem[s.bp - 6] == Top(s, 2))
  {
    assert s1.sp == s.sp + 1;
    assert Top(s1, 1) == s.bp - 4 - size;
    assert Top(s1, 2) == Top(s, 1) && Top(s1, 3) == Top(s, 2);
    if size == 1 {
      ResultOne(s1);
    } else {
      ResultTwo(s1);
    }
    hide Step, Top, Push;
  }

  lemma ResultOne(s: State)
    ensures Step(RStore, s).bp == s.bp && Step(RStore, s).mem == s.mem[Top(s, 1) := Top(s, 2)]
  {
    hide Top;
  }

  lemma ResultTwo(s: State)
    requires Top(s, 1) < 0xffff
    ensures Step(RStore2, s).bp == s.bp && Step(RStore2, s).mem == s.mem[Top(s, 1) := Top(s, 3)][Top(s, 1) + 1 := Top(s, 2)]
  {
    hide Top;
  }

  /** The result words a function leaves on its stack before its `RET` are on top of the caller's
      stack after the call. */
  lemma {:induction false} ResultDelivered(call: Instr, words: nat, body: seq<Item>, w: nat, s: State, pc: nat, guard: set<int>, base: int)
    requires (call.CallTop? || call.CallTo?) && (call.k == 1 || call.k == 2)
    requires Guarded(s, guard, base) && 0 <= base
    requires ItemBehaves(Invoke(call, words, body + ResultStore(call.k, w)), s, pc, guard, base)
    ensures var (t, pc1) := RunItem(Invoke(call, words, body + ResultStore(call.k, w)), s, pc);
            var entered := Next(call, words, s, pc);
            var last := Run(body, entered.0, entered.1).0;
            && pc1 == pc + words
            && Top(t, 1) == Top(last, 1) && (call.k == 2 ==> Top(t, 2) == Top(last, 2))
  {
    hide *;
    var whole := body + ResultStore(call.k, w);
    var entered := Next(call, words, s, pc);
    var last := Run(body, entered.0, entered.1);
    var inner := guard + SavedWords(entered.0.bp);
    var t := RunItem(Invoke(call, words, whole), s, pc).0;
    CallEntered(call, words, whole, s, pc, guard, base);
    CallReturns(call, words, whole, s, pc, guard, base);
    RunAppend(body, ResultStore(call.k, w), entered.0, entered.1);
    BehavesAppend(body, ResultStore(call.k, w), entered.0, entered.1, inner, entered.0.bp);
    RunKeeps(body, entered.0, entered.1, inner, entered.0.bp);
    EnoughBelow(call, words, whole, s, pc, guard, base);
    ResultStored(call.k, w, last.0, last.1, inner);
    TopOf(t);
  }

  lemma {:induction false} EnoughBelow(call: Instr, words: nat, body: seq<Item>, s: State, pc: nat, guard: set<int>, base: int)
    requires Guarded(s, guard, base) && 0 <= base
    requires ItemBehaves(Invoke(call, words, body), s, pc, guard, base)
    ensures Next(call, words, s, pc).0.bp >= call.k + 4
  {
    hide Behaves;
    CallEntered(call, words, body, s, pc, guard, base);
  }

  lemma TopOf(t: State)
    ensures t.sp >= 1 ==> Top(t, 1) == t.mem[t.sp - 1]
    ensures t.sp >= 2 ==> Top(t, 2) == t.mem[t.sp - 2]
  {
  }

  // ----- arguments -----

  /** An argument expression and its `ARG` line. */
  datatype Arg = Arg(code: seq<Item>, size: nat)

  predicate ArgSizes(args: seq<Arg>) {
    forall a | a in args :: a.size == 1 || a.size == 2
  }

  /** The two instructions of an `ARG` line at position cArg of the argument area. */
  function ArgStore(size: nat, cArg: nat, words: nat): seq<Item> {
    [Do(Address(Local, W(cArg)), words), Do(if size == 1 then RStore else RStore2, words)]
  }

  lemma ArgEntriesDecode(env: Env, size: nat, nArgs: nat, cArg: nat, words: nat)
    requires size == 1 || size == 2
    ensures DecodeAll(env, Emitted(LArg(size), nArgs, cArg)) == Some(Instructions(ArgStore(size, cArg, words)))
  {
    var es := Emitted(LArg(size), nArgs, cArg);
    var i0, i1 := ArgStore(size, cArg, words)[0].i, ArgStore(size, cArg, words)[1].i;
    DecodeCons(env, es[1], i1, [], []);
    assert [es[1]] + [] == [es[1]] && [i1] + [] == [i1];
    DecodeCons(env, es[0], i0, [es[1]], [i1]);
    assert es == [es[0]] + [es[1]];
    assert [i0] + [i1] == Instructions(ArgStore(size, cArg, words));
  }

  function PassAll(args: seq<Arg>, cArg: nat, w: nat): seq<Item> {
    if args == [] then []
    else args[0].code + ArgStore(args[0].size, cArg, w) + PassAll(args[1..], cArg + args[0].size, w)
  }

  /** The words of an argument on top of the stack, low word first. */
  function TopWords(s: State, size: nat): seq<Word> {
    if size == 1 then [Top(s, 1)] else [Top(s, 2), Top(s, 1)]
  }

  /** The argument words in order, each taken when its expression has just been evaluated. */
  function ArgWords(args: seq<Arg>, cArg: nat, w: nat, s: State, pc: nat): seq<Word> {
    if args == [] then []
    else
      var valued := Run(args[0].code, s, pc);
      var stored := Run(ArgStore(args[0].size, cArg, w), valued.0, valued.1);
      TopWords(valued.0, args[0].size) + ArgWords(args[1..], cArg + args[0].size, w, stored.0, stored.1)
  }

  /** The first n words of the argument area at bp. */
  function Area(bp: int, n: nat): (r: set<int>)
    ensures forall a :: a in r <==> bp <= a < bp + n
  {
    if n == 0 then {} else Area(bp, n - 1) + {bp + n - 1}
  }

  /** Argument expressions leave the arguments already stored alone. */
  ghost predicate PassBehaves(args: seq<Arg>, cArg: nat, w: nat, s: State, pc: nat, guard: set<int>, base: int) {
    args != [] ==>
      var valued := Run(args[0].code, s, pc);
      var stored := Run(ArgStore(args[0].size, cArg, w), valued.0, valued.1);
      && s.bp + cArg + args[0].size <= base
      && Behaves(args[0].code, s, pc, guard + Area(s.bp, cArg), base)
      && Behaves(ArgStore(args[0].size, cArg, w), valued.0, valued.1, guard + Area(s.bp, cArg), base)
      && PassBehaves(args[1..], cArg + args[0].size, w, stored.0, stored.1, guard, base)
  }

  lemma {:induction false} ArgStored(size: nat, cArg: nat, w: nat, s: State, pc: nat, guard: set<int>, base: int)
    requires (size == 1 || size == 2) && s.bp + cArg + size <= base <= s.sp
    requires Behaves(ArgStore(size, cArg, w), s, pc, guard, base)
    ensures var t := Run(ArgStore(size, cArg, w), s, pc).0;
            t.mem[s.bp + cArg..s.bp + cArg + size] == TopWords(s, size)
  {
    var items := ArgStore(size, cArg, w);
    var a := s.bp + cArg;
    assert ItemBehaves(items[0], s, pc, guard, base);
    assert AddressOf(s, Local, items[0].i.imm) == a by { AddressInArea(s, cArg, a); }
    var s1 := Push(s, a);
    assert RunItem(items[0], s, pc) == (s1, pc + w);
    assert items[1..] == [items[1]];
    assert ItemBehaves(items[1], s1, pc + w, guard, base);
    assert s1.sp == s.sp + 1;
    assert Run([items[1]], s1, pc + w) == RunItem(items[1], s1, pc + w);
    hide Behaves, ItemBehaves, Run, RunItem;
    ArgWordsStored(size, s, s1, a);
  }

  lemma AddressInArea(s: State, cArg: nat, a: int)
    requires a == s.bp + cArg && a < 0x10000
    ensures AddressOf(s, Local, W(cArg)) == a
  {
  }

  lemma ArgWordsStored(size: nat, s: State, s1: State, a: Word)
    requires (size == 1 || size == 2) && a + size <= s.sp < 0xffff
    requires s1 == Push(s, a)
    ensures var t := Step(if size == 1 then RStore else RStore2, s1);
            t.mem[a..a + size] == TopWords(s, size)
  {
    assert s1.sp == s.sp + 1;
    assert Top(s1, 1) == a;
    assert Top(s1, 2) == Top(s, 1) && Top(s1, 3) == Top(s, 2);
    if size == 1 {
      StoredOne(s1, a);
    } else {
      StoredTwo(s1, a);
    }
  }

  lemma StoredOne(s: State, a: Word)
    requires Top(s, 1) == a
    ensures Step(RStore, s).mem[a..a + 1] == [Top(s, 2)]
  {
    hide Top;
  }

  lemma StoredTwo(s: State, a: Word)
    requires Top(s, 1) == a < 0xffff
    ensures Step(RStore2, s).mem[a..a + 2] == [Top(s, 3), Top(s, 2)]
  {
    hide Top;
  }

  lemma {:induction false} KeepsPart(s: State, t: State, guard: set<int>, bp: int, n: nat)
    requires Keeps(s, t, guard + Area(bp, n))
    ensures Keeps(s, t, guard)
    ensures 0 <= bp && bp + n <= 0x10000 ==> s.mem[bp..bp + n] == t.mem[bp..bp + n]
  {
    if 0 <= bp && bp + n <= 0x10000 {
      forall i | bp <= i < bp + n ensures s.mem[i] == t.mem[i] {
        assert i in guard + Area(bp, n);
      }
    }
  }

  lemma {:induction false} GuardMore(s: State, guard: set<int>, base: int, n: nat, m: nat)
    requires Guarded(s, guard + Area(s.bp, n), base) && s.bp + m <= base
    ensures Guarded(s, guard + Area(s.bp, m), base)
  {
  }

  function PassFirst(args: seq<Arg>, cArg: nat, w: nat): seq<Item>
    requires args != []
  {
    args[0].code + ArgStore(args[0].size, cArg, w)
  }

  /** One argument: evaluated, stored behind the earlier ones, which it leaves alone. */
  lemma OneArgument(args: seq<Arg>, cArg: nat, w: nat, s: State, pc: nat, guard: set<int>, base: int)
    requires args != [] && ArgSizes(args) && PassBehaves(args, cArg, w, s, pc, guard, base)
    requires Guarded(s, guard + Area(s.bp, cArg), base)
    ensures var n := args[0].size;
            var valued := Run(args[0].code, s, pc).0;
            var (t, pc1) := Run(PassFirst(args, cArg, w), s, pc);
            && ArgsPassed(s, t, TopWords(valued, n), cArg, guard, base)
            && |TopWords(valued, n)| == n
            && t.bp == s.bp && Guarded(t, guard + Area(s.bp, cArg + n), base) && s.bp + cArg + n <= base
            && PassBehaves(args[1..], cArg + n, w, t, pc1, guard, base)
            && ArgWords(args, cArg, w, s, pc) ==
               TopWords(valued, n) + ArgWords(args[1..], cArg + n, w, t, pc1)
  {
    hide Behaves, Guarded, Keeps, Run, ArgStore, TopWords, Area;
    var n := args[0].size;
    var store := ArgStore(n, cArg, w);
    RunAppend(args[0].code, store, s, pc);
    var valued := Run(args[0].code, s, pc);
    var stored := Run(store, valued.0, valued.1);
    assert args[0] in args;
    TopWordsLength(valued.0, n);
    var inner := guard + Area(s.bp, cArg);
    RunKeeps(args[0].code, s, pc, inner, base);
    RunKeeps(store, valued.0, valued.1, inner, base);
    BaseBound(valued.0, inner, base);
    ArgStored(n, cArg, w, valued.0, valued.1, inner, base);
    KeepsTrans(s, valued.0, stored.0, inner);
    GuardMore(stored.0, guard, base, cArg, cArg + n);
  }

  lemma BaseBound(s: State, guard: set<int>, base: int)
    requires Guarded(s, guard, base)
    ensures s.bp <= base <= s.sp <= 0xffff
  {
  }

  lemma JoinSlices(m: seq<Word>, t: seq<Word>, a: nat, b: nat, c: nat)
    requires a <= b <= c <= |m| == |t| && m[a..b] == t[a..b]
    ensures t[a..c] == m[a..b] + t[b..c]
  {
  }

  /** After all arguments have been passed, the argument area holds their words in order. */
  lemma {:induction false} ArgumentsStored(args: seq<Arg>, cArg: nat, w: nat, s: State, pc: nat, guard: set<int>, base: int)
    requires ArgSizes(args) && PassBehaves(args, cArg, w, s, pc, guard, base)
    requires Guarded(s, guard + Area(s.bp, cArg), base) && s.bp + cArg <= base
    ensures ArgsPassed(s, Run(PassAll(args, cArg, w), s, pc).0, ArgWords(args, cArg, w, s, pc), cArg, guard, base)
    decreases |args|
  {
    hide *;
    if args == [] {
      NoArguments(args, cArg, w, s, pc);
      NonePassed(s, cArg, guard, base);
    } else {
      var n := args[0].size;
      var t := Run(PassFirst(args, cArg, w), s, pc);
      PassAllSplits(args, cArg, w, s, pc);
      OneArgument(args, cArg, w, s, pc, guard, base);
      ArgumentsStored(args[1..], cArg + n, w, t.0, t.1, guard, base);
      var u := Run(PassAll(args[1..], cArg + n, w), t.0, t.1).0;
      var first, ws := TopWords(Run(args[0].code, s, pc).0, n), ArgWords(args[1..], cArg + n, w, t.0, t.1);
      OneMorePassed(s, t.0, u, first, ws, cArg, guard, base);
    }
  }

  /** The words ws are in the argument area from position cArg on, and everything guarded before is
      still guarded. */
  ghost predicate ArgsPassed(s: State, t: State, ws: seq<Word>, cArg: nat, guard: set<int>, base: int) {
    && t.bp == s.bp && t.ap == s.ap && s.bp + cArg + |ws| <= base <= 0xffff
    && Guarded(t, guard + Area(s.bp, cArg + |ws|), base)
    && Keeps(s, t, guard + Area(s.bp, cArg))
    && t.mem[s.bp + cArg..s.bp + cArg + |ws|] == ws
  }

  lemma {:induction false} NonePassed(s: State, cArg: nat, guard: set<int>, base: int)
    requires Guarded(s, guard + Area(s.bp, cArg), base) && s.bp + cArg <= base
    ensures ArgsPassed(s, s, [], cArg, guard, base)
  {
  }

  lemma OneMorePassed(s: State, t: State, u: State, first: seq<Word>, ws: seq<Word>, cArg: nat, guard: set<int>, base: int)
    requires ArgsPassed(s, t, first, cArg, guard, base)
    requires ArgsPassed(t, u, ws, cArg + |first|, guard, base)
    ensures ArgsPassed(s, u, first + ws, cArg, guard, base)
  {
    hide Guarded, Keeps;
    var n := |first|;
    KeptArea(s, t, u, guard, cArg, n);
    JoinSlices(t.mem, u.mem, s.bp + cArg, s.bp + cArg + n, s.bp + cArg + n + |ws|);
  }

  lemma PassAllSplits(args: seq<Arg>, cArg: nat, w: nat, s: State, pc: nat)
    requires args != [] && ArgSizes(args)
    ensures ArgSizes(args[1..])
    ensures var (t, pc1) := Run(PassFirst(args, cArg, w), s, pc);
            Run(PassAll(args, cArg, w), s, pc) == Run(PassAll(args[1..], cArg + args[0].size, w), t, pc1)
  {
    RunAppend(PassFirst(args, cArg, w), PassAll(args[1..], cArg + args[0].size, w), s, pc);
  }

  lemma {:induction false} NoArguments(args: seq<Arg>, cArg: nat, w: nat, s: State, pc: nat)
    requires args == []
    ensures Run(PassAll(args, cArg, w), s, pc) == (s, pc) && ArgWords(args, cArg, w, s, pc) == []
  {
  }

  lemma TopWordsLength(s: State, size: nat)
    requires size == 1 || size == 2
    ensures |TopWords(s, size)| == size
  {
  }

  lemma KeptArea(s: State, t: State, u: State, guard: set<int>, cArg: nat, n: nat)
    requires Keeps(s, t, guard + Area(s.bp, cArg)) && Keeps(t, u, guard + Area(s.bp, cArg + n))
    requires s.bp + cArg + n <= 0xffff
    ensures Keeps(s, u, guard + Area(s.bp, cArg))
    ensures t.mem[s.bp + cArg..s.bp + cArg + n] == u.mem[s.bp + cArg..s.bp + cArg + n]
  {
    forall i | s.bp + cArg <= i < s.bp + cArg + n ensures t.mem[i] == u.mem[i] {
      assert i in Area(s.bp, cArg + n);
    }
  }

  /** The argument words of a call are what the callee reads with `addrf 0`, `addrf 1`, ...; `target`
      is the code that pushes the address to call. */
  lemma CalleeSeesArguments(args: seq<Arg>, target: seq<Item>, call: Instr, words: nat, body: seq<Item>, w: nat,
                            s: State, pc: nat, guard: set<int>, base: int, i: Word)
    requires ArgSizes(args) && PassBehaves(args, 0, w, s, pc, guard, base) && Guarded(s, guard, base)
    requires i < |ArgWords(args, 0, w, s, pc)|
    requires var n := |ArgWords(args, 0, w, s, pc)|;
             var (ready, pc1) := Run(PassAll(args, 0, w), s, pc);
             var (at, pc2) := Run(target, ready, pc1);
             && Behaves(target, ready, pc1, guard + Area(s.bp, n), base)
             && ItemBehaves(Invoke(call, words, body), at, pc2, guard + Area(s.bp, n), base)
    ensures var (ready, pc1) := Run(PassAll(args, 0, w), s, pc);
            var (at, pc2) := Run(target, ready, pc1);
            var entered := Next(call, words, at, pc2).0;
            Step(LoadAt(Frame, i), entered) == Push(entered, ArgWords(args, 0, w, s, pc)[i])
  {
    hide *;
    var ws := ArgWords(args, 0, w, s, pc);
    var (ready, pc1) := Run(PassAll(args, 0, w), s, pc);
    var (at, pc2) := Run(target, ready, pc1);
    var entered := Next(call, words, at, pc2).0;
    var inner := guard + Area(s.bp, |ws|);
    assert Guarded(s, guard + Area(s.bp, 0), base) by { NoArea(s, guard, base); }
    BaseBound(s, guard, base);
    ArgumentsStored(args, 0, w, s, pc, guard, base);
    PassedFacts(s, ready, ws, guard, base);
    RunKeeps(target, ready, pc1, inner, base);
    CallEntered(call, words, body, at, pc2, inner, base);
    KeepsPart(ready, at, guard, s.bp, |ws|);
    KeepsPart(at, entered, guard, s.bp, |ws|);
    LoadArgument(entered, s.bp, ws, i);
  }

  lemma {:induction false} PassedFacts(s: State, t: State, ws: seq<Word>, guard: set<int>, base: int)
    requires ArgsPassed(s, t, ws, 0, guard, base)
    ensures t.bp == s.bp && s.bp + |ws| <= base <= 0xffff && t.mem[s.bp..s.bp + |ws|] == ws
    ensures Guarded(t, guard + Area(s.bp, |ws|), base)
  {
  }

  lemma NoArea(s: State, guard: set<int>, base: int)
    requires Guarded(s, guard, base)
    ensures Guarded(s, guard + Area(s.bp, 0), base)
  {
  }

  lemma LoadArgument(t: State, bp: Word, ws: seq<Word>, i: Word)
    requires i < |ws| && bp + |ws| <= 0x10000 && t.ap == bp && t.mem[bp..bp + |ws|] == ws
    ensures Step(LoadAt(Frame, i), t) == Push(t, ws[i])
  {
    assert t.mem[bp..bp + |ws|][i] == t.mem[bp + i];
  }

  // ----- the size of the argument area -----

  /** Trees as the argument passes see them: every node prints one line after its kids. */
  datatype Tree = NoTree | Node(line: Line, left: Tree, right: Tree)

  function Printed(t: Tree): seq<Line> {
    match t
    case NoTree => []
    case Node(l, a, b) => Printed(a) + Printed(b) + [l]
  }

  function PrintedAll(ts: seq<Tree>): seq<Line> {
    if ts == [] then [] else Printed(ts[0]) + PrintedAll(ts[1..])
  }

  /** `argoffset` and `maxargoffset` after a list of nodes. */
  function Sized(ls: seq<Line>, offset: nat, peak: nat): (nat, nat)
    decreases |ls|
  {
    if ls == [] then (offset, peak)
    else
      var l, rest := ls[|ls| - 1], Sized(ls[..|ls| - 1], offset, peak);
      if l.LArg? then (rest.0 + l.size, rest.1)
      else if l.LCall? then (0, if rest.0 > rest.1 then rest.0 else rest.1)
      else rest
  }

  /** The translator's `cArg` after a list of lines. */
  function Counter(ls: seq<Line>): nat
    decreases |ls|
  {
    if ls == [] then 0 else NextArg(ls[|ls| - 1], Counter(ls[..|ls| - 1]))
  }

  class Backend {
    var argoffset: nat
    var maxargoffset: nat

    method Gen02(l: Line)
      modifies this
      ensures (argoffset, maxargoffset) == Sized([l], old(argoffset), old(maxargoffset))
    {
      assert [l][..0] == [];
      if l.LArg? {
        argoffset := argoffset + l.size;
      } else if l.LCall? {
        maxargoffset := if argoffset > maxargoffset then argoffset else maxargoffset;
        argoffset := 0;
      }
    }

    method Gen01(t: Tree)
      modifies this
      ensures (argoffset, maxargoffset) == Sized(Printed(t), old(argoffset), old(maxargoffset))
      decreases t
    {
      if t.Node? {
        Gen01(t.left);
        Gen01(t.right);
        Gen02(t.line);
        SizedAppend(Printed(t.left), Printed(t.right), old(argoffset), old(maxargoffset));
        SizedAppend(Printed(t.left) + Printed(t.right), [t.line], old(argoffset), old(maxargoffset));
      }
    }

    /** The node pass of `function`, over all trees of a function body. */
    method AreaSize(ts: seq<Tree>) returns (nArgs: nat)
      modifies this
      ensures nArgs == Sized(PrintedAll(ts), 0, 0).1
    {
      argoffset, maxargoffset := 0, 0;
      var i := 0;
      while i < |ts|
        invariant i <= |ts|
        invariant (argoffset, maxargoffset) == Sized(PrintedAll(ts[..i]), 0, 0)
      {
        Gen01(ts[i]);
        SizedAppend(PrintedAll(ts[..i]), Printed(ts[i]), 0, 0);
        PrintedSnoc(ts[..i], ts[i]);
        assert ts[..i + 1] == ts[..i] + [ts[i]];
        i := i + 1;
      }
      assert ts[..i] == ts;
      nArgs := maxargoffset;
    }
  }

  lemma {:induction false} SizedAppend(a: seq<Line>, b: seq<Line>, offset: nat, peak: nat)
    ensures Sized(a + b, offset, peak) == Sized(b, Sized(a, offset, peak).0, Sized(a, offset, peak).1)
    decreases |b|
  {
    if b == [] {
      assert a + b == a;
    } else {
      assert (a + b)[..|a + b| - 1] == a + b[..|b| - 1];
      SizedAppend(a, b[..|b| - 1], offset, peak);
    }
  }

  lemma AppendAssoc<T>(a: seq<T>, b: seq<T>, c: seq<T>)
    ensures a + b + c == a + (b + c)
  {
  }

  lemma {:induction false} PrintedSnoc(ts: seq<Tree>, t: Tree)
    ensures PrintedAll(ts + [t]) == PrintedAll(ts) + Printed(t)
  {
    if ts == [] {
      assert [t][1..] == [];
      assert ts + [t] == [t];
    } else {
      PrintedSnoc(ts[1..], t);
      assert (ts + [t])[1..] == ts[1..] + [t];
      assert PrintedAll(ts + [t]) == Printed(ts[0]) + PrintedAll(ts[1..] + [t]);
      assert PrintedAll(ts) == Printed(ts[0]) + PrintedAll(ts[1..]);
      hide PrintedAll, Printed;
      AppendAssoc(Printed(ts[0]), PrintedAll(ts[1..]), Printed(t));
    }
  }

  lemma {:induction false} SizedIsCounter(ls: seq<Line>)
    ensures Sized(ls, 0, 0).0 == Counter(ls)
    decreases |ls|
  {
    if ls != [] {
      SizedIsCounter(ls[..|ls| - 1]);
    }
  }

  lemma {:induction false} PeakCovers(ls: seq<Line>, i: nat, j: nat)
    requires i < j < |ls| && ls[j].LCall?
    requires forall k | i < k < j :: !ls[k].LCall?
    requires ls[i].LArg?
    ensures Counter(ls[..i]) + ls[i].size <= Sized(ls, 0, 0).1
    decreases |ls|
  {
    var init := ls[..|ls| - 1];
    if j < |ls| - 1 {
      assert init[..i] == ls[..i];
      PeakCovers(init, i, j);
    } else {
      SizedIsCounter(init);
      CounterGrows(init, i, |init|);
      assert init[..|init|] == init && init[..i] == ls[..i];
    }
  }

  /** The translator's counter only grows until the next call. */
  lemma {:induction false} CounterGrows(ls: seq<Line>, i: nat, j: nat)
    requires i < j <= |ls| && ls[i].LArg? && forall k | i < k < j :: !ls[k].LCall?
    ensures Counter(ls[..i]) + ls[i].size <= Counter(ls[..j])
    decreases j
  {
    assert ls[..j][..j - 1] == ls[..j - 1];
    if i + 1 < j {
      CounterGrows(ls, i, j - 1);
    }
  }

  lemma {:induction false} TranslatedSnoc(ls: seq<Line>, l: Line, out: seq<Entry>, nArgs: nat, cArg: nat)
    requires AllAccepted(ls + [l])
    ensures AllAccepted(ls) && Accepted(l)
    ensures TranslatedAll(ls + [l], out, nArgs, cArg) ==
            Translated(l, TranslatedAll(ls, out, nArgs, cArg), nArgs, CounterFrom(ls, cArg))
    decreases |ls|
  {
    assert l in ls + [l];
    assert forall x | x in ls :: x in ls + [l];
    hide Translated, Accepted;
    if ls == [] {
      assert ls + [l] == [l] && [l][1..] == [];
    } else {
      var rest := ls[1..] + [l];
      assert (ls + [l])[1..] == rest;
      assert forall x | x in rest :: x in ls + [l];
      TranslatedSnoc(ls[1..], l, Translated(ls[0], out, nArgs, cArg), nArgs, NextArg(ls[0], cArg));
    }
  }

  /** The `cArg` that `TranslatedAll` carries along. */
  function CounterFrom(ls: seq<Line>, cArg: nat): nat {
    if ls == [] then cArg else CounterFrom(ls[1..], NextArg(ls[0], cArg))
  }

  lemma {:induction false} CounterFromSnoc(ls: seq<Line>, l: Line, cArg: nat)
    ensures CounterFrom(ls + [l], cArg) == NextArg(l, CounterFrom(ls, cArg))
    decreases |ls|
  {
    if ls == [] {
      assert ls + [l] == [l] && [l][1..] == [];
    } else {
      assert (ls + [l])[1..] == ls[1..] + [l];
      CounterFromSnoc(ls[1..], l, NextArg(ls[0], cArg));
    }
  }

  lemma {:induction false} CounterIsCounter(ls: seq<Line>)
    ensures CounterFrom(ls, 0) == Counter(ls)
    decreases |ls|
  {
    if ls != [] {
      var init := ls[..|ls| - 1];
      CounterIsCounter(init);
      CounterFromSnoc(init, ls[|ls| - 1], 0);
      assert ls == init + [ls[|ls| - 1]];
    }
  }

  /** An argument as the compiler prints it: the lines of its expression, then its `ARG` line. */
  datatype ArgText = ArgText(lines: seq<Line>, size: nat)

  function ArgLines(texts: seq<ArgText>): seq<Line> {
    if texts == [] then []
    else ArgLines(texts[..|texts| - 1]) + texts[|texts| - 1].lines + [LArg(texts[|texts| - 1].size)]
  }

  /** Lines without `ARG` leave the counter alone exactly when there is no call among them, or it was 0. */
  lemma {:induction false} CounterThrough(ls: seq<Line>, cArg: nat)
    requires forall l | l in ls :: !l.LArg?
    ensures CounterFrom(ls, cArg) == if exists l :: l in ls && l.LCall? then 0 else cArg
    decreases |ls|
  {
    if ls != [] {
      assert forall l | l in ls[1..] :: l in ls;
      CounterThrough(ls[1..], NextArg(ls[0], cArg));
      assert ls == [ls[0]] + ls[1..];
    }
  }

  lemma {:induction false} CounterAppend(a: seq<Line>, b: seq<Line>, cArg: nat)
    ensures CounterFrom(a + b, cArg) == CounterFrom(b, CounterFrom(a, cArg))
    decreases |a|
  {
    if a == [] {
      assert a + b == b;
    } else {
      assert (a + b)[1..] == a[1..] + b;
      CounterAppend(a[1..], b, NextArg(a[0], cArg));
    }
  }

  function SizeOfAll(args: seq<Arg>): nat {
    if args == [] then 0 else args[0].size + SizeOfAll(args[1..])
  }

  lemma {:induction false} SizeOfAllSnoc(args: seq<Arg>, a: Arg)
    ensures SizeOfAll(args + [a]) == SizeOfAll(args) + a.size
    decreases |args|
  {
    if args == [] {
      assert args + [a] == [a] && [a][1..] == [];
    } else {
      assert (args + [a])[1..] == args[1..] + [a];
      SizeOfAllSnoc(args[1..], a);
    }
  }

  /** Argument k is stored at the translator's counter at its `ARG` line, if the compiler has put the calls
      in argument expressions before the first `ARG`. */
  lemma {:induction false} PositionIsCounter(texts: seq<ArgText>, args: seq<Arg>, cArg: nat, k: nat)
    requires |texts| == |args| && k <= |args|
    requires forall i | 0 <= i < |args| :: texts[i].size == args[i].size
    requires forall i, l | 0 <= i < |texts| && l in texts[i].lines :: !l.LArg? && !l.LCall?
    ensures CounterFrom(ArgLines(texts[..k]), cArg) == cArg + SizeOfAll(args[..k])
    ensures k < |args| ==> CounterFrom(ArgLines(texts[..k]) + texts[k].lines, cArg) == cArg + SizeOfAll(args[..k])
    decreases k
  {
    if k > 0 {
      PositionIsCounter(texts, args, cArg, k - 1);
      var t, init := texts[k - 1], ArgLines(texts[..k - 1]);
      assert texts[..k][..k - 1] == texts[..k - 1] && texts[..k][k - 1] == t;
      CounterAppend(init + t.lines, [LArg(t.size)], cArg);
      assert [LArg(t.size)][1..] == [];
      assert args[..k] == args[..k - 1] + [args[k - 1]];
      SizeOfAllSnoc(args[..k - 1], args[k - 1]);
    } else {
      assert texts[..0] == [] && args[..0] == [];
    }
    if k < |args| {
      CounterAppend(ArgLines(texts[..k]), texts[k].lines, cArg);
      CounterThrough(texts[k].lines, cArg + SizeOfAll(args[..k]));
    }
  }

  /** That position is the one at which `PassAll` stores argument k. */
  lemma {:induction false} PassAllAt(args: seq<Arg>, cArg: nat, w: nat, k: nat)
    requires k < |args|
    ensures var p := cArg + SizeOfAll(args[..k]);
            PassAll(args, cArg, w) ==
            PassAll(args[..k], cArg, w) + PassOne(args[k], p, w) + PassAll(args[k + 1..], p + args[k].size, w)
    decreases k
  {
    hide PassOne, PassAll;
    PassAllFirst(args, cArg, w);
    if k == 0 {
      assert args[..0] == [] && SizeOfAll([]) == 0;
      PassAllNone(cArg, w);
    } else {
      var c := cArg + args[0].size;
      PassAllAt(args[1..], c, w, k - 1);
      assert args[..k][1..] == args[1..][..k - 1] && args[1..][k..] == args[k + 1..];
      PassAllFirst(args[..k], cArg, w);
      ConcatThree(PassOne(args[0], cArg, w), PassAll(args[1..][..k - 1], c, w),
                  PassOne(args[k], cArg + SizeOfAll(args[..k]), w), PassAll(args[k + 1..], cArg + SizeOfAll(args[..k]) + args[k].size, w));
    }
  }

  /** An argument's code and its store at position p. */
  function PassOne(a: Arg, p: nat, w: nat): seq<Item> {
    a.code + ArgStore(a.size, p, w)
  }

  lemma PassAllFirst(args: seq<Arg>, cArg: nat, w: nat)
    requires args != []
    ensures PassAll(args, cArg, w) == PassOne(args[0], cArg, w) + PassAll(args[1..], cArg + args[0].size, w)
  {
  }

  lemma {:induction false} PassAllNone(cArg: nat, w: nat)
    ensures PassAll([], cArg, w) == []
  {
  }

  lemma ConcatThree<T>(a: seq<T>, b: seq<T>, c: seq<T>, d: seq<T>)
    ensures a + (b + c + d) == a + b + c + d
  {
  }

  /** The argument area the compiler asks for in the `proc` line fits the places the translator
      chooses: an argument that a later call closes is stored through `addrl p; rstore` with
      p + size <= nArgs, so below every local, whose offset the translator moves up by nArgs. */
  lemma {:induction false} ArgumentsFit(ts: seq<Tree>, i: nat, j: nat, out: seq<Entry>, nArgs: nat)
    requires var ls := PrintedAll(ts);
             && AllAccepted(ls) && nArgs == Sized(ls, 0, 0).1
             && i < j < |ls| && ls[i].LArg? && ls[j].LCall? && forall k | i < k < j :: !ls[k].LCall?
    ensures var ls := PrintedAll(ts);
            && AllAccepted(ls[..i]) && AllAccepted(ls[..i + 1])
            && exists p: nat | p + ls[i].size <= nArgs ::
                 TranslatedAll(ls[..i + 1], out, nArgs, 0) ==
                 TranslatedAll(ls[..i], out, nArgs, 0)
                 + [Op(ADDRL, Number(p), SizeWord, ByteOrWord(p)), Op(RSTORE, Empty, SizeOf(ls[i].size))]
  {
    var ls := PrintedAll(ts);
    PeakCovers(ls, i, j);
    CounterIsCounter(ls[..i]);
    assert ls[..i + 1] == ls[..i] + [ls[i]];
    TranslatedSnoc(ls[..i], ls[i], out, nArgs, 0);
    ArgLine(ls[i], TranslatedAll(ls[..i], out, nArgs, 0), nArgs, Counter(ls[..i]));
  }

  lemma ArgLine(l: Line, out: seq<Entry>, nArgs: nat, p: nat)
    requires l.LArg? && Accepted(l)
    ensures Translated(l, out, nArgs, p) ==
            out + [Op(ADDRL, Number(p), SizeWord, ByteOrWord(p)), Op(RSTORE, Empty, SizeOf(l.size))]
  {
  }
}

/** Translated code laid out in code memory as the assembler does it (binutils/assembler.cpp:107-112, 260-380) and
    executed by the simulator, one instruction after the other (sim/sim.cpp:386-780): what runs of entries say
    is what the simulator does. */
module Simulated {
  import opened Words
  import opened Sim
  import opened Trans2
  import opened Peephole
  import C = Compiled

  // ----- comparisons -----

  /** The number that the words of a value of one word stand for. */
  predicate SignedNumber(x: int, w: Word) {
    -0x8000 <= x < 0x8000 && W(x) == w
  }

  /** Which of ten comparisons of a and b, as signed numbers x and y, hold. */
  predicate Compares(c: Cond, x: int, y: int, a: Word, b: Word) {
    match c
    case Eq => a == b
    case Ne => a != b
    case Lt => x < y
    case Le => x < y || a == b
    case Gt => y < x
    case Ge => y < x || a == b
    case ULt => a < b
    case ULe => a < b || a == b
    case UGt => b < a
    case UGe => b < a || a == b
  }

  /** With a pushed before b a branch goes to its block exactly if the comparison of a with b holds, and both
      are gone. */
  lemma BranchCompares(c: Cond, target: Word, words: nat, s: State, pc: nat, x: int, y: int, a: Word, b: Word)
    requires SignedNumber(x, a) && SignedNumber(y, b)
    ensures var r := Next(Branch(c, target), words, Push(Push(s, a), b), pc);
            && r.1 == (if Compares(c, x, y, a, b) then 8 * target else pc + words)
            && r.0.sp == s.sp && r.0.bp == s.bp && r.0.ap == s.ap
  {
    var t := Push(Push(s, a), b);
    TwoPushed(s, a, b);
    hide Push, Top, Drop;
    assert Signed(a) == x && Signed(b) == y;
  }

  lemma TwoPushed(s: State, a: Word, b: Word)
    ensures var t := Push(Push(s, a), b);
            Top(t, 2) == a && Top(t, 1) == b && Drop(t, 2) == t.(sp := s.sp) && t.bp == s.bp && t.ap == s.ap
  {
  }

  // ----- words on the stack -----

  /** `addrs` with -k and a load reads the k-th word from the top, and `dup` is that for the first. */
  lemma PickIs(s: State, k: nat)
    requires k <= s.sp
    ensures Step(LoadAt(Stack, W(0 - k)), s) == Push(s, Top(s, k))
    ensures k == 1 ==> Step(Dup, s) == Step(LoadAt(Stack, W(0 - k)), s)
  {
    BelowTop(s.sp, k);
    hide W, Push;
  }

  lemma BelowTop(p: Word, k: nat)
    requires k <= p
    ensures W(p + W(0 - k)) == W(p - k) == p - k
  {
  }

  /** Reserved words are given back. */
  lemma ReserveRelease(s: State, n: Word)
    ensures Step(Discard(n), Step(Alloc(n), s)) == s
    ensures s.sp + n < 0x10000 ==> Step(Alloc(n), s).sp == s.sp + n && Step(Alloc(n), s).mem == s.mem
  {
  }

  // ----- code memory -----

  function Up(p: nat): (r: nat)
    ensures r % 8 == 0 && p <= r < p + 8
  {
    (p + 7) / 8 * 8
  }

  /** Code words of an operation: one more for an operand that is not in the operation's own word. */
  function Size(e: Entry): nat {
    if e.argType == ArgNone || e.argType == ArgChar then 1 else 2
  }

  /** Behind an entry at p: a label is put at the next whole block. */
  function After(e: Entry, p: nat): nat {
    if IsLabel(e) then Up(p) else if e.isDirective then p else p + Size(e)
  }

  /** Behind all entries. */
  function End(code: seq<Entry>, p: nat): (r: nat)
    ensures r >= p
    decreases |code|
  {
    if code == [] then p else End(code[1..], After(code[0], p))
  }

  /** The instruction at pc, with its code words, in code that begins at p; the words before a label are zero,
      which is `nop`. */
  function Fetch(env: Env, code: seq<Entry>, p: nat, pc: nat): Option<(Instr, nat)>
    decreases |code|
  {
    if code == [] then None
    else if IsLabel(code[0]) && p <= pc < Up(p) then Some((Nop, 1))
    else if !code[0].isDirective && pc == p then
      match Decode(env, code[0])
      case None => None
      case Some(i) => Some((i, Size(code[0])))
    else Fetch(env, code[1..], After(code[0], p), pc)
  }

  /** n instructions, as long as there are any. */
  function Ticks(env: Env, code: seq<Entry>, p: nat, s: State, pc: nat, n: nat): Option<(State, nat)>
    decreases n
  {
    if n == 0 then Some((s, pc))
    else
      match Fetch(env, code, p, pc)
      case None => None
      case Some(f) => var r := Next(f.0, f.1, s, pc); Ticks(env, code, p, r.0, r.1, n - 1)
  }

  /** The simulator comes from one state and place to another. */
  ghost predicate Reaches(env: Env, code: seq<Entry>, p: nat, s: State, pc: nat, t: State, pc1: nat) {
    exists n: nat :: Ticks(env, code, p, s, pc, n) == Some((t, pc1))
  }

  lemma {:induction false} TicksAdd(env: Env, code: seq<Entry>, p: nat, s: State, pc: nat, n: nat, k: nat, t: State, pc1: nat)
    requires Ticks(env, code, p, s, pc, n) == Some((t, pc1))
    ensures Ticks(env, code, p, s, pc, n + k) == Ticks(env, code, p, t, pc1, k)
    decreases n
  {
    if n > 0 {
      var f := Fetch(env, code, p, pc).value;
      var r := Next(f.0, f.1, s, pc);
      TicksAdd(env, code, p, r.0, r.1, n - 1, k, t, pc1);
    }
  }

  lemma ReachesThen(env: Env, code: seq<Entry>, p: nat, s: State, pc: nat, t: State, pc1: nat, u: State, pc2: nat)
    requires Reaches(env, code, p, s, pc, t, pc1) && Reaches(env, code, p, t, pc1, u, pc2)
    ensures Reaches(env, code, p, s, pc, u, pc2)
  {
    var n: nat :| Ticks(env, code, p, s, pc, n) == Some((t, pc1));
    var k: nat :| Ticks(env, code, p, t, pc1, k) == Some((u, pc2));
    TicksAdd(env, code, p, s, pc, n, k, t, pc1);
  }

  lemma ReachesHere(env: Env, code: seq<Entry>, p: nat, s: State, pc: nat)
    ensures Reaches(env, code, p, s, pc, s, pc)
  {
    assert Ticks(env, code, p, s, pc, 0) == Some((s, pc));
  }

  lemma {:induction false} ReachesNext(env: Env, code: seq<Entry>, p: nat, s: State, pc: nat, i: Instr, words: nat)
    requires Fetch(env, code, p, pc) == Some((i, words))
    ensures var r := Next(i, words, s, pc); Reaches(env, code, p, s, pc, r.0, r.1)
  {
    var r := Next(i, words, s, pc);
    hide Next, Fetch;
    assert Ticks(env, code, p, r.0, r.1, 0) == Some((r.0, r.1));
    assert Ticks(env, code, p, s, pc, 1) == Some((r.0, r.1));
  }

  // ----- where entries lie -----

  lemma {:induction false} EndOf(a: seq<Entry>, b: seq<Entry>, p: nat)
    ensures End(a + b, p) == End(b, End(a, p))
    decreases |a|
  {
    if a == [] {
      assert a + b == b;
    } else {
      assert (a + b)[1..] == a[1..] + b;
      EndOf(a[1..], b, After(a[0], p));
    }
  }

  lemma {:induction false} EndOne(pre: seq<Entry>, e: Entry, p: nat)
    ensures End(pre + [e], p) == After(e, End(pre, p))
  {
    EndOf(pre, [e], p);
    assert End([e], End(pre, p)) == End([e][1..], After(e, End(pre, p)));
  }

  /** Nothing before a place is fetched there. */
  lemma {:induction false} FetchSkips(env: Env, pre: seq<Entry>, code: seq<Entry>, p: nat, pc: nat)
    requires End(pre, p) <= pc
    ensures Fetch(env, pre + code, p, pc) == Fetch(env, code, End(pre, p), pc)
    decreases |pre|
  {
    if pre == [] {
      assert pre + code == code;
    } else {
      assert (pre + code)[1..] == pre[1..] + code;
      FetchSkips(env, pre[1..], code, After(pre[0], p), pc);
    }
  }

  /** Labels stand for the blocks they are put at. */
  ghost predicate LaidOut(env: Env, prog: seq<Entry>, p: nat) {
    forall k | 0 <= k < |prog| && IsLabel(prog[k]) :: 8 * W(Value(env, prog[k].arg)) == End(prog[..k + 1], p)
  }

  /** The code behind a label begins at the label's block. */
  lemma {:induction false} BehindLies(env: Env, prog: seq<Entry>, k: nat, v: Word) returns (j: nat)
    requires k <= |prog| && Behind(env, prog[k..], v).Some?
    ensures k <= j < |prog| && IsLabel(prog[j]) && W(Value(env, prog[j].arg)) == v
    ensures Behind(env, prog[k..], v) == Some(prog[j + 1..])
    decreases |prog| - k
  {
    assert prog[k..][1..] == prog[k + 1..] && prog[k..][0] == prog[k];
    if IsLabel(prog[k]) && W(Value(env, prog[k].arg)) == v {
      j := k;
    } else {
      j := BehindLies(env, prog, k + 1, v);
    }
  }

  // ----- a run of entries is a run of the simulator -----

  function At(prog: seq<Entry>, k: nat, p: nat): nat
    requires k <= |prog|
  {
    End(prog[..k], p)
  }

  lemma {:induction false} AtNext(prog: seq<Entry>, k: nat, p: nat)
    requires k < |prog|
    ensures At(prog, k + 1, p) == After(prog[k], At(prog, k, p))
    ensures prog[k..][0] == prog[k] && prog[k..][1..] == prog[k + 1..]
  {
    assert prog[..k + 1] == prog[..k] + [prog[k]];
    EndOne(prog[..k], prog[k], p);
  }

  lemma {:induction false} FetchAt(env: Env, prog: seq<Entry>, k: nat, p: nat, i: Instr)
    requires k < |prog| && !prog[k].isDirective && Decode(env, prog[k]) == Some(i)
    ensures Fetch(env, prog, p, At(prog, k, p)) == Some((i, Size(prog[k])))
    ensures At(prog, k + 1, p) == At(prog, k, p) + Size(prog[k])
  {
    assert prog == prog[..k] + prog[k..];
    FetchSkips(env, prog[..k], prog[k..], p, At(prog, k, p));
    AtNext(prog, k, p);
    hide Decode;
  }

  /** Falling into a label, the simulator runs through the words that fill the block before it. */
  lemma {:induction false} LabelPasses(env: Env, prog: seq<Entry>, k: nat, p: nat, s: State, q: nat)
    requires k < |prog| && IsLabel(prog[k]) && At(prog, k, p) <= q <= At(prog, k + 1, p)
    ensures Reaches(env, prog, p, s, q, s, At(prog, k + 1, p))
    decreases At(prog, k + 1, p) - q
  {
    AtNext(prog, k, p);
    var u := At(prog, k + 1, p);
    if q == u {
      ReachesHere(env, prog, p, s, q);
    } else {
      assert prog == prog[..k] + prog[k..];
      FetchSkips(env, prog[..k], prog[k..], p, q);
      assert Fetch(env, prog, p, q) == Some((Nop, 1));
      StepNop(s);
      hide Fetch, Step;
      ReachesNext(env, prog, p, s, q, Nop, 1);
      LabelPasses(env, prog, k, p, s, q + 1);
      ReachesThen(env, prog, p, s, q, s, q + 1, s, u);
    }
  }

  /** What an outcome of a run of entries says about the simulator, started at pc. */
  ghost predicate Simulates(env: Env, prog: seq<Entry>, p: nat, o: Outcome, s: State, pc: nat, rs: seq<Resume>)
    decreases |rs|, 1
  {
    match o
    case Fell(t, _) => Reaches(env, prog, p, s, pc, t, End(prog, p))
    case Stopped(name, t, _) =>
      exists j | 0 <= j < |prog| && prog[j].isDirective && prog[j].name == name :: Reaches(env, prog, p, s, pc, t, At(prog, j, p))
    case Called(k, v, t, _, after) =>
      exists back: nat :: CallSimulates(env, prog, p, k, v, t, after, s, pc, back, rs)
    case Returned(t, _) => Reaches(env, prog, p, s, pc, Leave(t), ReturnPC(t, 0))
    case Left(v, t, _) => Reaches(env, prog, p, s, pc, t, 8 * v)
    case NoFuel(t, _) => exists v: Word :: Reaches(env, prog, p, s, pc, t, 8 * v)
    case _ => true
  }

  /** The call is entered with the frame for it and its way back, and there the run goes on. */
  ghost predicate CallSimulates(env: Env, prog: seq<Entry>, p: nat, k: nat, v: Word, t: State, after: Outcome, s: State, pc: nat,
                                back: nat, rs: seq<Resume>)
    decreases |rs|, 0
  {
    && Reaches(env, prog, p, s, pc, Enter(t, k, back), 8 * v)
    && (rs != [] ==> Simulates(env, prog, p, after, rs[0].s, back, rs[1..]))
  }

  lemma {:induction false} SimulatesFrom(env: Env, prog: seq<Entry>, p: nat, o: Outcome, s: State, pc: nat, t: State, pc1: nat, rs: seq<Resume>)
    requires Reaches(env, prog, p, s, pc, t, pc1) && Simulates(env, prog, p, o, t, pc1, rs)
    ensures Simulates(env, prog, p, o, s, pc, rs)
  {
    hide Reaches, End, Enter, Leave, ReturnPC;
    match o
    case Fell(u, _) => ReachesThen(env, prog, p, s, pc, t, pc1, u, End(prog, p));
    case Stopped(name, u, _) =>
      var j :| 0 <= j < |prog| && prog[j].isDirective && prog[j].name == name && Reaches(env, prog, p, t, pc1, u, At(prog, j, p));
      ReachesThen(env, prog, p, s, pc, t, pc1, u, At(prog, j, p));
    case Called(k, v, u, _, after) =>
      var back: nat :| CallSimulates(env, prog, p, k, v, u, after, t, pc1, back, rs);
      ReachesThen(env, prog, p, s, pc, t, pc1, Enter(u, k, back), 8 * v);
      assert CallSimulates(env, prog, p, k, v, u, after, s, pc, back, rs);
    case Returned(u, _) => ReachesThen(env, prog, p, s, pc, t, pc1, Leave(u), ReturnPC(u, 0));
    case Left(v, u, _) => ReachesThen(env, prog, p, s, pc, t, pc1, u, 8 * v);
    case NoFuel(u, _) =>
      var v: Word :| Reaches(env, prog, p, t, pc1, u, 8 * v);
      ReachesThen(env, prog, p, s, pc, t, pc1, u, 8 * v);
    case _ =>
  }

  lemma ReturnAnywhere(t: State, pc: nat)
    ensures ReturnPC(t, pc) == ReturnPC(t, 0)
  {
  }

  /** What one operation of a run is to the simulator. */
  lemma {:induction false} NextIs(i: Instr, words: nat, s: State, pc: nat)
    ensures FallsThrough(i) ==> Next(i, words, s, pc) == (Step(i, s), pc + words)
    ensures i.Branch? ==> Next(i, words, s, pc) ==
                          (Drop(s, 2), if Holds(i.cond, Top(s, 2), Top(s, 1)) then 8 * i.target else pc + words)
    ensures i.JumpTop? ==> Next(i, words, s, pc) == (Pop(s), 8 * Top(s, 1))
    ensures i.JumpTo? ==> Next(i, words, s, pc) == (s, 8 * i.target)
    ensures i.CallTop? ==> Next(i, words, s, pc) == (Enter(Pop(s), i.k, pc + words), 8 * Top(s, 1))
    ensures i.CallTo? ==> Next(i, words, s, pc) == (Enter(s, i.k, pc + words), 8 * i.target)
    ensures i.Ret? ==> Next(i, words, s, pc) == (Leave(s), ReturnPC(s, 0))
  {
    ReturnAnywhere(s, pc + words);
    hide Step, Enter, Leave, ReturnPC, Drop, Top, Holds;
  }

  lemma {:induction false} TransferSimulated(env: Env, prog: seq<Entry>, p: nat, v: Word, s: State, z: Zone, fuel: nat, rs: seq<Resume>)
    requires LaidOut(env, prog, p) && !GoesWild(Transfer(env, prog, v, s, z, fuel, rs))
    ensures Simulates(env, prog, p, Transfer(env, prog, v, s, z, fuel, rs), s, 8 * v, rs)
    decreases |rs|, fuel, 0, 0
  {
    ReachesHere(env, prog, p, s, 8 * v);
    assert prog[0..] == prog;
    if Behind(env, prog, v).Some? && fuel > 0 {
      var j := BehindLies(env, prog, 0, v);
      assert At(prog, j + 1, p) == 8 * v;
      hide LaidOut, Run, Behind, Simulates;
      RunSimulated(env, prog, p, j + 1, s, z, fuel - 1, rs);
    }
  }

  lemma {:induction false} ResumedSimulated(env: Env, prog: seq<Entry>, p: nat, k: nat, fuel: nat, rs: seq<Resume>)
    requires LaidOut(env, prog, p) && k <= |prog| && !GoesWild(Resumed(env, prog, prog[k..], fuel, rs))
    ensures rs != [] ==> Simulates(env, prog, p, Resumed(env, prog, prog[k..], fuel, rs), rs[0].s, At(prog, k, p), rs[1..])
    decreases |rs|, fuel, |prog| - k, 0
  {
    hide LaidOut, Run, Simulates;
    if rs != [] {
      RunSimulated(env, prog, p, k, rs[0].s, rs[0].z, fuel, rs[1..]);
    }
  }

  /** A run of a program from its k-th entry on is a run of the simulator from that entry's place in code memory. */
  lemma {:induction false} RunSimulated(env: Env, prog: seq<Entry>, p: nat, k: nat, s: State, z: Zone, fuel: nat, rs: seq<Resume>)
    requires LaidOut(env, prog, p) && k <= |prog| && !GoesWild(Run(env, prog, prog[k..], s, z, fuel, rs))
    ensures Simulates(env, prog, p, Run(env, prog, prog[k..], s, z, fuel, rs), s, At(prog, k, p), rs)
    decreases |rs|, fuel, |prog| - k, 2
  {
    if k == |prog| {
      assert prog[..k] == prog;
      ReachesHere(env, prog, p, s, End(prog, p));
    } else {
      AtNext(prog, k, p);
      if IsLabel(prog[k]) {
        hide LaidOut, Reaches, Simulates;
        RunSimulated(env, prog, p, k + 1, s, z, fuel, rs);
        LabelPasses(env, prog, k, p, s, At(prog, k, p));
        SimulatesFrom(env, prog, p, Run(env, prog, prog[k + 1..], s, z, fuel, rs), s, At(prog, k, p), s, At(prog, k + 1, p), rs);
      } else if prog[k].isDirective {
        ReachesHere(env, prog, p, s, At(prog, k, p));
        hide Reaches, At, LaidOut;
      } else {
        hide LaidOut, RunInstr, Reaches, Simulates;
        InstrSimulated(env, prog, p, k, Decode(env, prog[k]).value, s, z, fuel, rs);
      }
    }
  }

  lemma {:induction false} InstrSimulated(env: Env, prog: seq<Entry>, p: nat, k: nat, i: Instr, s: State, z: Zone, fuel: nat, rs: seq<Resume>)
    requires LaidOut(env, prog, p) && k < |prog| && !prog[k].isDirective && Decode(env, prog[k]) == Some(i)
    requires !GoesWild(RunInstr(env, prog, i, prog[k + 1..], s, z, fuel, rs))
    ensures Simulates(env, prog, p, RunInstr(env, prog, i, prog[k + 1..], s, z, fuel, rs), s, At(prog, k, p), rs)
    decreases |rs|, fuel, |prog| - k, 1
  {
    hide LaidOut, Reaches, Fetch, At, Next, Size, Decode, Run, Transfer, Resumed, Step, Enter, Leave, ReturnPC, Drop, Top, Holds;
    FetchAt(env, prog, k, p, i);
    var pc := At(prog, k, p);
    ReachesNext(env, prog, p, s, pc, i, Size(prog[k]));
    NextIs(i, Size(prog[k]), s, pc);
    var o := RunInstr(env, prog, i, prog[k + 1..], s, z, fuel, rs);
    if i.CallTop? || i.CallTo? {
      ResumedSimulated(env, prog, p, k + 1, fuel, rs);
      assert CallSimulates(env, prog, p, o.k, o.target, o.s, o.after, s, pc, At(prog, k + 1, p), rs);
    } else if i.Ret? {
    } else {
      hide Simulates;
      FlowSimulated(env, prog, p, k, i, s, z, fuel, rs);
    }
  }

  lemma {:induction false} FlowSimulated(env: Env, prog: seq<Entry>, p: nat, k: nat, i: Instr, s: State, z: Zone, fuel: nat, rs: seq<Resume>)
    requires LaidOut(env, prog, p) && k < |prog| && !prog[k].isDirective && Decode(env, prog[k]) == Some(i)
    requires !i.CallTop? && !i.CallTo? && !i.Ret?
    requires !GoesWild(RunInstr(env, prog, i, prog[k + 1..], s, z, fuel, rs))
    ensures Simulates(env, prog, p, RunInstr(env, prog, i, prog[k + 1..], s, z, fuel, rs), s, At(prog, k, p), rs)
    decreases |rs|, fuel, |prog| - k, 0
  {
    hide LaidOut, Reaches, Fetch, At, Next, Size, Decode, Run, Transfer, Step, Drop, Top, Holds, Simulates;
    FetchAt(env, prog, k, p, i);
    var pc, pc1 := At(prog, k, p), At(prog, k + 1, p);
    ReachesNext(env, prog, p, s, pc, i, Size(prog[k]));
    NextIs(i, Size(prog[k]), s, pc);
    var o := RunInstr(env, prog, i, prog[k + 1..], s, z, fuel, rs);
    if i.Branch? && Holds(i.cond, Top(s, 2), Top(s, 1)) {
      TransferSimulated(env, prog, p, i.target, Drop(s, 2), z, fuel, rs);
      SimulatesFrom(env, prog, p, o, s, pc, Drop(s, 2), 8 * i.target, rs);
    } else if i.Branch? {
      RunSimulated(env, prog, p, k + 1, Drop(s, 2), z, fuel, rs);
      SimulatesFrom(env, prog, p, o, s, pc, Drop(s, 2), pc1, rs);
    } else if i.JumpTop? {
      TransferSimulated(env, prog, p, Top(s, 1), Pop(s), z, fuel, rs);
      SimulatesFrom(env, prog, p, o, s, pc, Pop(s), 8 * Top(s, 1), rs);
    } else if i.JumpTo? {
      TransferSimulated(env, prog, p, i.target, s, z, fuel, rs);
      SimulatesFrom(env, prog, p, o, s, pc, s, 8 * i.target, rs);
    } else {
      RunSimulated(env, prog, p, k + 1, Step(i, s), ZoneAfter(i, s, z), fuel, rs);
      SimulatesFrom(env, prog, p, o, s, pc, Step(i, s), pc1, rs);
    }
  }

  /** Entered through its label, the simulator does what the roots of a procedure mean, on the code as translated
      and after either pass: the same calls, and the same end, with the same live memory. */
  lemma {:induction false} SimulatedProcedure(env: Env, name: string, nLocals: nat, nArgs: nat, f: seq<C.Root>, code: seq<Entry>, p: nat,
                                              s: State, m: State, z: Zone, fuel: nat, rs: seq<Resume>, ts: seq<Resume>)
    returns (o: Outcome)
    requires C.TypedRoots(f) && name !in C.Names(f) && C.Apart(env, C.Names(f) + {name})
    requires ZoneOk(s, z) && Related(s, m, z) && ResumesOk(rs, ts) && s.sp + nLocals + nArgs <= z.limit
    requires var e := C.Entered(nLocals + nArgs, s, z);
             !GoesWild(C.Meant(env, nArgs, f, f, 0, e.s, e.z, fuel, rs))
    requires AllAccepted(C.DumpRoots(f))
    requires var plain := C.Procedure(name, nLocals, nArgs, f);
             code == plain || code == OptimizeFrom([], plain) || code == C.Twice(plain)
    requires LaidOut(env, code, p)
    ensures var e := C.Entered(nLocals + nArgs, s, z);
            SameOutcome(C.Meant(env, nArgs, f, f, 0, e.s, e.z, fuel, rs), o)
    ensures Simulates(env, code, p, o, m, 8 * env(name), ts)
  {
    hide *;
    var e := C.Entered(nLocals + nArgs, s, z);
    var meant := C.Meant(env, nArgs, f, f, 0, e.s, e.z, fuel, rs);
    C.CompiledProcedure(env, name, nLocals, nArgs, f, s, m, z, fuel, rs, ts);
    o := Transfer(env, code, env(name), m, z, fuel + 1, ts);
    SameOutcomeWild(meant, o);
    TransferSimulated(env, code, p, env(name), m, z, fuel + 1, ts);
  }
}

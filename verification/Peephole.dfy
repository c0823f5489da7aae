/** The two passes of the translator keep the meaning of the code (binutils/trans2.cpp:489-548).

    Code is run on the simulator's instructions from a point of a list of entries; a taken branch
    or jump continues behind the label with that address, and every such transfer uses fuel.  A call is
    answered by a state to return to, whatever the callee did, and the run goes on behind it.  The
    evaluation stack lies in [base, limit); words at or above SP there are dead, because fusing a
    push with its consumer leaves them unwritten.  A run is tame while no instruction pops below
    the base, pushes beyond the limit, or reaches into the evaluation stack through an address. */
module Peephole {
  import opened Words
  import opened Sim
  import opened Trans2

  /** `junk`: words reserved by `alloc` and not written since; reading one is not tame. */
  datatype Zone = Zone(base: int, limit: int, junk: set<int>)

  ghost predicate ZoneOk(s: State, z: Zone) {
    && 0 <= z.base <= s.sp <= z.limit <= 0xffff
    && forall a | a in z.junk :: 0 <= a < z.base
  }

  predicate Outside(a: Word, z: Zone) {
    a < z.base || z.limit <= a
  }

  predicate Readable(a: Word, z: Zone) {
    Outside(a, z) && a !in z.junk
  }

  predicate Tame(i: Instr, s: State, z: Zone) {
    match i
    case Nop => true
    case Address(_, _) => s.sp + 1 <= z.limit
    case LoadAt(b, imm) => s.sp + 1 <= z.limit && Readable(AddressOf(s, b, imm), z)
    case Indir => z.base <= s.sp - 1 && Readable(Top(s, 1), z)
    case Indir2 =>
      && z.base <= s.sp - 1 && s.sp + 1 <= z.limit
      && Readable(Top(s, 1), z) && Readable(W(Top(s, 1) + 1), z)
    case Alu(_) => z.base <= s.sp - 2
    case AluImm(_, _) => z.base <= s.sp - 1
    case Alu2(_) => z.base <= s.sp - 4
    case Shl => z.base <= s.sp - 1
    case Shr => z.base <= s.sp - 1
    case Branch(_, _) => z.base <= s.sp - 2
    case CallTop(_) => z.base <= s.sp - 1
    case CallTo(_, _) => true
    case Ret => true
    case JumpTop => z.base <= s.sp - 1
    case JumpTo(_) => true
    case Discard(imm) => z.base <= s.sp - imm
    case Alloc(imm) => s.sp + imm <= z.limit
    case Store => z.base <= s.sp - 2 && Outside(Top(s, 2), z)
    case Store2 => z.base <= s.sp - 3 && Outside(Top(s, 3), z) && Outside(W(Top(s, 3) + 1), z)
    case RStore => z.base <= s.sp - 2 && Outside(Top(s, 1), z)
    case RStore2 => z.base <= s.sp - 3 && Outside(Top(s, 1), z) && Outside(W(Top(s, 1) + 1), z)
    case Dup => z.base <= s.sp - 1 && s.sp + 1 <= z.limit
  }

  function Range(lo: int, hi: int): (r: set<int>)
    ensures forall a :: a in r <==> lo <= a < hi
    decreases hi - lo
  {
    if lo >= hi then {} else {lo} + Range(lo + 1, hi)
  }

  /** `alloc` moves the base up over the reserved words; a store makes its words readable. */
  function ZoneAfter(i: Instr, s: State, z: Zone): Zone {
    match i
    case Alloc(imm) => Zone(s.sp + imm, z.limit, z.junk + Range(s.sp, s.sp + imm))
    case Store => z.(junk := z.junk - {Top(s, 2)})
    case Store2 => z.(junk := z.junk - {Top(s, 3), W(Top(s, 3) + 1)})
    case RStore => z.(junk := z.junk - {Top(s, 1)})
    case RStore2 => z.(junk := z.junk - {Top(s, 1), W(Top(s, 1) + 1)})
    case _ => z
  }

  // ----- running a list of entries -----

  datatype Outcome =
    | Fell(s: State, z: Zone)
    | Stopped(name: nat, s: State, z: Zone)
    | Called(k: nat, target: Word, s: State, z: Zone, after: Outcome)
    | Waiting
    | Returned(s: State, z: Zone)
    | Left(to: Word, s: State, z: Zone)
    | NoFuel(s: State, z: Zone)
    | Wild

  /** The state a call returns to, whatever the callee has done. */
  datatype Resume = Resume(s: State, z: Zone)

  predicate GoesWild(o: Outcome) {
    o.Wild? || (o.Called? && GoesWild(o.after))
  }

  predicate IsLabel(e: Entry) {
    e.isDirective && e.name == D_LABEL
  }

  /** The code behind the first label with this address. */
  function Behind(env: Env, prog: seq<Entry>, v: Word): Option<seq<Entry>> {
    if prog == [] then None
    else if IsLabel(prog[0]) && W(Value(env, prog[0].arg)) == v then Some(prog[1..])
    else Behind(env, prog[1..], v)
  }

  function Run(env: Env, prog: seq<Entry>, code: seq<Entry>, s: State, z: Zone, fuel: nat, rs: seq<Resume>): Outcome
    decreases |rs|, fuel, |code|, 0
  {
    if code == [] then Fell(s, z)
    else if code[0].isDirective then
      if IsLabel(code[0]) then Run(env, prog, code[1..], s, z, fuel, rs) else Stopped(code[0].name, s, z)
    else
      match Decode(env, code[0])
      case None => Wild
      case Some(i) =>
        if !Tame(i, s, z) then Wild
        else RunInstr(env, prog, i, code[1..], s, z, fuel, rs)
  }

  function RunInstr(env: Env, prog: seq<Entry>, i: Instr, rest: seq<Entry>, s: State, z: Zone, fuel: nat, rs: seq<Resume>): Outcome
    decreases |rs|, fuel, |rest|, 1
  {
    match i
    case Branch(c, v) =>
      if Holds(c, Top(s, 2), Top(s, 1)) then Transfer(env, prog, v, Drop(s, 2), z, fuel, rs)
      else Run(env, prog, rest, Drop(s, 2), z, fuel, rs)
    case CallTop(k) => Called(k, Top(s, 1), Pop(s), z, Resumed(env, prog, rest, fuel, rs))
    case CallTo(k, v) => Called(k, v, s, z, Resumed(env, prog, rest, fuel, rs))
    case Ret => Returned(s, z)
    case JumpTop => Transfer(env, prog, Top(s, 1), Pop(s), z, fuel, rs)
    case JumpTo(v) => Transfer(env, prog, v, s, z, fuel, rs)
    case _ => Run(env, prog, rest, Step(i, s), ZoneAfter(i, s, z), fuel, rs)
  }

  /** The code behind a call goes on in the state the call returns to. */
  function Resumed(env: Env, prog: seq<Entry>, rest: seq<Entry>, fuel: nat, rs: seq<Resume>): Outcome
    decreases |rs|, fuel, |rest|, 0
  {
    if rs == [] then Waiting else Run(env, prog, rest, rs[0].s, rs[0].z, fuel, rs[1..])
  }

  function Transfer(env: Env, prog: seq<Entry>, v: Word, s: State, z: Zone, fuel: nat, rs: seq<Resume>): Outcome
    decreases |rs|, fuel, 0, 0
  {
    match Behind(env, prog, v)
    case None => Left(v, s, z)
    case Some(code) => if fuel == 0 then NoFuel(s, z) else Run(env, prog, code, s, z, fuel - 1, rs)
  }

  // ----- states that differ in dead words only -----

  /** Equal registers, and equal memory except dead stack words and junk. */
  ghost predicate Related(s: State, t: State, z: Zone) {
    && s.sp == t.sp && s.bp == t.bp && s.ap == t.ap
    && forall a: Word | !(s.sp <= a < z.limit) && a !in z.junk :: s.mem[a] == t.mem[a]
  }

  ghost predicate SameOutcome(o: Outcome, p: Outcome) {
    match o
    case Fell(s, z) => p.Fell? && p.z == z && Related(s, p.s, z)
    case Stopped(n, s, z) => p.Stopped? && p.name == n && p.z == z && Related(s, p.s, z)
    case Called(k, v, s, z, after) =>
      p.Called? && p.k == k && p.target == v && p.z == z && Related(s, p.s, z) && SameOutcome(after, p.after)
    case Waiting => p.Waiting?
    case Returned(s, z) => p.Returned? && p.z == z && Related(s, p.s, z)
    case Left(v, s, z) => p.Left? && p.to == v && p.z == z && Related(s, p.s, z)
    case NoFuel(s, z) => p.NoFuel? && p.z == z && Related(s, p.s, z)
    case Wild => p.Wild?
  }

  /** Calls return to related states. */
  ghost predicate ResumesOk(rs: seq<Resume>, ts: seq<Resume>) {
    && |rs| == |ts|
    && forall i | 0 <= i < |rs| :: ZoneOk(rs[i].s, rs[i].z) && ts[i].z == rs[i].z && Related(rs[i].s, ts[i].s, rs[i].z)
  }

  predicate FallsThrough(i: Instr) {
    !i.Branch? && !i.CallTop? && !i.CallTo? && !i.Ret? && !i.JumpTop? && !i.JumpTo?
  }

  /** Words a tame instruction takes from the stack are the same in related states. */
  lemma SameTop(s: State, t: State, z: Zone, k: nat)
    requires ZoneOk(s, z) && Related(s, t, z) && 1 <= k && z.base <= s.sp - k
    ensures Top(s, k) == Top(t, k)
  {
  }

  lemma SamePush(s: State, t: State, z: Zone, v: Word)
    requires ZoneOk(s, z) && Related(s, t, z) && s.sp + 1 <= z.limit
    ensures ZoneOk(Push(s, v), z) && Related(Push(s, v), Push(t, v), z)
    ensures Push(s, v).sp == s.sp + 1
  {
  }

  lemma SameDrop(s: State, t: State, z: Zone, k: nat)
    requires ZoneOk(s, z) && Related(s, t, z) && z.base <= s.sp - k
    ensures ZoneOk(Drop(s, k), z) && Related(Drop(s, k), Drop(t, k), z)
    ensures Drop(s, k).sp == s.sp - k
  {
  }

  lemma SameWrite(s: State, t: State, z: Zone, a: Word, v: Word)
    requires ZoneOk(s, z) && Related(s, t, z) && Outside(a, z)
    ensures ZoneOk(Write(s, a, v), z.(junk := z.junk - {a}))
    ensures Related(Write(s, a, v), Write(t, a, v), z.(junk := z.junk - {a}))
  {
  }

  lemma SameRead(s: State, t: State, z: Zone, a: Word)
    requires ZoneOk(s, z) && Related(s, t, z) && Readable(a, z)
    ensures s.mem[a] == t.mem[a]
  {
  }

  /** Taking k words off and pushing one. */
  lemma SameReplace(s: State, t: State, z: Zone, k: nat, v: Word)
    requires ZoneOk(s, z) && Related(s, t, z) && 1 <= k && z.base <= s.sp - k
    ensures ZoneOk(Push(Drop(s, k), v), z) && Related(Push(Drop(s, k), v), Push(Drop(t, k), v), z)
    ensures Push(Drop(s, k), v).sp == s.sp - k + 1
  {
    hide Related;
    SameDrop(s, t, z, k);
    assert ZoneOk(Drop(s, k), z);
    SamePush(Drop(s, k), Drop(t, k), z, v);
  }

  lemma SameIndir2Step(i: Instr, s: State, t: State, z: Zone)
    requires ZoneOk(s, z) && Tame(i, s, z) && Related(s, t, z) && i.Indir2?
    ensures Tame(i, t, z) && ZoneOk(Step(i, s), z) && Related(Step(i, s), Step(i, t), z)
  {
    SameTop(s, t, z, 1);
    assert s.sp == t.sp && s.bp == t.bp && s.ap == t.ap;
    hide Related, Push, Top, Drop, W;
    SameRead(s, t, z, Top(s, 1));
    SameReplace(s, t, z, 1, s.mem[Top(s, 1)]);
    var s1, t1 := Push(Pop(s), s.mem[Top(s, 1)]), Push(Pop(t), s.mem[Top(s, 1)]);
    SameRead(s1, t1, z, W(Top(s, 1) + 1));
    SamePush(s1, t1, z, s1.mem[W(Top(s, 1) + 1)]);
  }

  lemma SameStackStep(i: Instr, s: State, t: State, z: Zone)
    requires ZoneOk(s, z) && Tame(i, s, z) && Related(s, t, z)
    requires i.Address? || i.LoadAt? || i.Indir? || i.Dup? || i.Discard? || i.Nop?
    ensures Tame(i, t, z) && ZoneOk(Step(i, s), z) && Related(Step(i, s), Step(i, t), z)
  {
    if i.Indir? || i.Dup? { SameTop(s, t, z, 1); }
    assert s.sp == t.sp && s.bp == t.bp && s.ap == t.ap;
    hide Related, Push, Top, Drop, W;
    match i
    case Address(b, imm) =>
      SamePush(s, t, z, AddressOf(s, b, imm));
    case LoadAt(b, imm) =>
      SameRead(s, t, z, AddressOf(s, b, imm));
      SamePush(s, t, z, s.mem[AddressOf(s, b, imm)]);
    case Indir =>
      SameRead(s, t, z, Top(s, 1));
      SameReplace(s, t, z, 1, s.mem[Top(s, 1)]);
    case Dup =>
      SamePush(s, t, z, Top(s, 1));
    case Discard(imm) =>
      SameDrop(s, t, z, imm);
    case Nop =>
  }

  lemma SameAluStep(i: Instr, s: State, t: State, z: Zone)
    requires ZoneOk(s, z) && Tame(i, s, z) && Related(s, t, z)
    requires i.Alu? || i.AluImm? || i.Alu2? || i.Shl? || i.Shr?
    ensures Tame(i, t, z) && ZoneOk(Step(i, s), z) && Related(Step(i, s), Step(i, t), z)
  {
    assert s.sp == t.sp;
    SameTop(s, t, z, 1);
    if i.Alu? || i.Alu2? { SameTop(s, t, z, 2); }
    if i.Alu2? {
      SameTop(s, t, z, 3);
      SameTop(s, t, z, 4);
    }
    hide Related, Push, Top, Drop, W, AluWord, AluDword, Low, High;
    match i
    case Alu(op) =>
      SameReplace(s, t, z, 2, AluWord(op, Top(s, 2), Top(s, 1)));
    case AluImm(op, imm) =>
      SameReplace(s, t, z, 1, AluWord(op, Top(s, 1), imm));
    case Alu2(op) =>
      var v := AluDword(op, Join(Top(s, 4), Top(s, 3)), Join(Top(s, 2), Top(s, 1)));
      SameReplace(s, t, z, 4, Low(v));
      SamePush(Push(Drop(s, 4), Low(v)), Push(Drop(t, 4), Low(v)), z, High(v));
    case Shl =>
      SameReplace(s, t, z, 1, W(2 * Top(s, 1)));
    case Shr =>
      SameReplace(s, t, z, 1, Top(s, 1) / 2);
  }

  lemma SameStoreStep(i: Instr, s: State, t: State, z: Zone)
    requires ZoneOk(s, z) && Tame(i, s, z) && Related(s, t, z)
    requires i.Store? || i.RStore?
    ensures Tame(i, t, z) && ZoneAfter(i, s, z) == ZoneAfter(i, t, z)
    ensures ZoneOk(Step(i, s), ZoneAfter(i, s, z))
    ensures Related(Step(i, s), Step(i, t), ZoneAfter(i, s, z))
  {
    assert s.sp == t.sp;
    SameTop(s, t, z, 1);
    SameTop(s, t, z, 2);
    hide Related, Top, Drop, W, Write;
    SameDrop(s, t, z, 2);
    if i.Store? {
      SameWrite(Drop(s, 2), Drop(t, 2), z, Top(s, 2), Top(s, 1));
    } else {
      SameWrite(Drop(s, 2), Drop(t, 2), z, Top(s, 1), Top(s, 2));
    }
  }

  lemma SameStore2Step(i: Instr, s: State, t: State, z: Zone)
    requires ZoneOk(s, z) && Tame(i, s, z) && Related(s, t, z)
    requires i.Store2? || i.RStore2?
    ensures Tame(i, t, z) && ZoneAfter(i, s, z) == ZoneAfter(i, t, z)
    ensures ZoneOk(Step(i, s), ZoneAfter(i, s, z))
    ensures Related(Step(i, s), Step(i, t), ZoneAfter(i, s, z))
  {
    assert s.sp == t.sp;
    SameTop(s, t, z, 1);
    SameTop(s, t, z, 2);
    SameTop(s, t, z, 3);
    hide Related, Top, Drop, W, Write, ZoneOk;
    assert ZoneOk(Drop(s, 3), z) && Related(Drop(s, 3), Drop(t, 3), z) by { SameDrop3(i, s, t, z); }
    if i.Store2? {
      SameWrite2(Drop(s, 3), Drop(t, 3), z, Top(s, 3), Top(s, 2), Top(s, 1));
    } else {
      SameWrite2(Drop(s, 3), Drop(t, 3), z, Top(s, 1), Top(s, 3), Top(s, 2));
    }
  }

  lemma SameDrop3(i: Instr, s: State, t: State, z: Zone)
    requires ZoneOk(s, z) && Tame(i, s, z) && Related(s, t, z)
    requires i.Store2? || i.RStore2?
    ensures ZoneOk(Drop(s, 3), z) && Related(Drop(s, 3), Drop(t, 3), z)
  {
    SameDrop(s, t, z, 3);
  }

  lemma SameWrite2(s: State, t: State, z: Zone, a: Word, low: Word, high: Word)
    requires ZoneOk(s, z) && Related(s, t, z) && Outside(a, z) && Outside(W(a + 1), z)
    ensures var s1, t1, z1 := Write(Write(s, a, low), W(a + 1), high), Write(Write(t, a, low), W(a + 1), high),
                              z.(junk := z.junk - {a, W(a + 1)});
            ZoneOk(s1, z1) && Related(s1, t1, z1)
  {
    hide Related, W, Write;
    SameWrite(s, t, z, a, low);
    var z1 := z.(junk := z.junk - {a});
    SameWrite(Write(s, a, low), Write(t, a, low), z1, W(a + 1), high);
    assert z1.junk - {W(a + 1)} == z.junk - {a, W(a + 1)};
  }

  lemma SameAlloc(s: State, t: State, z: Zone, imm: Word)
    requires ZoneOk(s, z) && Tame(Alloc(imm), s, z) && Related(s, t, z)
    ensures Tame(Alloc(imm), t, z) && ZoneAfter(Alloc(imm), s, z) == ZoneAfter(Alloc(imm), t, z)
    ensures ZoneOk(Step(Alloc(imm), s), ZoneAfter(Alloc(imm), s, z))
    ensures Related(Step(Alloc(imm), s), Step(Alloc(imm), t), ZoneAfter(Alloc(imm), s, z))
  {
  }

  /** Related states stay related under every tame instruction. */
  lemma SameStep(i: Instr, s: State, t: State, z: Zone)
    requires ZoneOk(s, z) && Tame(i, s, z) && FallsThrough(i) && Related(s, t, z)
    ensures Tame(i, t, z) && ZoneAfter(i, s, z) == ZoneAfter(i, t, z)
    ensures ZoneOk(Step(i, s), ZoneAfter(i, s, z))
    ensures Related(Step(i, s), Step(i, t), ZoneAfter(i, s, z))
  {
    hide Related, ZoneOk, Step, Tame;
    if i.Store? || i.RStore? {
      SameStoreStep(i, s, t, z);
    } else if i.Store2? || i.RStore2? {
      SameStore2Step(i, s, t, z);
    } else if i.Alloc? {
      SameAlloc(s, t, z, i.imm);
    } else if i.Alu? || i.AluImm? || i.Alu2? || i.Shl? || i.Shr? {
      SameAluStep(i, s, t, z);
    } else if i.Indir2? {
      SameIndir2Step(i, s, t, z);
    } else {
      SameStackStep(i, s, t, z);
    }
  }

  // ----- optimize -----

  /** The first pass, entry by entry: a fused pair never fuses again. */
  function Fused(code: seq<Entry>): seq<Entry> {
    if |code| >= 2 && Fusable(code[0], code[1]) then [Fuse(code[0], code[1])] + Fused(code[2..])
    else if code != [] then [code[0]] + Fused(code[1..])
    else []
  }

  lemma FusedNeverFuses(prev: Entry, it: Entry, next: Entry)
    requires Fusable(prev, it)
    ensures !Fusable(Fuse(prev, it), next)
  {
  }

  /** The loop over the vector computes the pairwise form. */
  lemma {:induction false} OptimizeFromIsFused(done: seq<Entry>, rest: seq<Entry>)
    ensures done != [] && (rest == [] || !Fusable(done[|done| - 1], rest[0])) ==>
              OptimizeFrom(done, rest) == done + Fused(rest)
    ensures rest != [] && (done == [] || !Fusable(done[|done| - 1], rest[0])) ==>
              OptimizeFrom(done, rest) == done + Fused(rest)
    decreases |rest|
  {
    if rest == [] {
      assert done + Fused(rest) == done;
    } else if done == [] || !Fusable(done[|done| - 1], rest[0]) {
      hide *;
      if |rest| >= 2 && Fusable(rest[0], rest[1]) {
        var f := Fuse(rest[0], rest[1]);
        PairTaken(done, rest);
        Snoc(done, f, Fused(rest[2..]));
        if |rest| >= 3 {
          FusedNeverFuses(rest[0], rest[1], rest[2]);
          assert rest[2..][0] == rest[2];
        }
        OptimizeFromIsFused(done + [f], rest[2..]);
      } else {
        OneTaken(done, rest);
        Snoc(done, rest[0], Fused(rest[1..]));
        OptimizeFromIsFused(done + [rest[0]], rest[1..]);
      }
    }
  }

  lemma Snoc(done: seq<Entry>, e: Entry, rest: seq<Entry>)
    ensures done + [e] != [] && (done + [e])[|done + [e]| - 1] == e
    ensures done + [e] + rest == done + ([e] + rest)
  {
  }

  lemma {:induction false} PairTaken(done: seq<Entry>, rest: seq<Entry>)
    requires |rest| >= 2 && (done == [] || !Fusable(done[|done| - 1], rest[0])) && Fusable(rest[0], rest[1])
    ensures var f := Fuse(rest[0], rest[1]);
            OptimizeFrom(done, rest) == OptimizeFrom(done + [f], rest[2..]) && Fused(rest) == [f] + Fused(rest[2..])
  {
    hide Fusable, Fuse;
    var done1 := done + [rest[0]];
    assert done1[..|done1| - 1] == done && done1[|done1| - 1] == rest[0];
    assert rest[1..][0] == rest[1] && rest[1..][1..] == rest[2..];
  }

  lemma {:induction false} OneTaken(done: seq<Entry>, rest: seq<Entry>)
    requires rest != [] && (done == [] || !Fusable(done[|done| - 1], rest[0])) && (|rest| >= 2 ==> !Fusable(rest[0], rest[1]))
    ensures OptimizeFrom(done, rest) == OptimizeFrom(done + [rest[0]], rest[1..]) && Fused(rest) == [rest[0]] + Fused(rest[1..])
  {
    hide Fusable, Fuse;
  }

  lemma {:induction false} OptimizeIsFused(code: seq<Entry>)
    ensures OptimizeFrom([], code) == Fused(code)
  {
    OptimizeFromIsFused([], code);
    if code == [] {
      assert OptimizeFrom([], code) == [];
    } else {
      assert [] + Fused(code) == Fused(code);
    }
  }

  /** The pass does not ask whether the entry before an operation is a directive, and four
      directives share numbers with operations it fuses into. */
  ghost predicate Separated(code: seq<Entry>) {
    forall i | 0 <= i < |code| - 1 && code[i].isDirective :: !Fusable(code[i], code[i + 1])
  }

  /** A byte operand fits a signed byte, as the translator guarantees. */
  ghost predicate BytesFit(code: seq<Entry>) {
    forall i | 0 <= i < |code| && !code[i].isDirective && code[i].argType == ArgChar :: FitsByte(code[i].arg)
  }

  predicate FitsByte(t: Text) {
    match t
    case Empty => true
    case Number(n) => -128 <= n <= 127
    case Offset(n, k) => -128 <= Lead(n, k) + k <= 127
    case Symbol(_, _) => false
  }

  lemma SeparatedTail(code: seq<Entry>, k: nat)
    requires Separated(code) && BytesFit(code) && k <= |code|
    ensures Separated(code[k..]) && BytesFit(code[k..])
  {
    forall i | 0 <= i < |code[k..]| - 1 && code[k..][i].isDirective
      ensures !Fusable(code[k..][i], code[k..][i + 1])
    {
      assert code[k..][i] == code[k + i] && code[k..][i + 1] == code[k + i + 1];
    }
  }

  /** No operation is fused into or across a label, whatever stands around it. */
  lemma {:induction false} LabelsSplit(a: seq<Entry>, lab: Entry, b: seq<Entry>)
    requires IsLabel(lab)
    ensures Fused(a + [lab] + b) == Fused(a) + [lab] + Fused(b)
    decreases |a|
  {
    var code := a + [lab] + b;
    if a == [] {
      assert code[1..] == b;
      assert Fused(code) == [lab] + Fused(b);
    } else if |a| >= 2 && Fusable(a[0], a[1]) {
      var f := Fuse(a[0], a[1]);
      hide Fusable, Fuse;
      assert code[2..] == a[2..] + [lab] + b && code[0] == a[0] && code[1] == a[1];
      LabelsSplit(a[2..], lab, b);
      AssocCons(f, Fused(a[2..]), [lab], Fused(b));
    } else {
      assert code[1] == if |a| >= 2 then a[1] else lab;
      assert !Fusable(code[0], code[1]);
      hide Fusable, Fuse;
      assert code[1..] == a[1..] + [lab] + b;
      LabelsSplit(a[1..], lab, b);
      AssocCons(a[0], Fused(a[1..]), [lab], Fused(b));
    }
  }

  lemma AssocCons(x: Entry, u: seq<Entry>, v: seq<Entry>, w: seq<Entry>)
    ensures [x] + (u + v + w) == ([x] + u) + v + w
  {
  }

  lemma {:induction false} BehindFused(env: Env, prog: seq<Entry>, v: Word)
    requires Separated(prog) && BytesFit(prog)
    ensures Behind(env, Fused(prog), v).None? <==> Behind(env, prog, v).None?
    ensures Behind(env, prog, v).Some? ==>
              && Separated(Behind(env, prog, v).value) && BytesFit(Behind(env, prog, v).value)
              && Behind(env, Fused(prog), v).value == Fused(Behind(env, prog, v).value)
    decreases |prog|
  {
    if |prog| >= 2 && Fusable(prog[0], prog[1]) {
      SeparatedTail(prog, 2);
      BehindFused(env, prog[2..], v);
      assert !prog[0].isDirective && !prog[1].isDirective;
      var f := Fuse(prog[0], prog[1]);
      assert ([f] + Fused(prog[2..]))[1..] == Fused(prog[2..]);
      assert prog[1..][1..] == prog[2..];
    } else if prog != [] {
      SeparatedTail(prog, 1);
      BehindFused(env, prog[1..], v);
      assert ([prog[0]] + Fused(prog[1..]))[1..] == Fused(prog[1..]);
    }
  }

  /** What the two operations of a fused pair and the fused operation assemble to. */
  lemma DecodeFused(env: Env, prev: Entry, it: Entry)
    requires Fusable(prev, it) && !prev.isDirective
    requires prev.argType == ArgChar ==> FitsByte(prev.arg)
    ensures Decode(env, prev).Some? && Decode(env, it).Some? ==>
              && Decode(env, prev).value.Address? && Decode(env, Fuse(prev, it)).Some?
              && var Address(b, imm) := Decode(env, prev).value;
                 var f := Decode(env, Fuse(prev, it)).value;
                 match Decode(env, it).value
                 case Indir => f == LoadAt(b, imm)
                 case Alu(op) => b == Zero && f == AluImm(op, imm)
                 case CallTop(k) => b == Zero && f == CallTo(k, imm)
                 case JumpTop => b == Zero && f == JumpTo(imm)
                 case _ => false
  {
  }

  /** A push and its consumer leave the state the fused operation leaves, but for the dead slot. */
  lemma FusedLoad(b: Base, imm: Word, s: State, z: Zone)
    requires ZoneOk(s, z) && Tame(Address(b, imm), s, z)
    requires Tame(Indir, Step(Address(b, imm), s), z)
    ensures Tame(LoadAt(b, imm), s, z)
    ensures Related(Step(Indir, Step(Address(b, imm), s)), Step(LoadAt(b, imm), s), z)
  {
    var a := AddressOf(s, b, imm);
    assert Push(s, a).sp == s.sp + 1;
    assert Top(Push(s, a), 1) == a;
  }

  lemma FusedAlu(imm: Word, op: AluOp, s: State, z: Zone)
    requires ZoneOk(s, z) && Tame(Address(Zero, imm), s, z)
    requires Tame(Alu(op), Step(Address(Zero, imm), s), z)
    ensures Tame(AluImm(op, imm), s, z)
    ensures Related(Step(Alu(op), Step(Address(Zero, imm), s)), Step(AluImm(op, imm), s), z)
  {
    hide AluWord;
    assert AddressOf(s, Zero, imm) == imm;
    assert Push(s, imm).sp == s.sp + 1;
    assert Top(Push(s, imm), 1) == imm && Top(Push(s, imm), 2) == Top(s, 1);
  }

  predicate FusesTo(b: Base, imm: Word, i: Instr, f: Instr) {
    (i == Indir && f == LoadAt(b, imm)) || (i.Alu? && b == Zero && f == AluImm(i.aluOp, imm))
  }

  lemma FusedStep(b: Base, imm: Word, i: Instr, f: Instr, s: State, z: Zone)
    requires ZoneOk(s, z) && Tame(Address(b, imm), s, z) && FusesTo(b, imm, i, f)
    requires Tame(i, Step(Address(b, imm), s), z)
    ensures Tame(f, s, z) && Related(Step(i, Step(Address(b, imm), s)), Step(f, s), z)
    ensures ZoneOk(Step(f, s), z)
  {
    hide Related, Step, Tame, ZoneOk;
    if i == Indir {
      FusedLoad(b, imm, s, z);
    } else {
      FusedAlu(imm, i.aluOp, s, z);
    }
    FusedKeepsZone(f, s, z);
  }

  lemma FusedKeepsZone(f: Instr, s: State, z: Zone)
    requires ZoneOk(s, z) && Tame(f, s, z) && (f.LoadAt? || f.AluImm?)
    ensures ZoneOk(Step(f, s), z)
  {
    hide AluWord;
  }

  lemma FusedTransfer(imm: Word, s: State, z: Zone)
    requires ZoneOk(s, z) && Tame(Address(Zero, imm), s, z)
    ensures var s1 := Step(Address(Zero, imm), s);
            Top(s1, 1) == imm && Related(Pop(s1), s, z) && ZoneOk(Pop(s1), z)
  {
  }

  lemma RelatedTrans(s: State, t: State, u: State, z: Zone)
    requires Related(s, t, z) && Related(t, u, z)
    ensures Related(s, u, z)
  {
  }

  lemma ResumesTail(rs: seq<Resume>, ts: seq<Resume>)
    requires ResumesOk(rs, ts) && rs != []
    ensures ZoneOk(rs[0].s, rs[0].z) && ts != [] && ts[0].z == rs[0].z && Related(rs[0].s, ts[0].s, rs[0].z)
    ensures ResumesOk(rs[1..], ts[1..])
  {
    hide ZoneOk, Related;
  }

  /** Behind a call. */
  lemma {:induction false} ResumedFused(env: Env, prog: seq<Entry>, rest: seq<Entry>, fuel: nat, rs: seq<Resume>, ts: seq<Resume>)
    requires Separated(prog) && BytesFit(prog) && Separated(rest) && BytesFit(rest) && ResumesOk(rs, ts)
    requires !GoesWild(Resumed(env, prog, rest, fuel, rs))
    ensures SameOutcome(Resumed(env, prog, rest, fuel, rs), Resumed(env, Fused(prog), Fused(rest), fuel, ts))
    decreases |rs|, fuel, |rest|, 0
  {
    hide Related, ZoneOk, Separated, BytesFit, Run;
    if rs != [] {
      ResumesTail(rs, ts);
      RunFused(env, prog, rest, rs[0].s, ts[0].s, rs[0].z, fuel, rs[1..], ts[1..]);
    }
  }

  lemma {:induction false} TransferFused(env: Env, prog: seq<Entry>, v: Word, s: State, t: State, z: Zone, fuel: nat, rs: seq<Resume>, ts: seq<Resume>)
    requires Separated(prog) && BytesFit(prog)
    requires ZoneOk(s, z) && Related(s, t, z) && ResumesOk(rs, ts)
    requires !GoesWild(Transfer(env, prog, v, s, z, fuel, rs))
    ensures SameOutcome(Transfer(env, prog, v, s, z, fuel, rs), Transfer(env, Fused(prog), v, t, z, fuel, ts))
    decreases |rs|, fuel, 0, 0
  {
    hide Related, ZoneOk, Separated, BytesFit;
    BehindFused(env, prog, v);
    if Behind(env, prog, v).Some? && fuel > 0 {
      RunFused(env, prog, Behind(env, prog, v).value, s, t, z, fuel - 1, rs, ts);
    }
  }

  /** Any code of any program: if the code as written runs tamely, the fused code ends in the same
      way, with the same registers and the same live memory. */
  lemma {:induction false} RunFused(env: Env, prog: seq<Entry>, code: seq<Entry>, s: State, t: State, z: Zone, fuel: nat, rs: seq<Resume>, ts: seq<Resume>)
    requires Separated(prog) && BytesFit(prog) && Separated(code) && BytesFit(code)
    requires ZoneOk(s, z) && Related(s, t, z) && ResumesOk(rs, ts)
    requires !GoesWild(Run(env, prog, code, s, z, fuel, rs))
    ensures SameOutcome(Run(env, prog, code, s, z, fuel, rs), Run(env, Fused(prog), Fused(code), t, z, fuel, ts))
    decreases |rs|, fuel, |code|, 0
  {
    if code == [] {
    } else if code[0].isDirective {
      SeparatedTail(code, 1);
      assert Fused(code) == [code[0]] + Fused(code[1..]);
      if IsLabel(code[0]) {
        RunFused(env, prog, code[1..], s, t, z, fuel, rs, ts);
      }
    } else if |code| >= 2 && Fusable(code[0], code[1]) {
      RunFusedPair(env, prog, code, s, t, z, fuel, rs, ts);
    } else {
      SeparatedTail(code, 1);
      assert Fused(code) == [code[0]] + Fused(code[1..]);
      var i := Decode(env, code[0]).value;
      RunFusedInstr(env, prog, i, code[1..], s, t, z, fuel, rs, ts);
    }
  }

  lemma {:induction false} RunFusedInstr(env: Env, prog: seq<Entry>, i: Instr, rest: seq<Entry>,
                                         s: State, t: State, z: Zone, fuel: nat, rs: seq<Resume>, ts: seq<Resume>)
    requires Separated(prog) && BytesFit(prog) && Separated(rest) && BytesFit(rest)
    requires ZoneOk(s, z) && Related(s, t, z) && ResumesOk(rs, ts) && Tame(i, s, z)
    requires !GoesWild(RunInstr(env, prog, i, rest, s, z, fuel, rs))
    ensures Tame(i, t, z)
    ensures SameOutcome(RunInstr(env, prog, i, rest, s, z, fuel, rs),
                        RunInstr(env, Fused(prog), i, Fused(rest), t, z, fuel, ts))
    decreases |rs|, fuel, |rest|, 1
  {
    if FallsThrough(i) {
      SameStep(i, s, t, z);
      RunFused(env, prog, rest, Step(i, s), Step(i, t), ZoneAfter(i, s, z), fuel, rs, ts);
    } else if i.Branch? {
      SameTop(s, t, z, 1);
      SameTop(s, t, z, 2);
      SameDrop(s, t, z, 2);
      if Holds(i.cond, Top(s, 2), Top(s, 1)) {
        TransferFused(env, prog, i.target, Drop(s, 2), Drop(t, 2), z, fuel, rs, ts);
      } else {
        RunFused(env, prog, rest, Drop(s, 2), Drop(t, 2), z, fuel, rs, ts);
      }
    } else if i.CallTop? || i.JumpTop? {
      SameTop(s, t, z, 1);
      SameDrop(s, t, z, 1);
      if i.JumpTop? {
        TransferFused(env, prog, Top(s, 1), Pop(s), Pop(t), z, fuel, rs, ts);
      } else {
        ResumedFused(env, prog, rest, fuel, rs, ts);
      }
    } else if i.CallTo? {
      ResumedFused(env, prog, rest, fuel, rs, ts);
    } else if i.JumpTo? {
      TransferFused(env, prog, i.target, s, t, z, fuel, rs, ts);
    }
  }

  lemma {:induction false} RunFusedPair(env: Env, prog: seq<Entry>, code: seq<Entry>, s: State, t: State, z: Zone, fuel: nat, rs: seq<Resume>, ts: seq<Resume>)
    requires Separated(prog) && BytesFit(prog) && Separated(code) && BytesFit(code)
    requires |code| >= 2 && !code[0].isDirective && Fusable(code[0], code[1])
    requires ZoneOk(s, z) && Related(s, t, z) && ResumesOk(rs, ts)
    requires !GoesWild(Run(env, prog, code, s, z, fuel, rs))
    ensures SameOutcome(Run(env, prog, code, s, z, fuel, rs), Run(env, Fused(prog), Fused(code), t, z, fuel, ts))
    decreases |rs|, fuel, |code| - 1, 0
  {
    SeparatedTail(code, 2);
    DecodeFused(env, code[0], code[1]);
    assert !code[1].isDirective;
    var fe := Fuse(code[0], code[1]);
    assert !fe.isDirective;
    assert Fused(code) == [fe] + Fused(code[2..]);
    hide Related, Step, Separated, BytesFit, Fusable, Fuse, Decode, SameOutcome, ZoneOk, ZoneAfter;
    assert ([fe] + Fused(code[2..]))[1..] == Fused(code[2..]);
    assert code[1..][0] == code[1] && code[1..][1..] == code[2..];
    var a := Decode(env, code[0]).value;
    assert Run(env, prog, code, s, z, fuel, rs) == Run(env, prog, code[1..], Step(a, s), ZoneAfter(a, s, z), fuel, rs);
    assert ZoneAfter(a, s, z) == z by { AddressKeepsZone(a, s, z); }
    var i, f := Decode(env, code[1]).value, Decode(env, fe).value;
    assert Tame(i, Step(a, s), z);
    RunFusedPairStep(env, prog, a, i, f, code[2..], s, t, z, fuel, rs, ts);
  }

  lemma AddressKeepsZone(a: Instr, s: State, z: Zone)
    requires a.Address?
    ensures ZoneAfter(a, s, z) == z
  {
  }

  lemma {:induction false} RunFusedPairStep(env: Env, prog: seq<Entry>, a: Instr, i: Instr, f: Instr, rest: seq<Entry>,
                                            s: State, t: State, z: Zone, fuel: nat, rs: seq<Resume>, ts: seq<Resume>)
    requires Separated(prog) && BytesFit(prog) && Separated(rest) && BytesFit(rest)
    requires ZoneOk(s, z) && Related(s, t, z) && ResumesOk(rs, ts)
    requires a.Address? && Tame(a, s, z) && Tame(i, Step(a, s), z)
    requires match i
             case Indir => f == LoadAt(a.base, a.imm)
             case Alu(op) => a.base == Zero && f == AluImm(op, a.imm)
             case CallTop(k) => a.base == Zero && f == CallTo(k, a.imm)
             case JumpTop => a.base == Zero && f == JumpTo(a.imm)
             case _ => false
    requires !GoesWild(RunInstr(env, prog, i, rest, Step(a, s), z, fuel, rs))
    ensures Tame(f, t, z)
    ensures SameOutcome(RunInstr(env, prog, i, rest, Step(a, s), z, fuel, rs),
                        RunInstr(env, Fused(prog), f, Fused(rest), t, z, fuel, ts))
    decreases |rs|, fuel, |rest|, 1
  {
    var s1 := Step(a, s);
    if i.Indir? || i.Alu? {
      hide Related, Step, Separated, BytesFit;
      FusedStep(a.base, a.imm, i, f, s, z);
      SameStep(f, s, t, z);
      RelatedTrans(Step(i, s1), Step(f, s), Step(f, t), z);
      RunFused(env, prog, rest, Step(i, s1), Step(f, t), z, fuel, rs, ts);
    } else {
      FusedTransfer(a.imm, s, z);
      RelatedTrans(Pop(s1), s, t, z);
      if i.JumpTop? {
        TransferFused(env, prog, a.imm, Pop(s1), t, z, fuel, rs, ts);
      } else {
        ResumedFused(env, prog, rest, fuel, rs, ts);
      }
    }
  }

  // ----- optimize2 -----

  ghost predicate CutOk(c: seq<Entry>, k: int) {
    k < 0 || (k + 2 < |c| && SelfStore(c[k], c[k + 1], c[k + 2]))
  }

  /** The list without the three entries at k; a negative k cuts nothing. */
  function Cut(c: seq<Entry>, k: int): seq<Entry>
    requires k + 2 < |c| || k < 0
  {
    if k < 0 then c else c[..k] + c[k + 3..]
  }

  lemma BytesFitTail(c: seq<Entry>)
    requires BytesFit(c) && c != []
    ensures BytesFit(c[1..])
  {
    forall i | 0 <= i < |c[1..]| && !c[1..][i].isDirective && c[1..][i].argType == ArgChar
      ensures FitsByte(c[1..][i].arg)
    {
      assert c[1..][i] == c[i + 1];
    }
  }

  lemma BytesFitCut(c: seq<Entry>, k: int)
    requires BytesFit(c) && CutOk(c, k)
    ensures BytesFit(Cut(c, k))
  {
  }

  lemma CutTail(c: seq<Entry>, k: int)
    requires CutOk(c, k) && k != 0 && c != []
    ensures CutOk(c[1..], k - 1) && Cut(c, k)[1..] == Cut(c[1..], k - 1) && Cut(c, k)[0] == c[0]
  {
    if k > 0 {
      assert c[..k][1..] == c[1..][..k - 1];
      assert Cut(c, k)[1..] == c[..k][1..] + c[k + 3..];
    }
  }

  lemma {:induction false} BehindCut(env: Env, prog: seq<Entry>, k: int, v: Word) returns (j: int)
    requires CutOk(prog, k) && BytesFit(prog)
    ensures Behind(env, Cut(prog, k), v).None? <==> Behind(env, prog, v).None?
    ensures Behind(env, prog, v).Some? ==>
              && CutOk(Behind(env, prog, v).value, j) && BytesFit(Behind(env, prog, v).value)
              && Behind(env, Cut(prog, k), v).value == Cut(Behind(env, prog, v).value, j)
    decreases |prog|
  {
    j := -1;
    if prog == [] {
    } else if k == 0 {
      assert Cut(prog, 0) == prog[3..];
      assert prog[1..][1..] == prog[2..] && prog[2..][1..] == prog[3..];
      assert Behind(env, prog, v) == Behind(env, prog[1..], v);
      assert prog[1..][0] == prog[1];
      assert Behind(env, prog[1..], v) == Behind(env, prog[2..], v);
      assert prog[2..][0] == prog[2];
      assert Behind(env, prog[2..], v) == Behind(env, prog[3..], v);
      BytesFitTail(prog);
      BytesFitTail(prog[1..]);
      BytesFitTail(prog[2..]);
      j := BehindCut(env, prog[3..], -1, v);
    } else {
      CutTail(prog, k);
      BytesFitTail(prog);
      if IsLabel(prog[0]) && W(Value(env, prog[0].arg)) == v {
        j := k - 1;
      } else {
        j := BehindCut(env, prog[1..], k - 1, v);
      }
    }
  }

  /** Storing a word over itself leaves the state as it was, but for dead slots. */
  lemma SelfStoreStep(imm: Word, s: State, z: Zone)
    requires ZoneOk(s, z) && Tame(Address(Frame, imm), s, z)
    requires Tame(LoadAt(Frame, imm), Step(Address(Frame, imm), s), z)
    ensures var s2 := Step(LoadAt(Frame, imm), Step(Address(Frame, imm), s));
            Related(Step(Store, s2), s, z) && ZoneAfter(Store, s2, z) == z && ZoneOk(Step(Store, s2), z)
  {
    var a := AddressOf(s, Frame, imm);
    var s1 := Push(s, a);
    var s2 := Push(s1, s1.mem[a]);
    assert s1.sp == s.sp + 1 && s2.sp == s.sp + 2;
    assert s1.mem[a] == s.mem[a];
    assert Top(s2, 2) == a && Top(s2, 1) == s.mem[a];
    assert z.junk - {a} == z.junk;
  }

  lemma DecodeSelfStore(env: Env, p2: Entry, p1: Entry, it: Entry)
    requires SelfStore(p2, p1, it)
    requires p2.argType == ArgChar ==> FitsByte(p2.arg)
    requires p1.argType == ArgChar ==> FitsByte(p1.arg)
    requires Decode(env, p2).Some? && Decode(env, p1).Some? && Decode(env, it).Some?
    ensures Decode(env, p2).value == Address(Frame, W(Value(env, p2.arg)))
    ensures Decode(env, p1).value == LoadAt(Frame, W(Value(env, p2.arg)))
    ensures Decode(env, it).value == Store
  {
  }

  /** Behind a call. */
  lemma {:induction false} ResumedCut(env: Env, prog: seq<Entry>, kp: int, rest: seq<Entry>, kc: int, fuel: nat, rs: seq<Resume>, ts: seq<Resume>)
    requires CutOk(prog, kp) && BytesFit(prog) && CutOk(rest, kc) && BytesFit(rest) && ResumesOk(rs, ts)
    requires !GoesWild(Resumed(env, prog, rest, fuel, rs))
    ensures SameOutcome(Resumed(env, prog, rest, fuel, rs), Resumed(env, Cut(prog, kp), Cut(rest, kc), fuel, ts))
    decreases |rs|, fuel, |rest|, 0
  {
    hide Related, ZoneOk, CutOk, Cut, BytesFit, Run;
    if rs != [] {
      ResumesTail(rs, ts);
      RunCut(env, prog, kp, rest, kc, rs[0].s, ts[0].s, rs[0].z, fuel, rs[1..], ts[1..]);
    }
  }

  lemma {:induction false} TransferCut(env: Env, prog: seq<Entry>, kp: int, v: Word, s: State, t: State, z: Zone, fuel: nat, rs: seq<Resume>, ts: seq<Resume>)
    requires CutOk(prog, kp) && BytesFit(prog)
    requires ZoneOk(s, z) && Related(s, t, z) && ResumesOk(rs, ts)
    requires !GoesWild(Transfer(env, prog, v, s, z, fuel, rs))
    ensures SameOutcome(Transfer(env, prog, v, s, z, fuel, rs), Transfer(env, Cut(prog, kp), v, t, z, fuel, ts))
    decreases |rs|, fuel, 0, 0
  {
    hide Related, ZoneOk, BytesFit;
    var j := BehindCut(env, prog, kp, v);
    if Behind(env, prog, v).Some? && fuel > 0 {
      RunCut(env, prog, kp, Behind(env, prog, v).value, j, s, t, z, fuel - 1, rs, ts);
    }
  }

  /** Deleting one self-store from the program, and possibly from the code still to run, is not seen. */
  lemma {:induction false} RunCut(env: Env, prog: seq<Entry>, kp: int, code: seq<Entry>, kc: int,
                                  s: State, t: State, z: Zone, fuel: nat, rs: seq<Resume>, ts: seq<Resume>)
    requires CutOk(prog, kp) && BytesFit(prog) && CutOk(code, kc) && BytesFit(code)
    requires ZoneOk(s, z) && Related(s, t, z) && ResumesOk(rs, ts)
    requires !GoesWild(Run(env, prog, code, s, z, fuel, rs))
    ensures SameOutcome(Run(env, prog, code, s, z, fuel, rs), Run(env, Cut(prog, kp), Cut(code, kc), t, z, fuel, ts))
    decreases |rs|, fuel, |code|, 0
  {
    if code == [] {
    } else if kc == 0 {
      RunCutHere(env, prog, kp, code, s, t, z, fuel, rs, ts);
    } else {
      CutTail(code, kc);
      BytesFitTail(code);
      if code[0].isDirective {
        if IsLabel(code[0]) {
          RunCut(env, prog, kp, code[1..], kc - 1, s, t, z, fuel, rs, ts);
        }
      } else {
        RunCutInstr(env, prog, kp, Decode(env, code[0]).value, code[1..], kc - 1, s, t, z, fuel, rs, ts);
      }
    }
  }

  lemma {:induction false} RunCutInstr(env: Env, prog: seq<Entry>, kp: int, i: Instr, rest: seq<Entry>, kc: int,
                                       s: State, t: State, z: Zone, fuel: nat, rs: seq<Resume>, ts: seq<Resume>)
    requires CutOk(prog, kp) && BytesFit(prog) && CutOk(rest, kc) && BytesFit(rest)
    requires ZoneOk(s, z) && Related(s, t, z) && ResumesOk(rs, ts) && Tame(i, s, z)
    requires !GoesWild(RunInstr(env, prog, i, rest, s, z, fuel, rs))
    ensures Tame(i, t, z)
    ensures SameOutcome(RunInstr(env, prog, i, rest, s, z, fuel, rs),
                        RunInstr(env, Cut(prog, kp), i, Cut(rest, kc), t, z, fuel, ts))
    decreases |rs|, fuel, |rest|, 1
  {
    if FallsThrough(i) {
      SameStep(i, s, t, z);
      RunCut(env, prog, kp, rest, kc, Step(i, s), Step(i, t), ZoneAfter(i, s, z), fuel, rs, ts);
    } else if i.Branch? {
      SameTop(s, t, z, 1);
      SameTop(s, t, z, 2);
      SameDrop(s, t, z, 2);
      if Holds(i.cond, Top(s, 2), Top(s, 1)) {
        TransferCut(env, prog, kp, i.target, Drop(s, 2), Drop(t, 2), z, fuel, rs, ts);
      } else {
        RunCut(env, prog, kp, rest, kc, Drop(s, 2), Drop(t, 2), z, fuel, rs, ts);
      }
    } else if i.CallTop? || i.JumpTop? {
      SameTop(s, t, z, 1);
      SameDrop(s, t, z, 1);
      if i.JumpTop? {
        TransferCut(env, prog, kp, Top(s, 1), Pop(s), Pop(t), z, fuel, rs, ts);
      } else {
        ResumedCut(env, prog, kp, rest, kc, fuel, rs, ts);
      }
    } else if i.CallTo? {
      ResumedCut(env, prog, kp, rest, kc, fuel, rs, ts);
    } else if i.JumpTo? {
      TransferCut(env, prog, kp, i.target, s, t, z, fuel, rs, ts);
    }
  }

  lemma {:induction false} RunCutHere(env: Env, prog: seq<Entry>, kp: int, code: seq<Entry>,
                                      s: State, t: State, z: Zone, fuel: nat, rs: seq<Resume>, ts: seq<Resume>)
    requires CutOk(prog, kp) && BytesFit(prog) && |code| >= 3 && CutOk(code, 0) && BytesFit(code)
    requires ZoneOk(s, z) && Related(s, t, z) && ResumesOk(rs, ts)
    requires !GoesWild(Run(env, prog, code, s, z, fuel, rs))
    ensures SameOutcome(Run(env, prog, code, s, z, fuel, rs), Run(env, Cut(prog, kp), Cut(code, 0), t, z, fuel, ts))
    decreases |rs|, fuel, |code| - 1, 0
  {
    var c1, c2, c3 := code[1..], code[2..], code[3..];
    assert c1[0] == code[1] && c1[1..] == c2 && c2[0] == code[2] && c2[1..] == c3;
    BytesFitTail(code);
    BytesFitTail(c1);
    BytesFitTail(c2);
    var i0 := Decode(env, code[0]).value;
    var s1 := Step(i0, s);
    assert Run(env, prog, code, s, z, fuel, rs) == Run(env, prog, c1, s1, z, fuel, rs);
    var i1 := Decode(env, code[1]).value;
    var s2 := Step(i1, s1);
    assert Run(env, prog, c1, s1, z, fuel, rs) == Run(env, prog, c2, s2, z, fuel, rs);
    DecodeSelfStore(env, code[0], code[1], code[2]);
    SelfStoreStep(i0.imm, s, z);
    var s3 := Step(Store, s2);
    assert Run(env, prog, c2, s2, z, fuel, rs) == Run(env, prog, c3, s3, z, fuel, rs);
    RelatedTrans(s3, s, t, z);
    assert Cut(code, 0) == c3;
    RunCut(env, prog, kp, c3, -1, s3, t, z, fuel, rs, ts);
  }

  // ----- the passes as a whole -----

  /** A run of a whole list: from its first entry, or from the label with a given address. */
  function Start(env: Env, code: seq<Entry>, at: Option<Word>, s: State, z: Zone, fuel: nat, rs: seq<Resume>): Outcome {
    match at
    case None => Run(env, code, code, s, z, fuel, rs)
    case Some(v) => Transfer(env, code, v, s, z, fuel, rs)
  }

  lemma {:induction false} SameOutcomeTrans(o: Outcome, p: Outcome, q: Outcome)
    requires SameOutcome(o, p) && SameOutcome(p, q)
    ensures SameOutcome(o, q)
  {
    hide Related;
    RelatedAll();
    if o.Called? {
      SameOutcomeTrans(o.after, p.after, q.after);
    }
  }

  lemma RelatedAll()
    ensures forall s, t, u, z | Related(s, t, z) && Related(t, u, z) :: Related(s, u, z)
  {
  }

  lemma {:induction false} SameOutcomeWild(o: Outcome, p: Outcome)
    requires SameOutcome(o, p)
    ensures GoesWild(o) <==> GoesWild(p)
  {
    if o.Called? {
      SameOutcomeWild(o.after, p.after);
    }
  }

  lemma {:induction false} BytesFitFused(code: seq<Entry>)
    requires BytesFit(code)
    ensures BytesFit(Fused(code))
    decreases |code|
  {
    if |code| >= 2 && Fusable(code[0], code[1]) {
      BytesFitTail(code);
      BytesFitTail(code[1..]);
      assert code[1..][1..] == code[2..];
      BytesFitFused(code[2..]);
    } else if code != [] {
      BytesFitTail(code);
      BytesFitFused(code[1..]);
    }
  }

  lemma ResumesSelf(rs: seq<Resume>, ts: seq<Resume>)
    requires ResumesOk(rs, ts)
    ensures ResumesOk(rs, rs)
  {
    hide ZoneOk;
  }

  lemma {:induction false} SelfStoresCut(env: Env, done: seq<Entry>, rest: seq<Entry>, at: Option<Word>,
                                         s: State, t: State, z: Zone, fuel: nat, rs: seq<Resume>, ts: seq<Resume>)
    requires BytesFit(done + rest) && ZoneOk(s, z) && Related(s, t, z) && ResumesOk(rs, ts)
    requires !GoesWild(Start(env, done + rest, at, s, z, fuel, rs))
    ensures SameOutcome(Start(env, done + rest, at, s, z, fuel, rs), Start(env, Optimize2From(done, rest), at, t, z, fuel, ts))
    decreases |rest|
  {
    assert Related(s, s, z);
    hide Related, ZoneOk, SameOutcome, BytesFit, GoesWild, ResumesOk;
    var code := done + rest;
    if rest == [] {
      assert code == done && Cut(code, -1) == code;
      StartCut(env, code, -1, at, s, t, z, fuel, rs, ts);
    } else if |done| >= 2 && SelfStore(done[|done| - 2], done[|done| - 1], rest[0]) {
      var k := |done| - 2;
      var kept := done[..k];
      assert Cut(code, k) == kept + rest[1..];
      BytesFitCut(code, k);
      ResumesSelf(rs, ts);
      StartCut(env, code, k, at, s, s, z, fuel, rs, rs);
      SelfStoresCut(env, kept, rest[1..], at, s, t, z, fuel, rs, ts);
      SameOutcomeTrans(Start(env, code, at, s, z, fuel, rs), Start(env, kept + rest[1..], at, s, z, fuel, rs),
                       Start(env, Optimize2From(kept, rest[1..]), at, t, z, fuel, ts));
    } else {
      assert done + [rest[0]] + rest[1..] == code;
      SelfStoresCut(env, done + [rest[0]], rest[1..], at, s, t, z, fuel, rs, ts);
    }
  }

  lemma StartCut(env: Env, code: seq<Entry>, k: int, at: Option<Word>, s: State, t: State, z: Zone, fuel: nat, rs: seq<Resume>, ts: seq<Resume>)
    requires CutOk(code, k) && BytesFit(code) && ZoneOk(s, z) && Related(s, t, z) && ResumesOk(rs, ts)
    requires !GoesWild(Start(env, code, at, s, z, fuel, rs))
    ensures SameOutcome(Start(env, code, at, s, z, fuel, rs), Start(env, Cut(code, k), at, t, z, fuel, ts))
    ensures !GoesWild(Start(env, Cut(code, k), at, t, z, fuel, ts))
  {
    hide ZoneOk, Related, Run, Transfer, ResumesOk;
    match at {
      case None => RunCut(env, code, k, code, k, s, t, z, fuel, rs, ts);
      case Some(v) => TransferCut(env, code, k, v, s, t, z, fuel, rs, ts);
    }
    SameOutcomeWild(Start(env, code, at, s, z, fuel, rs), Start(env, Cut(code, k), at, t, z, fuel, ts));
  }

  /** The main result: wherever a tame run of the translated list starts, both passes end in the
      same way, at the same registers and the same memory outside dead stack words and junk.  The run goes on
      behind every call, in any states related like that, as long as there is a state to return to. */
  lemma {:induction false} PassesKeepMeaning(env: Env, code: seq<Entry>, at: Option<Word>, s: State, t: State, z: Zone, fuel: nat,
                                             rs: seq<Resume>, ts: seq<Resume>)
    requires Separated(code) && BytesFit(code) && ZoneOk(s, z) && Related(s, t, z) && ResumesOk(rs, ts)
    requires !GoesWild(Start(env, code, at, s, z, fuel, rs))
    ensures var once := OptimizeFrom([], code);
            var twice := Optimize2From([], once);
            && SameOutcome(Start(env, code, at, s, z, fuel, rs), Start(env, once, at, t, z, fuel, ts))
            && SameOutcome(Start(env, code, at, s, z, fuel, rs), Start(env, twice, at, t, z, fuel, ts))
  {
    assert Related(s, s, z);
    hide ZoneOk, Related, Run, Transfer, Separated, BytesFit, GoesWild, SameOutcome, ResumesOk;
    ResumesSelf(rs, ts);
    OptimizeIsFused(code);
    match at {
      case None =>
        RunFused(env, code, code, s, s, z, fuel, rs, rs);
        RunFused(env, code, code, s, t, z, fuel, rs, ts);
      case Some(v) =>
        TransferFused(env, code, v, s, s, z, fuel, rs, rs);
        TransferFused(env, code, v, s, t, z, fuel, rs, ts);
    }
    var once := Fused(code);
    BytesFitFused(code);
    assert [] + once == once;
    SameOutcomeWild(Start(env, code, at, s, z, fuel, rs), Start(env, once, at, s, z, fuel, rs));
    SelfStoresCut(env, [], once, at, s, t, z, fuel, rs, ts);
    SameOutcomeTrans(Start(env, code, at, s, z, fuel, rs), Start(env, once, at, s, z, fuel, rs),
                     Start(env, Optimize2From([], once), at, t, z, fuel, ts));
  }

  // ----- nothing is left to do -----

  ghost predicate Decodes(env: Env, code: seq<Entry>) {
    forall i | 0 <= i < |code| && !code[i].isDirective :: Decode(env, code[i]).Some?
  }

  /** What one instruction does together: an address that is loaded from, and a constant that is operand or target. */
  predicate Combines(env: Env, a: Entry, b: Entry) {
    && !a.isDirective && !b.isDirective && Decode(env, a).Some? && Decode(env, b).Some?
    && var i, j := Decode(env, a).value, Decode(env, b).value;
       i.Address? && (j.Indir? || (i.base == Zero && (j.Alu? || j.CallTop? || j.JumpTop?)))
  }

  lemma CombinesFuses(env: Env, a: Entry, b: Entry)
    requires Combines(env, a, b)
    ensures Fusable(a, b)
  {
  }

  lemma FusedTakesNothing(env: Env, a: Entry, p: Entry, q: Entry)
    requires Fusable(p, q) && !p.isDirective && Decode(env, p).Some?
    ensures !Combines(env, a, Fuse(p, q))
  {
  }

  /** After the first pass no instruction stands directly behind one it could be combined with. */
  lemma {:induction false} FirstPassIsDone(env: Env, code: seq<Entry>)
    requires Decodes(env, code) && Separated(code)
    ensures var once := Fused(code);
            forall i | 0 <= i < |once| - 1 :: !Combines(env, once[i], once[i + 1])
    decreases |code|
  {
    if |code| >= 2 {
      var fuses := Fusable(code[0], code[1]);
      var rest := if fuses then code[2..] else code[1..];
      var e := if fuses then Fuse(code[0], code[1]) else code[0];
      assert Fused(code) == [e] + Fused(rest);
      RestDecodes(env, code, if fuses then 2 else 1);
      FirstPassIsDone(env, rest);
      if rest != [] && Combines(env, e, Fused(rest)[0]) {
        FirstOfFused(env, e, rest);
        CombinesFuses(env, e, rest[0]);
        if fuses {
          FusedNeverFuses(code[0], code[1], rest[0]);
        }
      }
      hide Fusable, Fuse, Combines, Decodes, Separated;
      forall i | 0 <= i < |Fused(code)| - 1 ensures !Combines(env, Fused(code)[i], Fused(code)[i + 1]) {
        if i > 0 {
          assert Fused(code)[i] == Fused(rest)[i - 1] && Fused(code)[i + 1] == Fused(rest)[i];
        } else {
          assert Fused(code)[1] == Fused(rest)[0];
        }
      }
    }
  }

  lemma RestDecodes(env: Env, code: seq<Entry>, k: nat)
    requires Decodes(env, code) && Separated(code) && k <= |code|
    ensures Decodes(env, code[k..]) && Separated(code[k..])
  {
    forall i | 0 <= i < |code[k..]| - 1 && code[k..][i].isDirective ensures !Fusable(code[k..][i], code[k..][i + 1]) {
      assert code[i + k] == code[k..][i] && code[i + k + 1] == code[k..][i + 1];
    }
    hide Fusable, Decode;
  }

  lemma {:induction false} FirstOfFused(env: Env, e: Entry, rest: seq<Entry>)
    requires rest != [] && Decodes(env, rest) && Separated(rest) && Fused(rest) != [] && Combines(env, e, Fused(rest)[0])
    ensures Fused(rest)[0] == rest[0]
  {
    if |rest| >= 2 && Fusable(rest[0], rest[1]) {
      assert !rest[0].isDirective;
      FusedTakesNothing(env, e, rest[0], rest[1]);
    }
  }

  /** An argument is loaded and stored where it was. */
  predicate StoresItself(env: Env, a: Entry, b: Entry, c: Entry) {
    && !a.isDirective && !b.isDirective && !c.isDirective
    && Decode(env, a).Some? && Decode(env, b).Some? && Decode(env, c) == Some(Store)
    && var i, j := Decode(env, a).value, Decode(env, b).value;
       i.Address? && i.base == Frame && j.LoadAt? && j.base == Frame && a.arg == b.arg
  }

  ghost predicate NoneStoresItself(env: Env, code: seq<Entry>) {
    forall i | 0 <= i < |code| - 2 :: !StoresItself(env, code[i], code[i + 1], code[i + 2])
  }

  lemma StoresItselfIsCut(env: Env, a: Entry, b: Entry, c: Entry)
    requires StoresItself(env, a, b, c)
    ensures SelfStore(a, b, c)
  {
  }

  /** After the second pass none is left, also where entries have come together. */
  lemma {:induction false} SecondPassIsDone(env: Env, done: seq<Entry>, rest: seq<Entry>)
    requires NoneStoresItself(env, done)
    ensures NoneStoresItself(env, Optimize2From(done, rest))
    decreases |rest|
  {
    hide StoresItself, SelfStore;
    if rest != [] {
      if |done| >= 2 && SelfStore(done[|done| - 2], done[|done| - 1], rest[0]) {
        SecondPassIsDone(env, done[..|done| - 2], rest[1..]);
      } else {
        var more := done + [rest[0]];
        forall i | 0 <= i < |more| - 2 ensures !StoresItself(env, more[i], more[i + 1], more[i + 2]) {
          if i == |more| - 3 {
            assert more[i] == done[|done| - 2] && more[i + 1] == done[|done| - 1] && more[i + 2] == rest[0];
            if StoresItself(env, more[i], more[i + 1], more[i + 2]) {
              StoresItselfIsCut(env, more[i], more[i + 1], more[i + 2]);
            }
          } else {
            assert !StoresItself(env, done[i], done[i + 1], done[i + 2]);
          }
        }
        SecondPassIsDone(env, more, rest[1..]);
      }
    }
  }

  // ----- directives -----

  function Directives(code: seq<Entry>): seq<Entry> {
    if code == [] then []
    else (if code[0].isDirective then [code[0]] else []) + Directives(code[1..])
  }

  /** The first pass leaves the directives as they are exactly when no operation it could fuse
      follows a directive that shares its number with `addrf`, `addrl`, `cnst` or `addrs`. */
  lemma {:induction false} DirectivesKept(code: seq<Entry>)
    ensures Directives(Fused(code)) == Directives(code) <==> Separated(code)
    decreases |code|
  {
    if |code| >= 2 && Fusable(code[0], code[1]) {
      var f := Fuse(code[0], code[1]);
      assert ([f] + Fused(code[2..]))[1..] == Fused(code[2..]);
      assert code[1..][1..] == code[2..];
      if code[0].isDirective {
        assert f != code[0];
        assert Directives(Fused(code))[0] == f;
        assert Directives(code)[0] == code[0];
      } else {
        assert code[1..][0] == code[1];
        assert Directives(code) == Directives(code[1..]) == Directives(code[2..]);
        DirectivesKept(code[2..]);
        SeparatedFromTail(code, 2);
      }
    } else if code != [] {
      assert ([code[0]] + Fused(code[1..]))[1..] == Fused(code[1..]);
      DirectivesKept(code[1..]);
      SeparatedFromTail(code, 1);
      SamePrefix(if code[0].isDirective then [code[0]] else [], Directives(Fused(code[1..])), Directives(code[1..]));
    }
  }

  lemma SamePrefix(x: seq<Entry>, a: seq<Entry>, b: seq<Entry>)
    ensures x + a == x + b <==> a == b
  {
    assert (x + a)[|x|..] == a && (x + b)[|x|..] == b;
  }

  lemma SeparatedFromTail(code: seq<Entry>, k: nat)
    requires 1 <= k <= 2 && k <= |code|
    requires forall i | 0 <= i < k && i < |code| - 1 && code[i].isDirective :: !Fusable(code[i], code[i + 1])
    ensures Separated(code) <==> Separated(code[k..])
  {
    if Separated(code[k..]) {
      forall i | 0 <= i < |code| - 1 && code[i].isDirective
        ensures !Fusable(code[i], code[i + 1])
      {
        if i >= k {
          assert code[i] == code[k..][i - k] && code[i + 1] == code[k..][i - k + 1];
        }
      }
    } else {
      var i :| 0 <= i < |code[k..]| - 1 && code[k..][i].isDirective && Fusable(code[k..][i], code[k..][i + 1]);
      assert code[k..][i] == code[k + i] && code[k..][i + 1] == code[k + i + 1];
    }
  }

  /** Labels are never in danger: the number of `label` is none of the four. */
  lemma LabelsAreSafe(lab: Entry, it: Entry)
    requires IsLabel(lab)
    ensures !Fusable(lab, it)
  {
  }

  /** A load right behind `proc` would vanish into the directive. */
  lemma LoadAfterProcVanishes()
    ensures var code := [Directive(D_PROC, Symbol("f", 0)), Op(INDIR)];
            !Separated(code) && |Fused(code)| == 1
  {
    var code := [Directive(D_PROC, Symbol("f", 0)), Op(INDIR)];
    assert Fusable(code[0], code[1]);
  }
}

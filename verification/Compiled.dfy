/** A whole procedure, from the list of roots the compiler prints (lcc/src/xbytecode.c:81-165) through the
    translator and its two passes (binutils/trans2.cpp:22-40, 153-548) to the simulator's
    instructions: assignments, arguments, tests, jumps, labels, calls and returns. */
module Compiled {
  import opened Words
  import opened Sim
  import opened Trans2
  import opened Peephole
  import opened Xbytecode

  datatype Root =
    | Assign(asgn: Assignment)
    | Pass(value: Expr)
    | Test(cond: Cond, left: Expr, right: Expr, lab: string)
    | Goto(lab: string)
    | Place(lab: string)
    | Invoke(callee: Expr, words: nat)
    | Receive(addr: Expr, callee: Expr, words: nat)
    | Leave(result: Option<Expr>)

  predicate TypedTree(e: Expr) {
    Typed(e) && TextsOk(e)
  }

  predicate TypedRoot(r: Root) {
    match r
    case Assign(a) => TypedAssignment(a)
    case Pass(e) => TypedTree(e)
    case Test(_, x, y, _) => TypedTree(x) && TypedTree(y) && Width(x) == Width(y) == 1
    case Invoke(e, k) => TypedTree(e) && Width(e) == 1 && k <= 2
    case Receive(a, e, k) => TypedTree(a) && TypedTree(e) && Width(a) == Width(e) == 1 && 1 <= k <= 2
    case Leave(e) => e.Some? ==> TypedTree(e.value)
    case _ => true
  }

  predicate TypedRoots(f: seq<Root>) {
    forall i | 0 <= i < |f| :: TypedRoot(f[i])
  }

  // ----- what is printed -----

  function DumpRoot(r: Root): seq<Line> {
    match r
    case Assign(a) => DumpAssignment(a)
    case Pass(e) => DumpTree(e) + [LArg(Width(e))]
    case Test(c, x, y, lab) => DumpTree(x) + (DumpTree(y) + [LCompare(c, "", 1, Symbol(lab, 0))])
    case Goto(lab) => [LAddrG(Symbol(lab, 0))] + [LJump]
    case Place(lab) => [LLabel(Symbol(lab, 0))]
    case Invoke(e, k) => DumpTree(e) + ([LCall(k)] + [LDiscard(k)])
    case Receive(a, e, k) => DumpTree(a) + (DumpTree(e) + ([LCall(k)] + [LAsgn(k)]))
    case Leave(None) => [LRet(0)]
    case Leave(Some(e)) => DumpTree(e) + [LRet(Width(e))]
  }

  function DumpRoots(f: seq<Root>): seq<Line> {
    if f == [] then [] else DumpRoot(f[0]) + DumpRoots(f[1..])
  }

  // ----- what a list of roots means -----

  /** The words an argument takes in the argument area; a call starts the area anew. */
  function NextCounter(r: Root, n: nat): nat {
    match r
    case Pass(e) => n + Width(e)
    case Invoke(_, _) => 0
    case Receive(_, _, _) => 0
    case _ => n
  }

  /** A place in the list, and the position of the next argument there. */
  datatype Spot = Spot(rest: seq<Root>, counter: nat)

  /** The roots behind a label. */
  function SpotOf(f: seq<Root>, n: nat, lab: string): Option<Spot> {
    if f == [] then None
    else if f[0] == Place(lab) then Some(Spot(f[1..], n))
    else SpotOf(f[1..], NextCounter(f[0], n), lab)
  }

  /** There is room to evaluate a tree, and it loads written words outside the evaluation stack. */
  ghost predicate TreeOk(env: Env, nArgs: nat, s: State, e: Expr, z: Zone) {
    s.sp + Depth(e) <= z.limit && ReadsOk(env, nArgs, s, e, z)
  }

  predicate TargetOk(p: Word, size: nat, z: Zone) {
    Outside(p, z) && (size == 2 ==> Outside(W(p + 1), z))
  }

  ghost predicate RootOk(env: Env, nArgs: nat, n: nat, s: State, r: Root, z: Zone) {
    match r
    case Assign(a) => AssignmentOk(env, nArgs, s, a, z)
    case Pass(e) => KeepOk(env, nArgs, W(s.bp + n), s, e, z)
    case Test(_, x, y, _) =>
      TreeOk(env, nArgs, s, x, z) && s.sp + 1 + Depth(y) <= z.limit && ReadsOk(env, nArgs, s, y, z)
    case Goto(_) => s.sp + 1 <= z.limit
    case Place(_) => true
    case Invoke(e, _) => TreeOk(env, nArgs, s, e, z)
    case Receive(x, y, _) =>
      TreeOk(env, nArgs, s, x, z) && s.sp + 1 + Depth(y) <= z.limit && ReadsOk(env, nArgs, s, y, z)
    case Leave(None) => true
    case Leave(Some(e)) => KeepOk(env, nArgs, ResultAt(s, Width(e)), s, e, z)
  }

  ghost predicate KeepOk(env: Env, nArgs: nat, p: Word, s: State, e: Expr, z: Zone) {
    TreeOk(env, nArgs, s, e, z) && s.sp + Width(e) + 1 <= z.limit && TargetOk(p, Width(e), z)
  }

  /** The words the caller keeps free for a result, below the four words saved by the call. */
  function ResultAt(s: State, size: nat): Word {
    W(s.bp - 4 - size)
  }

  /** A tree's value stored at an address. */
  function Kept(env: Env, nArgs: nat, p: Word, s: State, e: Expr): State {
    StoredValue(s, p, Eval(env, nArgs, s, e), Width(e))
  }

  function ZoneKept(p: Word, size: nat, z: Zone): Zone {
    z.(junk := z.junk - if size == 1 then {p} else {p, W(p + 1)})
  }

  function StoreOf(k: nat): Instr {
    if k == 1 then Store else Store2
  }

  /** A call has left its result on top of the address it goes to. */
  predicate ReceiveOk(p: Word, k: nat, r: Resume) {
    Tame(StoreOf(k), r.s, r.z) && Top(r.s, k + 1) == p
  }

  /** The result is stored at the address below it. */
  function Received(k: nat, r: Resume): Resume {
    Resume(Step(StoreOf(k), r.s), ZoneAfter(StoreOf(k), r.s, r.z))
  }

  /** The roots of f, one after the other, in a procedure with the roots `all`.  A label not in the
      list leaves the procedure; a jump uses fuel; a call is answered by a state to return to, and the
      result on top of it is discarded, or stored at an address computed before the call. */
  ghost function Meant(env: Env, nArgs: nat, all: seq<Root>, f: seq<Root>, n: nat, s: State, z: Zone,
                       fuel: nat, rs: seq<Resume>): Outcome
    decreases |rs|, fuel, |f|, 1
  {
    if f == [] then Fell(s, z)
    else if !RootOk(env, nArgs, n, s, f[0], z) then Wild
    else
      var n1 := NextCounter(f[0], n);
      match f[0]
      case Assign(a) =>
        Meant(env, nArgs, all, f[1..], n1, Assigned(env, nArgs, s, a), ZoneAssigned(env, nArgs, s, a, z), fuel, rs)
      case Pass(e) =>
        var p := W(s.bp + n);
        Meant(env, nArgs, all, f[1..], n1, Kept(env, nArgs, p, s, e), ZoneKept(p, Width(e), z), fuel, rs)
      case Test(c, x, y, lab) =>
        if Holds(c, W(Eval(env, nArgs, s, x)), W(Eval(env, nArgs, s, y))) then MeantAt(env, nArgs, all, lab, s, z, fuel, rs)
        else Meant(env, nArgs, all, f[1..], n1, s, z, fuel, rs)
      case Goto(lab) => MeantAt(env, nArgs, all, lab, s, z, fuel, rs)
      case Place(_) => Meant(env, nArgs, all, f[1..], n1, s, z, fuel, rs)
      case Invoke(e, k) =>
        Called(k, W(Eval(env, nArgs, s, e)), s, z,
               if rs == [] then Waiting
               else if rs[0].s.sp - k < rs[0].z.base then Wild
               else Meant(env, nArgs, all, f[1..], n1, Drop(rs[0].s, k), rs[0].z, fuel, rs[1..]))
      case Receive(a, e, k) =>
        var p: Word := W(Eval(env, nArgs, s, a));
        Called(k, W(Eval(env, nArgs, s, e)), Push(s, p), z,
               if rs == [] then Waiting
               else if !ReceiveOk(p, k, rs[0]) then Wild
               else
                 var t := Received(k, rs[0]);
                 Meant(env, nArgs, all, f[1..], n1, t.s, t.z, fuel, rs[1..]))
      case Leave(None) => Returned(s, z)
      case Leave(Some(e)) =>
        var p := ResultAt(s, Width(e));
        Returned(Kept(env, nArgs, p, s, e), ZoneKept(p, Width(e), z))
  }

  ghost function MeantAt(env: Env, nArgs: nat, all: seq<Root>, lab: string, s: State, z: Zone,
                         fuel: nat, rs: seq<Resume>): Outcome
    decreases |rs|, fuel, 0, 0
  {
    match SpotOf(all, 0, lab)
    case None => Left(env(lab), s, z)
    case Some(spot) =>
      if fuel == 0 then NoFuel(s, z) else Meant(env, nArgs, all, spot.rest, spot.counter, s, z, fuel - 1, rs)
  }

  // ----- the code -----

  function RootCode(nArgs: nat, n: nat, r: Root): seq<Entry>
    requires TypedRoot(r)
  {
    match r
    case Assign(a) => AssignmentCode(nArgs, a)
    case Pass(e) => Code(nArgs, e) + ArgCode(Width(e), n)
    case Test(c, x, y, lab) => Code(nArgs, x) + (Code(nArgs, y) + TestCode(c, lab))
    case Goto(lab) => GotoCode(lab)
    case Place(lab) => [Label(Symbol(lab, 0))]
    case Invoke(e, k) => Code(nArgs, e) + CallCode(k)
    case Receive(a, e, k) => Code(nArgs, a) + (Code(nArgs, e) + ReceiveCode(k))
    case Leave(None) => RetEntries(0)
    case Leave(Some(e)) => Code(nArgs, e) + RetEntries(Width(e))
  }

  function ArgCode(size: nat, n: nat): seq<Entry> {
    [Op(ADDRL, Number(n), SizeWord, ByteOrWord(n)), Op(RSTORE, Empty, SizeOf(size))]
  }

  function TestCode(c: Cond, lab: string): seq<Entry> {
    [Op(NameOfCond(c), Symbol(lab, 0), SizeWord, ArgLink)]
  }

  function GotoCode(lab: string): seq<Entry> {
    [Op(CNST, Symbol(lab, 0), SizeWord, ArgLink)] + [Op(JUMP)]
  }

  function CallCode(k: nat): seq<Entry> {
    [Op(CALL0 + k)] + DiscardCode(k)
  }

  function ReceiveCode(k: nat): seq<Entry> {
    [Op(CALL0 + k)] + [Op(STORE, Empty, SizeOf(k))]
  }

  function DiscardCode(k: nat): seq<Entry> {
    if k == 0 then [] else [Op(DISCARD, Number(k), SizeWord, KindOf(Number(k)))]
  }

  function RootsCode(nArgs: nat, n: nat, f: seq<Root>): seq<Entry>
    requires TypedRoots(f)
    decreases |f|
  {
    if f == [] then [] else RootCode(nArgs, n, f[0]) + RootsCode(nArgs, NextCounter(f[0], n), f[1..])
  }

  // ----- the translator's output is this code -----

  lemma {:induction false} LastLine(e: Expr, l: Line, code: seq<Entry>, rest: seq<Line>, out: seq<Entry>, nArgs: nat, n: nat)
    requires Typed(e) && Accepted(l) && !l.LShift? && AllAccepted(rest) && code == Emitted(l, nArgs, n)
    ensures AllAccepted(DumpTree(e) + [l] + rest)
    ensures TranslatedAll(DumpTree(e) + [l] + rest, out, nArgs, n) ==
            TranslatedAll(rest, out + (Code(nArgs, e) + code), nArgs, NextArg(l, n))
  {
    OneLine(l, rest, out + Code(nArgs, e), nArgs, n);
    assert Translated(l, out + Code(nArgs, e), nArgs, n) == out + Code(nArgs, e) + code;
    hide TranslatedAll, AllAccepted, Code, DumpTree, Emitted, Translated;
    TranslateTree(e, [l] + rest, out, nArgs, n);
    Assoc(DumpTree(e), [l], rest);
    Assoc(out, Code(nArgs, e), code);
  }

  lemma {:induction false} TranslateTest(r: Root, rest: seq<Line>, out: seq<Entry>, nArgs: nat, n: nat)
    requires TypedRoot(r) && r.Test? && AllAccepted(rest)
    ensures AllAccepted(DumpRoot(r) + rest)
    ensures TranslatedAll(DumpRoot(r) + rest, out, nArgs, n) ==
            TranslatedAll(rest, out + RootCode(nArgs, n, r), nArgs, n)
  {
    var Test(c, x, y, lab) := r;
    var l := LCompare(c, "", 1, Symbol(lab, 0));
    var code := TestCode(c, lab);
    assert Emitted(l, nArgs, n) == code && Accepted(l);
    assert DumpRoot(r) == DumpTree(x) + (DumpTree(y) + [l]);
    assert RootCode(nArgs, n, r) == Code(nArgs, x) + (Code(nArgs, y) + code);
    hide TranslatedAll, AllAccepted, Code, DumpTree, Emitted, DumpRoot, RootCode, TestCode;
    LastLine(y, l, code, rest, out + Code(nArgs, x), nArgs, n);
    TranslateTree(x, DumpTree(y) + [l] + rest, out, nArgs, n);
    Assoc(DumpTree(x), DumpTree(y) + [l], rest);
    Assoc(out, Code(nArgs, x), Code(nArgs, y) + code);
  }

  lemma {:induction false} TwoLines(k: Line, l: Line, codek: seq<Entry>, codel: seq<Entry>, rest: seq<Line>, out: seq<Entry>, nArgs: nat,
                                    n: nat)
    requires Accepted(k) && !k.LShift? && Accepted(l) && !l.LShift? && AllAccepted(rest)
    requires codek == Emitted(k, nArgs, n) && codel == Emitted(l, nArgs, NextArg(k, n))
    ensures AllAccepted([k] + [l] + rest)
    ensures TranslatedAll([k] + [l] + rest, out, nArgs, n) ==
            TranslatedAll(rest, out + (codek + codel), nArgs, NextArg(l, NextArg(k, n)))
  {
    assert Translated(k, out, nArgs, n) == out + codek;
    assert Translated(l, out + codek, nArgs, NextArg(k, n)) == out + codek + codel;
    hide TranslatedAll, AllAccepted, Emitted, Translated;
    OneLine(l, rest, out + codek, nArgs, NextArg(k, n));
    OneLine(k, [l] + rest, out, nArgs, n);
    Assoc([k], [l], rest);
    Assoc(out, codek, codel);
  }

  lemma {:induction false} TranslateInvoke(r: Root, rest: seq<Line>, out: seq<Entry>, nArgs: nat, n: nat)
    requires TypedRoot(r) && r.Invoke? && AllAccepted(rest)
    ensures AllAccepted(DumpRoot(r) + rest)
    ensures TranslatedAll(DumpRoot(r) + rest, out, nArgs, n) ==
            TranslatedAll(rest, out + RootCode(nArgs, n, r), nArgs, 0)
  {
    var Invoke(e, k) := r;
    var l, d := LCall(k), LDiscard(k);
    assert Emitted(l, nArgs, n) == [Op(CALL0 + k)] && Emitted(d, nArgs, 0) == DiscardCode(k) && Accepted(l);
    assert DumpRoot(r) == DumpTree(e) + ([l] + [d]);
    assert RootCode(nArgs, n, r) == Code(nArgs, e) + ([Op(CALL0 + k)] + DiscardCode(k));
    hide TranslatedAll, AllAccepted, Code, DumpTree, Emitted, DumpRoot, RootCode, DiscardCode;
    TwoLines(l, d, [Op(CALL0 + k)], DiscardCode(k), rest, out + Code(nArgs, e), nArgs, n);
    TranslateTree(e, [l] + [d] + rest, out, nArgs, n);
    Assoc(DumpTree(e), [l] + [d], rest);
    Assoc(out, Code(nArgs, e), [Op(CALL0 + k)] + DiscardCode(k));
  }

  lemma {:induction false} TranslateReceive(r: Root, rest: seq<Line>, out: seq<Entry>, nArgs: nat, n: nat)
    requires TypedRoot(r) && r.Receive? && AllAccepted(rest)
    ensures AllAccepted(DumpRoot(r) + rest)
    ensures TranslatedAll(DumpRoot(r) + rest, out, nArgs, n) ==
            TranslatedAll(rest, out + RootCode(nArgs, n, r), nArgs, 0)
  {
    var Receive(a, e, k) := r;
    var l, d := LCall(k), LAsgn(k);
    var call, store := [Op(CALL0 + k)], [Op(STORE, Empty, SizeOf(k))];
    assert Emitted(l, nArgs, n) == call && Emitted(d, nArgs, 0) == store && Accepted(l) && Accepted(d);
    assert DumpRoot(r) == DumpTree(a) + (DumpTree(e) + ([l] + [d]));
    assert RootCode(nArgs, n, r) == Code(nArgs, a) + (Code(nArgs, e) + (call + store));
    hide TranslatedAll, AllAccepted, Code, DumpTree, Emitted, DumpRoot, RootCode;
    TwoLines(l, d, call, store, rest, out + Code(nArgs, a) + Code(nArgs, e), nArgs, n);
    TranslateTree(e, [l] + [d] + rest, out + Code(nArgs, a), nArgs, n);
    TranslateTree(a, DumpTree(e) + ([l] + [d] + rest), out, nArgs, n);
    Assoc(DumpTree(e), [l] + [d], rest);
    Assoc(DumpTree(a), DumpTree(e) + ([l] + [d]), rest);
    Assoc(out, Code(nArgs, a), Code(nArgs, e));
    Assoc(out, Code(nArgs, a), Code(nArgs, e) + (call + store));
    Assoc(out + Code(nArgs, a), Code(nArgs, e), call + store);
  }

  lemma {:induction false} TranslateRoot(r: Root, rest: seq<Line>, out: seq<Entry>, nArgs: nat, n: nat)
    requires TypedRoot(r) && AllAccepted(rest)
    ensures AllAccepted(DumpRoot(r) + rest)
    ensures TranslatedAll(DumpRoot(r) + rest, out, nArgs, n) ==
            TranslatedAll(rest, out + RootCode(nArgs, n, r), nArgs, NextCounter(r, n))
  {
    hide TranslatedAll, AllAccepted, Code, DumpTree, Translated;
    match r
    case Assign(a) => TranslateAssignment(a, rest, out, nArgs, n);
    case Pass(e) => LastLine(e, LArg(Width(e)), ArgCode(Width(e), n), rest, out, nArgs, n);
    case Test(_, _, _, _) => TranslateTest(r, rest, out, nArgs, n);
    case Goto(lab) =>
      var cnst, jump := [Op(CNST, Symbol(lab, 0), SizeWord, ArgLink)], [Op(JUMP)];
      TwoLines(LAddrG(Symbol(lab, 0)), LJump, cnst, jump, rest, out, nArgs, n);
    case Place(lab) => OnePlainLine(LLabel(Symbol(lab, 0)), rest, out, nArgs, n);
    case Invoke(_, _) => TranslateInvoke(r, rest, out, nArgs, n);
    case Receive(_, _, _) => TranslateReceive(r, rest, out, nArgs, n);
    case Leave(None) => OnePlainLine(LRet(0), rest, out, nArgs, n);
    case Leave(Some(e)) => LastLine(e, LRet(Width(e)), RetEntries(Width(e)), rest, out, nArgs, n);
  }

  lemma {:induction false} TranslateRoots(f: seq<Root>, out: seq<Entry>, nArgs: nat, n: nat)
    requires TypedRoots(f)
    ensures AllAccepted(DumpRoots(f))
    ensures TranslatedAll(DumpRoots(f), out, nArgs, n) == out + RootsCode(nArgs, n, f)
    decreases f
  {
    if f == [] {
      assert out + [] == out;
    } else {
      hide RootCode, DumpRoot;
      var n1 := NextCounter(f[0], n);
      TranslateRoots(f[1..], out + RootCode(nArgs, n, f[0]), nArgs, n1);
      TranslateRoot(f[0], DumpRoots(f[1..]), out, nArgs, n);
      Assoc(out, RootCode(nArgs, n, f[0]), RootsCode(nArgs, n1, f[1..]));
    }
  }

  // ----- one root on the machine -----

  lemma KeepOperands(s: State, t1: State, t2: State, p: Word, v: nat, z: Zone, size: nat)
    requires 1 <= size <= 2 && v < Modulus(size) && ZoneOk(s, z)
    requires Pushed(s, t1, z, v, size) && Pushed(t1, t2, z, p, 1) && TargetOk(p, size, z)
    ensures Above(s, Drop(t2, size + 1), z) && Drop(t2, size + 1).sp == s.sp
    ensures Tame(if size == 1 then RStore else RStore2, t2, z)
    ensures Top(t2, 1) == p
    ensures size == 1 ==> Top(t2, 2) == v && W(v) == v
    ensures size == 2 ==> Top(t2, 3) == Low(v) && Top(t2, 2) == High(v)
  {
    var n := s.sp;
    var t3 := Drop(t2, size + 1);
    assert t1.sp == n + size && t2.sp == n + size + 1;
    assert t2.mem[n + size] == p;
    assert size == 1 ==> t2.mem[n] == t1.mem[n] == v;
    assert size == 2 ==> t2.mem[n] == t1.mem[n] == Low(v) && t2.mem[n + 1] == t1.mem[n + 1] == High(v);
    assert Above(s, t2, z);
    hide Pushed;
    assert t3.sp == n && t3.mem == t2.mem;
    TopsAt(t2, n, size);
    if size == 2 {
      assert Top(t2, 2) == t2.mem[n + 1] && Top(t2, 1) == t2.mem[n + 2];
    }
  }

  /** The address of a word of the frame is on top of a value: the value is stored there. */
  lemma RunRStore(env: Env, prog: seq<Entry>, size: nat, rest: seq<Entry>, s: State, t1: State, t2: State,
                  p: Word, v: nat, z: Zone, fuel: nat, rs: seq<Resume>) returns (t: State)
    requires 1 <= size <= 2 && v < Modulus(size) && ZoneOk(s, z)
    requires Pushed(s, t1, z, v, size) && Pushed(t1, t2, z, p, 1) && TargetOk(p, size, z)
    ensures var z1, u := ZoneKept(p, size, z), StoredValue(s, p, v, size);
            && Run(env, prog, [Op(RSTORE, Empty, SizeOf(size))] + rest, t2, z, fuel, rs) == Run(env, prog, rest, t, z1, fuel, rs)
            && Related(u, t, z1) && ZoneOk(u, z1)
  {
    hide Related, Pushed, Above, Run, Write, Drop, Top, ZoneOk, W;
    var o := Op(RSTORE, Empty, SizeOf(size));
    assert Decode(env, o) == Some(if size == 1 then RStore else RStore2);
    KeepOperands(s, t1, t2, p, v, z, size);
    var t3 := Drop(t2, size + 1);
    AboveIsRelated(s, t3, z);
    RunOne(env, prog, o, rest, t2, z, fuel, rs);
    if size == 1 {
      SameWrite(s, t3, z, p, v);
      t := Write(t3, p, v);
    } else {
      SameWrite2(s, t3, z, p, Low(v), High(v));
      t := Write(Write(t3, p, Low(v)), W(p + 1), High(v));
    }
  }

  /** An operation that pushes the address p of a word of the frame. */
  predicate PushesLocal(env: Env, a: Entry, s: State, p: Word) {
    && !a.isDirective && a.name == ADDRL && !a.needIndir && a.size == SizeWord && a.argType != ArgNone
    && W(s.bp + Operand(env, a)) == p
  }

  lemma {:induction false} KeepFacts(env: Env, nArgs: nat, p: Word, e: Expr, s: State, m: State, z: Zone)
    requires TypedTree(e) && ZoneOk(s, z) && Related(s, m, z) && KeepOk(env, nArgs, p, s, e, z)
    ensures ZoneOk(m, z) && m.sp == s.sp && m.bp == s.bp
    ensures Typed(e) && TextsOk(e) && 1 <= Width(e) <= 2
    ensures m.sp + Depth(e) <= z.limit && m.sp + Width(e) + 1 <= z.limit && ReadsOk(env, nArgs, m, e, z)
    ensures TargetOk(p, Width(e), z) && Outside(p, z) && (Width(e) == 2 ==> Outside(W(p + 1), z))
    ensures var v := Eval(env, nArgs, m, e);
            && v < Modulus(Width(e)) && ZoneKept(p, Width(e), z) == z.(junk := z.junk - if Width(e) == 1 then {p} else {p, W(p + 1)})
            && Kept(env, nArgs, p, s, e) == StoredValue(s, p, v, Width(e))
  {
    EvalRelated(env, nArgs, s, m, e, z);
    EvalBound(env, nArgs, m, e);
  }

  lemma {:induction false} RunKeep(env: Env, prog: seq<Entry>, nArgs: nat, e: Expr, a: Entry, p: Word, rest: seq<Entry>,
                                   s: State, m: State, z: Zone, fuel: nat, rs: seq<Resume>) returns (t: State)
    requires TypedTree(e) && ZoneOk(s, z) && Related(s, m, z) && KeepOk(env, nArgs, p, s, e, z) && PushesLocal(env, a, s, p)
    ensures var z1, u := ZoneKept(p, Width(e), z), Kept(env, nArgs, p, s, e);
            && Run(env, prog, Code(nArgs, e) + ([a] + ([Op(RSTORE, Empty, SizeOf(Width(e)))] + rest)), m, z, fuel, rs) ==
               Run(env, prog, rest, t, z1, fuel, rs)
            && Related(u, t, z1) && ZoneOk(u, z1)
  {
    hide *;
    KeepFacts(env, nArgs, p, e, s, m, z);
    var size, v := Width(e), Eval(env, nArgs, m, e);
    var o := [Op(RSTORE, Empty, SizeOf(size))];
    var t1 := RunExpr(env, prog, nArgs, e, [a] + (o + rest), m, z, fuel, rs);
    PushedFacts(m, t1, z, v, size);
    LocalFacts(env, a, s, m, t1, p, z);
    var t2 := RunPush(env, prog, a, o + rest, t1, z, fuel, rs);
    t := RunRStore(env, prog, size, rest, m, t1, t2, p, v, z, fuel, rs);
    AssignRelated(s, m, z, size, p, v);
    RelatedTrans(Kept(env, nArgs, p, s, e), StoredValue(m, p, v, size), t, ZoneKept(p, size, z));
  }

  lemma LocalFacts(env: Env, a: Entry, s: State, m: State, t: State, p: Word, z: Zone)
    requires PushesLocal(env, a, s, p) && m.bp == s.bp && Above(m, t, z)
    ensures !a.isDirective && ADDRF <= a.name <= CNST && !a.needIndir && a.size == SizeWord && a.argType != ArgNone
    ensures AddressOf(t, BaseOfName(a.name), Operand(env, a)) == p
  {
  }

  /** The operand of an argument line is the position in the argument area. */
  lemma ArgOperand(env: Env, s: State, n: nat)
    ensures PushesLocal(env, Op(ADDRL, Number(n), SizeWord, ByteOrWord(n)), s, W(s.bp + n))
  {
    var a := Op(ADDRL, Number(n), SizeWord, ByteOrWord(n));
    ByteOperand(env, a);
    AddResidue(s.bp, n);
  }

  function ResultEntry(size: nat): Entry {
    Op(ADDRL, Number(-4 - size), SizeWord, ArgChar)
  }

  lemma ResultOperand(env: Env, s: State, size: nat)
    requires 1 <= size <= 2
    ensures PushesLocal(env, ResultEntry(size), s, ResultAt(s, size))
    ensures RetEntries(size) == [ResultEntry(size)] + ([Op(RSTORE, Empty, SizeOf(size))] + [Op(RET)])
  {
    assert Operand(env, ResultEntry(size)) == 0x10000 - 4 - size;
  }

  // ----- labels -----

  /** The labels a list of roots places or jumps to. */
  function Names(f: seq<Root>): set<string> {
    if f == [] then {} else NamesOf(f[0]) + Names(f[1..])
  }

  function NamesOf(r: Root): set<string> {
    match r
    case Test(_, _, _, lab) => {lab}
    case Goto(lab) => {lab}
    case Place(lab) => {lab}
    case _ => {}
  }

  /** Different labels have different addresses. */
  ghost predicate Apart(env: Env, names: set<string>) {
    forall a, b | a in names && b in names && env(a) == env(b) :: a == b
  }

  /** The code behind a label of the list. */
  function CodeAt(nArgs: nat, n: nat, f: seq<Root>, lab: string): Option<seq<Entry>>
    requires TypedRoots(f)
    decreases |f|
  {
    if f == [] then None
    else if f[0] == Place(lab) then Some(RootsCode(nArgs, NextCounter(f[0], n), f[1..]))
    else CodeAt(nArgs, NextCounter(f[0], n), f[1..], lab)
  }

  lemma {:induction false} SpotFacts(nArgs: nat, n: nat, f: seq<Root>, lab: string)
    requires TypedRoots(f)
    ensures SpotOf(f, n, lab).None? ==> CodeAt(nArgs, n, f, lab).None?
    ensures SpotOf(f, n, lab).Some? ==>
              var spot := SpotOf(f, n, lab).value;
              && TypedRoots(spot.rest) && Names(spot.rest) <= Names(f)
              && CodeAt(nArgs, n, f, lab) == Some(RootsCode(nArgs, spot.counter, spot.rest))
    decreases |f|
  {
    if f != [] && f[0] != Place(lab) {
      SpotFacts(nArgs, NextCounter(f[0], n), f[1..], lab);
    }
  }

  ghost predicate NoLabels(code: seq<Entry>) {
    forall i | 0 <= i < |code| :: !IsLabel(code[i])
  }

  lemma {:induction false} BehindSkips(env: Env, a: seq<Entry>, b: seq<Entry>, v: Word)
    requires NoLabels(a)
    ensures Behind(env, a + b, v) == Behind(env, b, v)
    decreases |a|
  {
    if a == [] {
      assert a + b == b;
    } else {
      assert (a + b)[1..] == a[1..] + b;
      BehindSkips(env, a[1..], b, v);
    }
  }

  /** Operations and labels, with byte operands in range. */
  ghost predicate Tidy(code: seq<Entry>) {
    forall i | 0 <= i < |code| ::
      if code[i].isDirective then IsLabel(code[i]) else code[i].argType == ArgChar ==> FitsByte(code[i].arg)
  }

  lemma TidyConcat(a: seq<Entry>, b: seq<Entry>)
    requires Tidy(a) && Tidy(b)
    ensures Tidy(a + b)
  {
  }

  lemma PlainIsTidy(code: seq<Entry>)
    requires Plain(code)
    ensures Tidy(code) && NoLabels(code)
  {
  }

  lemma TailPlain(k: nat, n: nat, c: Cond, lab: string)
    requires k <= 2
    ensures Plain(ArgCode(k, n)) && Plain(TestCode(c, lab)) && Plain(GotoCode(lab)) && Plain(RetEntries(k))
    ensures Plain(CallCode(k)) && Plain(ReceiveCode(k))
  {
  }

  /** Only a placed label leaves a label in the code. */
  lemma {:induction false} RootPlain(nArgs: nat, n: nat, r: Root)
    requires TypedRoot(r)
    ensures r.Place? || Plain(RootCode(nArgs, n, r))
  {
    hide Plain, Code, ArgCode, TestCode, GotoCode, CallCode, ReceiveCode, RetEntries;
    match r
    case Assign(a) =>
      AssignmentIsPlain(nArgs, a);
    case Pass(e) =>
      CodeIsPlain(nArgs, e);
      TailPlain(Width(e), n, Eq, "");
      PlainConcat(Code(nArgs, e), ArgCode(Width(e), n));
    case Test(c, x, y, lab) =>
      CodeIsPlain(nArgs, x);
      CodeIsPlain(nArgs, y);
      TailPlain(0, n, c, lab);
      PlainConcat(Code(nArgs, y), TestCode(c, lab));
      PlainConcat(Code(nArgs, x), Code(nArgs, y) + TestCode(c, lab));
    case Goto(lab) => TailPlain(0, n, Eq, lab);
    case Place(_) =>
    case Invoke(e, k) =>
      CodeIsPlain(nArgs, e);
      TailPlain(k, n, Eq, "");
      PlainConcat(Code(nArgs, e), CallCode(k));
    case Receive(a, e, k) =>
      CodeIsPlain(nArgs, a);
      CodeIsPlain(nArgs, e);
      TailPlain(k, n, Eq, "");
      PlainConcat(Code(nArgs, e), ReceiveCode(k));
      PlainConcat(Code(nArgs, a), Code(nArgs, e) + ReceiveCode(k));
    case Leave(None) => TailPlain(0, n, Eq, "");
    case Leave(Some(e)) =>
      CodeIsPlain(nArgs, e);
      TailPlain(Width(e), n, Eq, "");
      PlainConcat(Code(nArgs, e), RetEntries(Width(e)));
  }

  lemma {:induction false} RootsTidy(nArgs: nat, n: nat, f: seq<Root>)
    requires TypedRoots(f)
    ensures Tidy(RootsCode(nArgs, n, f))
    decreases |f|
  {
    if f != [] {
      RootPlain(nArgs, n, f[0]);
      RootsTidy(nArgs, NextCounter(f[0], n), f[1..]);
      if !f[0].Place? {
        PlainIsTidy(RootCode(nArgs, n, f[0]));
      }
      TidyConcat(RootCode(nArgs, n, f[0]), RootsCode(nArgs, NextCounter(f[0], n), f[1..]));
    }
  }

  /** The machine finds the code behind a label where the list places it. */
  lemma {:induction false} BehindIsCodeAt(env: Env, nArgs: nat, n: nat, f: seq<Root>, lab: string)
    requires TypedRoots(f) && Apart(env, Names(f) + {lab})
    ensures Behind(env, RootsCode(nArgs, n, f), env(lab)) == CodeAt(nArgs, n, f, lab)
    decreases |f|
  {
    if f != [] {
      var n1 := NextCounter(f[0], n);
      var code, rest := RootCode(nArgs, n, f[0]), RootsCode(nArgs, n1, f[1..]);
      assert Apart(env, Names(f[1..]) + {lab});
      BehindIsCodeAt(env, nArgs, n1, f[1..], lab);
      if f[0].Place? {
        var l := Label(Symbol(f[0].lab, 0));
        assert code == [l] && (code + rest)[1..] == rest;
        assert W(Value(env, l.arg)) == env(f[0].lab);
        assert f[0].lab in Names(f) + {lab};
      } else {
        RootPlain(nArgs, n, f[0]);
        PlainIsTidy(code);
        BehindSkips(env, code, rest, env(lab));
      }
    }
  }

  // ----- a list of roots on the machine -----

  /** In the program, labels of the list are found where the list places them. */
  ghost predicate Linked(env: Env, prog: seq<Entry>, nArgs: nat, all: seq<Root>) {
    && TypedRoots(all)
    && forall lab | lab in Names(all) :: Behind(env, prog, env(lab)) == CodeAt(nArgs, 0, all, lab)
  }

  lemma {:induction false} RunGoto(env: Env, prog: seq<Entry>, lab: string, rest: seq<Entry>, s: State, m: State, z: Zone, fuel: nat,
                                   rs: seq<Resume>) returns (t: State)
    requires ZoneOk(s, z) && Related(s, m, z) && s.sp + 1 <= z.limit
    ensures Run(env, prog, GotoCode(lab) + rest, m, z, fuel, rs) == Transfer(env, prog, env(lab), t, z, fuel, rs)
    ensures Related(s, t, z)
  {
    var a, j := Op(CNST, Symbol(lab, 0), SizeWord, ArgLink), Op(JUMP);
    assert ZoneOk(m, z) && m.sp == s.sp;
    Assoc([a], [j], rest);
    var t1 := RunPush(env, prog, a, [j] + rest, m, z, fuel, rs);
    assert AddressOf(m, Zero, Operand(env, a)) == env(lab);
    assert Decode(env, j) == Some(JumpTop);
    t := Pop(t1);
    assert ([j] + rest)[1..] == rest;
    assert Top(t1, 1) == env(lab) && t.sp == m.sp;
    RelatedTrans(s, m, t, z);
  }

  lemma {:induction false} TestFacts(env: Env, nArgs: nat, r: Root, s: State, m: State, z: Zone)
    requires TypedRoot(r) && r.Test? && ZoneOk(s, z) && Related(s, m, z) && RootOk(env, nArgs, 0, s, r, z)
    ensures var Test(c, x, y, lab) := r;
            && Typed(x) && Typed(y) && TextsOk(x) && TextsOk(y) && Width(x) == 1 && Width(y) == 1
            && ZoneOk(m, z) && m.sp + Depth(x) <= z.limit && m.sp + 1 + Depth(y) <= z.limit
            && Eval(env, nArgs, m, x) == Eval(env, nArgs, s, x) && ReadsOk(env, nArgs, m, x, z)
            && Eval(env, nArgs, m, y) == Eval(env, nArgs, s, y) && ReadsOk(env, nArgs, m, y, z)
            && W(Value(env, Symbol(lab, 0))) == env(lab)
            && Accepted(LCompare(c, "", 1, Symbol(lab, 0)))
            && RootCode(nArgs, 0, r) == Code(nArgs, x) + (Code(nArgs, y) + Emitted(LCompare(c, "", 1, Symbol(lab, 0)), nArgs, 0))
  {
    EvalRelated(env, nArgs, s, m, r.left, z);
    EvalRelated(env, nArgs, s, m, r.right, z);
  }

  lemma {:induction false} RunTest(env: Env, prog: seq<Entry>, nArgs: nat, r: Root, rest: seq<Entry>, s: State, m: State, z: Zone,
                                   fuel: nat, rs: seq<Resume>) returns (t: State)
    requires TypedRoot(r) && r.Test? && ZoneOk(s, z) && Related(s, m, z) && RootOk(env, nArgs, 0, s, r, z)
    ensures Run(env, prog, RootCode(nArgs, 0, r) + rest, m, z, fuel, rs) ==
            if Holds(r.cond, W(Eval(env, nArgs, s, r.left)), W(Eval(env, nArgs, s, r.right)))
            then Transfer(env, prog, env(r.lab), t, z, fuel, rs)
            else Run(env, prog, rest, t, z, fuel, rs)
    ensures Related(s, t, z)
  {
    hide *;
    var Test(c, x, y, lab) := r;
    TestFacts(env, nArgs, r, s, m, z);
    t := RunCompare(env, prog, nArgs, c, x, y, Symbol(lab, 0), rest, m, z, fuel, rs);
    RelatedTrans(s, m, t, z);
  }

  lemma {:induction false} InvokeFacts(env: Env, nArgs: nat, e: Expr, s: State, m: State, z: Zone)
    requires TypedTree(e) && Width(e) == 1 && ZoneOk(s, z) && Related(s, m, z) && TreeOk(env, nArgs, s, e, z)
    ensures Typed(e) && TextsOk(e) && ZoneOk(m, z) && m.sp + Depth(e) <= z.limit && ReadsOk(env, nArgs, m, e, z)
    ensures var v := Eval(env, nArgs, s, e);
            v < 0x10000 && W(v) == v && Eval(env, nArgs, m, e) == v
  {
    EvalRelated(env, nArgs, s, m, e, z);
    EvalBound(env, nArgs, s, e);
  }

  lemma CallSplits(k: nat, rest: seq<Entry>)
    ensures CallCode(k) + rest == [Op(CALL0 + k)] + (DiscardCode(k) + rest)
  {
  }

  /** A call takes the callee's address off the stack and goes on behind its `DISCARD`. */
  lemma {:induction false} RunInvoke(env: Env, prog: seq<Entry>, nArgs: nat, e: Expr, k: nat, rest: seq<Entry>, s: State, m: State, z: Zone,
                                     fuel: nat, rs: seq<Resume>) returns (t: State)
    requires TypedTree(e) && Width(e) == 1 && k <= 2 && ZoneOk(s, z) && Related(s, m, z) && TreeOk(env, nArgs, s, e, z)
    ensures Run(env, prog, Code(nArgs, e) + (CallCode(k) + rest), m, z, fuel, rs) ==
            Called(k, W(Eval(env, nArgs, s, e)), t, z, Resumed(env, prog, DiscardCode(k) + rest, fuel, rs))
    ensures Related(s, t, z)
  {
    hide *;
    InvokeFacts(env, nArgs, e, s, m, z);
    var v: Word := Eval(env, nArgs, s, e);
    CallSplits(k, rest);
    var t1 := RunExpr(env, prog, nArgs, e, CallCode(k) + rest, m, z, fuel, rs);
    CallTaken(env, prog, k, v, DiscardCode(k) + rest, m, t1, z, fuel, rs);
    t := Pop(t1);
    RelatedTrans(s, m, t, z);
  }

  lemma {:induction false} CallTaken(env: Env, prog: seq<Entry>, k: nat, v: Word, rest: seq<Entry>, m: State, t1: State, z: Zone,
                                     fuel: nat, rs: seq<Resume>)
    requires k <= 2 && ZoneOk(m, z) && Pushed(m, t1, z, v, 1)
    ensures Run(env, prog, [Op(CALL0 + k)] + rest, t1, z, fuel, rs) == Called(k, v, Pop(t1), z, Resumed(env, prog, rest, fuel, rs))
    ensures Related(m, Pop(t1), z)
  {
    var o := Op(CALL0 + k);
    assert Decode(env, o) == Some(CallTop(k));
    assert ([o] + rest)[1..] == rest;
    assert Pop(t1).sp == m.sp && Top(t1, 1) == t1.mem[m.sp] == v;
    hide Resumed;
    AboveIsRelated(m, Pop(t1), z);
  }

  lemma {:induction false} ReceiveFacts(env: Env, nArgs: nat, r: Root, rest: seq<Entry>, s: State, m: State, z: Zone)
    requires TypedRoot(r) && r.Receive? && ZoneOk(s, z) && Related(s, m, z) && RootOk(env, nArgs, 0, s, r, z)
    ensures var Receive(a, e, k) := r;
            && Typed(a) && TextsOk(a) && Typed(e) && TextsOk(e) && Width(a) == Width(e) == 1 && 1 <= k <= 2
            && ZoneOk(m, z) && m.sp == s.sp && m.sp + Depth(a) <= z.limit && m.sp + 1 + Depth(e) <= z.limit && s.sp + 1 <= z.limit
            && ReadsOk(env, nArgs, m, a, z) && ReadsOk(env, nArgs, m, e, z)
            && RootCode(nArgs, 0, r) + rest ==
               Code(nArgs, a) + (Code(nArgs, e) + ([Op(CALL0 + k)] + ([Op(STORE, Empty, SizeOf(k))] + rest)))
    ensures var p, v := Eval(env, nArgs, s, r.addr), Eval(env, nArgs, s, r.callee);
            && p < 0x10000 && W(p) == p && Eval(env, nArgs, m, r.addr) == p
            && v < 0x10000 && W(v) == v && Eval(env, nArgs, m, r.callee) == v
  {
    var Receive(a, e, k) := r;
    InvokeFacts(env, nArgs, a, s, m, z);
    EvalRelated(env, nArgs, s, m, e, z);
    EvalBound(env, nArgs, s, e);
    var c, d, o, l := Code(nArgs, a), Code(nArgs, e), [Op(CALL0 + k)], [Op(STORE, Empty, SizeOf(k))];
    hide Code, Eval, ReadsOk, Typed, TextsOk, Width;
    Assoc(c, d + (o + l), rest);
    Assoc(d, o + l, rest);
    Assoc(o, l, rest);
  }

  /** The address waits on the stack during the call. */
  lemma {:induction false} RunReceive(env: Env, prog: seq<Entry>, nArgs: nat, r: Root, rest: seq<Entry>, s: State, m: State, z: Zone,
                                      fuel: nat, rs: seq<Resume>) returns (t: State)
    requires TypedRoot(r) && r.Receive? && ZoneOk(s, z) && Related(s, m, z) && RootOk(env, nArgs, 0, s, r, z)
    ensures var p, v := W(Eval(env, nArgs, s, r.addr)), W(Eval(env, nArgs, s, r.callee));
            && Run(env, prog, RootCode(nArgs, 0, r) + rest, m, z, fuel, rs) ==
               Called(r.words, v, t, z, Resumed(env, prog, [Op(STORE, Empty, SizeOf(r.words))] + rest, fuel, rs))
            && Related(Push(s, p), t, z)
  {
    hide *;
    var Receive(a, e, k) := r;
    ReceiveFacts(env, nArgs, r, rest, s, m, z);
    var p: Word, v: Word := Eval(env, nArgs, s, a), Eval(env, nArgs, s, e);
    var after := [Op(STORE, Empty, SizeOf(k))] + rest;
    var t1 := RunExpr(env, prog, nArgs, a, Code(nArgs, e) + ([Op(CALL0 + k)] + after), m, z, fuel, rs);
    PushedFacts(m, t1, z, p, 1);
    EvalSame(env, nArgs, m, t1, e, z);
    var t2 := RunExpr(env, prog, nArgs, e, [Op(CALL0 + k)] + after, t1, z, fuel, rs);
    CallTaken(env, prog, k, v, after, t1, t2, z, fuel, rs);
    t := Pop(t2);
    PushedRelated(s, m, t1, z, p);
    RelatedTrans(Push(s, p), t1, t, z);
  }

  lemma PushedRelated(s: State, m: State, t: State, z: Zone, p: Word)
    requires ZoneOk(s, z) && Related(s, m, z) && s.sp + 1 <= z.limit && Pushed(m, t, z, p, 1)
    ensures Related(Push(s, p), t, z)
  {
  }

  lemma {:induction false} RunReceived(env: Env, prog: seq<Entry>, p: Word, k: nat, rest: seq<Entry>, r: Resume, m: State, fuel: nat,
                                       rs: seq<Resume>) returns (t: State)
    requires 1 <= k <= 2 && ReceiveOk(p, k, r) && ZoneOk(r.s, r.z) && Related(r.s, m, r.z)
    ensures var u := Received(k, r);
            && Run(env, prog, [Op(STORE, Empty, SizeOf(k))] + rest, m, r.z, fuel, rs) == Run(env, prog, rest, t, u.z, fuel, rs)
            && ZoneOk(u.s, u.z) && Related(u.s, t, u.z)
  {
    var o, i := Op(STORE, Empty, SizeOf(k)), StoreOf(k);
    assert Decode(env, o) == Some(i) && FallsThrough(i);
    hide Run, Related, ZoneOk, Step, Tame, ZoneAfter;
    SameStep(i, r.s, m, r.z);
    RunOne(env, prog, o, rest, m, r.z, fuel, rs);
    t := Step(i, m);
  }

  lemma {:induction false} RunDiscard(env: Env, prog: seq<Entry>, k: nat, rest: seq<Entry>, s: State, m: State, z: Zone, fuel: nat,
                                      rs: seq<Resume>)
    requires k <= 2 && ZoneOk(s, z) && Related(s, m, z) && z.base <= s.sp - k
    ensures Run(env, prog, DiscardCode(k) + rest, m, z, fuel, rs) == Run(env, prog, rest, Drop(m, k), z, fuel, rs)
    ensures ZoneOk(Drop(s, k), z) && Related(Drop(s, k), Drop(m, k), z)
  {
    SameDrop(s, m, z, k);
    if k == 0 {
      assert DiscardCode(k) + rest == rest && Drop(m, 0) == m;
    } else {
      var o := Op(DISCARD, Number(k), SizeWord, KindOf(Number(k)));
      ByteOperand(env, o);
      assert Decode(env, o) == Some(Discard(k));
      RunOne(env, prog, o, rest, m, z, fuel, rs);
    }
  }

  lemma {:induction false} PassFacts(nArgs: nat, n: nat, e: Expr, rest: seq<Entry>)
    requires TypedTree(e)
    ensures TypedRoot(Pass(e))
    ensures RootCode(nArgs, n, Pass(e)) + rest ==
            Code(nArgs, e) + ([Op(ADDRL, Number(n), SizeWord, ByteOrWord(n))] + ([Op(RSTORE, Empty, SizeOf(Width(e)))] + rest))
  {
    hide Code, TypedTree;
  }

  lemma {:induction false} PassStep(env: Env, prog: seq<Entry>, nArgs: nat, n: nat, e: Expr, rest: seq<Entry>, s: State, m: State, z: Zone,
                                    fuel: nat, rs: seq<Resume>) returns (t: State)
    requires TypedTree(e) && ZoneOk(s, z) && Related(s, m, z) && KeepOk(env, nArgs, W(s.bp + n), s, e, z)
    ensures var p := W(s.bp + n);
            var z1, u := ZoneKept(p, Width(e), z), Kept(env, nArgs, p, s, e);
            && Run(env, prog, RootCode(nArgs, n, Pass(e)) + rest, m, z, fuel, rs) == Run(env, prog, rest, t, z1, fuel, rs)
            && Related(u, t, z1) && ZoneOk(u, z1)
  {
    hide *;
    var p, a := W(s.bp + n), Op(ADDRL, Number(n), SizeWord, ByteOrWord(n));
    PassFacts(nArgs, n, e, rest);
    ArgOperand(env, s, n);
    t := RunKeep(env, prog, nArgs, e, a, p, rest, s, m, z, fuel, rs);
  }

  lemma {:induction false} LeaveFacts(env: Env, nArgs: nat, n: nat, e: Expr, rest: seq<Entry>, s: State)
    requires TypedTree(e)
    ensures TypedRoot(Leave(Some(e))) && PushesLocal(env, ResultEntry(Width(e)), s, ResultAt(s, Width(e)))
    ensures RootCode(nArgs, n, Leave(Some(e))) + rest ==
            Code(nArgs, e) + ([ResultEntry(Width(e))] + ([Op(RSTORE, Empty, SizeOf(Width(e)))] + ([Op(RET)] + rest)))
  {
    ResultOperand(env, s, Width(e));
    var c, a, o, r := Code(nArgs, e), [ResultEntry(Width(e))], [Op(RSTORE, Empty, SizeOf(Width(e)))], [Op(RET)];
    assert RootCode(nArgs, n, Leave(Some(e))) == c + (a + (o + r));
    Assoc(c, a + (o + r), rest);
    Assoc(a, o + r, rest);
    Assoc(o, r, rest);
  }

  lemma {:induction false} LeaveStep(env: Env, prog: seq<Entry>, nArgs: nat, n: nat, e: Expr, rest: seq<Entry>, s: State, m: State, z: Zone,
                                     fuel: nat, rs: seq<Resume>) returns (t: State)
    requires TypedTree(e) && ZoneOk(s, z) && Related(s, m, z) && KeepOk(env, nArgs, ResultAt(s, Width(e)), s, e, z)
    ensures var p := ResultAt(s, Width(e));
            var z1, u := ZoneKept(p, Width(e), z), Kept(env, nArgs, p, s, e);
            && Run(env, prog, RootCode(nArgs, n, Leave(Some(e))) + rest, m, z, fuel, rs) == Returned(t, z1)
            && Related(u, t, z1)
  {
    hide *;
    var size := Width(e);
    var p, a := ResultAt(s, size), ResultEntry(size);
    var o := [Op(RSTORE, Empty, SizeOf(size))];
    LeaveFacts(env, nArgs, n, e, rest, s);
    t := RunKeep(env, prog, nArgs, e, a, p, [Op(RET)] + rest, s, m, z, fuel, rs);
    ReturnTaken(env, prog, rest, t, ZoneKept(p, size, z), fuel, rs);
  }

  lemma {:induction false} ReturnTaken(env: Env, prog: seq<Entry>, rest: seq<Entry>, t: State, z: Zone, fuel: nat, rs: seq<Resume>)
    ensures Run(env, prog, [Op(RET)] + rest, t, z, fuel, rs) == Returned(t, z)
  {
    assert Decode(env, Op(RET)) == Some(Ret);
  }

  lemma {:induction false} RunPlace(env: Env, prog: seq<Entry>, lab: string, rest: seq<Entry>, m: State, z: Zone, fuel: nat,
                                    rs: seq<Resume>)
    ensures Run(env, prog, [Label(Symbol(lab, 0))] + rest, m, z, fuel, rs) == Run(env, prog, rest, m, z, fuel, rs)
  {
    assert ([Label(Symbol(lab, 0))] + rest)[1..] == rest;
  }

  /** A jump of the list and a jump of the machine go to the same place. */
  lemma {:induction false} LinkedAt(env: Env, prog: seq<Entry>, nArgs: nat, all: seq<Root>, lab: string)
    requires Linked(env, prog, nArgs, all) && lab in Names(all)
    ensures match SpotOf(all, 0, lab)
            case None => Behind(env, prog, env(lab)) == None
            case Some(spot) =>
              && TypedRoots(spot.rest) && Names(spot.rest) <= Names(all)
              && Behind(env, prog, env(lab)) == Some(RootsCode(nArgs, spot.counter, spot.rest))
  {
    SpotFacts(nArgs, 0, all, lab);
    hide Names, SpotOf, CodeAt, RootsCode, TypedRoots;
  }

  lemma {:induction false} JumpMeant(env: Env, nArgs: nat, all: seq<Root>, lab: string, s: State, z: Zone, fuel: nat, rs: seq<Resume>)
    ensures MeantAt(env, nArgs, all, lab, s, z, fuel, rs) ==
            match SpotOf(all, 0, lab)
            case None => Left(env(lab), s, z)
            case Some(spot) =>
              if fuel == 0 then NoFuel(s, z) else Meant(env, nArgs, all, spot.rest, spot.counter, s, z, fuel - 1, rs)
  {
    hide Meant, SpotOf;
  }

  lemma {:induction false} JumpRuns(env: Env, prog: seq<Entry>, v: Word, m: State, z: Zone, fuel: nat, ts: seq<Resume>)
    ensures Transfer(env, prog, v, m, z, fuel, ts) ==
            match Behind(env, prog, v)
            case None => Left(v, m, z)
            case Some(code) => if fuel == 0 then NoFuel(m, z) else Run(env, prog, code, m, z, fuel - 1, ts)
  {
    hide Run, Behind;
  }

  lemma {:induction false} EndsAlike(v: Word, s: State, m: State, z: Zone)
    requires Related(s, m, z)
    ensures SameOutcome(Left(v, s, z), Left(v, m, z)) && SameOutcome(NoFuel(s, z), NoFuel(m, z))
  {
  }

  lemma {:induction false} MeantAtRuns(env: Env, prog: seq<Entry>, nArgs: nat, all: seq<Root>, lab: string,
                                       s: State, m: State, z: Zone, fuel: nat, rs: seq<Resume>, ts: seq<Resume>)
    requires Linked(env, prog, nArgs, all) && lab in Names(all)
    requires ZoneOk(s, z) && Related(s, m, z) && ResumesOk(rs, ts)
    requires !GoesWild(MeantAt(env, nArgs, all, lab, s, z, fuel, rs))
    ensures SameOutcome(MeantAt(env, nArgs, all, lab, s, z, fuel, rs), Transfer(env, prog, env(lab), m, z, fuel, ts))
    decreases |rs|, fuel, 0, 0
  {
    hide *;
    LinkedAt(env, prog, nArgs, all, lab);
    JumpMeant(env, nArgs, all, lab, s, z, fuel, rs);
    JumpRuns(env, prog, env(lab), m, z, fuel, ts);
    EndsAlike(env(lab), s, m, z);
    if SpotOf(all, 0, lab).Some? && fuel > 0 {
      var spot := SpotOf(all, 0, lab).value;
      MeantRuns(env, prog, nArgs, all, spot.rest, spot.counter, s, m, z, fuel - 1, rs, ts);
    }
  }

  lemma {:induction false} MeantInvoke(env: Env, prog: seq<Entry>, nArgs: nat, all: seq<Root>, f: seq<Root>, n: nat,
                                       s: State, m: State, z: Zone, fuel: nat, rs: seq<Resume>, ts: seq<Resume>)
    requires f != [] && f[0].Invoke?
    requires Linked(env, prog, nArgs, all) && TypedRoots(f) && Names(f) <= Names(all)
    requires ZoneOk(s, z) && Related(s, m, z) && ResumesOk(rs, ts)
    requires !GoesWild(Meant(env, nArgs, all, f, n, s, z, fuel, rs))
    ensures SameOutcome(Meant(env, nArgs, all, f, n, s, z, fuel, rs), Run(env, prog, RootsCode(nArgs, n, f), m, z, fuel, ts))
    decreases |rs|, fuel, |f|, 1
  {
    var Invoke(e, k) := f[0];
    var rest := RootsCode(nArgs, 0, f[1..]);
    Assoc(Code(nArgs, e), CallCode(k), rest);
    assert TypedTree(e) && Width(e) == 1 && k <= 2 by { assert TypedRoot(f[0]); }
    assert TypedRoots(f[1..]) && Names(f[1..]) <= Names(all);
    assert RootsCode(nArgs, n, f) == Code(nArgs, e) + (CallCode(k) + rest);
    hide Linked, Related, ZoneOk, ResumesOk, RootsCode, Names, Run, TypedRoots, TypedTree;
    var t := RunInvoke(env, prog, nArgs, e, k, rest, s, m, z, fuel, ts);
    ResumesSize(rs, ts);
    if rs != [] {
      ResumesTail(rs, ts);
      RunDiscard(env, prog, k, rest, rs[0].s, ts[0].s, rs[0].z, fuel, ts[1..]);
      MeantRuns(env, prog, nArgs, all, f[1..], 0, Drop(rs[0].s, k), Drop(ts[0].s, k), rs[0].z, fuel, rs[1..], ts[1..]);
    }
  }

  lemma {:induction false} MeantReceive(env: Env, prog: seq<Entry>, nArgs: nat, all: seq<Root>, f: seq<Root>, n: nat,
                                        s: State, m: State, z: Zone, fuel: nat, rs: seq<Resume>, ts: seq<Resume>)
    requires f != [] && f[0].Receive?
    requires Linked(env, prog, nArgs, all) && TypedRoots(f) && Names(f) <= Names(all)
    requires ZoneOk(s, z) && Related(s, m, z) && ResumesOk(rs, ts)
    requires !GoesWild(Meant(env, nArgs, all, f, n, s, z, fuel, rs))
    ensures SameOutcome(Meant(env, nArgs, all, f, n, s, z, fuel, rs), Run(env, prog, RootsCode(nArgs, n, f), m, z, fuel, ts))
    decreases |rs|, fuel, |f|, 1
  {
    var r, k := f[0], f[0].words;
    var rest := RootsCode(nArgs, 0, f[1..]);
    assert TypedRoot(r) && 1 <= k <= 2 && TypedRoots(f[1..]) && Names(f[1..]) <= Names(all);
    assert RootsCode(nArgs, n, f) == RootCode(nArgs, 0, r) + rest;
    hide Linked, Related, ZoneOk, ResumesOk, RootsCode, Names, Run, TypedRoots, TypedRoot, Received, ReceiveOk;
    var t := RunReceive(env, prog, nArgs, r, rest, s, m, z, fuel, ts);
    ResumesSize(rs, ts);
    if rs != [] {
      ResumesTail(rs, ts);
      var u := Received(k, rs[0]);
      var w := RunReceived(env, prog, W(Eval(env, nArgs, s, r.addr)), k, rest, rs[0], ts[0].s, fuel, ts[1..]);
      MeantRuns(env, prog, nArgs, all, f[1..], 0, u.s, w, u.z, fuel, rs[1..], ts[1..]);
    }
  }

  lemma ResumesSize(rs: seq<Resume>, ts: seq<Resume>)
    requires ResumesOk(rs, ts)
    ensures |rs| == |ts|
  {
  }

  lemma {:induction false} MeantJump(env: Env, prog: seq<Entry>, nArgs: nat, all: seq<Root>, f: seq<Root>, n: nat,
                                     s: State, m: State, z: Zone, fuel: nat, rs: seq<Resume>, ts: seq<Resume>)
    requires f != [] && (f[0].Test? || f[0].Goto?)
    requires Linked(env, prog, nArgs, all) && TypedRoots(f) && Names(f) <= Names(all)
    requires ZoneOk(s, z) && Related(s, m, z) && ResumesOk(rs, ts)
    requires !GoesWild(Meant(env, nArgs, all, f, n, s, z, fuel, rs))
    ensures SameOutcome(Meant(env, nArgs, all, f, n, s, z, fuel, rs), Run(env, prog, RootsCode(nArgs, n, f), m, z, fuel, ts))
    decreases |rs|, fuel, |f|, 1
  {
    var r, n1 := f[0], NextCounter(f[0], n);
    var rest := RootsCode(nArgs, n1, f[1..]);
    assert TypedRoot(r) && TypedRoots(f[1..]) && Names(f[1..]) <= Names(all) && r.lab in Names(all);
    assert RootsCode(nArgs, n, f) == RootCode(nArgs, n, r) + rest;
    hide Linked, Related, ZoneOk, ResumesOk, RootsCode, Names, Run, Transfer, SameOutcome, TypedRoot, TypedRoots;
    if r.Goto? {
      var t := RunGoto(env, prog, r.lab, rest, s, m, z, fuel, ts);
      MeantAtRuns(env, prog, nArgs, all, r.lab, s, t, z, fuel, rs, ts);
    } else {
      var t := RunTest(env, prog, nArgs, r, rest, s, m, z, fuel, ts);
      if Holds(r.cond, W(Eval(env, nArgs, s, r.left)), W(Eval(env, nArgs, s, r.right))) {
        MeantAtRuns(env, prog, nArgs, all, r.lab, s, t, z, fuel, rs, ts);
      } else {
        MeantRuns(env, prog, nArgs, all, f[1..], n1, s, t, z, fuel, rs, ts);
      }
    }
  }

  lemma {:induction false} MeantStore(env: Env, prog: seq<Entry>, nArgs: nat, all: seq<Root>, f: seq<Root>, n: nat,
                                      s: State, m: State, z: Zone, fuel: nat, rs: seq<Resume>, ts: seq<Resume>)
    requires f != [] && (f[0].Assign? || f[0].Pass?)
    requires Linked(env, prog, nArgs, all) && TypedRoots(f) && Names(f) <= Names(all)
    requires ZoneOk(s, z) && Related(s, m, z) && ResumesOk(rs, ts)
    requires !GoesWild(Meant(env, nArgs, all, f, n, s, z, fuel, rs))
    ensures SameOutcome(Meant(env, nArgs, all, f, n, s, z, fuel, rs), Run(env, prog, RootsCode(nArgs, n, f), m, z, fuel, ts))
    decreases |rs|, fuel, |f|, 1
  {
    var r, n1 := f[0], NextCounter(f[0], n);
    var rest := RootsCode(nArgs, n1, f[1..]);
    assert RootsCode(nArgs, n, f) == RootCode(nArgs, n, r) + rest;
    assert TypedRoot(r) && TypedRoots(f[1..]) && Names(f[1..]) <= Names(all);
    hide Linked, Related, ZoneOk, ResumesOk, RootsCode, Names, Run, SameOutcome, TypedRoots, AssignmentOk, KeepOk, Kept, ZoneKept;
    if r.Assign? {
      var a := r.asgn;
      hide Assigned, ZoneAssigned;
      var t := RunAssignment(env, prog, nArgs, a, rest, s, m, z, fuel, ts);
      MeantRuns(env, prog, nArgs, all, f[1..], n1, Assigned(env, nArgs, s, a), t, ZoneAssigned(env, nArgs, s, a, z), fuel, rs, ts);
    } else {
      var e, p := r.value, W(s.bp + n);
      var t := PassStep(env, prog, nArgs, n, e, rest, s, m, z, fuel, ts);
      MeantRuns(env, prog, nArgs, all, f[1..], n1, Kept(env, nArgs, p, s, e), t, ZoneKept(p, Width(e), z), fuel, rs, ts);
    }
  }

  /** The machine does what the roots mean, from any state that agrees on live memory. */
  lemma {:induction false} MeantRuns(env: Env, prog: seq<Entry>, nArgs: nat, all: seq<Root>, f: seq<Root>, n: nat,
                                     s: State, m: State, z: Zone, fuel: nat, rs: seq<Resume>, ts: seq<Resume>)
    requires Linked(env, prog, nArgs, all) && TypedRoots(f) && Names(f) <= Names(all)
    requires ZoneOk(s, z) && Related(s, m, z) && ResumesOk(rs, ts)
    requires !GoesWild(Meant(env, nArgs, all, f, n, s, z, fuel, rs))
    ensures SameOutcome(Meant(env, nArgs, all, f, n, s, z, fuel, rs), Run(env, prog, RootsCode(nArgs, n, f), m, z, fuel, ts))
    decreases |rs|, fuel, |f|, 2
  {
    if f == [] {
    } else if f[0].Assign? || f[0].Pass? {
      MeantStore(env, prog, nArgs, all, f, n, s, m, z, fuel, rs, ts);
    } else if f[0].Test? || f[0].Goto? {
      MeantJump(env, prog, nArgs, all, f, n, s, m, z, fuel, rs, ts);
    } else if f[0].Invoke? {
      MeantInvoke(env, prog, nArgs, all, f, n, s, m, z, fuel, rs, ts);
    } else if f[0].Receive? {
      MeantReceive(env, prog, nArgs, all, f, n, s, m, z, fuel, rs, ts);
    } else if f[0].Place? {
      RunPlace(env, prog, f[0].lab, RootsCode(nArgs, n, f[1..]), m, z, fuel, ts);
      MeantRuns(env, prog, nArgs, all, f[1..], n, s, m, z, fuel, rs, ts);
    } else {
      MeantLeave(env, prog, nArgs, all, f, n, s, m, z, fuel, rs, ts);
    }
  }

  lemma {:induction false} MeantLeave(env: Env, prog: seq<Entry>, nArgs: nat, all: seq<Root>, f: seq<Root>, n: nat,
                                      s: State, m: State, z: Zone, fuel: nat, rs: seq<Resume>, ts: seq<Resume>)
    requires f != [] && f[0].Leave? && TypedRoots(f)
    requires ZoneOk(s, z) && Related(s, m, z)
    requires !GoesWild(Meant(env, nArgs, all, f, n, s, z, fuel, rs))
    ensures SameOutcome(Meant(env, nArgs, all, f, n, s, z, fuel, rs), Run(env, prog, RootsCode(nArgs, n, f), m, z, fuel, ts))
  {
    var rest := RootsCode(nArgs, n, f[1..]);
    assert TypedRoot(f[0]);
    assert RootsCode(nArgs, n, f) == RootCode(nArgs, n, f[0]) + rest;
    match f[0].result
    case None => ReturnTaken(env, prog, rest, m, z, fuel, ts);
    case Some(e) =>
      hide Related, ZoneOk, RootsCode, Run, TypedRoots, Kept, ZoneKept, RootOk;
      var t := LeaveStep(env, prog, nArgs, n, e, rest, s, m, z, fuel, ts);
  }

  // ----- a procedure, end to end -----

  function Header(name: string, nLocals: nat, nArgs: nat): seq<Entry> {
    [Directive(D_PROC, Symbol(name, 0))] + ProcHeader(name, nLocals, nArgs)
  }

  /** What the translator makes of a procedure before the passes. */
  function Procedure(name: string, nLocals: nat, nArgs: nat, f: seq<Root>): seq<Entry>
    requires AllAccepted(DumpRoots(f))
  {
    TranslatedAll(DumpRoots(f), Header(name, nLocals, nArgs), nArgs, 0)
  }

  function Twice(code: seq<Entry>): seq<Entry> {
    Optimize2From([], OptimizeFrom([], code))
  }

  /** The frame of the procedure lies above the state it is entered in, and nothing in it is written. */
  function Entered(total: nat, s: State, z: Zone): Resume {
    if total == 0 then Resume(s, z)
    else Resume(s.(sp := W(s.sp + total)), Zone(s.sp + total, z.limit, z.junk + Range(s.sp, s.sp + total)))
  }

  /** Labels behind the header of a procedure are found in its body. */
  lemma {:induction false} HeaderLinked(env: Env, name: string, nLocals: nat, nArgs: nat, f: seq<Root>)
    requires TypedRoots(f) && name !in Names(f) && Apart(env, Names(f) + {name})
    ensures Linked(env, Header(name, nLocals, nArgs) + RootsCode(nArgs, 0, f), nArgs, f)
  {
    var header, body := Header(name, nLocals, nArgs), RootsCode(nArgs, 0, f);
    forall lab | lab in Names(f)
      ensures Behind(env, header + body, env(lab)) == CodeAt(nArgs, 0, f, lab)
    {
      assert Apart(env, Names(f) + {lab}) && env(lab) != env(name);
      HeaderSkipped(env, name, nLocals, nArgs, body, env(lab));
      BehindIsCodeAt(env, nArgs, 0, f, lab);
    }
  }

  function Reserve(total: nat): seq<Entry> {
    if total > 0 then [Op(ALLOC, Number(total), SizeWord, ByteOrWord(total))] else []
  }

  lemma {:induction false} HeaderSkipped(env: Env, name: string, nLocals: nat, nArgs: nat, body: seq<Entry>, v: Word)
    ensures v != env(name) ==> Behind(env, Header(name, nLocals, nArgs) + body, v) == Behind(env, body, v)
    ensures Behind(env, Header(name, nLocals, nArgs) + body, env(name)) == Some(Reserve(nLocals + nArgs) + body)
  {
    var d, l, a := Directive(D_PROC, Symbol(name, 0)), Directive(D_LABEL, Symbol(name, 0)), Reserve(nLocals + nArgs);
    var code := Header(name, nLocals, nArgs) + body;
    assert code == [d] + ([l] + (a + body));
    assert code[1..] == [l] + (a + body) && code[1..][1..] == a + body;
    assert W(Value(env, l.arg)) == env(name);
    BehindSkips(env, a, body, v);
  }

  lemma {:induction false} EnteredIs(total: nat, s: State, m: State, z: Zone)
    requires ZoneOk(s, z) && Related(s, m, z) && s.sp + total <= z.limit && total > 0
    ensures total < 0x10000 && Reserve(total) == [Op(ALLOC, Number(total), SizeWord, ByteOrWord(total))]
    ensures Entered(total, s, z) == Resume(Step(Alloc(total), s), ZoneAfter(Alloc(total), s, z))
    ensures Tame(Alloc(total), s, z) && Tame(Alloc(total), m, z) && FallsThrough(Alloc(total))
    ensures !Op(ALLOC, Number(total), SizeWord, ByteOrWord(total)).isDirective
  {
  }

  lemma DecodeReserve(env: Env, total: Word)
    ensures Decode(env, Op(ALLOC, Number(total), SizeWord, ByteOrWord(total))) == Some(Alloc(total))
  {
    ByteOperand(env, Op(ALLOC, Number(total), SizeWord, ByteOrWord(total)));
  }

  /** The space for locals and arguments is reserved first. */
  lemma {:induction false} RunReserve(env: Env, prog: seq<Entry>, total: nat, rest: seq<Entry>, s: State, m: State, z: Zone, fuel: nat,
                                      rs: seq<Resume>) returns (t: State)
    requires ZoneOk(s, z) && Related(s, m, z) && s.sp + total <= z.limit
    ensures var e := Entered(total, s, z);
            && Run(env, prog, Reserve(total) + rest, m, z, fuel, rs) == Run(env, prog, rest, t, e.z, fuel, rs)
            && Related(e.s, t, e.z) && ZoneOk(e.s, e.z)
  {
    if total == 0 {
      assert Reserve(total) + rest == rest;
      t := m;
    } else {
      EnteredIs(total, s, m, z);
      DecodeReserve(env, total);
      hide *;
      SameAlloc(s, m, z, total);
      RunOne(env, prog, Op(ALLOC, Number(total), SizeWord, ByteOrWord(total)), rest, m, z, fuel, rs);
      t := Step(Alloc(total), m);
    }
  }

  lemma {:induction false} HeaderTidy(name: string, nLocals: nat, nArgs: nat, body: seq<Entry>)
    requires Tidy(body)
    ensures Separated(Header(name, nLocals, nArgs) + body) && BytesFit(Header(name, nLocals, nArgs) + body)
  {
    var d, rest := Directive(D_PROC, Symbol(name, 0)), ProcHeader(name, nLocals, nArgs) + body;
    assert Tidy(ProcHeader(name, nLocals, nArgs));
    TidyConcat(ProcHeader(name, nLocals, nArgs), body);
    assert Header(name, nLocals, nArgs) + body == [d] + rest;
    assert forall i | 1 <= i < |[d] + rest| :: ([d] + rest)[i] == rest[i - 1];
    assert rest[0].isDirective;
  }

  lemma {:induction false} TransferTo(env: Env, prog: seq<Entry>, v: Word, code: seq<Entry>, m: State, z: Zone, fuel: nat, ts: seq<Resume>)
    requires Behind(env, prog, v) == Some(code)
    ensures Transfer(env, prog, v, m, z, fuel + 1, ts) == Run(env, prog, code, m, z, fuel, ts)
  {
  }

  lemma {:induction false} ProcedureIs(name: string, nLocals: nat, nArgs: nat, f: seq<Root>)
    requires TypedRoots(f)
    ensures AllAccepted(DumpRoots(f))
    ensures Procedure(name, nLocals, nArgs, f) == Header(name, nLocals, nArgs) + RootsCode(nArgs, 0, f)
  {
    TranslateRoots(f, Header(name, nLocals, nArgs), nArgs, 0);
  }

  /** The translated procedure does what its roots mean, entered through its label. */
  lemma {:induction false} TranslatedProcedure(env: Env, name: string, nLocals: nat, nArgs: nat, f: seq<Root>, s: State, m: State, z: Zone,
                                               fuel: nat, rs: seq<Resume>, ts: seq<Resume>)
    requires TypedRoots(f) && name !in Names(f) && Apart(env, Names(f) + {name})
    requires ZoneOk(s, z) && Related(s, m, z) && ResumesOk(rs, ts) && s.sp + nLocals + nArgs <= z.limit
    requires var e := Entered(nLocals + nArgs, s, z);
             !GoesWild(Meant(env, nArgs, f, f, 0, e.s, e.z, fuel, rs))
    ensures AllAccepted(DumpRoots(f))
    ensures var e, code := Entered(nLocals + nArgs, s, z), Procedure(name, nLocals, nArgs, f);
            SameOutcome(Meant(env, nArgs, f, f, 0, e.s, e.z, fuel, rs), Transfer(env, code, env(name), m, z, fuel + 1, ts))
  {
    hide *;
    ProcedureIs(name, nLocals, nArgs, f);
    var body := RootsCode(nArgs, 0, f);
    var code, e := Procedure(name, nLocals, nArgs, f), Entered(nLocals + nArgs, s, z);
    HeaderLinked(env, name, nLocals, nArgs, f);
    HeaderSkipped(env, name, nLocals, nArgs, body, env(name));
    TransferTo(env, code, env(name), Reserve(nLocals + nArgs) + body, m, z, fuel, ts);
    var t := RunReserve(env, code, nLocals + nArgs, body, s, m, z, fuel, ts);
    MeantRuns(env, code, nArgs, f, f, 0, e.s, t, e.z, fuel, rs, ts);
  }

  /** From roots to optimised machine code: entered through its label, in any state that agrees on live
      memory, the translated procedure does what its roots mean, and so it does after either pass.  Both make
      the same calls with the same arguments in memory, and go on behind them in any states related
      like that. */
  lemma {:induction false} CompiledProcedure(env: Env, name: string, nLocals: nat, nArgs: nat, f: seq<Root>, s: State, m: State, z: Zone,
                                             fuel: nat, rs: seq<Resume>, ts: seq<Resume>)
    requires TypedRoots(f) && name !in Names(f) && Apart(env, Names(f) + {name})
    requires ZoneOk(s, z) && Related(s, m, z) && ResumesOk(rs, ts) && s.sp + nLocals + nArgs <= z.limit
    requires var e := Entered(nLocals + nArgs, s, z);
             !GoesWild(Meant(env, nArgs, f, f, 0, e.s, e.z, fuel, rs))
    ensures AllAccepted(DumpRoots(f))
    ensures var e, code := Entered(nLocals + nArgs, s, z), Procedure(name, nLocals, nArgs, f);
            var meant := Meant(env, nArgs, f, f, 0, e.s, e.z, fuel, rs);
            && SameOutcome(meant, Transfer(env, code, env(name), m, z, fuel + 1, ts))
            && SameOutcome(meant, Transfer(env, OptimizeFrom([], code), env(name), m, z, fuel + 1, ts))
            && SameOutcome(meant, Transfer(env, Twice(code), env(name), m, z, fuel + 1, ts))
  {
    assert Related(s, s, z);
    ResumesSelf(rs, ts);
    TranslatedProcedure(env, name, nLocals, nArgs, f, s, m, z, fuel, rs, ts);
    TranslatedProcedure(env, name, nLocals, nArgs, f, s, s, z, fuel, rs, rs);
    var e, code := Entered(nLocals + nArgs, s, z), Procedure(name, nLocals, nArgs, f);
    var at, meant := Some(env(name)), Meant(env, nArgs, f, f, 0, e.s, e.z, fuel, rs);
    ProcedureIs(name, nLocals, nArgs, f);
    RootsTidy(nArgs, 0, f);
    HeaderTidy(name, nLocals, nArgs, RootsCode(nArgs, 0, f));
    hide Meant, Run, Transfer, ZoneOk, Related, ResumesOk, SameOutcome, GoesWild, Separated, BytesFit, Procedure, Names, Apart, Entered;
    SameOutcomeWild(meant, Start(env, code, at, s, z, fuel + 1, rs));
    PassesKeepMeaning(env, code, at, s, m, z, fuel + 1, rs, ts);
    SameOutcomeTrans(meant, Start(env, code, at, s, z, fuel + 1, rs), Start(env, OptimizeFrom([], code), at, m, z, fuel + 1, ts));
    SameOutcomeTrans(meant, Start(env, code, at, s, z, fuel + 1, rs), Start(env, Twice(code), at, m, z, fuel + 1, ts));
  }

  /** The translator's main loop over the lines of one procedure, with both passes. */
  method Compile(name: string, nLocals: nat, nArgs: nat, f: seq<Root>) returns (code: seq<Entry>)
    requires TypedRoots(f)
    ensures AllAccepted(DumpRoots(f)) && code == Twice(Procedure(name, nLocals, nArgs, f))
  {
    TranslateRoots(f, [], nArgs, 0);
    var lines := DumpRoots(f);
    var t := new Translator();
    t.output := [Directive(D_PROC, Symbol(name, 0))];
    t.GenProcHeader(name, nLocals, nArgs);
    for i := 0 to |lines|
      invariant t.nArgs == nArgs
      invariant TranslatedAll(lines[i..], t.output, nArgs, t.cArg) == Procedure(name, nLocals, nArgs, f)
    {
      assert lines[i..][1..] == lines[i + 1..] && Accepted(lines[i]);
      var ok := t.ParseOp(lines[i]);
    }
    t.Optimize();
    t.Optimize2();
    code := t.output;
  }
}

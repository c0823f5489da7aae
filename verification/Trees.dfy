/** Expression trees of the C compiler (lcc/src/tree.c, lcc/src/dag.c:102-378), what they mean, and what listing
    them may do to nodes that wait to be evaluated. */
module Trees {
  import opened Words
  import opened Dag
  import opened Roots
  import opened Late

  /** Expression trees.  `TPost` is the postfix increment, whose load and store share the address. */
  datatype Tree =
    | TNone
    | TAddr(kind: AddrKind, sym: Symbol)
    | TCnst(size: nat, value: int)
    | TIndir(size: nat, volatile: bool, addr: Tree)
    | TConvert(size: nat, from: nat, kid: Tree)
    | TUnary(unary: UnaryName, size: nat, kid: Tree)
    | TBinary(binary: BinaryName, size: nat, left: Tree, right: Tree)
    | TAsgn(size: nat, target: Tree, source: Tree)
    | TCall(size: nat, func: Tree, args: Tree)
    | TArg(arg: Tree, before: Tree)
    | TRight(left: Tree, right: Tree)
    | TPost(size: nat, target: Tree, source: Tree)
    | TAnd(left: Tree, right: Tree)
    | TOr(left: Tree, right: Tree)
    | TNot(kid: Tree)
    | TCompare(cond: Cond, left: Tree, right: Tree)

  // ----- the meaning of trees -----

  function ConstantOf(size: nat, value: int): Option<Symbol> {
    Some(Constant(size, value))
  }

  /** The value of a tree and the store after it, operands from left to right. */
  function Value(m: Machine, t: Tree, st: Store): (Val, Store)
    decreases t
  {
    match t
    case TAddr(_, sym) => ([m.layout(sym)], st)
    case TCnst(size, value) => (m.literal(Constant(size, value)), st)
    case TIndir(size, _, a) =>
      var (x, s1) := Value(m, a, st);
      (Fetch(s1.mem, First(x), size), s1)
    case TConvert(size, from, k) =>
      var (x, s1) := Value(m, k, st);
      (m.apply(Convert(size), ConstantOf(1, from), x, []), s1)
    case TUnary(name, size, k) =>
      var (x, s1) := Value(m, k, st);
      (m.apply(Unary(name, size), None, x, []), s1)
    case TBinary(name, size, l, r) =>
      var (x, s1) := Value(m, l, st);
      var (y, s2) := Value(m, r, s1);
      (m.apply(Binary(name, size), None, x, y), s2)
    case TAsgn(size, l, r) =>
      var (x, s1) := Value(m, l, st);
      var (y, s2) := Value(m, r, s1);
      (y, s2.(mem := Update(s2.mem, First(x), y, size)))
    case TCall(_, f, args) =>
      var (x, s1) := Value(m, f, st);
      var s2 := Value(m, args, s1).1;
      (m.callee(x, s2).1, m.callee(x, s2).0)
    case TArg(e, before) =>
      var (x, s1) := Value(m, e, Value(m, before, st).1);
      ([], s1.(args := s1.args + [x]))
    case TRight(l, r) =>
      if r.TNone? then Value(m, l, st) else Value(m, r, Value(m, l, st).1)
    case TPost(size, a, e) =>
      var (x, s1) := Value(m, a, st);
      var (y, s2) := Value(m, e, s1);
      (Fetch(s1.mem, First(x), size), s2.(mem := Update(s2.mem, First(x), y, size)))
    case TAnd(l, r) =>
      var (b, s1) := Truth(m, l, st);
      ([], if b then Value(m, r, s1).1 else s1)
    case TOr(l, r) =>
      var (b, s1) := Truth(m, l, st);
      ([], if b then s1 else Value(m, r, s1).1)
    case TNot(k) => ([], Value(m, k, st).1)
    case _ => ([], st)
  }

  /** The truth of a condition and the store after it; right operands only when needed. */
  function Truth(m: Machine, t: Tree, st: Store): (bool, Store)
    decreases t
  {
    match t
    case TAnd(l, r) =>
      var (b, s1) := Truth(m, l, st);
      if b then Truth(m, r, s1) else (false, s1)
    case TOr(l, r) =>
      var (b, s1) := Truth(m, l, st);
      if b then (true, s1) else Truth(m, r, s1)
    case TNot(k) =>
      var (b, s1) := Truth(m, k, st);
      (!b, s1)
    case TCnst(_, value) => (value != 0, st)
    case TRight(l, r) =>
      if r.TNone? then Truth(m, l, st) else Truth(m, r, Value(m, l, st).1)
    case TCompare(c, l, r) =>
      var (x, s1) := Value(m, l, st);
      var (y, s2) := Value(m, r, s1);
      (Compare(c, m.number(x), m.number(y)), s2)
    case _ => (false, st)
  }

  /** What running the code of a tree does: without labels its effects; with `tlab` a jump exactly
      when the tree is true, with `flab` a jump exactly when it is false. */
  function Meaning(m: Machine, t: Tree, tlab: nat, flab: nat, flow: Flow): Flow {
    match flow
    case Going(_, _) => flow
    case At(st) =>
      if tlab == 0 && flab == 0 then At(Value(m, t, st).1)
      else
        var (b, s1) := Truth(m, t, st);
        if tlab != 0 && b then Going(tlab, s1)
        else if tlab == 0 && !b then Going(flab, s1)
        else At(s1)
  }

  // ----- trees the compiler builds -----

  predicate Yields(t: Tree) {
    match t
    case TAddr(_, _) => true
    case TCnst(_, _) => true
    case TIndir(_, _, _) => true
    case TConvert(_, _, _) => true
    case TUnary(_, _, _) => true
    case TBinary(_, _, _, _) => true
    case TAsgn(_, _, _) => true
    case TCall(_, _, _) => true
    case TRight(l, r) => if r.TNone? then Yields(l) else Yields(r)
    case TPost(_, _, _) => true
    case _ => false
  }

  /** Trees that may be listed without labels, and trees that may be listed with one. */
  predicate ValueTree(t: Tree) {
    match t
    case TIndir(_, _, a) => ValueTree(a) && Yields(a)
    case TConvert(_, _, k) => ValueTree(k) && Yields(k)
    case TUnary(_, _, k) => ValueTree(k) && Yields(k)
    case TBinary(_, _, l, r) => ValueTree(l) && Yields(l) && ValueTree(r) && Yields(r)
    case TAsgn(_, l, r) => ValueTree(l) && Yields(l) && ValueTree(r) && Yields(r)
    case TCall(_, f, args) => ValueTree(f) && Yields(f) && (args.TNone? || args.TArg?) && ValueTree(args)
    case TArg(e, before) => ValueTree(e) && Yields(e) && (before.TNone? || before.TArg?) && ValueTree(before)
    case TRight(l, r) => ValueTree(l) && ValueTree(r)
    case TPost(_, a, e) => ValueTree(a) && Yields(a) && ValueTree(e) && Yields(e)
    case TAnd(l, r) => CondTree(l) && ValueTree(r)
    case TOr(l, r) => CondTree(l) && ValueTree(r)
    case TNot(k) => ValueTree(k)
    case TCompare(_, _, _) => false
    case _ => true
  }

  predicate CondTree(t: Tree) {
    match t
    case TAnd(l, r) => CondTree(l) && CondTree(r)
    case TOr(l, r) => CondTree(l) && CondTree(r)
    case TNot(k) => CondTree(k)
    case TCnst(_, _) => true
    case TRight(l, r) => if r.TNone? then CondTree(l) else ValueTree(l) && CondTree(r)
    case TCompare(_, l, r) => ValueTree(l) && Yields(l) && ValueTree(r) && Yields(r)
    case _ => false
  }

  predicate Usable(t: Tree, tlab: nat, flab: nat) {
    if tlab == 0 && flab == 0 then ValueTree(t) else (tlab == 0 || flab == 0) && CondTree(t)
  }

  /** The symbol whose address a tree hands up, if it does. */
  function Final(t: Tree): Option<Symbol> {
    match t
    case TAddr(_, sym) => Some(sym)
    case TRight(l, r) => if r.TNone? then Final(l) else Final(r)
    case TAsgn(_, _, r) => Final(r)
    case _ => None
  }

  ghost predicate Fits(m: Machine, size: nat, a: Tree) {
    Final(a).Some? ==> size <= m.width(Final(a).value)
  }

  /** No access through a symbol is wider than the symbol's width. */
  ghost predicate TreeOk(m: Machine, t: Tree) {
    match t
    case TIndir(size, _, a) => TreeOk(m, a) && Fits(m, size, a)
    case TConvert(_, _, k) => TreeOk(m, k)
    case TUnary(_, _, k) => TreeOk(m, k)
    case TBinary(_, _, l, r) => TreeOk(m, l) && TreeOk(m, r)
    case TAsgn(size, l, r) => TreeOk(m, l) && TreeOk(m, r) && Fits(m, size, l)
    case TCall(_, f, args) => TreeOk(m, f) && TreeOk(m, args)
    case TArg(e, before) => TreeOk(m, e) && TreeOk(m, before)
    case TRight(l, r) => TreeOk(m, l) && TreeOk(m, r)
    case TPost(size, a, e) => TreeOk(m, a) && TreeOk(m, e) && Fits(m, size, a)
    case TAnd(l, r) => TreeOk(m, l) && TreeOk(m, r)
    case TOr(l, r) => TreeOk(m, l) && TreeOk(m, r)
    case TNot(k) => TreeOk(m, k)
    case TCompare(_, l, r) => TreeOk(m, l) && TreeOk(m, r)
    case _ => true
  }

  /** Trees without stores, calls and conditions. */
  predicate Pure(t: Tree) {
    match t
    case TAddr(_, _) => true
    case TCnst(_, _) => true
    case TIndir(_, _, a) => Pure(a)
    case TConvert(_, _, k) => Pure(k)
    case TUnary(_, _, k) => Pure(k)
    case TBinary(_, _, l, r) => Pure(l) && Pure(r)
    case _ => false
  }

  lemma {:induction false} PureKeepsStore(m: Machine, t: Tree, st: Store)
    requires Pure(t)
    ensures Value(m, t, st).1 == st
    decreases t
  {
    match t
    case TIndir(_, _, a) => PureKeepsStore(m, a, st);
    case TConvert(_, _, k) => PureKeepsStore(m, k, st);
    case TUnary(_, _, k) => PureKeepsStore(m, k, st);
    case TBinary(_, _, l, r) =>
      PureKeepsStore(m, l, st);
      PureKeepsStore(m, r, st);
    case _ =>
  }

  // ----- what a tree may do to nodes that wait -----

  /** The symbol an assignment through this address writes, if it is one that is stored apart. */
  function TargetOf(a: Tree): Option<Symbol> {
    if a.TAddr? && a.sym.Variable? && !a.sym.computed then Some(a.sym) else None
  }

  /** Stores, calls and labels of a tree. */
  function Writes(t: Tree): set<Effect> {
    match t
    case TIndir(_, _, a) => Writes(a)
    case TConvert(_, _, k) => Writes(k)
    case TUnary(_, _, k) => Writes(k)
    case TBinary(_, _, l, r) => Writes(l) + Writes(r)
    case TAsgn(_, l, r) => Writes(l) + Writes(r) + {Write(TargetOf(l))}
    case TCall(_, f, args) => Writes(f) + Writes(args) + {Write(None)}
    case TArg(e, before) => Writes(before) + Writes(e)
    case TRight(l, r) => Writes(l) + Writes(r)
    case TPost(_, a, e) => Writes(a) + Writes(e) + {Write(TargetOf(a))}
    case TAnd(l, r) => Writes(l) + Writes(r) + {Join}
    case TOr(l, r) => Writes(l) + Writes(r) + {Join}
    case TNot(k) => Writes(k)
    case TCompare(_, l, r) => Writes(l) + Writes(r)
    case _ => {}
  }

  /** What the loads read that a tree leaves to its user: those no store, call or forced load has used. */
  function Pending(t: Tree): set<Option<Symbol>> {
    match t
    case TIndir(_, _, a) => Pending(a) + {if a.TAddr? then Some(a.sym) else None}
    case TConvert(_, _, k) => Pending(k)
    case TUnary(_, _, k) => Pending(k)
    case TBinary(_, _, l, r) => Pending(l) + Pending(r)
    case TRight(l, r) => if r.TNone? then Pending(l) else Pending(r)
    case TNot(k) => Pending(k)
    case _ => {}
  }

  /** While an operand waits for the next to be listed, nothing may write what it reads, and no `&&` or `||`
      inside the next operand jumps. */
  predicate Steady(t: Tree) {
    match t
    case TIndir(_, _, a) => Steady(a)
    case TConvert(_, _, k) => Steady(k)
    case TUnary(_, _, k) => Steady(k)
    case TBinary(_, _, l, r) => Steady(l) && Steady(r) && Apart(Pending(l), Writes(r))
    case TAsgn(_, l, r) => Steady(l) && Steady(r) && Apart(Pending(l), Writes(r))
    case TCall(_, f, args) => Steady(f) && Steady(args) && Apart(Pending(f), Writes(args))
    case TArg(e, before) => Steady(before) && Steady(e)
    case TRight(l, r) => Steady(l) && Steady(r)
    case TPost(_, a, e) => Steady(a) && Steady(e) && Join !in Writes(e)
    case TAnd(l, r) => Steady(l) && Steady(r)
    case TOr(l, r) => Steady(l) && Steady(r)
    case TNot(k) => Steady(k)
    case TCompare(_, l, r) => Steady(l) && Steady(r) && Apart(Pending(l), Writes(r))
    case _ => true
  }

  /** Trees without stores and calls are steady. */
  lemma {:induction false} PureIsSteady(t: Tree)
    requires Pure(t)
    ensures Steady(t) && Writes(t) == {}
    decreases t
  {
    match t
    case TIndir(_, _, a) => PureIsSteady(a);
    case TConvert(_, _, k) => PureIsSteady(k);
    case TUnary(_, _, k) => PureIsSteady(k);
    case TBinary(_, _, l, r) =>
      PureIsSteady(l);
      PureIsSteady(r);
    case _ =>
  }

  /** Conditions over comparisons of trees without stores and calls. */
  predicate PureCond(t: Tree) {
    match t
    case TAnd(l, r) => PureCond(l) && PureCond(r)
    case TOr(l, r) => PureCond(l) && PureCond(r)
    case TNot(k) => PureCond(k)
    case TCnst(_, _) => true
    case TCompare(_, l, r) => Pure(l) && Pure(r)
    case _ => false
  }

  lemma {:induction false} PureCondIsSteady(t: Tree)
    requires PureCond(t)
    ensures Steady(t)
    decreases t
  {
    match t
    case TAnd(l, r) => PureCondIsSteady(l); PureCondIsSteady(r);
    case TOr(l, r) => PureCondIsSteady(l); PureCondIsSteady(r);
    case TNot(k) => PureCondIsSteady(k);
    case TCompare(_, l, r) => PureIsSteady(l); PureIsSteady(r);
    case _ =>
  }

  lemma {:induction false} PureAsgnIsSteady(t: Tree)
    requires t.TAsgn? && Pure(t.target) && Pure(t.source)
    ensures Steady(t)
  {
    PureIsSteady(t.target);
    PureIsSteady(t.source);
  }
}

/** When evaluating nodes late does not matter.  `listnodes` builds a node now, the code evaluates it at the
    first root that uses it; both agree as long as nothing between the two writes what a load reads, and
    nothing jumps into the stretch between them. */
module Late {
  import opened Words
  import opened Dag
  import opened Roots

  /** The builder's tables: nodes, the length of the list when each was built, the list itself, and how many
      nodes there were at the last label before each root and before what comes next. */
  datatype Snap = Snap(nodes: seq<Node>, born: seq<nat>, forest: seq<Root>, floors: seq<nat>, floor: nat)

  ghost predicate NoLabelFrom(forest: seq<Root>, i: nat) {
    forall j | i <= j < |forest| :: !forest[j].Label?
  }

  /** Address nodes of variables that are stored apart. */
  predicate IsVar(nodes: seq<Node>, a: nat) {
    && a < |nodes| && nodes[a].op.Addr? && nodes[a].sym.Some?
    && nodes[a].sym.value.Variable? && !nodes[a].sym.value.computed
  }

  /** A root may write what node k, a load, reads. */
  predicate Meets(nodes: seq<Node>, k: nat, r: Root)
    requires k < |nodes|
  {
    match r
    case Invoke(_) => true
    case Assign(a, _, _) => !(IsVar(nodes, a) && LoadsSymbol(nodes, k) && LoadedSymbol(nodes, k) != nodes[a].sym.value)
    case _ => false
  }

  ghost predicate Unmet(nodes: seq<Node>, k: nat, forest: seq<Root>, i: nat)
    requires k < |nodes|
  {
    forall j | i <= j < |forest| :: !Meets(nodes, k, forest[j])
  }

  ghost predicate BornOk(s: Snap, k: nat) {
    && k < |s.nodes| && k < |s.born| && s.born[k] <= |s.forest| && NoLabelFrom(s.forest, s.born[k])
    && (s.nodes[k].op.Call? ==> s.born[k] < |s.forest| && s.forest[s.born[k]] == Invoke(k))
  }

  ghost predicate Shaped(s: Snap) {
    && |s.born| == |s.nodes| && |s.floors| == |s.forest| && WellLinked(s.nodes) && AllIn(s.forest, |s.nodes|) && s.floor <= |s.nodes|
    && forall k: nat | s.floor <= k < |s.nodes| :: BornOk(s, k)
  }

  /** Node k, evaluated at a root listed next, has the value it was built with. */
  ghost predicate Ripe(s: Snap, k: nat) {
    && k < |s.nodes| && k < |s.born| && s.floor <= k
    && (k in Seen(s.nodes, s.forest) || (!s.nodes[k].op.Call? && (s.nodes[k].op.Indir? ==> Unmet(s.nodes, k, s.forest, s.born[k]))))
  }

  ghost predicate Fresh(s: Snap, n: nat) {
    forall k | k in Reach(s.nodes, n) :: Ripe(s, k)
  }

  ghost predicate HeldOk(s: Snap, chains: Chains) {
    forall n: nat | Held(chains, n) ::
      && s.floor <= n < |s.nodes| && n < |s.born| && !s.nodes[n].op.Call?
      && (s.nodes[n].op.Indir? ==> Unmet(s.nodes, n, s.forest, s.born[n]))
  }

  /** Root i uses no node that was built before a label, and is the first to use a load only if no root
      since the load was built may have written what it reads. */
  ghost predicate CalmFor(s: Snap, i: nat, k: nat)
    requires i < |s.forest|
  {
    && k < |s.nodes| && k < |s.born| && i < |s.floors| && s.floors[i] <= k
    && s.born[k] <= i && NoLabelFrom(s.forest[..i], s.born[k])
    && (k !in Seen(s.nodes, s.forest[..i]) ==>
          && (s.nodes[k].op.Indir? ==> Unmet(s.nodes, k, s.forest[..i], s.born[k]))
          && (s.nodes[k].op.Call? ==> s.forest[i] == Invoke(k) && s.born[k] == i))
  }

  ghost predicate CalmAt(s: Snap, i: nat)
    requires i < |s.forest|
  {
    forall k | k in Touched(s.nodes, s.forest[i]) :: CalmFor(s, i, k)
  }

  ghost predicate Calm(s: Snap) {
    forall i | 0 <= i < |s.forest| :: CalmAt(s, i)
  }

  // ----- values -----

  /** A node was built with the value it has in the store reached then. */
  ghost predicate Timed(m: Machine, s: Snap, vals: seq<Val>, equated: map<nat, nat>, start: Flow, k: nat)
    requires k < |s.nodes| == |vals| == |s.born| && AllIn(s.forest, |s.nodes|)
  {
    && s.born[k] <= |s.forest|
    && var f := Run(m, s.nodes, vals, equated, s.forest[..s.born[k]], start);
       f.At? ==> vals[k] == Built(m, s.nodes[k], vals, f.st)
  }

  function Built(m: Machine, d: Node, vals: seq<Val>, st: Store): Val {
    if d.op.Call? then m.callee(ValueOf(vals, d.left), st).1
    else Compute(m, d.op, d.sym, ValueOf(vals, d.left), ValueOf(vals, d.right), st.mem)
  }

  ghost predicate Timely(m: Machine, s: Snap, vals: seq<Val>, equated: map<nat, nat>, start: Flow) {
    && Shaped(s) && |vals| == |s.nodes|
    && (forall k: nat | s.floor <= k < |s.nodes| :: Timed(m, s, vals, equated, start, k))
    && (Calm(s) ==> forall k: nat | k < |s.nodes| && k in Seen(s.nodes, s.forest) :: Timed(m, s, vals, equated, start, k))
  }

  /** No access through a symbol is wider than the symbol's width. */
  ghost predicate Measured(m: Machine, s: Snap) {
    && (forall k: nat | k < |s.nodes| && LoadsSymbol(s.nodes, k) :: s.nodes[k].op.size <= m.width(LoadedSymbol(s.nodes, k)))
    && (forall i | 0 <= i < |s.forest| :: RootMeasured(m, s.nodes, s.forest[i]))
  }

  ghost predicate RootMeasured(m: Machine, nodes: seq<Node>, r: Root) {
    r.Assign? && IsVar(nodes, r.target) ==> r.size <= m.width(nodes[r.target].sym.value)
  }

  // ----- calm lists run late as at built values -----

  /** Without a label in between, a run that is at its place at i was so at j. */
  lemma {:induction false} StillAt(m: Machine, nodes: seq<Node>, vals: seq<Val>, equated: map<nat, nat>, forest: seq<Root>, start: Flow, j: nat, i: nat)
    requires |nodes| == |vals| && AllIn(forest, |nodes|) && j <= i <= |forest| && NoLabelFrom(forest[..i], j)
    requires Run(m, nodes, vals, equated, forest[..i], start).At?
    ensures Run(m, nodes, vals, equated, forest[..j], start).At?
    decreases i
  {
    if j < i {
      assert forest[..i][..i - 1] == forest[..i - 1];
      assert forest[..i][i - 1] == forest[i - 1];
      StillAt(m, nodes, vals, equated, forest, start, j, i - 1);
    }
  }

  /** One root that does not meet a load leaves the words the load reads. */
  lemma UnmetRoot(m: Machine, nodes: seq<Node>, vals: seq<Val>, equated: map<nat, nat>, r: Root, flow: Flow, k: nat)
    requires |nodes| == |vals| && RootIn(r, |nodes|) && Separated(m) && WellLinked(nodes) && AddressesKnown(m, nodes, vals)
    requires k < |nodes| && nodes[k].op.Indir? && RootMeasured(m, nodes, r)
    requires LoadsSymbol(nodes, k) ==> nodes[k].op.size <= m.width(LoadedSymbol(nodes, k))
    requires !Meets(nodes, k, r) && flow.At? && Exec(m, nodes, vals, equated, r, flow).At?
    ensures Fetch(Exec(m, nodes, vals, equated, r, flow).st.mem, First(ValueOf(vals, nodes[k].left)), nodes[k].op.size) ==
            Fetch(flow.st.mem, First(ValueOf(vals, nodes[k].left)), nodes[k].op.size)
  {
    if r.Assign? {
      var p, q := nodes[r.target].sym.value, LoadedSymbol(nodes, k);
      assert WellFormedNode(nodes[k], k);
      assert vals[r.target] == [m.layout(p)] && ValueOf(vals, nodes[k].left) == [m.layout(q)];
      hide WellLinked, AddressesKnown, Fetch, Update;
      assert Disjoint(m.layout(p), m.width(p), m.layout(q), m.width(q));
      FetchUpdate(flow.st.mem, m.layout(p), vals[r.source], r.size, m.layout(q), nodes[k].op.size);
    }
  }

  lemma {:induction false} UnmetKeeps(m: Machine, s: Snap, vals: seq<Val>, equated: map<nat, nat>, start: Flow, k: nat, j: nat, i: nat)
    requires |s.nodes| == |vals| && AllIn(s.forest, |s.nodes|) && j <= i <= |s.forest| && NoLabelFrom(s.forest[..i], j)
    requires Separated(m) && WellLinked(s.nodes) && AddressesKnown(m, s.nodes, vals) && Measured(m, s)
    requires k < |s.nodes| && s.nodes[k].op.Indir? && Unmet(s.nodes, k, s.forest[..i], j)
    requires Run(m, s.nodes, vals, equated, s.forest[..i], start).At?
    ensures Run(m, s.nodes, vals, equated, s.forest[..j], start).At?
    ensures Fetch(Run(m, s.nodes, vals, equated, s.forest[..i], start).st.mem, First(ValueOf(vals, s.nodes[k].left)), s.nodes[k].op.size) ==
            Fetch(Run(m, s.nodes, vals, equated, s.forest[..j], start).st.mem, First(ValueOf(vals, s.nodes[k].left)), s.nodes[k].op.size)
    decreases i
  {
    if j < i {
      hide Separated, WellLinked, AddressesKnown, Fetch, Meets, Exec;
      var f := s.forest[..i];
      assert f[..i - 1] == s.forest[..i - 1] && f[i - 1] == s.forest[i - 1];
      StillAt(m, s.nodes, vals, equated, s.forest, start, i - 1, i);
      UnmetKeeps(m, s, vals, equated, start, k, j, i - 1);
      UnmetRoot(m, s.nodes, vals, equated, s.forest[i - 1], Run(m, s.nodes, vals, equated, s.forest[..i - 1], start), k);
    }
  }

  /** The run up to root i: both runs agree, temporaries hold built values, and what was used since the last
      label has been kept. */
  ghost predicate Agree(m: Machine, s: Snap, vals: seq<Val>, equated: map<nat, nat>, start: Flow, junk: nat -> Val, i: nat)
    requires |s.nodes| == |vals| == |s.born| && AllIn(s.forest, |s.nodes|) && i <= |s.forest|
  {
    var late := RunLate(m, s.nodes, equated, s.forest[..i], junk, start);
    && late.flow == Run(m, s.nodes, vals, equated, s.forest[..i], start)
    && (forall n | n in late.memo :: n < |vals| && late.memo[n] == vals[n])
    && (late.flow.At? ==> forall n: nat | n in Seen(s.nodes, s.forest[..i]) && n < |s.born| && NoLabelFrom(s.forest[..i], s.born[n]) ::
          n in late.memo)
  }

  ghost predicate Setting(m: Machine, s: Snap, vals: seq<Val>, equated: map<nat, nat>, start: Flow) {
    && Separated(m) && Timely(m, s, vals, equated, start) && AddressesKnown(m, s.nodes, vals) && Measured(m, s) && Calm(s)
  }

  /** A node that root i is the first to use has, in the store there, the value it was built with. */
  lemma {:induction false} BuiltStill(m: Machine, s: Snap, vals: seq<Val>, equated: map<nat, nat>, start: Flow, i: nat, k: nat)
    requires Setting(m, s, vals, equated, start) && i < |s.forest| && k in Touched(s.nodes, s.forest[i]) && k < |s.nodes|
    requires !s.nodes[k].op.Call?
    requires k !in Seen(s.nodes, s.forest[..i]) || Local(s.nodes[k])
    ensures Run(m, s.nodes, vals, equated, s.forest[..i], start).At? ==>
              vals[k] == Built(m, s.nodes[k], vals, Run(m, s.nodes, vals, equated, s.forest[..i], start).st)
  {
    SeenFrom(s.nodes, s.forest, i, k);
    assert Timed(m, s, vals, equated, start, k) && CalmAt(s, i) && CalmFor(s, i, k);
    hide Calm, Seen, Touched, WellLinked, AddressesKnown, Separated, Measured, Fetch, Run, Shaped;
    if Run(m, s.nodes, vals, equated, s.forest[..i], start).At? {
      FirstI(s, i);
      StillAt(m, s.nodes, vals, equated, s.forest, start, s.born[k], i);
      if s.nodes[k].op.Indir? {
        ShapedLinked(s);
        UnmetKeeps(m, s, vals, equated, start, k, s.born[k], i);
      }
    }
  }

  lemma FirstI(s: Snap, i: nat)
    requires Shaped(s) && i <= |s.forest|
    ensures AllIn(s.forest, |s.nodes|) && AllIn(s.forest[..i], |s.nodes|)
  {
  }

  lemma ShapedLinked(s: Snap)
    requires Shaped(s)
    ensures WellLinked(s.nodes) && |s.born| == |s.nodes|
  {
  }

  /** Every node a root uses, calls apart, is evaluated to its built value. */
  lemma {:induction false} ValueAgrees(m: Machine, s: Snap, vals: seq<Val>, equated: map<nat, nat>, start: Flow, junk: nat -> Val, i: nat, n: nat)
    requires Setting(m, s, vals, equated, start) && i < |s.forest| && n in Touched(s.nodes, s.forest[i]) && n < |s.nodes|
    requires Agree(m, s, vals, equated, start, junk, i) && Run(m, s.nodes, vals, equated, s.forest[..i], start).At?
    requires s.forest[i] != Invoke(n)
    ensures ValueAt(m, s.nodes, n, Run(m, s.nodes, vals, equated, s.forest[..i], start).st.mem,
                    Temps(Seen(s.nodes, s.forest[..i]), RunLate(m, s.nodes, equated, s.forest[..i], junk, start).memo, junk)) == vals[n]
    decreases n
  {
    assert CalmAt(s, i) && CalmFor(s, i, n);
    ShapedLinked(s);
    assert WellFormedNode(s.nodes[n], n);
    hide Setting, Calm, Seen, Touched, WellLinked, Run, RunLate, Shaped, Built;
    var d := s.nodes[n];
    if n !in Seen(s.nodes, s.forest[..i]) || Local(d) {
      assert !d.op.Call?;
      if d.left.Some? {
        TouchedClosed(s.nodes, s.forest[i], n, d.left.value);
        InvokeTop(s.nodes, s.forest[i], n, d.left.value);
        ValueAgrees(m, s, vals, equated, start, junk, i, d.left.value);
      }
      if d.right.Some? {
        TouchedClosed(s.nodes, s.forest[i], n, d.right.value);
        InvokeTop(s.nodes, s.forest[i], n, d.right.value);
        ValueAgrees(m, s, vals, equated, start, junk, i, d.right.value);
      }
      BuiltStill(m, s, vals, equated, start, i, n);
      BuiltIs(m, d, vals, Run(m, s.nodes, vals, equated, s.forest[..i], start).st);
    }
  }

  lemma BuiltIs(m: Machine, d: Node, vals: seq<Val>, st: Store)
    requires !d.op.Call?
    ensures Built(m, d, vals, st) == Compute(m, d.op, d.sym, ValueOf(vals, d.left), ValueOf(vals, d.right), st.mem)
  {
  }

  /** Nothing a call root uses lies above the call node. */
  lemma InvokeTop(nodes: seq<Node>, r: Root, n: nat, k: nat)
    requires n in Touched(nodes, r) && k < n
    ensures r != Invoke(k)
  {
    hide Reach;
  }

  /** The called address and the results agree at a call root. */
  lemma {:induction false} CallAgrees(m: Machine, s: Snap, vals: seq<Val>, equated: map<nat, nat>, start: Flow, junk: nat -> Val, i: nat, c: nat)
    requires Setting(m, s, vals, equated, start) && i < |s.forest| && s.forest[i] == Invoke(c) && c < |s.nodes| && s.nodes[c].op.Call?
    requires Agree(m, s, vals, equated, start, junk, i) && Run(m, s.nodes, vals, equated, s.forest[..i], start).At?
    ensures var st := Run(m, s.nodes, vals, equated, s.forest[..i], start).st;
            var ts := Temps(Seen(s.nodes, s.forest[..i]), RunLate(m, s.nodes, equated, s.forest[..i], junk, start).memo, junk);
            && CalledAt(m, s.nodes, c, st.mem, ts) == ValueOf(vals, s.nodes[c].left)
            && (c !in ts.seen ==> vals[c] == m.callee(ValueOf(vals, s.nodes[c].left), st).1)
  {
    InvokeTouches(s.nodes, c);
    assert CalmAt(s, i) && CalmFor(s, i, c);
    ShapedLinked(s);
    assert WellFormedNode(s.nodes[c], c);
    SeenFrom(s.nodes, s.forest, i, c);
    assert Timed(m, s, vals, equated, start, c);
    hide Setting, Calm, Seen, Touched, WellLinked, Run, RunLate, Shaped;
    var d := s.nodes[c];
    if d.left.Some? {
      TouchedClosed(s.nodes, s.forest[i], c, d.left.value);
      ValueAgrees(m, s, vals, equated, start, junk, i, d.left.value);
    }
  }

  lemma InvokeTouches(nodes: seq<Node>, c: nat)
    ensures c in Touched(nodes, Invoke(c))
  {
  }

  ghost predicate CallsOnly(s: Snap) {
    forall i | 0 <= i < |s.forest| && s.forest[i].Invoke? :: s.forest[i].call < |s.nodes| && s.nodes[s.forest[i].call].op.Call?
  }

  /** The memo after a root holds built values. */
  lemma {:induction false} MemoAgrees(m: Machine, s: Snap, vals: seq<Val>, equated: map<nat, nat>, start: Flow, junk: nat -> Val, i: nat)
    requires Setting(m, s, vals, equated, start) && i < |s.forest| && CallsOnly(s)
    requires Agree(m, s, vals, equated, start, junk, i) && Run(m, s.nodes, vals, equated, s.forest[..i], start).At?
    ensures var late := RunLate(m, s.nodes, equated, s.forest[..i], junk, start);
            var memo := MemoAfter(m, s.nodes, s.forest[i], late.flow.st, Temps(Seen(s.nodes, s.forest[..i]), late.memo, junk));
            && (forall n | n in memo :: n < |vals| && memo[n] == vals[n])
            && (forall n: nat | n in late.memo || (n in Touched(s.nodes, s.forest[i]) && n !in Seen(s.nodes, s.forest[..i]) && n < |s.nodes|) :: n in memo)
  {
    FirstI(s, i);
    ShapedLinked(s);
    assert |vals| == |s.nodes|;
    hide Setting, Calm, Seen, Touched, Run, RunLate, ValueAt, CalledAt, CallsOnly;
    var late := RunLate(m, s.nodes, equated, s.forest[..i], junk, start);
    var r, ts := s.forest[i], Temps(Seen(s.nodes, s.forest[..i]), late.memo, junk);
    forall n: nat | n in Touched(s.nodes, r) && n !in ts.seen && n < |s.nodes|
      ensures KeptAt(m, s.nodes, r, n, late.flow.st, ts) == vals[n]
    {
      if r == Invoke(n) {
        CallsOnlyAt(s, i);
        CallAgrees(m, s, vals, equated, start, junk, i, n);
      } else {
        ValueAgrees(m, s, vals, equated, start, junk, i, n);
      }
    }
  }

  lemma CallsOnlyAt(s: Snap, i: nat)
    requires CallsOnly(s) && i < |s.forest| && s.forest[i].Invoke?
    ensures s.forest[i].call < |s.nodes| && s.nodes[s.forest[i].call].op.Call?
  {
  }

  /** One root. */
  lemma RootTouches(nodes: seq<Node>, r: Root)
    ensures match r
            case Assign(a, b, _) => a in Touched(nodes, r) && b in Touched(nodes, r)
            case Pass(a) => a in Touched(nodes, r)
            case Test(_, a, b, _) => a in Touched(nodes, r) && b in Touched(nodes, r)
            case _ => true
  {
    hide Reach;
  }

  lemma {:induction false} FlowAgrees(m: Machine, s: Snap, vals: seq<Val>, equated: map<nat, nat>, start: Flow, junk: nat -> Val, i: nat)
    requires Setting(m, s, vals, equated, start) && i < |s.forest| && CallsOnly(s)
    requires Agree(m, s, vals, equated, start, junk, i)
    ensures var late := RunLate(m, s.nodes, equated, s.forest[..i], junk, start);
            ExecLate(m, s.nodes, equated, s.forest[i], Seen(s.nodes, s.forest[..i]), junk, late).flow ==
            Exec(m, s.nodes, vals, equated, s.forest[i], late.flow)
  {
    FirstI(s, i);
    RootTouches(s.nodes, s.forest[i]);
    var late := RunLate(m, s.nodes, equated, s.forest[..i], junk, start);
    assert late.flow == Run(m, s.nodes, vals, equated, s.forest[..i], start) && |vals| == |s.nodes|;
    hide Setting, Calm, Seen, Run, RunLate, ValueAt, CalledAt, MemoAfter, CallsOnly, Touched, Agree, AllIn;
    if late.flow.At? {
      match s.forest[i]
      case Assign(a, b, _) =>
        ValueAgrees(m, s, vals, equated, start, junk, i, a);
        ValueAgrees(m, s, vals, equated, start, junk, i, b);
      case Pass(a) => ValueAgrees(m, s, vals, equated, start, junk, i, a);
      case Invoke(c) =>
        CallsOnlyAt(s, i);
        CallAgrees(m, s, vals, equated, start, junk, i, c);
      case Test(_, a, b, _) =>
        ValueAgrees(m, s, vals, equated, start, junk, i, a);
        ValueAgrees(m, s, vals, equated, start, junk, i, b);
      case _ =>
    }
  }

  lemma {:induction false} AgreeUpTo(m: Machine, s: Snap, vals: seq<Val>, equated: map<nat, nat>, start: Flow, junk: nat -> Val, i: nat)
    requires Setting(m, s, vals, equated, start) && CallsOnly(s) && i <= |s.forest|
    ensures Agree(m, s, vals, equated, start, junk, i)
    decreases i
  {
    FirstI(s, i);
    ShapedLinked(s);
    if i == 0 {
      assert s.forest[..0] == [];
    } else {
      var k := i - 1;
      AgreeUpTo(m, s, vals, equated, start, junk, k);
      FlowAgrees(m, s, vals, equated, start, junk, k);
      if Run(m, s.nodes, vals, equated, s.forest[..k], start).At? {
        MemoAgrees(m, s, vals, equated, start, junk, k);
      }
      AgreeStep(m, s, vals, equated, start, junk, k);
    }
  }

  lemma {:induction false} AgreeStep(m: Machine, s: Snap, vals: seq<Val>, equated: map<nat, nat>, start: Flow, junk: nat -> Val, i: nat)
    requires Setting(m, s, vals, equated, start) && i < |s.forest| && |s.nodes| == |vals| == |s.born| && AllIn(s.forest, |s.nodes|)
    requires Agree(m, s, vals, equated, start, junk, i)
    requires var late := RunLate(m, s.nodes, equated, s.forest[..i], junk, start);
             && ExecLate(m, s.nodes, equated, s.forest[i], Seen(s.nodes, s.forest[..i]), junk, late).flow ==
                Exec(m, s.nodes, vals, equated, s.forest[i], late.flow)
             && (late.flow.At? ==>
                  var memo := MemoAfter(m, s.nodes, s.forest[i], late.flow.st, Temps(Seen(s.nodes, s.forest[..i]), late.memo, junk));
                  && (forall n | n in memo :: n < |vals| && memo[n] == vals[n])
                  && (forall n: nat | n in late.memo || (n in Touched(s.nodes, s.forest[i]) && n !in Seen(s.nodes, s.forest[..i]) && n < |s.nodes|) ::
                        n in memo))
    ensures Agree(m, s, vals, equated, start, junk, i + 1)
  {
    hide Setting, MemoAfter, Touched, ValueAt, CalledAt;
    var f := s.forest[..i + 1];
    assert f[..i] == s.forest[..i] && f[i] == s.forest[i];
    var late := RunLate(m, s.nodes, equated, s.forest[..i], junk, start);
    var late1 := RunLate(m, s.nodes, equated, f, junk, start);
    assert late1 == ExecLate(m, s.nodes, equated, s.forest[i], Seen(s.nodes, s.forest[..i]), junk, late);
    forall n: nat | n in Seen(s.nodes, f) && n < |s.born| && NoLabelFrom(f, s.born[n]) && late1.flow.At? ensures n in late1.memo {
      SettingBorn(m, s, vals, equated, start, i + 1, n);
      assert !f[i].Label?;
      assert NoLabelFrom(s.forest[..i], s.born[n]);
    }
  }

  /** What is used up to root i was built before. */
  lemma SettingBorn(m: Machine, s: Snap, vals: seq<Val>, equated: map<nat, nat>, start: Flow, i: nat, n: nat)
    requires Setting(m, s, vals, equated, start) && i <= |s.forest| && n in Seen(s.nodes, s.forest[..i]) && n < |s.born|
    ensures s.born[n] < i
  {
    var j := SeenAt(s.nodes, s.forest[..i], n);
    assert CalmAt(s, j) && CalmFor(s, j, n);
  }

  /** The main lemma: a calm list, run late, does what it does at built values, whatever is in temporaries
      that were jumped over. */
  lemma {:induction false} RunsAlike(m: Machine, s: Snap, vals: seq<Val>, equated: map<nat, nat>, start: Flow, junk: nat -> Val)
    requires Setting(m, s, vals, equated, start) && CallsOnly(s)
    ensures |s.nodes| == |vals| && AllIn(s.forest, |s.nodes|)
    ensures RunLate(m, s.nodes, equated, s.forest, junk, start).flow == Run(m, s.nodes, vals, equated, s.forest, start)
  {
    ShapedLinked(s);
    FirstI(s, |s.forest|);
    AgreeUpTo(m, s, vals, equated, start, junk, |s.forest|);
    assert s.forest[..|s.forest|] == s.forest;
  }

  // ----- what the builder's steps keep -----

  /** What listing a tree may do: place labels, write a variable, write anywhere. */
  datatype Effect = Join | Write(sym: Option<Symbol>)

  predicate MayWrite(nodes: seq<Node>, k: nat, w: Effect)
    requires k < |nodes|
  {
    w.Write? && (w.sym.None? || !(LoadsSymbol(nodes, k) && LoadedSymbol(nodes, k) != w.sym.value))
  }

  ghost predicate Missed(nodes: seq<Node>, k: nat, ws: set<Effect>)
    requires k < |nodes|
  {
    nodes[k].op.Indir? ==> forall w | w in ws :: !MayWrite(nodes, k, w)
  }

  ghost predicate Extends(s0: Snap, s1: Snap) {
    && |s0.born| == |s0.nodes| && |s1.born| == |s1.nodes| && |s0.floors| == |s0.forest| && |s1.floors| == |s1.forest|
    && s0.nodes <= s1.nodes && s0.born <= s1.born && s0.forest <= s1.forest && s0.floors <= s1.floors
    && AllIn(s0.forest, |s0.nodes|) && s0.floor <= s1.floor
  }

  /** Without labels, nodes stay ripe unless they are loads, still unused, that may be written. */
  ghost predicate Keeps(s0: Snap, s1: Snap, ws: set<Effect>) {
    && Extends(s0, s1)
    && (Join !in ws ==>
          && s1.floor == s0.floor
          && forall k: nat | k < |s0.nodes| && Ripe(s0, k) && (k in Seen(s0.nodes, s0.forest) || Missed(s0.nodes, k, ws)) :: Ripe(s1, k))
  }

  lemma {:induction false} SeenPrefix(nodes: seq<Node>, forest: seq<Root>, forest1: seq<Root>, k: nat)
    requires forest <= forest1 && k in Seen(nodes, forest)
    ensures k in Seen(nodes, forest1)
  {
    var i := SeenAt(nodes, forest, k);
    assert forest1[i] == forest[i];
    SeenFrom(nodes, forest1, i, k);
  }

  lemma SeenKept(s0: Snap, s1: Snap, k: nat)
    requires Extends(s0, s1) && k in Seen(s0.nodes, s0.forest)
    ensures k in Seen(s1.nodes, s1.forest)
  {
    SeenGrows(s0.nodes, s1.nodes, s0.forest);
    SeenPrefix(s1.nodes, s0.forest, s1.forest, k);
  }

  lemma LoadsGrow(nodes: seq<Node>, nodes1: seq<Node>, k: nat)
    requires nodes <= nodes1 && k < |nodes| && WellLinked(nodes)
    ensures LoadsSymbol(nodes1, k) == LoadsSymbol(nodes, k)
    ensures LoadsSymbol(nodes, k) ==> LoadedSymbol(nodes1, k) == LoadedSymbol(nodes, k)
  {
    assert WellFormedNode(nodes[k], k);
  }

  lemma KeepsThen(s0: Snap, s1: Snap, s2: Snap, ws1: set<Effect>, ws2: set<Effect>)
    requires Keeps(s0, s1, ws1) && Keeps(s1, s2, ws2) && WellLinked(s0.nodes)
    ensures Keeps(s0, s2, ws1 + ws2)
  {
    hide Ripe, Seen, Missed;
    if Join !in ws1 + ws2 {
      forall k: nat | k < |s0.nodes| && Ripe(s0, k) && (k in Seen(s0.nodes, s0.forest) || Missed(s0.nodes, k, ws1 + ws2))
        ensures Ripe(s2, k)
      {
        MissedParts(s0.nodes, s1.nodes, k, ws1, ws2);
        if k in Seen(s0.nodes, s0.forest) {
          SeenKept(s0, s1, k);
        }
      }
    }
  }

  lemma MissedParts(nodes: seq<Node>, nodes1: seq<Node>, k: nat, ws1: set<Effect>, ws2: set<Effect>)
    requires nodes <= nodes1 && k < |nodes| && WellLinked(nodes)
    ensures Missed(nodes, k, ws1 + ws2) ==> Missed(nodes, k, ws1) && Missed(nodes1, k, ws2)
  {
    LoadsGrow(nodes, nodes1, k);
    hide LoadsSymbol, LoadedSymbol;
  }

  lemma KeepsMore(s0: Snap, s1: Snap, ws: set<Effect>, ws1: set<Effect>)
    requires Keeps(s0, s1, ws) && ws <= ws1
    ensures Keeps(s0, s1, ws1)
  {
    hide Ripe, Seen, Extends;
  }

  lemma KeepsSelf(s: Snap)
    requires Shaped(s)
    ensures Keeps(s, s, {})
  {
    hide Ripe, Seen;
  }

  // --- one node more

  function AddNode(s: Snap, d: Node): Snap {
    s.(nodes := s.nodes + [d], born := s.born + [|s.forest|])
  }

  lemma UnmetGrows(nodes: seq<Node>, nodes1: seq<Node>, k: nat, forest: seq<Root>, i: nat)
    requires nodes <= nodes1 && k < |nodes| && WellLinked(nodes) && AllIn(forest, |nodes|)
    ensures Unmet(nodes1, k, forest, i) == Unmet(nodes, k, forest, i)
  {
    LoadsGrow(nodes, nodes1, k);
    hide LoadsSymbol, LoadedSymbol;
    forall j | 0 <= j < |forest| ensures Meets(nodes1, k, forest[j]) == Meets(nodes, k, forest[j]) {
      assert RootIn(forest[j], |nodes|);
    }
  }

  lemma NodeKeeps(s: Snap, d: Node)
    requires Shaped(s) && WellFormedNode(d, |s.nodes|) && !d.op.Call?
    ensures Shaped(AddNode(s, d)) && Keeps(s, AddNode(s, d), {}) && Ripe(AddNode(s, d), |s.nodes|)
  {
    var s1 := AddNode(s, d);
    forall k: nat | s1.floor <= k < |s1.nodes| ensures BornOk(s1, k) {
      if k < |s.nodes| {
        assert BornOk(s, k);
      }
    }
    assert Shaped(s1);
    SeenGrows(s.nodes, s1.nodes, s.forest);
    hide Seen, Shaped, Reach;
    assert WellLinked(s.nodes) && AllIn(s.forest, |s.nodes|) by { ShapedParts(s); }
    forall k: nat | k < |s.nodes| && Ripe(s, k) ensures Ripe(s1, k) {
      UnmetGrows(s.nodes, s1.nodes, k, s.forest, s.born[k]);
    }
  }

  lemma ShapedParts(s: Snap)
    requires Shaped(s)
    ensures |s.born| == |s.nodes| && |s.floors| == |s.forest| && WellLinked(s.nodes) && AllIn(s.forest, |s.nodes|) && s.floor <= |s.nodes|
  {
  }

  lemma NodeCalm(s: Snap, d: Node)
    requires Shaped(s) && Calm(s)
    ensures Calm(AddNode(s, d))
  {
    var s1 := AddNode(s, d);
    forall i | 0 <= i < |s1.forest| ensures CalmAt(s1, i) {
      CalmSame(s, s1, i);
    }
  }

  /** Whether a root is calm depends on the tables up to it. */
  lemma CalmSame(s: Snap, s1: Snap, i: nat)
    requires Extends(s, s1) && WellLinked(s.nodes) && i < |s.forest| && CalmAt(s, i)
    ensures CalmAt(s1, i)
  {
    TouchedGrows(s.nodes, s1.nodes, s.forest[i]);
    assert s1.forest[..i] == s.forest[..i] && s1.forest[i] == s.forest[i];
    assert AllIn(s.forest[..i], |s.nodes|);
    SeenGrows(s.nodes, s1.nodes, s.forest[..i]);
    hide Touched, Seen, Reach;
    forall k | k in Touched(s1.nodes, s1.forest[i]) ensures CalmFor(s1, i, k) {
      assert CalmFor(s, i, k);
      UnmetGrows(s.nodes, s1.nodes, k, s.forest[..i], s.born[k]);
    }
  }

  lemma {:induction false} CalmWas(s: Snap, s1: Snap, i: nat)
    requires Extends(s, s1) && WellLinked(s.nodes) && i < |s.forest| && CalmAt(s1, i)
    ensures CalmAt(s, i)
  {
    TouchedGrows(s.nodes, s1.nodes, s.forest[i]);
    assert s1.forest[..i] == s.forest[..i] && s1.forest[i] == s.forest[i];
    assert AllIn(s.forest[..i], |s.nodes|);
    SeenGrows(s.nodes, s1.nodes, s.forest[..i]);
    assert RootIn(s.forest[i], |s.nodes|);
    forall k | k in Touched(s.nodes, s.forest[i]) ensures CalmFor(s, i, k) {
      TouchedIn(s.nodes, s.forest[i], k);
      assert CalmFor(s1, i, k);
      UnmetGrows(s.nodes, s1.nodes, k, s.forest[..i], s.born[k]);
    }
  }

  lemma CalmBefore(s: Snap, s1: Snap)
    requires Extends(s, s1) && WellLinked(s.nodes) && Calm(s1)
    ensures Calm(s)
  {
    hide CalmAt, Extends;
    forall i | 0 <= i < |s.forest| ensures CalmAt(s, i) {
      ExtendsForest(s, s1);
      assert CalmAt(s1, i);
      CalmWas(s, s1, i);
    }
  }

  lemma ExtendsForest(s: Snap, s1: Snap)
    requires Extends(s, s1)
    ensures |s.forest| <= |s1.forest|
  {
  }

  // --- one root more

  function AddRoot(s: Snap, r: Root): Snap {
    s.(forest := s.forest + [r], floors := s.floors + [s.floor], floor := if r.Label? then |s.nodes| else s.floor)
  }

  /** The writes of a root are among the effects. */
  ghost predicate Within(nodes: seq<Node>, r: Root, ws: set<Effect>) {
    match r
    case Invoke(_) => Write(None) in ws
    case Assign(a, _, _) => Write(None) in ws || (IsVar(nodes, a) && Write(nodes[a].sym) in ws)
    case Label(_) => Join in ws
    case _ => true
  }

  lemma MetWithin(nodes: seq<Node>, k: nat, r: Root, ws: set<Effect>)
    requires k < |nodes| && nodes[k].op.Indir? && Within(nodes, r, ws) && Missed(nodes, k, ws)
    ensures !Meets(nodes, k, r)
  {
    if r.Invoke? {
      assert MayWrite(nodes, k, Write(None));
    } else if r.Assign? {
      assert Write(None) in ws ==> !MayWrite(nodes, k, Write(None));
      if IsVar(nodes, r.target) && Write(nodes[r.target].sym) in ws {
        assert !MayWrite(nodes, k, Write(nodes[r.target].sym));
      }
    }
  }

  lemma RootShaped(s: Snap, r: Root)
    requires Shaped(s) && RootIn(r, |s.nodes|)
    ensures Shaped(AddRoot(s, r))
  {
    var s1 := AddRoot(s, r);
    forall k: nat | s1.floor <= k < |s1.nodes| ensures BornOk(s1, k) {
      assert BornOk(s, k);
    }
  }

  lemma RootKeeps(s: Snap, r: Root, ws: set<Effect>)
    requires Shaped(s) && RootIn(r, |s.nodes|) && Within(s.nodes, r, ws)
    ensures Keeps(s, AddRoot(s, r), ws)
    ensures forall k: nat | k in Touched(s.nodes, r) && Ripe(s, k) && !r.Label? :: Ripe(AddRoot(s, r), k)
    ensures forall k | k in Touched(s.nodes, r) :: k in Seen(s.nodes, s.forest + [r])
  {
    var s1 := AddRoot(s, r);
    SeenMore(s.nodes, s.forest, r);
    hide Seen, Touched, Within, Missed, Meets;
    if Join !in ws {
      assert !r.Label? by { NoJoin(s.nodes, r, ws); }
      forall k: nat | k < |s.nodes| && Ripe(s, k) && (k in Seen(s.nodes, s.forest) || Missed(s.nodes, k, ws)) ensures Ripe(s1, k) {
        if k !in Seen(s.nodes, s.forest) && s.nodes[k].op.Indir? {
          MetWithin(s.nodes, k, r, ws);
        }
      }
    }
  }

  lemma NoJoin(nodes: seq<Node>, r: Root, ws: set<Effect>)
    requires Within(nodes, r, ws) && Join !in ws
    ensures !r.Label?
  {
  }

  lemma RootCalm(s: Snap, r: Root)
    requires Shaped(s) && RootIn(r, |s.nodes|) && Calm(s)
    requires forall k | k in Touched(s.nodes, r) :: Ripe(s, k)
    ensures Calm(AddRoot(s, r))
  {
    var s1 := AddRoot(s, r);
    forall i | 0 <= i < |s1.forest| ensures CalmAt(s1, i) {
      if i < |s.forest| {
        CalmSame(s, s1, i);
      } else {
        assert s1.forest[..i] == s.forest;
        forall k | k in Touched(s1.nodes, s1.forest[i]) ensures CalmFor(s1, i, k) {
          assert Ripe(s, k);
          assert BornOk(s, k);
        }
      }
    }
  }

  // --- a call: node and root at once

  function AddCall(s: Snap, d: Node): Snap {
    AddRoot(AddNode(s, d), Invoke(|s.nodes|))
  }

  lemma CallShaped(s: Snap, d: Node)
    requires Shaped(s) && WellFormedNode(d, |s.nodes|) && d.op.Call?
    ensures Shaped(AddCall(s, d))
  {
    var s1 := AddCall(s, d);
    forall k: nat | s1.floor <= k < |s1.nodes| ensures BornOk(s1, k) {
      if k < |s.nodes| {
        assert BornOk(s, k);
      }
    }
  }

  lemma CallKeeps(s: Snap, d: Node)
    requires Shaped(s) && WellFormedNode(d, |s.nodes|) && d.op.Call?
    ensures Keeps(s, AddCall(s, d), {Write(None)})
    ensures forall k | k in Touched(AddCall(s, d).nodes, Invoke(|s.nodes|)) :: k in Seen(AddCall(s, d).nodes, AddCall(s, d).forest)
  {
    var s1, c := AddCall(s, d), |s.nodes|;
    SeenGrows(s.nodes, s1.nodes, s.forest);
    SeenMore(s1.nodes, s.forest, Invoke(c));
    ShapedParts(s);
    hide Seen, Touched, Shaped;
    forall k: nat | k < |s.nodes| && Ripe(s, k) && (k in Seen(s.nodes, s.forest) || Missed(s.nodes, k, {Write(None)})) ensures Ripe(s1, k) {
      MissedNone(s.nodes, k);
    }
  }

  lemma MissedNone(nodes: seq<Node>, k: nat)
    requires k < |nodes|
    ensures Missed(nodes, k, {Write(None)}) ==> !nodes[k].op.Indir?
  {
    assert MayWrite(nodes, k, Write(None));
  }

  lemma CallCalm(s: Snap, d: Node)
    requires Shaped(s) && WellFormedNode(d, |s.nodes|) && d.op.Call? && Calm(s)
    requires d.left.Some? ==> Fresh(s, d.left.value)
    requires d.right.Some? ==> Fresh(s, d.right.value)
    ensures Calm(AddCall(s, d))
  {
    var s1, c := AddCall(s, d), |s.nodes|;
    CallShaped(s, d);
    forall i | 0 <= i < |s1.forest| ensures CalmAt(s1, i) {
      if i < |s.forest| {
        CalmSame(s, s1, i);
      } else {
        assert s1.forest[..i] == s.forest;
        SeenGrows(s.nodes, s1.nodes, s.forest);
        forall k | k in Touched(s1.nodes, s1.forest[i]) ensures CalmFor(s1, i, k) {
          assert k in Reach(s1.nodes, c);
          NodeReach(s.nodes, d);
          if k != c {
            assert Ripe(s, k);
            assert BornOk(s, k);
            UnmetGrows(s.nodes, s1.nodes, k, s.forest, s.born[k]);
          }
        }
      }
    }
  }

  lemma {:induction false} NodeReach(nodes: seq<Node>, d: Node)
    requires WellFormedNode(d, |nodes|)
    ensures Reach(nodes + [d], |nodes|) ==
            {|nodes|} + (if d.left.Some? then Reach(nodes, d.left.value) else {}) + (if d.right.Some? then Reach(nodes, d.right.value) else {})
  {
    var nodes1 := nodes + [d];
    if d.left.Some? {
      ReachGrows(nodes, nodes1, d.left.value);
    }
    if d.right.Some? {
      ReachGrows(nodes, nodes1, d.right.value);
    }
  }

  // --- a label that is equated with the one just listed

  function Landing(s: Snap): Snap {
    s.(floor := |s.nodes|)
  }

  lemma LandingKeeps(s: Snap)
    requires Shaped(s)
    ensures Shaped(Landing(s)) && Keeps(s, Landing(s), {Join}) && (Calm(s) ==> Calm(Landing(s)))
  {
    if Calm(s) {
      forall i | 0 <= i < |s.forest| ensures CalmAt(Landing(s), i) {
        CalmSame(s, Landing(s), i);
      }
    }
  }

  // --- nodes in the buckets

  lemma HeldIsRipe(s: Snap, chains: Chains, n: nat)
    requires HeldOk(s, chains) && Held(chains, n)
    ensures Ripe(s, n)
  {
    hide Held, Seen;
  }

  lemma HeldNode(s: Snap, chains: Chains, d: Node)
    requires Shaped(s) && HeldOk(s, chains) && WellFormedNode(d, |s.nodes|)
    ensures HeldOk(AddNode(s, d), chains)
  {
    var s1 := AddNode(s, d);
    hide Held;
    forall n: nat | Held(chains, n)
      ensures s1.floor <= n < |s1.nodes| && n < |s1.born| && !s1.nodes[n].op.Call?
      ensures s1.nodes[n].op.Indir? ==> Unmet(s1.nodes, n, s1.forest, s1.born[n])
    {
      UnmetGrows(s.nodes, s1.nodes, n, s.forest, s.born[n]);
    }
  }

  lemma HeldNew(s: Snap, chains: Chains, chains1: Chains, p: nat)
    requires Shaped(s) && HeldOk(s, chains) && p < |s.nodes| && s.floor <= p && !s.nodes[p].op.Call? && s.born[p] == |s.forest|
    requires forall n: nat :: Held(chains1, n) ==> n == p || Held(chains, n)
    ensures HeldOk(s, chains1)
  {
    hide Held;
  }

  lemma HeldNone(s: Snap, chains: Chains)
    requires forall n: nat :: !Held(chains, n)
    ensures HeldOk(s, chains)
  {
    hide Held;
  }

  /** A root that is no label leaves the nodes in the buckets good, if those it may write are out. */
  lemma HeldRoot(s: Snap, chains: Chains, chains1: Chains, r: Root)
    requires HeldOk(s, chains) && !r.Label?
    requires forall n: nat :: Held(chains1, n) ==> Held(chains, n) && (n < |s.nodes| && s.nodes[n].op.Indir? ==> !Meets(s.nodes, n, r))
    ensures HeldOk(AddRoot(s, r), chains1)
  {
    hide Held, Meets;
  }

  // --- times

  /** How times are carried over to longer tables. */
  lemma TimelyFrom(m: Machine, s: Snap, vals: seq<Val>, s1: Snap, vals1: seq<Val>, equated: map<nat, nat>, start: Flow, touched: set<nat>)
    requires Timely(m, s, vals, equated, start) && Shaped(s1) && Extends(s, s1) && WellLinked(s.nodes)
    requires |vals1| == |s1.nodes| == |s1.born| && vals <= vals1 && AllIn(s1.forest, |s1.nodes|)
    requires forall k: nat | |s.nodes| <= k < |s1.nodes| :: Timed(m, s1, vals1, equated, start, k)
    requires Seen(s1.nodes, s1.forest) == Seen(s.nodes, s.forest) + touched
    requires Calm(s1) ==> forall k | k in touched :: s.floor <= k
    ensures Timely(m, s1, vals1, equated, start)
  {
    TimelySizes(m, s, vals, equated, start);
    forall k: nat | k < |s.nodes| && Timed(m, s, vals, equated, start, k) ensures Timed(m, s1, vals1, equated, start, k) {
      TimedGrows(m, s, vals, s1, vals1, equated, start, k);
    }
    if Calm(s1) {
      CalmBefore(s, s1);
    }
    hide Timed, Shaped, Seen, Calm, WellLinked, AllIn;
  }

  lemma TimelySizes(m: Machine, s: Snap, vals: seq<Val>, equated: map<nat, nat>, start: Flow)
    requires Timely(m, s, vals, equated, start)
    ensures |vals| == |s.nodes| == |s.born| && AllIn(s.forest, |s.nodes|) && WellLinked(s.nodes) && |s.floors| == |s.forest| && Shaped(s)
  {
  }

  lemma {:induction false} TimelyNode(m: Machine, s: Snap, vals: seq<Val>, equated: map<nat, nat>, start: Flow, d: Node, v: Val)
    requires Timely(m, s, vals, equated, start) && WellFormedNode(d, |s.nodes|) && !d.op.Call?
    requires var f := Run(m, s.nodes, vals, equated, s.forest, start); f.At? ==> v == Built(m, d, vals, f.st)
    ensures Timely(m, AddNode(s, d), vals + [v], equated, start)
  {
    var s1, vals1 := AddNode(s, d), vals + [v];
    TimelySizes(m, s, vals, equated, start);
    NodeKeeps(s, d);
    ShapedParts(s1);
    assert AllIn(s.forest, |s.nodes| + 1);
    SeenGrows(s.nodes, s1.nodes, s.forest);
    NewTimed(m, s, vals, equated, start, d, v);
    hide Timed, Timely, Shaped, Seen, Calm, WellLinked, AllIn, Run;
    TimelyFrom(m, s, vals, s1, vals1, equated, start, {});
  }

  lemma BuiltGrows(m: Machine, d: Node, vals: seq<Val>, vals1: seq<Val>, st: Store, n: nat)
    requires vals <= vals1 && n <= |vals| && WellFormedNode(d, n)
    ensures Built(m, d, vals1, st) == Built(m, d, vals, st)
  {
  }

  lemma TimedGrows(m: Machine, s: Snap, vals: seq<Val>, s1: Snap, vals1: seq<Val>, equated: map<nat, nat>, start: Flow, k: nat)
    requires Extends(s, s1) && WellLinked(s.nodes) && |vals| == |s.nodes| && |vals1| == |s1.nodes| && vals <= vals1
    requires AllIn(s1.forest, |s1.nodes|) && k < |s.nodes| && Timed(m, s, vals, equated, start, k)
    ensures Timed(m, s1, vals1, equated, start, k)
  {
    var f := s.forest[..s.born[k]];
    assert s1.forest[..s1.born[k]] == f && s1.nodes[k] == s.nodes[k];
    RunGrows(m, s.nodes, vals, s1.nodes, vals1, equated, f, start);
    assert WellFormedNode(s.nodes[k], k);
    hide Built, Run;
    var r := Run(m, s.nodes, vals, equated, f, start);
    if r.At? {
      BuiltGrows(m, s.nodes[k], vals, vals1, r.st, k);
    }
  }

  lemma {:induction false} NewTimed(m: Machine, s: Snap, vals: seq<Val>, equated: map<nat, nat>, start: Flow, d: Node, v: Val)
    requires |s.born| == |s.nodes| == |vals| && WellLinked(s.nodes) && AllIn(s.forest, |s.nodes|) && WellFormedNode(d, |s.nodes|)
    requires AllIn(s.forest, |s.nodes| + 1)
    requires var f := Run(m, s.nodes, vals, equated, s.forest, start); f.At? ==> v == Built(m, d, vals, f.st)
    ensures Timed(m, AddNode(s, d), vals + [v], equated, start, |s.nodes|)
  {
    var s1, vals1 := AddNode(s, d), vals + [v];
    RunGrows(m, s.nodes, vals, s1.nodes, vals1, equated, s.forest, start);
    assert s1.forest[..|s.forest|] == s.forest;
    hide Built, Run;
    var r := Run(m, s.nodes, vals, equated, s.forest, start);
    if r.At? {
      BuiltGrows(m, d, vals, vals1, r.st, |vals|);
    }
  }

  lemma TimelyRoot(m: Machine, s: Snap, vals: seq<Val>, equated: map<nat, nat>, start: Flow, r: Root)
    requires Timely(m, s, vals, equated, start) && RootIn(r, |s.nodes|)
    ensures Timely(m, AddRoot(s, r), vals, equated, start)
  {
    var s1 := AddRoot(s, r);
    TimelySizes(m, s, vals, equated, start);
    RootShaped(s, r);
    ShapedParts(s1);
    SeenMore(s.nodes, s.forest, r);
    if Calm(s1) {
      LastCalm(s, s1, r);
    }
    hide Timed, Timely, Shaped, Seen, Calm, WellLinked, AllIn, Touched;
    TimelyFrom(m, s, vals, s1, vals, equated, start, Touched(s.nodes, r));
  }

  lemma LastCalm(s: Snap, s1: Snap, r: Root)
    requires Calm(s1) && s1.forest == s.forest + [r] && |s.floors| == |s.forest| && s1.floors == s.floors + [s.floor]
    ensures forall k | k in Touched(s1.nodes, r) :: s.floor <= k
  {
    hide Touched;
    assert CalmAt(s1, |s.forest|);
    forall k | k in Touched(s1.nodes, r) ensures s.floor <= k {
      assert CalmFor(s1, |s.forest|, k);
    }
  }

  lemma {:induction false} TimelyCall(m: Machine, s: Snap, vals: seq<Val>, equated: map<nat, nat>, start: Flow, d: Node, v: Val)
    requires Timely(m, s, vals, equated, start) && WellFormedNode(d, |s.nodes|) && d.op.Call?
    requires var f := Run(m, s.nodes, vals, equated, s.forest, start); f.At? ==> v == Built(m, d, vals, f.st)
    ensures Timely(m, AddCall(s, d), vals + [v], equated, start)
  {
    var s1, vals1 := AddCall(s, d), vals + [v];
    var c := |s.nodes|;
    TimelySizes(m, s, vals, equated, start);
    CallShaped(s, d);
    ShapedParts(s1);
    SeenGrows(s.nodes, s1.nodes, s.forest);
    SeenMore(s1.nodes, s.forest, Invoke(c));
    assert AllIn(s.forest, |s.nodes| + 1);
    NewTimed(m, s, vals, equated, start, d, v);
    TimedRoot(m, AddNode(s, d), vals1, equated, start, Invoke(c), c);
    if Calm(s1) {
      LastCalm(s, s1, Invoke(c));
    }
    hide Timed, Timely, Shaped, Seen, Calm, WellLinked, AllIn, Touched, Run;
    TimelyFrom(m, s, vals, s1, vals1, equated, start, Touched(s1.nodes, Invoke(c)));
  }

  lemma TimedRoot(m: Machine, s: Snap, vals: seq<Val>, equated: map<nat, nat>, start: Flow, r: Root, k: nat)
    requires |s.born| == |s.nodes| == |vals| && AllIn(s.forest, |s.nodes|) && RootIn(r, |s.nodes|) && k < |s.nodes|
    requires Timed(m, s, vals, equated, start, k)
    ensures Timed(m, AddRoot(s, r), vals, equated, start, k)
  {
    assert AddRoot(s, r).forest[..s.born[k]] == s.forest[..s.born[k]];
    hide Built, Run;
  }

  /** Equating a label with the one listed last. */
  lemma TimelyLanding(m: Machine, s: Snap, vals: seq<Val>, equated: map<nat, nat>, start: Flow, lab: nat)
    requires Timely(m, s, vals, equated, start) && |s.forest| > 0 && s.forest[|s.forest| - 1].Label?
    requires lab !in equated && NoLabel(s.forest[..|s.forest| - 1], lab) && NoLabel(s.forest[..|s.forest| - 1], s.forest[|s.forest| - 1].lab)
    ensures Timely(m, Landing(s), vals, equated[lab := s.forest[|s.forest| - 1].lab], start)
  {
    var s1 := Landing(s);
    LandingKeeps(s);
    ShapedParts(s);
    if Calm(s1) {
      CalmBefore(s, s1);
      forall k: nat | k < |s.nodes| && k in Seen(s.nodes, s.forest)
        ensures Timed(m, s1, vals, equated[lab := s.forest[|s.forest| - 1].lab], start, k)
      {
        TimedLanding(m, s, vals, equated, start, lab, k);
      }
    }
    hide Timed, Seen, Calm;
  }

  lemma TimedLanding(m: Machine, s: Snap, vals: seq<Val>, equated: map<nat, nat>, start: Flow, lab: nat, k: nat)
    requires Timely(m, s, vals, equated, start) && Calm(s) && |s.forest| > 0 && s.forest[|s.forest| - 1].Label?
    requires lab !in equated && NoLabel(s.forest[..|s.forest| - 1], lab) && NoLabel(s.forest[..|s.forest| - 1], s.forest[|s.forest| - 1].lab)
    requires k < |s.nodes| && k in Seen(s.nodes, s.forest)
    ensures Timed(m, Landing(s), vals, equated[lab := s.forest[|s.forest| - 1].lab], start, k)
  {
    TimelySizes(m, s, vals, equated, start);
    assert Timed(m, s, vals, equated, start, k);
    hide Timely, Timed, Shaped, Run, NoLabel;
    UsedBefore(s, k);
    var f, to := s.forest[..s.born[k]], s.forest[|s.forest| - 1].lab;
    assert f <= s.forest[..|s.forest| - 1];
    NoLabelPrefix(f, s.forest[..|s.forest| - 1], lab);
    NoLabelPrefix(f, s.forest[..|s.forest| - 1], to);
    assert AllIn(f, |s.nodes|);
    RunEquated(m, s.nodes, vals, equated, lab, to, f, start);
    TimedAs(m, s, Landing(s), vals, equated, equated[lab := to], start, k);
  }

  /** What a calm list uses was built before its last label. */
  lemma UsedBefore(s: Snap, k: nat)
    requires Calm(s) && |s.forest| > 0 && s.forest[|s.forest| - 1].Label? && k in Seen(s.nodes, s.forest)
    ensures k < |s.born| && s.born[k] <= |s.forest| - 1
  {
    var i := SeenAt(s.nodes, s.forest, k);
    assert CalmAt(s, i) && CalmFor(s, i, k);
  }

  lemma NoLabelPrefix(f: seq<Root>, forest: seq<Root>, lab: nat)
    requires f <= forest && NoLabel(forest, lab)
    ensures NoLabel(f, lab)
  {
  }

  lemma {:induction false} TimedAs(m: Machine, s: Snap, s1: Snap, vals: seq<Val>, equated: map<nat, nat>, equated1: map<nat, nat>, start: Flow, k: nat)
    requires s1.nodes == s.nodes && s1.born == s.born && s1.forest == s.forest
    requires k < |s.nodes| == |vals| == |s.born| && AllIn(s.forest, |s.nodes|) && Timed(m, s, vals, equated, start, k)
    requires Run(m, s.nodes, vals, equated1, s.forest[..s.born[k]], start) == Run(m, s.nodes, vals, equated, s.forest[..s.born[k]], start)
    ensures Timed(m, s1, vals, equated1, start, k)
  {
    hide Run, Built;
  }

  // ----- nodes that are handed up -----

  /** The variable a load reads, if it reads one. */
  function ReadOf(nodes: seq<Node>, k: nat): Option<Symbol>
    requires k < |nodes|
  {
    if LoadsSymbol(nodes, k) then Some(LoadedSymbol(nodes, k)) else None
  }

  /** The loads below node n that no root has used yet read what is in ps; None stands for anything. */
  ghost predicate Covered(s: Snap, n: nat, ps: set<Option<Symbol>>) {
    forall k | k in Reach(s.nodes, n) && k < |s.nodes| && k !in Seen(s.nodes, s.forest) && s.nodes[k].op.Indir? ::
      None in ps || ReadOf(s.nodes, k) in ps
  }

  /** Nothing in ws writes what is read in ps, and there is no label. */
  predicate Apart(ps: set<Option<Symbol>>, ws: set<Effect>) {
    Join !in ws && forall p, w | p in ps && w in ws :: w.Write? && p.Some? && w.sym.Some? && p != w.sym
  }

  /** From s0 to s1 a tree has been listed and node p handed up. */
  ghost predicate Handed(s0: Snap, s1: Snap, ws: set<Effect>, ps: set<Option<Symbol>>, steady: bool, p: Option<nat>) {
    && Keeps(s0, s1, ws)
    && (steady && Calm(s0) ==> Calm(s1) && (p.Some? ==> p.value < |s1.nodes| && Fresh(s1, p.value) && Covered(s1, p.value, ps)))
  }

  lemma HoldNode(s1: Snap, s2: Snap, k: nat, ps: set<Option<Symbol>>, ws: set<Effect>)
    requires Keeps(s1, s2, ws) && Apart(ps, ws) && WellLinked(s1.nodes) && k < |s1.nodes| && Ripe(s1, k)
    requires k !in Seen(s1.nodes, s1.forest) && s1.nodes[k].op.Indir? ==> None in ps || ReadOf(s1.nodes, k) in ps
    ensures Ripe(s2, k) && k < |s2.nodes|
    ensures k !in Seen(s2.nodes, s2.forest) && s2.nodes[k].op.Indir? ==> None in ps || ReadOf(s2.nodes, k) in ps
  {
    LoadsGrow(s1.nodes, s2.nodes, k);
    if k in Seen(s1.nodes, s1.forest) {
      SeenKept(s1, s2, k);
    }
    hide Ripe, Seen, LoadsSymbol, LoadedSymbol;
    if s1.nodes[k].op.Indir? && k !in Seen(s1.nodes, s1.forest) {
      forall w | w in ws ensures !MayWrite(s1.nodes, k, w) {
        if None in ps {
          ApartNone(ps, ws);
        }
      }
    }
  }

  lemma ApartNone(ps: set<Option<Symbol>>, ws: set<Effect>)
    requires Apart(ps, ws) && None in ps
    ensures ws == {}
  {
    var p: Option<Symbol> := None;
    assert forall w | w in ws :: p.Some?;
  }

  /** Across a tree whose effects are apart from its pending loads a node stays fresh. */
  lemma Hold(s1: Snap, s2: Snap, l: nat, ps: set<Option<Symbol>>, ws: set<Effect>)
    requires Keeps(s1, s2, ws) && Apart(ps, ws) && WellLinked(s1.nodes) && l < |s1.nodes| && Fresh(s1, l) && Covered(s1, l, ps)
    ensures Fresh(s2, l) && Covered(s2, l, ps) && l < |s2.nodes|
  {
    ReachGrows(s1.nodes, s2.nodes, l);
    hide Ripe, Seen, Reach, ReadOf, Apart, Keeps;
    forall k | k in Reach(s2.nodes, l)
      ensures Ripe(s2, k)
      ensures k < |s2.nodes| && k !in Seen(s2.nodes, s2.forest) && s2.nodes[k].op.Indir? ==> None in ps || ReadOf(s2.nodes, k) in ps
    {
      HoldNode(s1, s2, k, ps, ws);
    }
  }

  /** A node whose kids are fresh. */
  lemma FreshAbove(s: Snap, p: nat, ps: set<Option<Symbol>>)
    requires p < |s.nodes| && WellLinked(s.nodes) && Ripe(s, p)
    requires s.nodes[p].left.Some? ==> Fresh(s, s.nodes[p].left.value) && Covered(s, s.nodes[p].left.value, ps)
    requires s.nodes[p].right.Some? ==> Fresh(s, s.nodes[p].right.value) && Covered(s, s.nodes[p].right.value, ps)
    requires s.nodes[p].op.Indir? ==> None in ps || ReadOf(s.nodes, p) in ps
    ensures Fresh(s, p) && Covered(s, p, ps)
  {
    assert WellFormedNode(s.nodes[p], p);
    hide Ripe, Seen, ReadOf;
  }

  lemma CoveredMore(s: Snap, n: nat, ps: set<Option<Symbol>>, ps1: set<Option<Symbol>>)
    requires Covered(s, n, ps) && ps <= ps1
    ensures Covered(s, n, ps1)
  {
    hide Seen, Reach, ReadOf;
  }

  /** `node` or `newnode` has answered with node p. */
  ghost predicate Got(s0: Snap, s1: Snap, p: nat, d: Node) {
    p < |s1.nodes| && s1.nodes[p] == d && Ripe(s1, p) && (s1 == s0 || s1 == AddNode(s0, d))
  }

  lemma GotKeeps(s0: Snap, s1: Snap, p: nat, d: Node)
    requires Shaped(s0) && Got(s0, s1, p, d) && WellFormedNode(d, |s0.nodes|) && !d.op.Call?
    ensures Shaped(s1) && Keeps(s0, s1, {}) && (Calm(s0) ==> Calm(s1))
  {
    KeepsSelf(s0);
    NodeKeeps(s0, d);
    if Calm(s0) {
      NodeCalm(s0, d);
    }
    hide Keeps, Shaped, Calm;
  }

  lemma HandedNone(s: Snap)
    requires Shaped(s)
    ensures Handed(s, s, {}, {}, true, None)
  {
    KeepsSelf(s);
  }

  lemma HandedLeaf(s0: Snap, s1: Snap, p: nat, d: Node)
    requires Shaped(s0) && Got(s0, s1, p, d) && WellFormedNode(d, |s0.nodes|)
    requires !d.op.Call? && !d.op.Indir? && d.left.None? && d.right.None?
    ensures Handed(s0, s1, {}, {}, true, Some(p))
  {
    GotKeeps(s0, s1, p, d);
    ShapedParts(s1);
    hide Keeps, Shaped, Calm, Ripe, WellLinked;
    FreshAbove(s1, p, {});
    hide *;
  }

  lemma HandedUnary(s0: Snap, s1: Snap, s2: Snap, ws: set<Effect>, ps: set<Option<Symbol>>, ps1: set<Option<Symbol>>, steady: bool,
                    k: nat, p: nat, d: Node)
    requires Shaped(s0) && Shaped(s1) && Handed(s0, s1, ws, ps, steady, Some(k)) && Got(s1, s2, p, d) && WellFormedNode(d, |s1.nodes|)
    requires !d.op.Call? && d.left == Some(k) && d.right.None? && ps <= ps1
    requires d.op.Indir? ==> None in ps1 || ReadOf(s2.nodes, p) in ps1
    ensures Handed(s0, s2, ws, ps1, steady, Some(p))
  {
    GotKeeps(s1, s2, p, d);
    ShapedParts(s0);
    ShapedParts(s1);
    ShapedParts(s2);
    KeepsThen(s0, s1, s2, ws, {});
    assert ws + {} == ws;
    hide Keeps, Shaped, Calm, Ripe, WellLinked, Fresh, Covered, ReadOf;
    if steady && Calm(s0) {
      NothingMeets(ps);
      Hold(s1, s2, k, ps, {});
      CoveredMore(s2, k, ps, ps1);
      FreshAbove(s2, p, ps1);
    }
  }

  lemma NothingMeets(ps: set<Option<Symbol>>)
    ensures Apart(ps, {})
  {
  }

  /** Two operands, the second listed while the first waits. */
  lemma TwoOperands(s0: Snap, s1: Snap, s2: Snap, wl: set<Effect>, pl: set<Option<Symbol>>, sl: bool, l: nat,
                    wr: set<Effect>, pr: set<Option<Symbol>>, sr: bool, r: nat)
    requires Shaped(s0) && Shaped(s1) && Handed(s0, s1, wl, pl, sl, Some(l)) && Handed(s1, s2, wr, pr, sr, Some(r))
    ensures Keeps(s0, s2, wl + wr)
    ensures sl && sr && Apart(pl, wr) && Calm(s0) ==>
              && Calm(s2) && l < |s2.nodes| && r < |s2.nodes| && Fresh(s2, l) && Fresh(s2, r)
              && Covered(s2, l, pl) && Covered(s2, r, pr)
  {
    ShapedParts(s0);
    ShapedParts(s1);
    KeepsThen(s0, s1, s2, wl, wr);
    hide Keeps, Shaped, Calm, Fresh, Covered, WellLinked, Apart;
    if sl && sr && Apart(pl, wr) && Calm(s0) {
      Hold(s1, s2, l, pl, wr);
    }
  }

  lemma HandedBinary(s0: Snap, s2: Snap, s3: Snap, ws: set<Effect>, pl: set<Option<Symbol>>, pr: set<Option<Symbol>>, steady: bool,
                     l: nat, r: nat, p: nat, d: Node)
    requires Shaped(s0) && Shaped(s2) && Keeps(s0, s2, ws)
    requires steady && Calm(s0) ==> Calm(s2) && l < |s2.nodes| && r < |s2.nodes| && Fresh(s2, l) && Fresh(s2, r)
    requires steady && Calm(s0) ==> Covered(s2, l, pl) && Covered(s2, r, pr)
    requires Got(s2, s3, p, d) && WellFormedNode(d, |s2.nodes|) && !d.op.Call? && !d.op.Indir? && d.left == Some(l) && d.right == Some(r)
    ensures Handed(s0, s3, ws, pl + pr, steady, Some(p))
  {
    GotKeeps(s2, s3, p, d);
    ShapedParts(s0);
    ShapedParts(s2);
    ShapedParts(s3);
    KeepsThen(s0, s2, s3, ws, {});
    assert ws + {} == ws;
    hide Keeps, Shaped, Calm, Ripe, WellLinked, Fresh, Covered;
    if steady && Calm(s0) {
      NothingMeets(pl);
      NothingMeets(pr);
      Hold(s2, s3, l, pl, {});
      Hold(s2, s3, r, pr, {});
      CoveredMore(s3, l, pl, pl + pr);
      CoveredMore(s3, r, pr, pl + pr);
      FreshAbove(s3, p, pl + pr);
    }
  }

  /** After a root that uses it, nothing below a node is waiting any more. */
  lemma {:induction false} UsedNode(s: Snap, r: Root, n: nat)
    requires Shaped(s) && RootIn(r, |s.nodes|) && !r.Label? && n < |s.nodes| && Fresh(s, n) && Reach(s.nodes, n) <= Touched(s.nodes, r)
    ensures Fresh(AddRoot(s, r), n) && Covered(AddRoot(s, r), n, {})
  {
    var s1 := AddRoot(s, r);
    SeenMore(s.nodes, s.forest, r);
    hide Seen, Touched, Reach;
  }

  /** A root over one or two fresh operands. */
  lemma RootOver(s: Snap, r: Root, ws: set<Effect>, fresh_: bool)
    requires Shaped(s) && RootIn(r, |s.nodes|) && !r.Label? && !r.Invoke? && Within(s.nodes, r, ws)
    requires fresh_ ==> forall n: nat | n in OperandsOf(r) :: n < |s.nodes| && Fresh(s, n)
    ensures Shaped(AddRoot(s, r)) && Keeps(s, AddRoot(s, r), ws)
    ensures fresh_ && Calm(s) ==> Calm(AddRoot(s, r))
    ensures fresh_ ==> forall n: nat | n in OperandsOf(r) :: n < |s.nodes| && Fresh(AddRoot(s, r), n) && Covered(AddRoot(s, r), n, {})
  {
    RootShaped(s, r);
    RootKeeps(s, r, ws);
    OperandsTouch(s.nodes, r);
    hide Shaped, Keeps, Calm, Within, Touched, Covered, Reach;
    if fresh_ {
      forall k | k in Touched(s.nodes, r) ensures Ripe(s, k) {
        var n :| n in OperandsOf(r) && k in Reach(s.nodes, n);
      }
      if Calm(s) {
        RootCalm(s, r);
      }
      forall n: nat | n in OperandsOf(r) ensures Fresh(AddRoot(s, r), n) && Covered(AddRoot(s, r), n, {}) {
        UsedNode(s, r, n);
      }
    }
  }

  function OperandsOf(r: Root): set<nat> {
    match r
    case Assign(a, b, _) => {a, b}
    case Pass(a) => {a}
    case Force(a) => {a}
    case Test(_, a, b, _) => {a, b}
    case _ => {}
  }

  lemma {:induction false} OperandsTouch(nodes: seq<Node>, r: Root)
    requires !r.Invoke?
    ensures forall k | k in Touched(nodes, r) :: exists n :: n in OperandsOf(r) && k in Reach(nodes, n)
    ensures forall n | n in OperandsOf(r) :: Reach(nodes, n) <= Touched(nodes, r)
  {
    hide Reach;
    forall k | k in Touched(nodes, r) ensures exists n :: n in OperandsOf(r) && k in Reach(nodes, n) {
      match r
      case Assign(a, b, _) => assert a in OperandsOf(r) && b in OperandsOf(r);
      case Pass(a) => assert a in OperandsOf(r);
      case Force(a) => assert a in OperandsOf(r);
      case Test(_, a, b, _) => assert a in OperandsOf(r) && b in OperandsOf(r);
      case _ =>
    }
  }

  lemma CallOver(s: Snap, d: Node, fresh_: bool)
    requires Shaped(s) && WellFormedNode(d, |s.nodes|) && d.op.Call?
    requires fresh_ && d.left.Some? ==> Fresh(s, d.left.value)
    requires fresh_ && d.right.Some? ==> Fresh(s, d.right.value)
    ensures Shaped(AddCall(s, d)) && Keeps(s, AddCall(s, d), {Write(None)})
    ensures fresh_ && Calm(s) ==> Calm(AddCall(s, d))
    ensures fresh_ ==> Fresh(AddCall(s, d), |s.nodes|) && Covered(AddCall(s, d), |s.nodes|, {})
  {
    var s1, c := AddCall(s, d), |s.nodes|;
    CallShaped(s, d);
    CallKeeps(s, d);
    if fresh_ {
      if Calm(s) {
        CallCalm(s, d);
      }
      assert Touched(s1.nodes, Invoke(c)) == Reach(s1.nodes, c);
      NodeReach(s.nodes, d);
      ShapedParts(s);
      hide Seen, Touched, Reach, Keeps, Shaped, Calm;
      forall k | k in Reach(s1.nodes, c) ensures Ripe(s1, k) && k in Seen(s1.nodes, s1.forest) {
      }
    }
  }

  /** One tree after another. */
  lemma HandedThen(s0: Snap, s1: Snap, s2: Snap, w1: set<Effect>, p1: set<Option<Symbol>>, st1: bool, q: Option<nat>,
                   w2: set<Effect>, p2: set<Option<Symbol>>, st2: bool, p: Option<nat>)
    requires Shaped(s0) && Handed(s0, s1, w1, p1, st1, q) && Handed(s1, s2, w2, p2, st2, p)
    ensures Handed(s0, s2, w1 + w2, p2, st1 && st2, p)
  {
    ShapedParts(s0);
    KeepsThen(s0, s1, s2, w1, w2);
    hide Keeps, Shaped, Calm, Fresh, Covered;
  }

  lemma HandedMore(s0: Snap, s1: Snap, ws: set<Effect>, ws1: set<Effect>, ps: set<Option<Symbol>>, steady: bool, p: Option<nat>)
    requires Handed(s0, s1, ws, ps, steady, p) && ws <= ws1
    ensures Handed(s0, s1, ws1, ps, steady, p) && Handed(s0, s1, ws1, ps, steady, None)
  {
    KeepsMore(s0, s1, ws, ws1);
    hide Keeps, Calm, Fresh, Covered;
  }

  /** A root over fresh operands ends the listing of a tree. */
  lemma HandedRoot(s0: Snap, s2: Snap, r: Root, ws: set<Effect>, wr: set<Effect>, steady: bool, p: Option<nat>)
    requires Shaped(s0) && Shaped(s2) && Keeps(s0, s2, ws)
    requires steady && Calm(s0) ==> Calm(s2) && forall n: nat | n in OperandsOf(r) :: n < |s2.nodes| && Fresh(s2, n)
    requires RootIn(r, |s2.nodes|) && !r.Label? && !r.Invoke? && Within(s2.nodes, r, wr)
    requires p.Some? ==> p.value in OperandsOf(r)
    ensures Handed(s0, AddRoot(s2, r), ws + wr, {}, steady, p)
  {
    RootOver(s2, r, wr, steady && Calm(s0));
    ShapedParts(s0);
    hide Keeps, Shaped, Calm, Fresh, Covered, Within, WellLinked;
    KeepsThen(s0, s2, AddRoot(s2, r), ws, wr);
  }

  /** A root over one operand. */
  lemma HandedOne(s0: Snap, s1: Snap, r: Root, n: nat, ws: set<Effect>, ps: set<Option<Symbol>>, steady: bool)
    requires Shaped(s0) && Shaped(s1) && Handed(s0, s1, ws, ps, steady, Some(n)) && r == Pass(n) && n < |s1.nodes|
    ensures Handed(s0, AddRoot(s1, r), ws, {}, steady, None)
  {
    hide Keeps, Shaped, Calm, Fresh, Covered;
    HandedRoot(s0, s1, r, ws, {}, steady, None);
    assert ws + {} == ws;
  }

  /** A root over two operands. */
  lemma HandedTwo(s0: Snap, s1: Snap, s2: Snap, wl: set<Effect>, pl: set<Option<Symbol>>, sl: bool, l: nat,
                  wr: set<Effect>, pr: set<Option<Symbol>>, sr: bool, r: nat, root: Root, wt: set<Effect>)
    requires Shaped(s0) && Shaped(s1) && Shaped(s2) && Handed(s0, s1, wl, pl, sl, Some(l)) && Handed(s1, s2, wr, pr, sr, Some(r))
    requires RootIn(root, |s2.nodes|) && OperandsOf(root) == {l, r} && Within(s2.nodes, root, wt)
    ensures Handed(s0, AddRoot(s2, root), wl + wr + wt, {}, sl && sr && Apart(pl, wr), Some(r))
  {
    TwoOperands(s0, s1, s2, wl, pl, sl, l, wr, pr, sr, r);
    hide Keeps, Shaped, Calm, Fresh, Covered, Within, Apart, Handed;
    HandedRoot(s0, s2, root, wl + wr, wt, sl && sr && Apart(pl, wr), Some(r));
  }

  lemma HandedNoNode(s0: Snap, s1: Snap, ws: set<Effect>, ps: set<Option<Symbol>>, ps1: set<Option<Symbol>>, steady: bool, p: Option<nat>)
    requires Handed(s0, s1, ws, ps, steady, p)
    ensures Handed(s0, s1, ws, ps1, steady, None)
  {
  }

  lemma HandedCall(s0: Snap, s1: Snap, s2: Snap, wl: set<Effect>, pl: set<Option<Symbol>>, sl: bool, l: nat,
                   wr: set<Effect>, pr: set<Option<Symbol>>, sr: bool, d: Node)
    requires Shaped(s0) && Shaped(s1) && Shaped(s2) && Handed(s0, s1, wl, pl, sl, Some(l)) && Handed(s1, s2, wr, pr, sr, d.right)
    requires WellFormedNode(d, |s2.nodes|) && d.op.Call? && d.left == Some(l) && l < |s1.nodes|
    ensures Handed(s0, AddCall(s2, d), wl + wr + {Write(None)}, {}, sl && sr && Apart(pl, wr), Some(|s2.nodes|))
  {
    ShapedParts(s0);
    ShapedParts(s1);
    KeepsThen(s0, s1, s2, wl, wr);
    hide Keeps, Shaped, Calm, Fresh, Covered, WellLinked, Apart, WellFormedNode;
    var steady := sl && sr && Apart(pl, wr) && Calm(s0);
    if steady {
      Hold(s1, s2, l, pl, wr);
    }
    CallOver(s2, d, steady);
    KeepsThen(s0, s2, AddCall(s2, d), wl + wr, {Write(None)});
  }

  /** A forced load stays good across everything but labels. */
  lemma Forced(s2: Snap, s3: Snap, n: nat, calm: bool)
    requires Shaped(s2) && n < |s2.nodes| && (s3 == AddRoot(s2, Force(n)) || (s3 == s2 && Force(n) in s2.forest))
    requires calm ==> Fresh(s2, n) && Calm(s2)
    ensures Shaped(s3) && Keeps(s2, s3, {})
    ensures calm ==> Calm(s3) && Fresh(s3, n) && Covered(s3, n, {})
  {
    if s3 == AddRoot(s2, Force(n)) {
      RootOver(s2, Force(n), {}, calm);
    } else {
      KeepsSelf(s2);
      var i :| 0 <= i < |s2.forest| && s2.forest[i] == Force(n);
      hide Shaped, Keeps, Calm, Fresh, Reach;
      forall k | k in Reach(s2.nodes, n) ensures k in Seen(s2.nodes, s2.forest) {
        SeenFrom(s2.nodes, s2.forest, i, k);
      }
    }
  }

  /** What holds of a node holds of its operand. */
  lemma BelowFresh(s: Snap, n: nat, l: nat, ps: set<Option<Symbol>>)
    requires n < |s.nodes| && l < n && s.nodes[n].left == Some(l) && Fresh(s, n) && Covered(s, n, ps)
    ensures Fresh(s, l) && Covered(s, l, ps)
  {
    assert Reach(s.nodes, l) <= Reach(s.nodes, n);
    hide Ripe, Seen, Reach;
  }

  /** The operand of a load that is listed first, the new value, and the store. */
  lemma HandedPost(s0: Snap, s1: Snap, s2: Snap, s3: Snap, s4: Snap, wl: set<Effect>, pl: set<Option<Symbol>>, sl: bool, l: nat, n: nat, d: Node,
                   we: set<Effect>, pe: set<Option<Symbol>>, se: bool, e: nat, size: nat, wt: set<Effect>)
    requires Shaped(s0) && Shaped(s1) && Handed(s0, s1, wl, pl, sl, Some(l)) && l < |s1.nodes| && d.op.Indir? && d.left == Some(l) && d.right.None?
    requires Got(s1, s2, n, d)
    requires s3 == AddRoot(s2, Force(n)) || (s3 == s2 && Force(n) in s2.forest)
    requires Shaped(s4) && Handed(s3, s4, we, pe, se, Some(e)) && e < |s4.nodes| && Join !in wt
    requires l < |s4.nodes| && Within(s4.nodes, Assign(l, e, size), wt)
    ensures Handed(s0, AddRoot(s4, Assign(l, e, size)), wl + we + wt, {}, sl && se && Join !in we, Some(n))
  {
    var all: set<Option<Symbol>>, steady, root := pl + {None}, sl && se && Join !in we, Assign(l, e, size);
    hide Ripe, Seen, Within;
    PostForced(s0, s1, s2, s3, wl, pl, sl, l, n, d);
    ShapedParts(s0);
    ShapedParts(s3);
    hide Shaped, Calm, Fresh, Covered, WellLinked, Reach;
    KeepsThen(s0, s3, s4, wl, we);
    if steady && Calm(s0) {
      NoneApart(we);
      Hold(s3, s4, n, {}, we);
      Hold(s3, s4, l, {}, we);
    }
    HandedRoot(s0, s4, root, wl + we, wt, steady, None);
    RootOver(s4, root, wt, steady && Calm(s0));
    ShapedParts(s4);
    if steady && Calm(s0) {
      NoneApart(wt);
      Hold(s4, AddRoot(s4, root), n, {}, wt);
    }
  }

  lemma NoneApart(ws: set<Effect>)
    requires Join !in ws
    ensures Apart({}, ws)
  {
  }

  lemma PostForced(s0: Snap, s1: Snap, s2: Snap, s3: Snap, wl: set<Effect>, pl: set<Option<Symbol>>, sl: bool, l: nat, n: nat, d: Node)
    requires Shaped(s0) && Shaped(s1) && Handed(s0, s1, wl, pl, sl, Some(l)) && l < |s1.nodes| && d.op.Indir? && d.left == Some(l) && d.right.None?
    requires Got(s1, s2, n, d)
    requires s3 == AddRoot(s2, Force(n)) || (s3 == s2 && Force(n) in s2.forest)
    ensures Shaped(s3) && Keeps(s0, s3, wl) && n < |s3.nodes| && l < |s3.nodes|
    ensures sl && Calm(s0) ==> Calm(s3) && Fresh(s3, n) && Covered(s3, n, {}) && Fresh(s3, l) && Covered(s3, l, {})
  {
    HandedUnary(s0, s1, s2, wl, pl, pl + {None}, sl, l, n, d);
    GotKeeps(s1, s2, n, d);
    Forced(s2, s3, n, sl && Calm(s0));
    ShapedParts(s0);
    KeepsThen(s0, s2, s3, wl, {});
    assert wl + {} == wl;
    ShapedParts(s3);
    if sl && Calm(s0) {
      assert WellFormedNode(s3.nodes[n], n);
      BelowFresh(s3, n, l, {});
    }
  }
}

/** The list of roots that `listnodes` leaves, and its two runs.  A run at built values takes every node
    at the value it had when it was built.  The late run is what the code does: `undag`
    (lcc/src/dag.c:554-687) hangs a node into the tree of the first root that uses it, and keeps it in a
    temporary if it is used again. */
module Roots {
  import opened Words
  import opened Dag

  datatype Cond = Eq | Ne | Gt | Ge | Le | Lt

  predicate Compare(c: Cond, x: int, y: int) {
    match c
    case Eq => x == y
    case Ne => x != y
    case Gt => x > y
    case Ge => x >= y
    case Le => x <= y
    case Lt => x < y
  }

  /** With y at a distance d from x. */
  lemma CompareIs(x: int, y: int, d: int)
    requires y == x + d
    ensures Compare(Eq, x, y) <==> d == 0
    ensures Compare(Lt, x, y) <==> d > 0
    ensures Compare(Gt, x, y) <==> d < 0
    ensures Compare(Ne, x, y) != Compare(Eq, x, y) && Compare(Ge, x, y) != Compare(Lt, x, y) && Compare(Le, x, y) != Compare(Gt, x, y)
  {
  }

  /** A run of the list is at the current position, or on its way to a label ahead. */
  datatype Flow = At(st: Store) | Going(lab: nat, st: Store)

  datatype Root =
    | Assign(target: nat, source: nat, size: nat)
    | Pass(value: nat)
    | Invoke(call: nat)
    | Force(load: nat)
    | Goto(lab: nat)
    | Test(cond: Cond, left: nat, right: nat, lab: nat)
    | Label(lab: nat)

  predicate RootIn(r: Root, n: nat) {
    match r
    case Assign(a, b, _) => a < n && b < n
    case Pass(a) => a < n
    case Invoke(c) => c < n
    case Force(a) => a < n
    case Test(_, a, b, _) => a < n && b < n
    case _ => true
  }

  predicate AllIn(forest: seq<Root>, n: nat) {
    forall i | 0 <= i < |forest| :: RootIn(forest[i], n)
  }

  function Resolve(equated: map<nat, nat>, lab: nat): nat {
    if lab in equated then equated[lab] else lab
  }

  // ----- the run at built values -----

  /** One root of the list, at the values its nodes were built with. */
  function Exec(m: Machine, nodes: seq<Node>, vals: seq<Val>, equated: map<nat, nat>, r: Root, flow: Flow): Flow
    requires |nodes| == |vals| && RootIn(r, |nodes|)
  {
    match flow
    case Going(lab, st) => if r.Label? && Resolve(equated, lab) == r.lab then At(st) else flow
    case At(st) =>
      match r
      case Assign(a, b, size) => At(st.(mem := Update(st.mem, First(vals[a]), vals[b], size)))
      case Pass(a) => At(st.(args := st.args + [vals[a]]))
      case Invoke(c) => At(m.callee(ValueOf(vals, nodes[c].left), st).0)
      case Goto(lab) => Going(lab, st)
      case Test(c, a, b, lab) => if Compare(c, m.number(vals[a]), m.number(vals[b])) then Going(lab, st) else flow
      case _ => flow
  }

  function Run(m: Machine, nodes: seq<Node>, vals: seq<Val>, equated: map<nat, nat>, forest: seq<Root>, start: Flow): Flow
    requires |nodes| == |vals| && AllIn(forest, |nodes|)
    decreases |forest|
  {
    if forest == [] then start
    else
      var k := |forest| - 1;
      Exec(m, nodes, vals, equated, forest[k], Run(m, nodes, vals, equated, forest[..k], start))
  }

  lemma {:induction false} RunGrows(m: Machine, nodes: seq<Node>, vals: seq<Val>, nodes1: seq<Node>, vals1: seq<Val>,
                                    equated: map<nat, nat>, forest: seq<Root>, start: Flow)
    requires |nodes| == |vals| && |nodes1| == |vals1| && nodes <= nodes1 && vals <= vals1
    requires WellLinked(nodes) && AllIn(forest, |nodes|)
    ensures AllIn(forest, |nodes1|)
    ensures Run(m, nodes1, vals1, equated, forest, start) == Run(m, nodes, vals, equated, forest, start)
    decreases |forest|
  {
    if forest != [] {
      var k := |forest| - 1;
      RunGrows(m, nodes, vals, nodes1, vals1, equated, forest[..k], start);
      if forest[k].Invoke? {
        assert WellFormedNode(nodes[forest[k].call], forest[k].call);
      }
    }
  }

  predicate NoLabel(forest: seq<Root>, lab: nat) {
    forall i | 0 <= i < |forest| :: forest[i] != Label(lab)
  }

  /** Equating a label that has not been placed changes nothing before the place it now stands for. */
  lemma {:induction false} RunEquated(m: Machine, nodes: seq<Node>, vals: seq<Val>, equated: map<nat, nat>, lab: nat, to: nat,
                                      forest: seq<Root>, start: Flow)
    requires |nodes| == |vals| && AllIn(forest, |nodes|)
    requires lab !in equated && NoLabel(forest, lab) && NoLabel(forest, to)
    ensures Run(m, nodes, vals, equated[lab := to], forest, start) == Run(m, nodes, vals, equated, forest, start)
    decreases |forest|
  {
    if forest != [] {
      var k := |forest| - 1;
      RunEquated(m, nodes, vals, equated, lab, to, forest[..k], start);
      assert forest[k] != Label(lab) && forest[k] != Label(to);
    }
  }

  function Landed(flow: Flow, lab: nat): Flow {
    if flow.Going? && flow.lab == lab then At(flow.st) else flow
  }

  lemma ExecBounds(m: Machine, nodes: seq<Node>, vals: seq<Val>, equated: map<nat, nat>, r: Root, flow: Flow, labels: nat)
    requires |nodes| == |vals| && RootIn(r, |nodes|) && (flow.Going? ==> flow.lab < labels)
    requires r.Goto? || r.Test? ==> r.lab < labels
    ensures var f := Exec(m, nodes, vals, equated, r, flow);
            (f.Going? ==> f.lab < labels) && (r.Force? ==> f == flow)
  {
  }

  lemma {:induction false} RunMore(m: Machine, nodes: seq<Node>, vals: seq<Val>, equated: map<nat, nat>, forest: seq<Root>, start: Flow, r: Root)
    requires |nodes| == |vals| && AllIn(forest, |nodes|) && RootIn(r, |nodes|)
    ensures AllIn(forest + [r], |nodes|)
    ensures Run(m, nodes, vals, equated, forest + [r], start) ==
            Exec(m, nodes, vals, equated, r, Run(m, nodes, vals, equated, forest, start))
  {
    var f := forest + [r];
    assert f[..|f| - 1] == forest;
    hide Exec;
  }

  // ----- the nodes a root uses -----

  /** A node and everything below it. */
  function Reach(nodes: seq<Node>, n: nat): (r: set<nat>)
    ensures n in r && forall k | k in r :: k <= n
    decreases n
  {
    {n}
    + (if n < |nodes| && nodes[n].left.Some? && nodes[n].left.value < n then Reach(nodes, nodes[n].left.value) else {})
    + (if n < |nodes| && nodes[n].right.Some? && nodes[n].right.value < n then Reach(nodes, nodes[n].right.value) else {})
  }

  function Touched(nodes: seq<Node>, r: Root): set<nat> {
    match r
    case Assign(a, b, _) => Reach(nodes, a) + Reach(nodes, b)
    case Pass(a) => Reach(nodes, a)
    case Invoke(c) => Reach(nodes, c)
    case Force(a) => Reach(nodes, a)
    case Test(_, a, b, _) => Reach(nodes, a) + Reach(nodes, b)
    case _ => {}
  }

  /** The nodes used by some root of the list. */
  function Seen(nodes: seq<Node>, forest: seq<Root>): set<nat>
    decreases |forest|
  {
    if forest == [] then {} else Seen(nodes, forest[..|forest| - 1]) + Touched(nodes, forest[|forest| - 1])
  }

  predicate KidIn(d: Node, n: nat, k: nat) {
    k < n && (d.left == Some(k) || d.right == Some(k))
  }

  lemma {:induction false} ReachClosed(nodes: seq<Node>, n: nat, k: nat, j: nat)
    requires k in Reach(nodes, n) && k < |nodes| && KidIn(nodes[k], k, j)
    ensures j in Reach(nodes, n)
    decreases n
  {
    if k != n {
      var d := nodes[n];
      if d.left.Some? && d.left.value < n && k in Reach(nodes, d.left.value) {
        ReachClosed(nodes, d.left.value, k, j);
      } else {
        ReachClosed(nodes, d.right.value, k, j);
      }
    }
  }

  lemma {:induction false} ReachGrows(nodes: seq<Node>, nodes1: seq<Node>, n: nat)
    requires nodes <= nodes1 && n < |nodes|
    ensures Reach(nodes1, n) == Reach(nodes, n)
    decreases n
  {
    var d := nodes[n];
    assert nodes1[n] == d;
    if d.left.Some? && d.left.value < n {
      ReachGrows(nodes, nodes1, d.left.value);
    }
    if d.right.Some? && d.right.value < n {
      ReachGrows(nodes, nodes1, d.right.value);
    }
  }

  lemma TouchedGrows(nodes: seq<Node>, nodes1: seq<Node>, r: Root)
    requires nodes <= nodes1 && RootIn(r, |nodes|)
    ensures Touched(nodes1, r) == Touched(nodes, r)
  {
    hide Reach;
    match r
    case Assign(a, b, _) => ReachGrows(nodes, nodes1, a); ReachGrows(nodes, nodes1, b);
    case Pass(a) => ReachGrows(nodes, nodes1, a);
    case Invoke(c) => ReachGrows(nodes, nodes1, c);
    case Force(a) => ReachGrows(nodes, nodes1, a);
    case Test(_, a, b, _) => ReachGrows(nodes, nodes1, a); ReachGrows(nodes, nodes1, b);
    case _ =>
  }

  lemma {:induction false} SeenGrows(nodes: seq<Node>, nodes1: seq<Node>, forest: seq<Root>)
    requires nodes <= nodes1 && AllIn(forest, |nodes|)
    ensures Seen(nodes1, forest) == Seen(nodes, forest)
    decreases |forest|
  {
    if forest != [] {
      var k := |forest| - 1;
      SeenGrows(nodes, nodes1, forest[..k]);
      TouchedGrows(nodes, nodes1, forest[k]);
    }
  }

  lemma {:induction false} SeenMore(nodes: seq<Node>, forest: seq<Root>, r: Root)
    ensures Seen(nodes, forest + [r]) == Seen(nodes, forest) + Touched(nodes, r)
  {
    assert (forest + [r])[..|forest|] == forest;
  }

  lemma TouchedIn(nodes: seq<Node>, r: Root, k: nat)
    requires RootIn(r, |nodes|) && k in Touched(nodes, r)
    ensures k < |nodes|
  {
    hide Reach;
  }

  lemma {:induction false} TouchedClosed(nodes: seq<Node>, r: Root, k: nat, j: nat)
    requires k in Touched(nodes, r) && k < |nodes| && KidIn(nodes[k], k, j)
    ensures j in Touched(nodes, r)
  {
    hide Reach;
    match r
    case Assign(a, b, _) =>
      if k in Reach(nodes, a) { ReachClosed(nodes, a, k, j); } else { ReachClosed(nodes, b, k, j); }
    case Pass(a) => ReachClosed(nodes, a, k, j);
    case Invoke(c) => ReachClosed(nodes, c, k, j);
    case Force(a) => ReachClosed(nodes, a, k, j);
    case Test(_, a, b, _) =>
      if k in Reach(nodes, a) { ReachClosed(nodes, a, k, j); } else { ReachClosed(nodes, b, k, j); }
    case _ =>
  }

  /** What some root uses is used from the first such root on. */
  lemma {:induction false} SeenAt(nodes: seq<Node>, forest: seq<Root>, k: nat) returns (i: nat)
    requires k in Seen(nodes, forest)
    ensures i < |forest| && k in Touched(nodes, forest[i])
    decreases |forest|
  {
    i := |forest| - 1;
    if k !in Touched(nodes, forest[i]) {
      i := SeenAt(nodes, forest[..i], k);
    }
  }

  lemma {:induction false} SeenFrom(nodes: seq<Node>, forest: seq<Root>, i: nat, k: nat)
    requires i < |forest| && k in Touched(nodes, forest[i])
    ensures k in Seen(nodes, forest)
    decreases |forest|
  {
    if i < |forest| - 1 {
      SeenFrom(nodes, forest[..|forest| - 1], i, k);
    }
  }

  // ----- the late run -----

  /** Addresses of locals and parameters are never kept: every use has its own. */
  predicate Local(d: Node) {
    d.op.Addr? && d.op.kind != AddrG
  }

  /** Temporaries: for which nodes the code has one by now, what has been assigned, and what is in a
      temporary whose assignment has been jumped over. */
  datatype Temps = Temps(seen: set<nat>, memo: map<nat, Val>, junk: nat -> Val)

  /** The value of a node at a root that runs in a store. */
  function ValueAt(m: Machine, nodes: seq<Node>, n: nat, mem: Memory, ts: Temps): Val
    requires n < |nodes|
    decreases n
  {
    if n in ts.seen && !Local(nodes[n]) then
      if n in ts.memo then ts.memo[n] else ts.junk(n)
    else
      var d := nodes[n];
      var x := if d.left.Some? && d.left.value < n then ValueAt(m, nodes, d.left.value, mem, ts) else [];
      var y := if d.right.Some? && d.right.value < n then ValueAt(m, nodes, d.right.value, mem, ts) else [];
      Compute(m, d.op, d.sym, x, y, mem)
  }

  /** The address called by a call node. */
  function CalledAt(m: Machine, nodes: seq<Node>, c: nat, mem: Memory, ts: Temps): Val
    requires c < |nodes|
  {
    var d := nodes[c];
    if d.left.Some? && d.left.value < c then ValueAt(m, nodes, d.left.value, mem, ts) else []
  }

  /** What a root keeps of a node it is the first to use. */
  function KeptAt(m: Machine, nodes: seq<Node>, r: Root, n: nat, st: Store, ts: Temps): Val
    requires n < |nodes|
  {
    if r == Invoke(n) then m.callee(CalledAt(m, nodes, n, st.mem, ts), st).1 else ValueAt(m, nodes, n, st.mem, ts)
  }

  function MemoAfter(m: Machine, nodes: seq<Node>, r: Root, st: Store, ts: Temps): map<nat, Val> {
    ts.memo + map n | n in Touched(nodes, r) - ts.seen && n < |nodes| :: KeptAt(m, nodes, r, n, st, ts)
  }

  datatype Stage = Stage(flow: Flow, memo: map<nat, Val>)

  function ExecLate(m: Machine, nodes: seq<Node>, equated: map<nat, nat>, r: Root, seen: set<nat>, junk: nat -> Val, s: Stage): Stage
    requires RootIn(r, |nodes|)
  {
    match s.flow
    case Going(lab, st) => if r.Label? && Resolve(equated, lab) == r.lab then Stage(At(st), s.memo) else s
    case At(st) =>
      var ts := Temps(seen, s.memo, junk);
      var flow :=
        match r
        case Assign(a, b, size) =>
          At(st.(mem := Update(st.mem, First(ValueAt(m, nodes, a, st.mem, ts)), ValueAt(m, nodes, b, st.mem, ts), size)))
        case Pass(a) => At(st.(args := st.args + [ValueAt(m, nodes, a, st.mem, ts)]))
        case Invoke(c) => At(m.callee(CalledAt(m, nodes, c, st.mem, ts), st).0)
        case Goto(lab) => Going(lab, st)
        case Test(c, a, b, lab) =>
          if Compare(c, m.number(ValueAt(m, nodes, a, st.mem, ts)), m.number(ValueAt(m, nodes, b, st.mem, ts)))
          then Going(lab, st) else s.flow
        case _ => s.flow;
      Stage(flow, MemoAfter(m, nodes, r, st, ts))
  }

  /** The run of the code: the nodes of a root are evaluated in the store the root runs in, except for what
      an earlier root of the list has kept.  Listed calls and forced loads are kept where they are listed. */
  function RunLate(m: Machine, nodes: seq<Node>, equated: map<nat, nat>, forest: seq<Root>, junk: nat -> Val, start: Flow): Stage
    requires AllIn(forest, |nodes|)
    decreases |forest|
  {
    if forest == [] then Stage(start, map[])
    else
      var k := |forest| - 1;
      ExecLate(m, nodes, equated, forest[k], Seen(nodes, forest[..k]), junk,
               RunLate(m, nodes, equated, forest[..k], junk, start))
  }
}

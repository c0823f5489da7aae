/** The state of the DAG builder as a value: what must hold of it, what each step of `listnodes`
    (lcc/src/dag.c:102-378) makes of it, and, tree by tree, why the steps together do what the tree means. */
module Builder {
  import opened Words
  import opened Dag
  import opened Roots
  import opened Late
  import opened Trees

  // ----- the builder -----

  ghost predicate LabelsPlaced(forest: seq<Root>, equated: map<nat, nat>, placed: set<nat>, labels: nat) {
    && (forall i | 0 <= i < |forest| && forest[i].Label? :: forest[i].lab in placed)
    && (forall i, j | 0 <= i < j < |forest| && forest[i].Label? && forest[j].Label? :: forest[i].lab != forest[j].lab)
    && (forall x | x in equated :: x in placed && equated[x] in placed)
    && (forall x | x in placed :: x < labels)
  }

  function HashOf(index: Op -> nat, location: Option<Symbol> -> nat, op: Op, sym: Option<Symbol>): nat {
    Bits(Xor, index(op) % 16, location(sym) / 4 % 16, 4)
  }

  /** Every node sits in the chain of its hash, and the node count is the number of chained nodes. */
  ghost predicate ChainsOk(m: Machine, index: Op -> nat, location: Option<Symbol> -> nat,
                           nodes: seq<Node>, nodecount: nat, chains: Chains)
  {
    && |chains| == 16
    && (forall i, n: nat | 0 <= i < 16 && n in chains[i] :: n < |nodes|)
    && (forall i, n: nat | 0 <= i < 16 && n in chains[i] ::
          HashOf(index, location, nodes[n].op, nodes[n].sym) == i)
    && nodecount == Count(chains)
    && Narrow(m, nodes, chains)
  }

  /** The list so far: where its run has come to, and which labels it has. */
  ghost predicate ListedFor(m: Machine, nodes: seq<Node>, vals: seq<Val>, equated: map<nat, nat>, forest: seq<Root>, start: Flow,
                            flow: Flow, placed: set<nat>, labels: nat)
  {
    && |vals| == |nodes| && AllIn(forest, |nodes|)
    && flow == Run(m, nodes, vals, equated, forest, start)
    && LabelsPlaced(forest, equated, placed, labels)
    && 1 <= labels && (flow.Going? ==> flow.lab < labels)
  }

  lemma LabelsMore(forest: seq<Root>, equated: map<nat, nat>, placed: set<nat>, labels: nat, r: Root)
    requires LabelsPlaced(forest, equated, placed, labels)
    requires r.Label? ==> r.lab !in placed && r.lab < labels
    ensures LabelsPlaced(forest + [r], equated, placed + (if r.Label? then {r.lab} else {}), labels)
  {
  }

  /** One root more. */
  lemma ListedMore(m: Machine, nodes: seq<Node>, vals: seq<Val>, equated: map<nat, nat>, forest: seq<Root>, start: Flow,
                   flow: Flow, placed: set<nat>, labels: nat, r: Root)
    requires ListedFor(m, nodes, vals, equated, forest, start, flow, placed, labels) && RootIn(r, |nodes|)
    requires r.Label? ==> r.lab !in placed && r.lab < labels
    requires r.Goto? || r.Test? ==> r.lab < labels
    ensures ListedFor(m, nodes, vals, equated, forest + [r], start, Exec(m, nodes, vals, equated, r, flow),
                      placed + (if r.Label? then {r.lab} else {}), labels)
  {
    LabelsMore(forest, equated, placed, labels, r);
    RunMore(m, nodes, vals, equated, forest, start, r);
    ExecBounds(m, nodes, vals, equated, r, flow, labels);
    hide LabelsPlaced, Run, Exec, AllIn, RootIn;
  }

  /** More nodes. */
  lemma ListedGrows(m: Machine, nodes: seq<Node>, vals: seq<Val>, nodes1: seq<Node>, vals1: seq<Val>, equated: map<nat, nat>,
                    forest: seq<Root>, start: Flow, flow: Flow, placed: set<nat>, labels: nat)
    requires ListedFor(m, nodes, vals, equated, forest, start, flow, placed, labels) && WellLinked(nodes)
    requires |nodes1| == |vals1| && nodes <= nodes1 && vals <= vals1
    ensures ListedFor(m, nodes1, vals1, equated, forest, start, flow, placed, labels)
  {
    RunGrows(m, nodes, vals, nodes1, vals1, equated, forest, start);
    hide LabelsPlaced, Run, AllIn, WellLinked;
  }

  /** More labels handed out. */
  lemma ListedLabels(m: Machine, nodes: seq<Node>, vals: seq<Val>, equated: map<nat, nat>, forest: seq<Root>, start: Flow,
                     flow: Flow, placed: set<nat>, labels: nat, labels1: nat)
    requires ListedFor(m, nodes, vals, equated, forest, start, flow, placed, labels) && labels <= labels1
    ensures ListedFor(m, nodes, vals, equated, forest, start, flow, placed, labels1)
  {
    hide Run, AllIn;
  }

  /** A label equated with the one listed last. */
  lemma ListedEquated(m: Machine, nodes: seq<Node>, vals: seq<Val>, equated: map<nat, nat>, forest: seq<Root>, start: Flow,
                      flow: Flow, placed: set<nat>, labels: nat, lab: nat)
    requires ListedFor(m, nodes, vals, equated, forest, start, flow, placed, labels)
    requires |forest| > 0 && forest[|forest| - 1].Label? && lab !in placed && lab < labels
    ensures var to := forest[|forest| - 1].lab;
            && lab !in equated && NoLabel(forest[..|forest| - 1], lab) && NoLabel(forest[..|forest| - 1], to)
            && ListedFor(m, nodes, vals, equated[lab := to], forest, start, Landed(flow, lab), placed + {lab}, labels)
  {
    var to := forest[|forest| - 1].lab;
    var init := forest[..|forest| - 1];
    assert NoLabel(init, lab) && NoLabel(init, to);
    RunEquated(m, nodes, vals, equated, lab, to, init, start);
  }

  /** Everything the builder keeps about its tables besides the buckets. */
  ghost predicate TabledFor(m: Machine, s: Snap, vals: seq<Val>, equated: map<nat, nat>, start: Flow) {
    Timely(m, s, vals, equated, start) && Measured(m, s) && CallsOnly(s)
  }

  lemma {:induction false} TabledNode(m: Machine, s: Snap, vals: seq<Val>, equated: map<nat, nat>, start: Flow, d: Node, v: Val)
    requires TabledFor(m, s, vals, equated, start) && WellFormedNode(d, |s.nodes|) && !d.op.Call? && WidthOk(m, s.nodes, d)
    requires AllIn(s.forest, |s.nodes|) && |vals| == |s.nodes|
    requires var f := Run(m, s.nodes, vals, equated, s.forest, start); f.At? ==> v == Built(m, d, vals, f.st)
    ensures TabledFor(m, AddNode(s, d), vals + [v], equated, start)
  {
    TimelyNode(m, s, vals, equated, start, d, v);
    TimelySizes(m, s, vals, equated, start);
    hide Timely, Built, Run;
    MeasuredNode(m, s, d);
  }

  ghost predicate WidthOk(m: Machine, nodes: seq<Node>, d: Node) {
    d.op.Indir? && IsAddress(nodes, d.left) && nodes[d.left.value].sym.Some? ==> d.op.size <= m.width(nodes[d.left.value].sym.value)
  }

  lemma MeasuredNode(m: Machine, s: Snap, d: Node)
    requires Measured(m, s) && WellLinked(s.nodes) && AllIn(s.forest, |s.nodes|) && WellFormedNode(d, |s.nodes|) && WidthOk(m, s.nodes, d)
    ensures Measured(m, AddNode(s, d))
  {
    var s1 := AddNode(s, d);
    forall k: nat | k < |s1.nodes| && LoadsSymbol(s1.nodes, k) ensures s1.nodes[k].op.size <= m.width(LoadedSymbol(s1.nodes, k)) {
      if k < |s.nodes| {
        LoadsGrow(s.nodes, s1.nodes, k);
      }
    }
    forall i | 0 <= i < |s.forest| ensures RootMeasured(m, s1.nodes, s.forest[i]) {
      assert RootMeasured(m, s.nodes, s.forest[i]) && RootIn(s.forest[i], |s.nodes|);
    }
  }

  lemma TabledRoot(m: Machine, s: Snap, vals: seq<Val>, equated: map<nat, nat>, start: Flow, r: Root)
    requires TabledFor(m, s, vals, equated, start) && RootIn(r, |s.nodes|) && !r.Invoke? && RootMeasured(m, s.nodes, r)
    ensures TabledFor(m, AddRoot(s, r), vals, equated, start)
  {
    TimelyRoot(m, s, vals, equated, start, r);
    hide Timely, RootMeasured, LoadsSymbol;
  }

  lemma {:induction false} TabledCall(m: Machine, s: Snap, vals: seq<Val>, equated: map<nat, nat>, start: Flow, d: Node, v: Val)
    requires TabledFor(m, s, vals, equated, start) && WellFormedNode(d, |s.nodes|) && d.op.Call?
    requires AllIn(s.forest, |s.nodes|) && |vals| == |s.nodes|
    requires var f := Run(m, s.nodes, vals, equated, s.forest, start); f.At? ==> v == Built(m, d, vals, f.st)
    ensures TabledFor(m, AddCall(s, d), vals + [v], equated, start)
  {
    TimelyCall(m, s, vals, equated, start, d, v);
    TimelySizes(m, s, vals, equated, start);
    hide Timely, Built, Run;
    MeasuredNode(m, s, d);
    hide Measured, CallsOnly, LoadsSymbol;
    CallRootOk(m, s, d);
  }

  lemma CallRootOk(m: Machine, s: Snap, d: Node)
    requires Measured(m, AddNode(s, d)) && CallsOnly(s) && d.op.Call?
    ensures Measured(m, AddCall(s, d)) && CallsOnly(AddCall(s, d))
  {
    hide LoadsSymbol, LoadedSymbol;
  }

  lemma TabledLanding(m: Machine, s: Snap, vals: seq<Val>, equated: map<nat, nat>, start: Flow, lab: nat)
    requires TabledFor(m, s, vals, equated, start) && |s.forest| > 0 && s.forest[|s.forest| - 1].Label?
    requires lab !in equated && NoLabel(s.forest[..|s.forest| - 1], lab) && NoLabel(s.forest[..|s.forest| - 1], s.forest[|s.forest| - 1].lab)
    ensures TabledFor(m, Landing(s), vals, equated[lab := s.forest[|s.forest| - 1].lab], start)
  {
    TimelyLanding(m, s, vals, equated, start, lab);
    hide Timely, LoadsSymbol, RootMeasured;
  }

  // ----- the builder's state as a value -----

  /** Everything the builder keeps: tables, built values, labels, where the run of the list started and where
      it has come to, and the buckets. */
  datatype View = View(snap: Snap, vals: seq<Val>, equated: map<nat, nat>, labels: nat, placed: set<nat>, depth: nat,
                       start: Flow, flow: Flow, nodecount: nat, chains: Chains)

  ghost predicate InvOf(m: Machine, index: Op -> nat, location: Option<Symbol> -> nat, v: View) {
    && |v.vals| == |v.snap.nodes| && WellLinked(v.snap.nodes) && AddressesKnown(m, v.snap.nodes, v.vals)
    && ChainsOk(m, index, location, v.snap.nodes, v.nodecount, v.chains)
    && ListedFor(m, v.snap.nodes, v.vals, v.equated, v.snap.forest, v.start, v.flow, v.placed, v.labels)
    && TabledFor(m, v.snap, v.vals, v.equated, v.start)
  }

  /** The nodes in the buckets can be used again: they have their built value in the current store, and
      nothing has met them. */
  ghost predicate SoundOf(m: Machine, v: View) {
    && (v.flow.At? ==> Coherent(m, v.snap.nodes, v.vals, v.chains, v.flow.st.mem))
    && HeldOk(v.snap, v.chains)
  }

  ghost predicate Sane(v: View) {
    && Shaped(v.snap) && |v.vals| == |v.snap.nodes|
    && 1 <= v.labels && (v.flow.Going? ==> v.flow.lab < v.labels) && (forall x | x in v.placed :: x < v.labels)
  }

  lemma Sanity(m: Machine, index: Op -> nat, location: Option<Symbol> -> nat, v: View)
    requires InvOf(m, index, location, v)
    ensures Sane(v) && |v.chains| == 16
  {
    TimelySizes(m, v.snap, v.vals, v.equated, v.start);
    hide AddressesKnown, TabledFor, Run, Shaped, AllIn, WellLinked, HashOf, Narrow, Count;
  }

  /** Nodes and labels are only added, and labels placed meanwhile are new ones. */
  ghost predicate Grew(v0: View, v1: View) {
    && Sane(v0) && Sane(v1)
    && v0.snap.nodes <= v1.snap.nodes && v0.vals <= v1.vals && v1.start == v0.start
    && v0.labels <= v1.labels && v1.depth == v0.depth && v0.placed <= v1.placed
    && (forall x | x in v1.placed && x !in v0.placed :: v0.labels <= x)
  }

  lemma GrewThen(v0: View, v1: View, v2: View)
    requires Grew(v0, v1) && Grew(v1, v2)
    ensures Grew(v0, v2)
  {
    hide Shaped;
  }

  /** Node d can be built now. */
  ghost predicate Buildable(m: Machine, v: View, d: Node) {
    WellFormedNode(d, |v.snap.nodes|) && !d.op.Call? && WidthOk(m, v.snap.nodes, d)
  }

  function NewValue(m: Machine, v: View, d: Node): Val {
    Compute(m, d.op, d.sym, ValueOf(v.vals, d.left), ValueOf(v.vals, d.right), v.flow.st.mem)
  }

  function Noded(m: Machine, v: View, d: Node): View {
    v.(snap := AddNode(v.snap, d), vals := v.vals + [NewValue(m, v, d)])
  }

  /** A node was handed out: its fields, and its value in the current store. */
  ghost predicate Made(m: Machine, v0: View, v1: View, p: nat, d: Node) {
    && Grew(v0, v1) && v1.labels == v0.labels && v1.placed == v0.placed && v1.flow == v0.flow
    && p < |v1.snap.nodes| && v1.snap.nodes[p] == d
    && (v1.flow.At? ==> v1.vals[p] == NewValue(m, v0, d))
    && Got(v0.snap, v1.snap, p, d)
  }

  lemma NodedInv(m: Machine, index: Op -> nat, location: Option<Symbol> -> nat, v: View, d: Node)
    requires InvOf(m, index, location, v) && SoundOf(m, v) && Buildable(m, v, d)
    ensures InvOf(m, index, location, Noded(m, v, d)) && SoundOf(m, Noded(m, v, d))
    ensures Made(m, v, Noded(m, v, d), |v.snap.nodes|, d) && NewHere(m, Noded(m, v, d), |v.snap.nodes|)
  {
    var s, vals1 := v.snap, v.vals + [NewValue(m, v, d)];
    TimelySizes(m, s, v.vals, v.equated, v.start);
    BuiltIs(m, d, v.vals, v.flow.st);
    OneMoreNode(m, s.nodes, v.vals, d.op, d.left, d.right, d.sym, v.flow.st.mem);
    ListedGrows(m, s.nodes, v.vals, s.nodes + [d], vals1, v.equated, s.forest, v.start, v.flow, v.placed, v.labels);
    assert v.flow == Run(m, s.nodes, v.vals, v.equated, s.forest, v.start);
    hide Built, Run;
    TabledNode(m, s, v.vals, v.equated, v.start, d, NewValue(m, v, d));
    hide TabledFor, AddressesKnown, Timely, Compute;
    NodedChains(m, index, location, v, d);
    NodeKeeps(s, d);
    hide ChainsOk, WidthOk, Coherent, HeldOk, Ripe, Keeps, Shaped, WellLinked;
    NodedMade(m, v, d);
  }

  lemma NodedMade(m: Machine, v: View, d: Node)
    requires Buildable(m, v, d) && Shaped(v.snap) && Shaped(AddNode(v.snap, d)) && Ripe(AddNode(v.snap, d), |v.snap.nodes|)
    requires exists nodes, start :: ListedFor(m, nodes, v.vals, v.equated, v.snap.forest, start, v.flow, v.placed, v.labels)
    requires |v.vals| == |v.snap.nodes|
    ensures Made(m, v, Noded(m, v, d), |v.snap.nodes|, d) && NewHere(m, Noded(m, v, d), |v.snap.nodes|)
  {
    ShapedParts(v.snap);
    hide Shaped, Ripe, Run, AllIn;
    GrownValues(v.vals, NewValue(m, v, d), d);
    WidthGrows(m, v.snap.nodes, d);
    hide Compute, WidthOk, ValueOf;
  }

  lemma WidthGrows(m: Machine, nodes: seq<Node>, d: Node)
    requires WidthOk(m, nodes, d) && WellFormedNode(d, |nodes|)
    ensures WidthOk(m, nodes + [d], d)
  {
  }

  lemma GrownValues(vals: seq<Val>, x: Val, d: Node)
    requires WellFormedNode(d, |vals|)
    ensures ValueOf(vals + [x], d.left) == ValueOf(vals, d.left) && ValueOf(vals + [x], d.right) == ValueOf(vals, d.right)
  {
  }

  /** A node that has just been built and is in no bucket yet. */
  ghost predicate NewHere(m: Machine, v: View, p: nat) {
    && p < |v.snap.nodes| && p < |v.vals| && p < |v.snap.born| && v.snap.born[p] == |v.snap.forest| && v.snap.floor <= p
    && !v.snap.nodes[p].op.Call? && WidthOk(m, v.snap.nodes, v.snap.nodes[p])
    && (v.flow.At? ==> v.vals[p] == Rebuild(m, v.snap.nodes, v.vals, p, v.flow.st.mem))
  }

  lemma NodedChains(m: Machine, index: Op -> nat, location: Option<Symbol> -> nat, v: View, d: Node)
    requires Shaped(v.snap) && |v.vals| == |v.snap.nodes| && WellFormedNode(d, |v.snap.nodes|)
    requires ChainsOk(m, index, location, v.snap.nodes, v.nodecount, v.chains) && SoundOf(m, v)
    ensures ChainsOk(m, index, location, v.snap.nodes + [d], v.nodecount, v.chains) && SoundOf(m, Noded(m, v, d))
  {
    MoreNodes(m, v.snap.nodes, v.vals, v.snap.nodes + [d], v.vals + [NewValue(m, v, d)], v.chains, v.flow.st.mem);
    HeldNode(v.snap, v.chains, d);
    hide Coherent, HeldOk, Shaped, Narrow, Count, HashOf, Compute, WellFormedNode;
  }

  /** A held node answers for a new one. */
  lemma HeldMade(m: Machine, index: Op -> nat, location: Option<Symbol> -> nat, v: View, p: nat)
    requires InvOf(m, index, location, v) && SoundOf(m, v) && Held(v.chains, p) && p < |v.snap.nodes|
    ensures Made(m, v, v, p, v.snap.nodes[p])
  {
    Sanity(m, index, location, v);
    HeldIsRipe(v.snap, v.chains, p);
    hide ChainsOk, ListedFor, TabledFor, HeldOk, WellLinked, AddressesKnown, Held, Shaped, Ripe;
  }

  function Inserted(v: View, i: nat, p: nat): View
    requires i < |v.chains|
  {
    v.(nodecount := v.nodecount + 1, chains := v.chains[i := [p] + v.chains[i]])
  }

  lemma InsertedInv(m: Machine, index: Op -> nat, location: Option<Symbol> -> nat, v: View, i: nat, p: nat)
    requires InvOf(m, index, location, v) && SoundOf(m, v) && NewHere(m, v, p)
    requires i < 16 && i == HashOf(index, location, v.snap.nodes[p].op, v.snap.nodes[p].sym)
    ensures |v.chains| == 16 && InvOf(m, index, location, Inserted(v, i, p)) && SoundOf(m, Inserted(v, i, p))
    ensures Held(Inserted(v, i, p).chains, p)
  {
    Sanity(m, index, location, v);
    InsertedChains(m, index, location, v.snap.nodes, v.nodecount, v.chains, i, p);
    InsertedSound(m, v.snap.nodes, v.vals, v.chains, i, p, v.flow.st.mem);
    HeldInsert(v.chains, i, p);
    hide ChainsOk, ListedFor, TabledFor, HeldOk, WellLinked, AddressesKnown, Coherent, Rebuild, Held, HashOf, Shaped;
    HeldNew(v.snap, v.chains, v.chains[i := [p] + v.chains[i]], p);
  }

  function Empty(): (c: Chains)
    ensures |c| == 16 && forall i | 0 <= i < 16 :: c[i] == []
  {
    seq(16, i => [])
  }

  function Cleared(v: View): View {
    v.(nodecount := 0, chains := Empty())
  }

  lemma ClearedInv(m: Machine, index: Op -> nat, location: Option<Symbol> -> nat, v: View)
    requires InvOf(m, index, location, v)
    ensures InvOf(m, index, location, Cleared(v)) && SoundOf(m, Cleared(v))
    ensures |v.chains| == 16 && (v.nodecount == 0 ==> v.chains == Empty())
  {
    CountZero(v.chains);
    CountZero(Empty());
    HeldNone(v.snap, Empty());
    hide ListedFor, TabledFor, WellLinked, AddressesKnown, HashOf, HeldOk;
  }

  function Rooted(m: Machine, v: View, r: Root): View
    requires |v.vals| == |v.snap.nodes| && RootIn(r, |v.snap.nodes|)
  {
    v.(snap := AddRoot(v.snap, r), flow := Exec(m, v.snap.nodes, v.vals, v.equated, r, v.flow),
       placed := v.placed + (if r.Label? then {r.lab} else {}))
  }

  lemma RootedParts(m: Machine, v: View, r: Root)
    requires |v.vals| == |v.snap.nodes| && RootIn(r, |v.snap.nodes|)
    ensures var w, s := Rooted(m, v, r), v.snap;
            w == View(Snap(s.nodes, s.born, s.forest + [r], s.floors + [s.floor], w.snap.floor),
                      v.vals, v.equated, v.labels, w.placed, v.depth, v.start, w.flow, v.nodecount, v.chains)
  {
    hide Exec;
  }

  /** Root r can be listed now. */
  ghost predicate Listable(m: Machine, v: View, r: Root) {
    && |v.vals| == |v.snap.nodes| && RootIn(r, |v.snap.nodes|) && !r.Invoke? && RootMeasured(m, v.snap.nodes, r)
    && (r.Label? ==> r.lab !in v.placed && r.lab < v.labels)
    && (r.Goto? || r.Test? ==> r.lab < v.labels)
  }

  lemma RootedInv(m: Machine, index: Op -> nat, location: Option<Symbol> -> nat, v: View, r: Root)
    requires InvOf(m, index, location, v) && Listable(m, v, r)
    ensures InvOf(m, index, location, Rooted(m, v, r))
  {
    ListedMore(m, v.snap.nodes, v.vals, v.equated, v.snap.forest, v.start, v.flow, v.placed, v.labels, r);
    TabledRoot(m, v.snap, v.vals, v.equated, v.start, r);
    hide ChainsOk, ListedFor, TabledFor, WellLinked, AddressesKnown, RootMeasured, Exec;
  }

  /** A root that writes nothing. */
  lemma QuietSound(m: Machine, v: View, r: Root)
    requires SoundOf(m, v) && Sane(v) && RootIn(r, |v.snap.nodes|) && (r.Pass? || r.Force? || r.Goto? || r.Test?)
    ensures SoundOf(m, Rooted(m, v, r)) && (r.Force? ==> Rooted(m, v, r).flow == v.flow)
  {
    QuietRoot(m, v.snap.nodes, v.vals, v.equated, r, v.flow);
    HeldRoot(v.snap, v.chains, v.chains, r);
    hide HeldOk, Coherent, Shaped, Exec, Held;
  }

  /** A root has been listed; what is in the buckets may have become less. */
  ghost predicate After(m: Machine, v0: View, v1: View, r: Root) {
    && Sane(v0) && Sane(v1) && RootIn(r, |v0.snap.nodes|)
    && v1.(nodecount := v0.nodecount, chains := v0.chains) == Rooted(m, v0, r)
  }

  lemma AfterGrew(m: Machine, v0: View, v1: View, r: Root)
    requires After(m, v0, v1, r) && !r.Label?
    ensures Grew(v0, v1) && v1.snap == AddRoot(v0.snap, r) && v1.vals == v0.vals
    ensures v1.labels == v0.labels && v1.placed == v0.placed
    ensures v1.flow == Exec(m, v0.snap.nodes, v0.vals, v0.equated, r, v0.flow)
  {
    hide Shaped, Exec;
  }

  function Invoked(m: Machine, v: View, d: Node): View
    requires |v.vals| == |v.snap.nodes|
  {
    var x := m.callee(ValueOf(v.vals, d.left), v.flow.st);
    v.(snap := AddCall(v.snap, d), vals := v.vals + [x.1], flow := if v.flow.At? then At(x.0) else v.flow)
  }

  lemma {:induction false} ListedFlow(m: Machine, nodes: seq<Node>, vals: seq<Val>, equated: map<nat, nat>, forest: seq<Root>, start: Flow,
                   flow: Flow, placed: set<nat>, labels: nat)
    requires ListedFor(m, nodes, vals, equated, forest, start, flow, placed, labels)
    ensures |vals| == |nodes| && AllIn(forest, |nodes|) && flow == Run(m, nodes, vals, equated, forest, start)
  {
  }

  lemma InvParts(m: Machine, index: Op -> nat, location: Option<Symbol> -> nat, v: View)
    requires InvOf(m, index, location, v)
    ensures |v.vals| == |v.snap.nodes| && WellLinked(v.snap.nodes) && AddressesKnown(m, v.snap.nodes, v.vals)
    ensures ChainsOk(m, index, location, v.snap.nodes, v.nodecount, v.chains)
    ensures ListedFor(m, v.snap.nodes, v.vals, v.equated, v.snap.forest, v.start, v.flow, v.placed, v.labels)
    ensures TabledFor(m, v.snap, v.vals, v.equated, v.start)
  {
  }

  lemma InvWhole(m: Machine, index: Op -> nat, location: Option<Symbol> -> nat, v: View)
    requires |v.vals| == |v.snap.nodes| && WellLinked(v.snap.nodes) && AddressesKnown(m, v.snap.nodes, v.vals)
    requires ChainsOk(m, index, location, v.snap.nodes, v.nodecount, v.chains)
    requires ListedFor(m, v.snap.nodes, v.vals, v.equated, v.snap.forest, v.start, v.flow, v.placed, v.labels)
    requires TabledFor(m, v.snap, v.vals, v.equated, v.start)
    ensures InvOf(m, index, location, v)
  {
  }

  lemma InvokeIn(p: nat, n: nat)
    requires p < n
    ensures RootIn(Invoke(p), n)
  {
  }

  lemma InvokedFlow(m: Machine, v: View, d: Node)
    requires |v.vals| == |v.snap.nodes|
    ensures var x := m.callee(ValueOf(v.vals, d.left), v.flow.st);
            && Invoked(m, v, d).flow == (if v.flow.At? then At(x.0) else v.flow)
            && Invoked(m, v, d).vals == v.vals + [x.1] && Invoked(m, v, d).snap == AddCall(v.snap, d)
  {
  }

  /** A node that is not yet in a bucket. */
  lemma ChainsGrow(m: Machine, index: Op -> nat, location: Option<Symbol> -> nat, nodes: seq<Node>, vals: seq<Val>, d: Node, v: Val,
                   nodecount: nat, chains: Chains)
    requires |nodes| == |vals| && WellLinked(nodes) && ChainsOk(m, index, location, nodes, nodecount, chains)
    ensures ChainsOk(m, index, location, nodes + [d], nodecount, chains)
  {
    MoreNodes(m, nodes, vals, nodes + [d], vals + [v], chains, x => 0);
    hide WellLinked, Coherent, Narrow, Count, HashOf;
  }

  lemma InvokedInv(m: Machine, index: Op -> nat, location: Option<Symbol> -> nat, v: View, d: Node)
    requires InvOf(m, index, location, v) && WellFormedNode(d, |v.snap.nodes|) && d.op.Call?
    ensures |v.vals| == |v.snap.nodes| && InvOf(m, index, location, Invoked(m, v, d))
  {
    var s, vals1, p := v.snap, v.vals + [m.callee(ValueOf(v.vals, d.left), v.flow.st).1], |v.snap.nodes|;
    ListedFlow(m, s.nodes, v.vals, v.equated, s.forest, v.start, v.flow, v.placed, v.labels);
    hide *;
    InvParts(m, index, location, v);
    InvokedParts(m, v, d);
    InvokedFlow(m, v, d);
    CallFlow(m, s.nodes, v.vals, d, vals1[p], v.equated, v.flow);
    OneMoreCall(m, s.nodes, v.vals, d, vals1[p]);
    TabledCall(m, s, v.vals, v.equated, v.start, d, vals1[p]);
    ListedGrows(m, s.nodes, v.vals, s.nodes + [d], vals1, v.equated, s.forest, v.start, v.flow, v.placed, v.labels);
    InvokeIn(p, |s.nodes + [d]|);
    ListedMore(m, s.nodes + [d], vals1, v.equated, s.forest, v.start, v.flow, v.placed, v.labels, Invoke(p));
    ChainsGrow(m, index, location, s.nodes, v.vals, d, vals1[p], v.nodecount, v.chains);
    InvWhole(m, index, location, Invoked(m, v, d));
  }

  /** A call has been listed. */
  ghost predicate Called(m: Machine, v0: View, v1: View, d: Node) {
    && Sane(v0) && Sane(v1) && v1.(nodecount := v0.nodecount, chains := v0.chains) == Invoked(m, v0, d)
  }

  lemma InvokedParts(m: Machine, v: View, d: Node)
    requires |v.vals| == |v.snap.nodes|
    ensures var w, s := Invoked(m, v, d), v.snap;
            && |w.vals| == |v.vals| + 1 && w.vals == v.vals + [w.vals[|v.vals|]]
            && w == View(Snap(s.nodes + [d], s.born + [|s.forest|], s.forest + [Invoke(|s.nodes|)], s.floors + [s.floor], s.floor),
                      w.vals, v.equated, v.labels, v.placed, v.depth, v.start, w.flow, v.nodecount, v.chains)
  {
  }

  lemma CalledCleared(m: Machine, index: Op -> nat, location: Option<Symbol> -> nat, v: View, w: View, d: Node)
    requires InvOf(m, index, location, v) && InvOf(m, index, location, w) && |v.vals| == |v.snap.nodes| && w == Cleared(Invoked(m, v, d))
    ensures Called(m, v, w, d)
  {
    Sanity(m, index, location, v);
    Sanity(m, index, location, w);
    hide InvOf, Sane, ValueOf;
  }

  /** Label lab has been placed. */
  ghost predicate Placed(v0: View, v1: View, lab: nat) {
    && Sane(v0) && Sane(v1) && v1.snap.nodes == v0.snap.nodes && v1.vals == v0.vals
    && v1.labels == v0.labels && v1.placed == v0.placed + {lab} && v1.depth == v0.depth && v1.start == v0.start
    && v1.flow == Landed(v0.flow, lab) && Handed(v0.snap, v1.snap, {Join}, {}, true, None)
  }

  /** The list ends with a label: the new one is equated with it. */
  function Equated(v: View, lab: nat): View
    requires |v.snap.forest| > 0 && v.snap.forest[|v.snap.forest| - 1].Label?
  {
    v.(snap := Late.Landing(v.snap), equated := v.equated[lab := v.snap.forest[|v.snap.forest| - 1].lab],
       placed := v.placed + {lab}, flow := Landed(v.flow, lab))
  }

  lemma EquatedInv(m: Machine, index: Op -> nat, location: Option<Symbol> -> nat, v: View, lab: nat)
    requires InvOf(m, index, location, v) && lab !in v.placed && lab < v.labels
    requires |v.snap.forest| > 0 && v.snap.forest[|v.snap.forest| - 1].Label?
    ensures InvOf(m, index, location, Equated(v, lab)) && Placed(v, Cleared(Equated(v, lab)), lab)
  {
    Sanity(m, index, location, v);
    ListedEquated(m, v.snap.nodes, v.vals, v.equated, v.snap.forest, v.start, v.flow, v.placed, v.labels, lab);
    TabledLanding(m, v.snap, v.vals, v.equated, v.start, lab);
    LandingKeeps(v.snap);
    hide ChainsOk, ListedFor, TabledFor, WellLinked, AddressesKnown, Keeps, Calm, Shaped, NoLabel;
  }

  lemma LabelledInv(m: Machine, index: Op -> nat, location: Option<Symbol> -> nat, v: View, lab: nat)
    requires InvOf(m, index, location, v) && lab !in v.placed && lab < v.labels
    ensures Listable(m, v, Label(lab)) && Placed(v, Cleared(Rooted(m, v, Label(lab))), lab)
  {
    Sanity(m, index, location, v);
    LabelKeeps(v.snap, lab);
    RootShaped(v.snap, Label(lab));
    LabelLands(m, v.snap.nodes, v.vals, v.equated, v.snap.forest, v.start, v.flow, v.placed, v.labels, lab);
    hide ChainsOk, ListedFor, TabledFor, WellLinked, AddressesKnown, Handed, Shaped, Exec;
  }

  lemma LabelsInv(m: Machine, index: Op -> nat, location: Option<Symbol> -> nat, v: View, n: nat)
    requires InvOf(m, index, location, v)
    ensures InvOf(m, index, location, v.(labels := v.labels + n))
  {
    ListedLabels(m, v.snap.nodes, v.vals, v.equated, v.snap.forest, v.start, v.flow, v.placed, v.labels, v.labels + n);
    hide ChainsOk, ListedFor, TabledFor, WellLinked, AddressesKnown;
  }

  /** `killnodes(p)`: loads that a store through p may change are gone from the buckets. */
  ghost predicate KilledIn(v0: View, v1: View, p: Symbol) {
    && |v0.chains| == |v1.chains| == 16 && v1.(nodecount := v0.nodecount, chains := v0.chains) == v0
    && forall i | 0 <= i < 16 :: v1.chains[i] == Survivors(v0.snap.nodes, v0.chains[i], p)
  }

  lemma KilledInv(m: Machine, index: Op -> nat, location: Option<Symbol> -> nat, v0: View, v1: View, p: Symbol)
    requires InvOf(m, index, location, v0) && KilledIn(v0, v1, p) && v1.nodecount == Count(v1.chains)
    ensures InvOf(m, index, location, v1)
  {
    hide ListedFor, TabledFor, WellLinked, AddressesKnown, HashOf, Count, Survivors;
    SurvivorsOk(m, index, location, v0.snap.nodes, v0.nodecount, v1.nodecount, v0.chains, v1.chains, p);
  }

  /** An assignment can be listed now; t is the tree of its target. */
  ghost predicate Storable(m: Machine, v: View, t: Tree, l: nat, r: nat, size: nat) {
    && Separated(m) && l < |v.snap.nodes| && r < |v.snap.nodes| && Fits(m, size, t)
    && (v.snap.nodes[l].op.Addr? ==> Final(t) == v.snap.nodes[l].sym) && (t.TAddr? ==> v.snap.nodes[l].op.Addr?)
  }

  lemma StoreListable(m: Machine, v: View, t: Tree, l: nat, r: nat, size: nat)
    requires Storable(m, v, t, l, r, size) && |v.vals| == |v.snap.nodes|
    ensures Listable(m, v, Assign(l, r, size)) && Within(v.snap.nodes, Assign(l, r, size), {Write(TargetOf(t))})
  {
    hide Separated;
  }

  /** What survives `killnodes` is good in the new store. */
  lemma StoredSound(m: Machine, index: Op -> nat, location: Option<Symbol> -> nat, v0: View, v1: View, v2: View, t: Tree, l: nat, r: nat, size: nat)
    requires InvOf(m, index, location, v0) && SoundOf(m, v0) && Storable(m, v0, t, l, r, size) && TargetOf(t).Some?
    requires |v0.vals| == |v0.snap.nodes| && v1 == Rooted(m, v0, Assign(l, r, size)) && KilledIn(v1, v2, t.sym)
    ensures SoundOf(m, v2)
  {
    hide ListedFor, TabledFor, HashOf, Count, Survivors, Coherent, Separated, HeldOk;
    var p := t.sym;
    HeldKept(v0.snap.nodes, v0.chains, v2.chains, p);
    HeldStored(v0.snap, v0.chains, v2.chains, p, l, r, size);
    assert Narrow(m, v0.snap.nodes, v0.chains);
    assert v0.flow.At? ==> v2.flow.st.mem == Update(v0.flow.st.mem, First(v0.vals[l]), v0.vals[r], size);
    hide Held, ChainsOk, Narrow;
    if v0.flow.At? {
      assert v0.vals[l] == [m.layout(p)];
      KillSeparated(m, v0.snap.nodes, v0.vals, v0.chains, v2.chains, p, v0.vals[r], size, v0.flow.st.mem);
    }
  }

  // ----- what listing a tree does, tree by tree -----

  /** The tree can be listed with these labels. */
  ghost predicate Can(m: Machine, t: Tree, tlab: nat, flab: nat, labels: nat) {
    Separated(m) && TreeOk(m, t) && Usable(t, tlab, flab) && tlab < labels && flab < labels
  }

  lemma CanMore(m: Machine, t: Tree, tlab: nat, flab: nat, labels: nat, more: nat)
    requires Can(m, t, tlab, flab, labels) && labels <= more
    ensures Can(m, t, tlab, flab, more)
  {
  }

  lemma CanOne(m: Machine, t: Tree, tlab: nat, flab: nat, labels: nat, more: nat)
    requires Can(m, t, tlab, flab, labels) && labels <= more
    ensures match t
            case TIndir(_, _, a) => Can(m, a, 0, 0, more) && Yields(a)
            case TConvert(_, _, k) => Can(m, k, 0, 0, more) && Yields(k)
            case TUnary(_, _, k) => Can(m, k, 0, 0, more) && Yields(k)
            case TNot(k) => Can(m, k, flab, tlab, more)
            case _ => true
    ensures t.TIndir? || t.TConvert? || t.TUnary? || t.TNone? || t.TAddr? ==> tlab == 0 && flab == 0
  {
    hide Separated, Fits;
  }

  lemma CanTwo(m: Machine, t: Tree, tlab: nat, flab: nat, labels: nat, more: nat)
    requires Can(m, t, tlab, flab, labels) && labels <= more
    ensures match t
            case TBinary(_, _, l, r) => Can(m, l, 0, 0, more) && Can(m, r, 0, 0, more) && Yields(l) && Yields(r)
            case TAsgn(_, l, r) => Can(m, l, 0, 0, more) && Can(m, r, 0, 0, more) && Yields(l) && Yields(r)
            case TPost(_, l, r) => Can(m, l, 0, 0, more) && Can(m, r, 0, 0, more) && Yields(l) && Yields(r)
            case _ => true
    ensures t.TBinary? || t.TAsgn? || t.TPost? ==> tlab == 0 && flab == 0
  {
    hide Separated, Fits;
  }

  lemma CanMixed(m: Machine, t: Tree, tlab: nat, flab: nat, labels: nat, more: nat)
    requires Can(m, t, tlab, flab, labels) && labels <= more
    ensures match t
            case TCall(_, l, r) => Can(m, l, 0, 0, more) && Can(m, r, 0, 0, more) && Yields(l)
            case TArg(e, before) => Can(m, e, 0, 0, more) && Can(m, before, 0, 0, more) && Yields(e)
            case TRight(l, r) => if r.TNone? then Can(m, l, tlab, flab, more) else Can(m, l, 0, 0, more) && Can(m, r, tlab, flab, more)
            case TCompare(_, l, r) => Can(m, l, 0, 0, more) && Can(m, r, 0, 0, more) && Yields(l) && Yields(r) && (tlab != 0 || flab != 0)
            case _ => true
    ensures t.TCall? || t.TArg? ==> tlab == 0 && flab == 0
  {
    hide Separated, Fits;
  }

  /** The node a tree is answered with: it holds the tree's value, it is an address node only for
      the symbol the tree hands up, and for pure trees recomputing it from scratch in the current
      store gives the same value. */
  ghost predicate Answer(m: Machine, t: Tree, v0: View, v1: View, p: Option<nat>) {
    && p.Some? && p.value < |v1.snap.nodes| && p.value < |v1.vals|
    && (v0.flow.At? ==> v1.vals[p.value] == Value(m, t, v0.flow.st).0)
    && (v1.snap.nodes[p.value].op.Addr? ==> Final(t) == v1.snap.nodes[p.value].sym)
    && (t.TAddr? ==> v1.snap.nodes[p.value].op.Addr?)
    && (Pure(t) && v0.flow.At? ==> Scratch(m, v1.snap.nodes, p.value, v1.flow.st.mem) == v1.vals[p.value])
  }

  ghost predicate Meant(m: Machine, t: Tree, tlab: nat, flab: nat, v0: View, v1: View, p: Option<nat>) {
    && Grew(v0, v1) && v1.flow == Meaning(m, t, tlab, flab, v0.flow)
    && (p.Some? ==> p.value < |v1.snap.nodes|)
    && (tlab == 0 && flab == 0 && Yields(t) ==> Answer(m, t, v0, v1, p))
  }

  /** What the tree does to nodes that wait, and what it leaves waiting. */
  ghost predicate Kept(t: Tree, v0: View, v1: View, p: Option<nat>) {
    Handed(v0.snap, v1.snap, Writes(t), Pending(t), Steady(t), p)
  }

  /** The tree has been listed, and p is what `listnodes` answers. */
  ghost predicate Done(m: Machine, t: Tree, tlab: nat, flab: nat, v0: View, v1: View, p: Option<nat>) {
    Meant(m, t, tlab, flab, v0, v1, p) && Kept(t, v0, v1, p)
  }

  lemma {:induction false} DoneGrew(m: Machine, t: Tree, tlab: nat, flab: nat, v0: View, v1: View, p: Option<nat>)
    requires Done(m, t, tlab, flab, v0, v1, p)
    ensures Grew(v0, v1) && Sane(v0) && Sane(v1) && v0.labels <= v1.labels && v1.depth == v0.depth && v1.start == v0.start
    ensures p.Some? ==> p.value < |v1.snap.nodes|
    ensures tlab == 0 && flab == 0 && Yields(t) ==> p.Some?
    ensures |v0.vals| == |v0.snap.nodes| <= |v1.snap.nodes| == |v1.vals|
  {
    hide Kept, Shaped, Meaning, Value, Scratch;
  }

  /** The run after a tree that is listed without labels. */
  lemma {:induction false} DoneFlow(m: Machine, t: Tree, v0: View, v1: View, p: Option<nat>)
    requires Done(m, t, 0, 0, v0, v1, p)
    ensures v1.flow == if v0.flow.At? then At(Value(m, t, v0.flow.st).1) else v0.flow
  {
    hide Kept, Grew, Value, Answer;
  }

  lemma NoneDone(m: Machine, v: View)
    requires Sane(v)
    ensures Done(m, TNone, 0, 0, v, v, None)
  {
    HandedNone(v.snap);
    hide Handed, Shaped;
  }

  /** A constant condition that does not jump. */
  lemma FallsDone(m: Machine, t: Tree, tlab: nat, flab: nat, v: View)
    requires Sane(v) && t.TCnst? && (tlab != 0 || flab != 0)
    requires tlab != 0 ==> t.value == 0
    requires tlab == 0 && flab != 0 ==> t.value != 0
    ensures Done(m, t, tlab, flab, v, v, None)
  {
    HandedNone(v.snap);
    hide Handed, Shaped;
  }

  function LeafNode(t: Tree): Node
    requires t.TAddr? || t.TCnst?
  {
    if t.TAddr? then Node(Addr(t.kind), None, None, Some(t.sym)) else Node(Cnst(t.size), None, None, Some(Constant(t.size, t.value)))
  }

  lemma LeafDone(m: Machine, t: Tree, v0: View, v1: View, n: nat)
    requires (t.TAddr? || t.TCnst?) && Made(m, v0, v1, n, LeafNode(t))
    ensures Done(m, t, 0, 0, v0, v1, Some(n))
  {
    HandedLeaf(v0.snap, v1.snap, n, LeafNode(t));
    hide Handed, Shaped, Got;
  }

  function UnaryNode(t: Tree, k: nat): Node
    requires t.TUnary? || t.TConvert?
  {
    if t.TUnary? then Node(Unary(t.unary, t.size), Some(k), None, None) else Node(Convert(t.size), Some(k), None, ConstantOf(1, t.from))
  }

  lemma UnaryDone(m: Machine, t: Tree, v0: View, v1: View, v2: View, k: nat, n: nat)
    requires (t.TUnary? || t.TConvert?) && Yields(t.kid)
    requires Done(m, t.kid, 0, 0, v0, v1, Some(k)) && Made(m, v1, v2, n, UnaryNode(t, k))
    ensures Done(m, t, 0, 0, v0, v2, Some(n))
  {
    GrewThen(v0, v1, v2);
    DoneFlow(m, t.kid, v0, v1, Some(k));
    ScratchGrows(m, v1.snap.nodes, v2.snap.nodes, k, v1.flow.st.mem);
    assert ValueOf(v1.vals, Some(k)) == v1.vals[k] == v2.vals[k];
    hide Shaped, ValueOf, Keeps, Calm, Fresh, Covered;
    if t.TUnary? {
      assert Value(m, t, v0.flow.st).1 == Value(m, t.kid, v0.flow.st).1;
    }
    UnaryKept(m, t, v0, v1, v2, k, n);
    hide Handed, Got;
  }

  lemma UnaryKept(m: Machine, t: Tree, v0: View, v1: View, v2: View, k: nat, n: nat)
    requires (t.TUnary? || t.TConvert?) && Sane(v0) && Sane(v1) && k < |v1.snap.nodes| && Kept(t.kid, v0, v1, Some(k))
    requires Got(v1.snap, v2.snap, n, UnaryNode(t, k))
    ensures Kept(t, v0, v2, Some(n))
  {
    hide Shaped, Handed, Got;
    HandedUnary(v0.snap, v1.snap, v2.snap, Writes(t.kid), Pending(t.kid), Pending(t.kid), Steady(t.kid), k, n, UnaryNode(t, k));
  }

  lemma BinaryDone(m: Machine, t: Tree, v0: View, v1: View, v2: View, v3: View, l: nat, r: nat, n: nat)
    requires t.TBinary? && Yields(t.left) && Yields(t.right)
    requires Done(m, t.left, 0, 0, v0, v1, Some(l)) && Done(m, t.right, 0, 0, v1, v2, Some(r))
    requires Made(m, v2, v3, n, Node(Binary(t.binary, t.size), Some(l), Some(r), None))
    ensures Done(m, t, 0, 0, v0, v3, Some(n))
  {
    DoneFlow(m, t.left, v0, v1, Some(l));
    DoneFlow(m, t.right, v1, v2, Some(r));
    BinaryKept(m, t, v0, v1, v2, v3, l, r, n);
    hide Kept, Got, Shaped;
    GrewThen(v0, v1, v2);
    GrewThen(v0, v2, v3);
    BinaryAnswer(m, t, v0, v1, v2, v3, l, r, n);
    hide Answer;
  }

  lemma {:induction false} BinaryAnswer(m: Machine, t: Tree, v0: View, v1: View, v2: View, v3: View, l: nat, r: nat, n: nat)
    requires t.TBinary? && Answer(m, t.left, v0, v1, Some(l)) && Answer(m, t.right, v1, v2, Some(r))
    requires Grew(v1, v2) && Made(m, v2, v3, n, Node(Binary(t.binary, t.size), Some(l), Some(r), None))
    requires v0.flow.At? ==> v1.flow == At(Value(m, t.left, v0.flow.st).1)
    requires v1.flow.At? ==> v2.flow == At(Value(m, t.right, v1.flow.st).1)
    ensures Answer(m, t, v0, v3, Some(n))
  {
    ScratchGrows(m, v1.snap.nodes, v3.snap.nodes, l, v1.flow.st.mem);
    ScratchGrows(m, v2.snap.nodes, v3.snap.nodes, r, v2.flow.st.mem);
    ShapedParts(v2.snap);
    assert ValueOf(v2.vals, Some(l)) == v1.vals[l] && ValueOf(v2.vals, Some(r)) == v2.vals[r];
    hide Shaped, Got, ValueOf, WellLinked;
    if Pure(t) && v0.flow.At? {
      PureKeepsStore(m, t.left, v0.flow.st);
      PureKeepsStore(m, t.right, v0.flow.st);
      assert l < n && r < n by { BelowMade(v2.snap, v3.snap, n, Node(Binary(t.binary, t.size), Some(l), Some(r), None)); }
    }
  }

  lemma BelowMade(s0: Snap, s1: Snap, n: nat, d: Node)
    requires Got(s0, s1, n, d) && Shaped(s0) && (d.left.Some? ==> d.left.value < |s0.nodes|) && (d.right.Some? ==> d.right.value < |s0.nodes|)
    requires Shaped(s1)
    ensures (d.left.Some? ==> d.left.value < n) && (d.right.Some? ==> d.right.value < n)
  {
    ShapedParts(s1);
    hide Ripe, Shaped;
    assert WellFormedNode(s1.nodes[n], n);
  }

  lemma BinaryKept(m: Machine, t: Tree, v0: View, v1: View, v2: View, v3: View, l: nat, r: nat, n: nat)
    requires t.TBinary? && Done(m, t.left, 0, 0, v0, v1, Some(l)) && Done(m, t.right, 0, 0, v1, v2, Some(r))
    requires Made(m, v2, v3, n, Node(Binary(t.binary, t.size), Some(l), Some(r), None))
    ensures Kept(t, v0, v3, Some(n))
  {
    DoneGrew(m, t.left, 0, 0, v0, v1, Some(l));
    DoneGrew(m, t.right, 0, 0, v1, v2, Some(r));
    hide Meant, Handed, Got, Shaped, NewValue;
    TwoOperands(v0.snap, v1.snap, v2.snap, Writes(t.left), Pending(t.left), Steady(t.left), l, Writes(t.right), Pending(t.right), Steady(t.right), r);
    HandedBinary(v0.snap, v2.snap, v3.snap, Writes(t.left) + Writes(t.right), Pending(t.left), Pending(t.right), Steady(t), l, r, n,
                 Node(Binary(t.binary, t.size), Some(l), Some(r), None));
  }

  /** A load is as wide as its symbol allows. */
  lemma IndirBuildable(m: Machine, t: Tree, labels: nat, v0: View, v1: View, l: nat)
    requires t.TIndir? && Can(m, t, 0, 0, labels) && Done(m, t.addr, 0, 0, v0, v1, Some(l))
    ensures Buildable(m, v1, Node(Indir(t.size), Some(l), None, None))
  {
    hide Kept, Shaped, Separated, Scratch, Value;
  }

  lemma IndirDone(m: Machine, t: Tree, v0: View, v1: View, v2: View, l: nat, n: nat)
    requires t.TIndir? && Yields(t.addr) && Done(m, t.addr, 0, 0, v0, v1, Some(l)) && Made(m, v1, v2, n, Node(Indir(t.size), Some(l), None, None))
    ensures Done(m, t, 0, 0, v0, v2, Some(n))
  {
    DoneFlow(m, t.addr, v0, v1, Some(l));
    IndirKept(m, t, v0, v1, v2, l, n);
    hide Kept, Shaped;
    GrewThen(v0, v1, v2);
    ScratchGrows(m, v1.snap.nodes, v2.snap.nodes, l, v1.flow.st.mem);
    BelowMade(v1.snap, v2.snap, n, Node(Indir(t.size), Some(l), None, None));
    assert ValueOf(v1.vals, Some(l)) == v1.vals[l] == v2.vals[l];
    hide Got, ValueOf;
    if Pure(t) && v0.flow.At? {
      PureKeepsStore(m, t.addr, v0.flow.st);
    }
  }

  lemma IndirKept(m: Machine, t: Tree, v0: View, v1: View, v2: View, l: nat, n: nat)
    requires t.TIndir? && Yields(t.addr) && Done(m, t.addr, 0, 0, v0, v1, Some(l)) && Made(m, v1, v2, n, Node(Indir(t.size), Some(l), None, None))
    ensures Kept(t, v0, v2, Some(n))
  {
    assert Pending(t.addr) <= Pending(t);
    hide Shaped, Handed, Got, NewValue, Value, Scratch;
    HandedUnary(v0.snap, v1.snap, v2.snap, Writes(t.addr), Pending(t.addr), Pending(t), Steady(t.addr), l, n, Node(Indir(t.size), Some(l), None, None));
  }

  lemma AsgnStorable(m: Machine, t: Tree, labels: nat, v0: View, v1: View, v2: View, l: nat, r: nat)
    requires (t.TAsgn? || t.TPost?) && Can(m, t, 0, 0, labels) && Done(m, t.target, 0, 0, v0, v1, Some(l)) && l < |v1.snap.nodes|
    requires v1.snap.nodes <= v2.snap.nodes && r < |v2.snap.nodes|
    ensures Storable(m, v2, t.target, l, r, t.size)
  {
    hide Kept, Shaped, Separated, Scratch, Value;
  }

  lemma AsgnDone(m: Machine, t: Tree, v0: View, v1: View, v2: View, v3: View, l: nat, r: nat)
    requires t.TAsgn? && Yields(t.target) && Yields(t.source)
    requires Done(m, t.target, 0, 0, v0, v1, Some(l)) && Done(m, t.source, 0, 0, v1, v2, Some(r))
    requires Storable(m, v2, t.target, l, r, t.size) && After(m, v2, v3, Assign(l, r, t.size))
    ensures Done(m, t, 0, 0, v0, v3, Some(r))
  {
    DoneFlow(m, t.target, v0, v1, Some(l));
    DoneFlow(m, t.source, v1, v2, Some(r));
    AfterGrew(m, v2, v3, Assign(l, r, t.size));
    AsgnKept(m, t, v0, v1, v2, v3, l, r);
    hide Kept, Shaped, Scratch, Rooted, AddRoot, Storable, After;
    GrewThen(v0, v1, v2);
    GrewThen(v0, v2, v3);
  }

  lemma AsgnKept(m: Machine, t: Tree, v0: View, v1: View, v2: View, v3: View, l: nat, r: nat)
    requires t.TAsgn? && Done(m, t.target, 0, 0, v0, v1, Some(l)) && Done(m, t.source, 0, 0, v1, v2, Some(r))
    requires Storable(m, v2, t.target, l, r, t.size) && After(m, v2, v3, Assign(l, r, t.size))
    ensures Kept(t, v0, v3, Some(r))
  {
    DoneGrew(m, t.target, 0, 0, v0, v1, Some(l));
    DoneGrew(m, t.source, 0, 0, v1, v2, Some(r));
    StoreListable(m, v2, t.target, l, r, t.size);
    AfterGrew(m, v2, v3, Assign(l, r, t.size));
    hide Meant, Handed, Shaped, Within, AddRoot, Storable, After, Listable;
    HandedTwo(v0.snap, v1.snap, v2.snap, Writes(t.target), Pending(t.target), Steady(t.target), l,
              Writes(t.source), Pending(t.source), Steady(t.source), r, Assign(l, r, t.size), {Write(TargetOf(t.target))});
  }

  /** The loaded value, the forced load, the new value, the store. */
  lemma PostDone(m: Machine, t: Tree, v0: View, v1: View, v2: View, v3: View, v4: View, v5: View, l: nat, n: nat, r: nat)
    requires t.TPost? && Yields(t.target) && Yields(t.source) && Done(m, t.target, 0, 0, v0, v1, Some(l))
    requires Made(m, v1, v2, n, Node(Indir(t.size), Some(l), None, None))
    requires After(m, v2, v3, Force(n)) || (v3 == v2 && Force(n) in v2.snap.forest)
    requires Done(m, t.source, 0, 0, v3, v4, Some(r))
    requires Storable(m, v4, t.target, l, r, t.size) && After(m, v4, v5, Assign(l, r, t.size))
    ensures Done(m, t, 0, 0, v0, v5, Some(n))
  {
    DoneFlow(m, t.target, v0, v1, Some(l));
    DoneFlow(m, t.source, v3, v4, Some(r));
    if v3 != v2 {
      AfterGrew(m, v2, v3, Force(n));
    }
    AfterGrew(m, v4, v5, Assign(l, r, t.size));
    PostKept(m, t, v0, v1, v2, v3, v4, v5, l, n, r);
    PostGrew(m, t, v0, v1, v2, v3, v4, v5, l, n, r);
    assert v3.flow == v1.flow && v3.vals == v2.vals && v3.snap.nodes == v2.snap.nodes;
    assert v1.vals[l] == v4.vals[l];
    hide Kept, Shaped, Scratch, Rooted, AddRoot, Storable, After, Got, Grew;
  }

  lemma PostGrew(m: Machine, t: Tree, v0: View, v1: View, v2: View, v3: View, v4: View, v5: View, l: nat, n: nat, r: nat)
    requires t.TPost? && Done(m, t.target, 0, 0, v0, v1, Some(l))
    requires Made(m, v1, v2, n, Node(Indir(t.size), Some(l), None, None))
    requires After(m, v2, v3, Force(n)) || v3 == v2
    requires Done(m, t.source, 0, 0, v3, v4, Some(r)) && After(m, v4, v5, Assign(l, r, t.size))
    ensures Grew(v0, v5)
  {
    DoneGrew(m, t.target, 0, 0, v0, v1, Some(l));
    DoneGrew(m, t.source, 0, 0, v3, v4, Some(r));
    assert Grew(v1, v2);
    hide Done, Shaped, Got, Grew, Made;
    if v3 != v2 {
      AfterGrew(m, v2, v3, Force(n));
      GrewThen(v1, v2, v3);
    }
    AfterGrew(m, v4, v5, Assign(l, r, t.size));
    GrewThen(v0, v1, v3);
    GrewThen(v0, v3, v4);
    GrewThen(v0, v4, v5);
  }

  lemma PostKept(m: Machine, t: Tree, v0: View, v1: View, v2: View, v3: View, v4: View, v5: View, l: nat, n: nat, r: nat)
    requires t.TPost? && Done(m, t.target, 0, 0, v0, v1, Some(l))
    requires Made(m, v1, v2, n, Node(Indir(t.size), Some(l), None, None))
    requires After(m, v2, v3, Force(n)) || (v3 == v2 && Force(n) in v2.snap.forest)
    requires Done(m, t.source, 0, 0, v3, v4, Some(r))
    requires Storable(m, v4, t.target, l, r, t.size) && After(m, v4, v5, Assign(l, r, t.size))
    ensures Kept(t, v0, v5, Some(n))
  {
    DoneGrew(m, t.target, 0, 0, v0, v1, Some(l));
    DoneGrew(m, t.source, 0, 0, v3, v4, Some(r));
    StoreListable(m, v4, t.target, l, r, t.size);
    AfterGrew(m, v4, v5, Assign(l, r, t.size));
    assert v3 != v2 ==> v3.snap == AddRoot(v2.snap, Force(n)) by {
      if v3 != v2 { AfterGrew(m, v2, v3, Force(n)); }
    }
    hide Meant, Handed, Shaped, Within, AddRoot, Storable, After, Listable, Got, NewValue;
    HandedPost(v0.snap, v1.snap, v2.snap, v3.snap, v4.snap, Writes(t.target), Pending(t.target), Steady(t.target), l, n,
               Node(Indir(t.size), Some(l), None, None), Writes(t.source), Pending(t.source), Steady(t.source), r, t.size,
               {Write(TargetOf(t.target))});
  }

  lemma CallDone(m: Machine, t: Tree, v0: View, v1: View, v2: View, v3: View, l: nat, r: Option<nat>)
    requires t.TCall? && Yields(t.func) && Done(m, t.func, 0, 0, v0, v1, Some(l)) && Done(m, t.args, 0, 0, v1, v2, r)
    requires |v2.vals| == |v2.snap.nodes| && Called(m, v2, v3, Node(Call(t.size), Some(l), r, None))
    ensures Done(m, t, 0, 0, v0, v3, Some(|v2.snap.nodes|))
  {
    DoneFlow(m, t.func, v0, v1, Some(l));
    DoneFlow(m, t.args, v1, v2, r);
    CallKept(m, t, v0, v1, v2, v3, l, r);
    assert Grew(v2, v3);
    GrewThen(v0, v1, v2);
    GrewThen(v0, v2, v3);
    assert ValueOf(v2.vals, Some(l)) == v1.vals[l];
    hide Kept, Shaped, Scratch, Grew, ValueOf;
  }

  lemma CallKept(m: Machine, t: Tree, v0: View, v1: View, v2: View, v3: View, l: nat, r: Option<nat>)
    requires t.TCall? && Done(m, t.func, 0, 0, v0, v1, Some(l)) && Done(m, t.args, 0, 0, v1, v2, r)
    requires |v2.vals| == |v2.snap.nodes| && Called(m, v2, v3, Node(Call(t.size), Some(l), r, None))
    ensures Kept(t, v0, v3, Some(|v2.snap.nodes|))
  {
    DoneGrew(m, t.func, 0, 0, v0, v1, Some(l));
    DoneGrew(m, t.args, 0, 0, v1, v2, r);
    hide Meant, Handed, Shaped, ValueOf;
    HandedCall(v0.snap, v1.snap, v2.snap, Writes(t.func), Pending(t.func), Steady(t.func), l,
               Writes(t.args), Pending(t.args), Steady(t.args), Node(Call(t.size), Some(l), r, None));
  }

  lemma ArgDone(m: Machine, t: Tree, v0: View, v1: View, v2: View, v3: View, q: Option<nat>, l: nat)
    requires t.TArg? && Yields(t.arg) && Done(m, t.before, 0, 0, v0, v1, q) && Done(m, t.arg, 0, 0, v1, v2, Some(l))
    requires After(m, v2, v3, Pass(l))
    ensures Done(m, t, 0, 0, v0, v3, None)
  {
    DoneFlow(m, t.before, v0, v1, q);
    DoneFlow(m, t.arg, v1, v2, Some(l));
    AfterGrew(m, v2, v3, Pass(l));
    GrewThen(v0, v1, v2);
    GrewThen(v0, v2, v3);
    HandedOne(v1.snap, v2.snap, Pass(l), l, Writes(t.arg), Pending(t.arg), Steady(t.arg));
    HandedThen(v0.snap, v1.snap, v3.snap, Writes(t.before), Pending(t.before), Steady(t.before), q, Writes(t.arg), {}, Steady(t.arg), None);
    hide Handed, Shaped, Scratch, Grew, After;
  }

  lemma RightDone(m: Machine, t: Tree, tlab: nat, flab: nat, v0: View, v1: View, v2: View, q: Option<nat>, p: Option<nat>)
    requires t.TRight? && (tlab == 0 || flab == 0) && !t.right.TNone?
    requires Done(m, t.left, 0, 0, v0, v1, q) && Done(m, t.right, tlab, flab, v1, v2, p)
    ensures Done(m, t, tlab, flab, v0, v2, p)
  {
    DoneFlow(m, t.left, v0, v1, q);
    GrewThen(v0, v1, v2);
    HandedThen(v0.snap, v1.snap, v2.snap, Writes(t.left), Pending(t.left), Steady(t.left), q, Writes(t.right), Pending(t.right), Steady(t.right), p);
    hide Handed, Shaped, Scratch, Grew;
  }

  lemma LastDone(m: Machine, t: Tree, tlab: nat, flab: nat, v0: View, v1: View, p: Option<nat>)
    requires t.TRight? && t.right.TNone? && Done(m, t.left, tlab, flab, v0, v1, p)
    ensures Done(m, t, tlab, flab, v0, v1, p)
  {
    assert Writes(t) == Writes(t.left) + {} == Writes(t.left);
    hide Handed, Shaped, Scratch, Grew;
  }

  lemma NotDone(m: Machine, t: Tree, tlab: nat, flab: nat, v0: View, v1: View, p: Option<nat>)
    requires t.TNot? && (tlab == 0 || flab == 0) && Done(m, t.kid, flab, tlab, v0, v1, p)
    ensures Done(m, t, tlab, flab, v0, v1, p)
  {
    hide Handed, Shaped, Scratch, Grew;
  }

  /** `list(jump(lab))`. */
  lemma JumpDone(m: Machine, t: Tree, tlab: nat, flab: nat, lab: nat, v0: View, v1: View, v2: View, n: nat)
    requires t.TCnst? && (tlab == 0 || flab == 0) && (tlab != 0 || flab != 0)
    requires lab == if tlab != 0 then tlab else flab
    requires tlab != 0 <==> t.value != 0
    requires Made(m, v0, v1, n, Node(Addr(AddrG), None, None, Some(LabelSymbol(lab)))) && After(m, v1, v2, Goto(lab))
    ensures Done(m, t, tlab, flab, v0, v2, None)
  {
    AfterGrew(m, v1, v2, Goto(lab));
    GrewThen(v0, v1, v2);
    GotKeeps(v0.snap, v1.snap, n, Node(Addr(AddrG), None, None, Some(LabelSymbol(lab))));
    HandedGoto(v0.snap, v1.snap, lab);
    hide Handed, Shaped, Grew, Keeps, Calm, Got, After;
  }

  function Negated(c: Cond): (n: Cond)
    ensures forall x, y :: Compare(n, x, y) <==> !Compare(c, x, y)
  {
    match c
    case Eq => Ne
    case Ne => Eq
    case Gt => Le
    case Lt => Ge
    case Ge => Lt
    case Le => Gt
  }

  lemma TestDone(m: Machine, t: Tree, tlab: nat, flab: nat, v0: View, v1: View, v2: View, v3: View, l: nat, r: nat)
    requires t.TCompare? && (tlab == 0 || flab == 0) && (tlab != 0 || flab != 0) && Yields(t.left) && Yields(t.right)
    requires Done(m, t.left, 0, 0, v0, v1, Some(l)) && Done(m, t.right, 0, 0, v1, v2, Some(r))
    requires After(m, v2, v3, if tlab != 0 then Test(t.cond, l, r, tlab) else Test(Negated(t.cond), l, r, flab))
    ensures Done(m, t, tlab, flab, v0, v3, None)
  {
    var test := if tlab != 0 then Test(t.cond, l, r, tlab) else Test(Negated(t.cond), l, r, flab);
    DoneFlow(m, t.left, v0, v1, Some(l));
    DoneFlow(m, t.right, v1, v2, Some(r));
    AfterGrew(m, v2, v3, test);
    TestKept(m, t, v0, v1, v2, v3, l, r, test);
    hide Kept, Shaped, Scratch, Rooted, AddRoot, After;
    GrewThen(v0, v1, v2);
    GrewThen(v0, v2, v3);
  }

  lemma TestKept(m: Machine, t: Tree, v0: View, v1: View, v2: View, v3: View, l: nat, r: nat, test: Root)
    requires t.TCompare? && Done(m, t.left, 0, 0, v0, v1, Some(l)) && Done(m, t.right, 0, 0, v1, v2, Some(r))
    requires test.Test? && test.left == l && test.right == r && After(m, v2, v3, test)
    ensures Kept(t, v0, v3, None)
  {
    DoneGrew(m, t.left, 0, 0, v0, v1, Some(l));
    DoneGrew(m, t.right, 0, 0, v1, v2, Some(r));
    AfterGrew(m, v2, v3, test);
    hide Meant, Handed, Shaped, AddRoot, After;
    HandedTwo(v0.snap, v1.snap, v2.snap, Writes(t.left), Pending(t.left), Steady(t.left), l,
              Writes(t.right), Pending(t.right), Steady(t.right), r, test, {});
    assert Writes(t.left) + Writes(t.right) + {} == Writes(t);
    HandedNoNode(v0.snap, v3.snap, Writes(t), {}, {}, Steady(t), Some(r));
  }

  /** Two conditions with a common exit have been listed. */
  ghost predicate BothDone(m: Machine, l: Tree, r: Tree, tlab: nat, flab: nat, v0: View, v1: View) {
    && Grew(v0, v1) && v1.flow == Meaning(m, r, tlab, flab, Meaning(m, l, tlab, flab, v0.flow))
    && Handed(v0.snap, v1.snap, Writes(l) + Writes(r) + {Join}, {}, Steady(l) && Steady(r), None)
  }

  lemma BothAre(m: Machine, l: Tree, r: Tree, tlab: nat, flab: nat, v0: View, v1: View, v2: View, q: Option<nat>, p: Option<nat>)
    requires Done(m, l, tlab, flab, v0, v1, q) && Done(m, r, tlab, flab, v1, v2, p)
    ensures BothDone(m, l, r, tlab, flab, v0, v2)
  {
    hide Kept, Answer, Meaning, Grew;
    GrewThen(v0, v1, v2);
    BothKept(l, r, v0, v1, v2, q, p) by { DoneGrew(m, l, tlab, flab, v0, v1, q); }
  }

  lemma {:induction false} BothKept(l: Tree, r: Tree, v0: View, v1: View, v2: View, q: Option<nat>, p: Option<nat>)
    requires Sane(v0) && Kept(l, v0, v1, q) && Kept(r, v1, v2, p)
    ensures Handed(v0.snap, v2.snap, Writes(l) + Writes(r) + {Join}, {}, Steady(l) && Steady(r), None)
  {
    hide Handed, Shaped, Writes, Pending, Steady;
    HandedThen(v0.snap, v1.snap, v2.snap, Writes(l), Pending(l), Steady(l), q, Writes(r), Pending(r), Steady(r), p);
    HandedNoNode(v0.snap, v2.snap, Writes(l) + Writes(r), Pending(r), {}, Steady(l) && Steady(r), p);
    HandedMore(v0.snap, v2.snap, Writes(l) + Writes(r), Writes(l) + Writes(r) + {Join}, {}, Steady(l) && Steady(r), None);
  }

  /** A condition that jumps over a tree to a new label behind it has been listed. */
  ghost predicate SkipDone(m: Machine, l: Tree, r: Tree, whenTrue: bool, tlab: nat, flab: nat, v0: View, v1: View) {
    && Grew(v0, v1)
    && v1.flow == Landed(Meaning(m, r, tlab, flab,
                    Meaning(m, l, if whenTrue then v0.labels else 0, if whenTrue then 0 else v0.labels, v0.flow)), v0.labels)
    && Handed(v0.snap, v1.snap, Writes(l) + Writes(r) + {Join}, {}, Steady(l) && Steady(r), None)
  }

  lemma SkipIs(m: Machine, l: Tree, r: Tree, whenTrue: bool, tlab: nat, flab: nat, v0: View, v1: View, v2: View, v3: View, v4: View,
               q: Option<nat>, p: Option<nat>)
    requires Sane(v0) && v1 == v0.(labels := v0.labels + 1) && Sane(v1)
    requires Done(m, l, if whenTrue then v0.labels else 0, if whenTrue then 0 else v0.labels, v1, v2, q)
    requires Done(m, r, tlab, flab, v2, v3, p) && Placed(v3, v4, v0.labels)
    ensures SkipDone(m, l, r, whenTrue, tlab, flab, v0, v4)
  {
    HandedThen(v1.snap, v2.snap, v3.snap, Writes(l), Pending(l), Steady(l), q, Writes(r), Pending(r), Steady(r), p);
    HandedThen(v1.snap, v3.snap, v4.snap, Writes(l) + Writes(r), Pending(r), Steady(l) && Steady(r), p, {Join}, {}, true, None);
    GrewThen(v1, v2, v3);
    hide Handed, Shaped, Meaning, Answer;
  }

  /** The new label is not placed while the two trees are listed. */
  lemma StillFree(m: Machine, l: Tree, r: Tree, t1: nat, f1: nat, t2: nat, f2: nat, v0: View, v1: View, v2: View, v3: View,
                  q: Option<nat>, p: Option<nat>)
    requires Sane(v0) && v1 == v0.(labels := v0.labels + 1)
    requires Done(m, l, t1, f1, v1, v2, q) && Done(m, r, t2, f2, v2, v3, p)
    ensures v0.labels !in v3.placed && v0.labels < v3.labels
  {
    GrewThen(v1, v2, v3);
    hide Handed, Shaped, Meaning, Answer, Value, Writes;
  }

  /** `if (depth++ == 0) reset();` */
  ghost predicate Entered(v0: View, v1: View) {
    v1.(nodecount := v0.nodecount, chains := v0.chains) == v0.(depth := v0.depth + 1)
  }

  lemma AndDone(m: Machine, t: Tree, tlab: nat, flab: nat, v0: View, v1: View, v2: View)
    requires t.TAnd? && (tlab == 0 || flab == 0) && Entered(v0, v1) && tlab < v1.labels && flab < v1.labels
    requires if flab != 0 then BothDone(m, t.left, t.right, 0, flab, v1, v2) else SkipDone(m, t.left, t.right, false, tlab, 0, v1, v2)
    ensures v2.depth == v0.depth + 1 && Done(m, t, tlab, flab, v0, v2.(depth := v0.depth), None)
  {
    hide Handed, Shaped;
  }

  lemma OrDone(m: Machine, t: Tree, tlab: nat, flab: nat, v0: View, v1: View, v2: View)
    requires t.TOr? && (tlab == 0 || flab == 0) && Entered(v0, v1) && tlab < v1.labels && flab < v1.labels
    requires if tlab != 0 then BothDone(m, t.left, t.right, tlab, 0, v1, v2) else SkipDone(m, t.left, t.right, true, 0, flab, v1, v2)
    ensures v2.depth == v0.depth + 1 && Done(m, t, tlab, flab, v0, v2.(depth := v0.depth), None)
  {
    hide Handed, Shaped;
  }

  lemma CanAnd(m: Machine, t: Tree, tlab: nat, flab: nat, labels: nat)
    requires Can(m, t, tlab, flab, labels)
    ensures tlab == 0 || flab == 0
    ensures t.TAnd? && flab != 0 ==> Can(m, t.left, 0, flab, labels) && Can(m, t.right, 0, flab, labels)
    ensures t.TAnd? && flab == 0 ==> Can(m, t.left, 0, labels, labels + 1) && Can(m, t.right, tlab, 0, labels)
    ensures t.TOr? && tlab != 0 ==> Can(m, t.left, tlab, 0, labels) && Can(m, t.right, tlab, 0, labels)
    ensures t.TOr? && tlab == 0 ==> Can(m, t.left, labels, 0, labels + 1) && Can(m, t.right, 0, flab, labels)
  {
  }

  lemma CanBounds(m: Machine, t: Tree, tlab: nat, flab: nat, labels: nat)
    requires Can(m, t, tlab, flab, labels)
    ensures tlab < labels && flab < labels
  {
  }

  lemma CanSeparated(m: Machine, t: Tree, tlab: nat, flab: nat, labels: nat)
    requires Can(m, t, tlab, flab, labels)
    ensures Separated(m)
  {
  }

  lemma NodesGrew(v0: View, v1: View)
    requires Grew(v0, v1)
    ensures v0.snap.nodes <= v1.snap.nodes && v0.labels <= v1.labels && |v0.vals| == |v0.snap.nodes| && |v1.vals| == |v1.snap.nodes|
  {
    hide Shaped;
  }

  lemma PostBuildable(m: Machine, t: Tree, labels: nat, v0: View, v1: View, l: nat)
    requires t.TPost? && Can(m, t, 0, 0, labels) && Done(m, t.target, 0, 0, v0, v1, Some(l))
    ensures Buildable(m, v1, Node(Indir(t.size), Some(l), None, None))
  {
    hide Kept, Shaped, Separated, Scratch, Value;
  }

  lemma MadeListable(m: Machine, v1: View, v2: View, n: nat, d: Node)
    requires Made(m, v1, v2, n, d)
    ensures Listable(m, v2, Force(n)) && |v2.vals| == |v2.snap.nodes|
  {
    hide Shaped, Got, NewValue;
  }

  lemma ForcedGrew(m: Machine, v1: View, v2: View, v3: View, n: nat)
    requires (exists d :: Made(m, v1, v2, n, d)) && (After(m, v2, v3, Force(n)) || v3 == v2)
    ensures Grew(v1, v3) && v1.labels <= v3.labels
  {
    hide Shaped, Got, NewValue;
    if v3 != v2 {
      AfterGrew(m, v2, v3, Force(n));
      hide After;
      GrewThen(v1, v2, v3);
    }
  }

  lemma DepthInv(m: Machine, index: Op -> nat, location: Option<Symbol> -> nat, v: View, depth: nat)
    requires InvOf(m, index, location, v) && SoundOf(m, v)
    ensures InvOf(m, index, location, v.(depth := depth)) && SoundOf(m, v.(depth := depth))
  {
  }

  /** The list has been handed over. */
  function Emptied(v: View): View {
    v.(snap := Snap(v.snap.nodes, v.snap.born, [], [], |v.snap.nodes|), start := v.flow)
  }

  lemma EmptiedInv(m: Machine, index: Op -> nat, location: Option<Symbol> -> nat, v: View)
    requires InvOf(m, index, location, v)
    ensures InvOf(m, index, location, Emptied(v))
  {
    Sanity(m, index, location, v);
    EmptiedTables(m, v.snap, v.vals, v.equated, v.start, v.flow);
    EmptiedList(m, v);
    hide ChainsOk, TabledFor, AddressesKnown, WellLinked, ListedFor;
  }

  lemma EmptiedList(m: Machine, v: View)
    requires ListedFor(m, v.snap.nodes, v.vals, v.equated, v.snap.forest, v.start, v.flow, v.placed, v.labels)
    ensures ListedFor(m, v.snap.nodes, v.vals, v.equated, [], v.flow, v.flow, v.placed, v.labels)
  {
  }

  lemma EmptiedTables(m: Machine, s: Snap, vals: seq<Val>, equated: map<nat, nat>, start: Flow, flow: Flow)
    requires TabledFor(m, s, vals, equated, start)
    ensures TabledFor(m, Snap(s.nodes, s.born, [], [], |s.nodes|), vals, equated, flow)
  {
    TimelySizes(m, s, vals, equated, start);
    hide Built, LoadsSymbol, LoadedSymbol, RootMeasured;
  }

  lemma {:induction false} WalkedAll(m: Machine, index: Op -> nat, location: Option<Symbol> -> nat, t: Tree, tlab: nat, flab: nat, v0: View, v1: View, p: Option<nat>)
    requires InvOf(m, index, location, v1) && Done(m, t, tlab, flab, v0, v1, p)
    ensures AllIn(v1.snap.forest, |v1.snap.nodes|) && |v1.vals| == |v1.snap.nodes| && v1.flow == Meaning(m, t, tlab, flab, v0.flow)
    ensures Run(m, v1.snap.nodes, v1.vals, v1.equated, v1.snap.forest, v0.start) == v1.flow
  {
    hide ChainsOk, TabledFor, WellLinked, Shaped, Run, Meaning, LabelsPlaced, AllIn, Answer, Handed;
  }

  /** The late run ends here, whatever is in temporaries whose assignment was jumped over. */
  ghost predicate RunsLate(m: Machine, nodes: seq<Node>, equated: map<nat, nat>, forest: seq<Root>, start: Flow, flow: Flow)
    requires AllIn(forest, |nodes|)
  {
    forall junk: nat -> Val :: RunLate(m, nodes, equated, forest, junk, start).flow == flow
  }

  /** The late run of a steady tree. */
  lemma {:induction false} WalkedLate(m: Machine, index: Op -> nat, location: Option<Symbol> -> nat, t: Tree, tlab: nat, flab: nat, v0: View, v1: View, p: Option<nat>)
    requires InvOf(m, index, location, v1) && Separated(m) && Done(m, t, tlab, flab, v0, v1, p)
    ensures AllIn(v1.snap.forest, |v1.snap.nodes|)
    ensures Calm(v0.snap) && Steady(t) ==>
              RunsLate(m, v1.snap.nodes, v1.equated, v1.snap.forest, v0.start, v1.flow)
  {
    WalkedAll(m, index, location, t, tlab, flab, v0, v1, p);
    DoneGrew(m, t, tlab, flab, v0, v1, p);
    assert Measured(m, v1.snap) && CallsOnly(v1.snap) && Timely(m, v1.snap, v1.vals, v1.equated, v1.start);
    hide ChainsOk, WellLinked, Shaped, Calm, Run, RunLate, Timely, Measured, Keeps, LabelsPlaced, AllIn, Meant, TabledFor;
    if Calm(v0.snap) && Steady(t) {
      forall junk: nat -> Val ensures RunLate(m, v1.snap.nodes, v1.equated, v1.snap.forest, junk, v0.start).flow == v1.flow {
        RunsAlike(m, v1.snap, v1.vals, v1.equated, v1.start, junk);
      }
    }
  }

  lemma TestListable(m: Machine, v: View, test: Root)
    requires test.Test? && test.left < |v.snap.nodes| && test.right < |v.snap.nodes| && |v.vals| == |v.snap.nodes| && test.lab < v.labels
    ensures Listable(m, v, test)
  {
  }

  lemma KillSeparated(m: Machine, nodes: seq<Node>, vals: seq<Val>, chains: Chains, kept: Chains, p: Symbol, v: Val, n: nat, mem: Memory)
    requires Separated(m) && p.Variable? && !p.computed && n <= m.width(p)
    requires WellLinked(nodes) && |vals| == |nodes| && AddressesKnown(m, nodes, vals)
    requires Coherent(m, nodes, vals, chains, mem) && Narrow(m, nodes, chains)
    requires forall k: nat :: Held(kept, k) <==> Held(chains, k) && !(k < |nodes| && Killed(nodes, k, p))
    ensures Coherent(m, nodes, vals, kept, Update(mem, m.layout(p), v, n))
  {
    KillIsSound(m, nodes, vals, chains, kept, p, n, mem);
    forall k: nat | Held(kept, k) && k < |nodes| && nodes[k].op.Indir?
      ensures Disjoint(m.layout(p), n, m.layout(LoadedSymbol(nodes, k)), nodes[k].op.size)
    {
      assert LoadsSymbol(nodes, k);
      assert LoadedSymbol(nodes, k) != p;
    }
  }

  lemma InsertedChains(m: Machine, index: Op -> nat, location: Option<Symbol> -> nat, nodes: seq<Node>, count: nat,
                 chains: Chains, i: nat, p: nat)
    requires ChainsOk(m, index, location, nodes, count, chains)
    requires i < 16 && p < |nodes| && HashOf(index, location, nodes[p].op, nodes[p].sym) == i
    requires LoadsSymbol(nodes, p) ==> nodes[p].op.size <= m.width(LoadedSymbol(nodes, p))
    ensures ChainsOk(m, index, location, nodes, count + 1, chains[i := [p] + chains[i]])
  {
    CountUpdate(chains, i, [p] + chains[i]);
    HeldInsert(chains, i, p);
    hide Held, Count;
  }

  lemma InsertedSound(m: Machine, nodes: seq<Node>, vals: seq<Val>, chains: Chains, i: nat, p: nat, mem: Memory)
    requires i < |chains|
    ensures Held(chains[i := [p] + chains[i]], p)
    ensures Coherent(m, nodes, vals, chains, mem) && p < |nodes| && p < |vals| && vals[p] == Rebuild(m, nodes, vals, p, mem) ==>
            Coherent(m, nodes, vals, chains[i := [p] + chains[i]], mem)
  {
    HeldInsert(chains, i, p);
    var chains1 := chains[i := [p] + chains[i]];
    if Coherent(m, nodes, vals, chains, mem) && p < |nodes| && p < |vals| && vals[p] == Rebuild(m, nodes, vals, p, mem) {
      forall n: nat | Held(chains1, n) && n < |nodes| && n < |vals|
        ensures vals[n] == Rebuild(m, nodes, vals, n, mem)
      {
        assert n == p || Held(chains, n);
      }
      assert Coherent(m, nodes, vals, chains1, mem);
    }
  }

  lemma {:induction false} SurvivorsStep(nodes: seq<Node>, chain: seq<nat>, k: nat, p: Symbol, kept: seq<nat>)
    requires k < |chain| && WellLinked(nodes) && forall n: nat | n in chain :: n < |nodes|
    ensures chain[k] < |nodes| && WellFormedNode(nodes[chain[k]], chain[k])
    ensures kept + Survivors(nodes, chain[k..], p) ==
            (if Killed(nodes, chain[k], p) then kept else kept + [chain[k]]) + Survivors(nodes, chain[k + 1..], p)
  {
    assert chain[k] in chain && chain[k..][1..] == chain[k + 1..];
    var rest := Survivors(nodes, chain[k + 1..], p);
    assert kept + ([chain[k]] + rest) == kept + [chain[k]] + rest;
  }

  lemma {:induction false} SurvivorsEnd(nodes: seq<Node>, chain: seq<nat>, p: Symbol, kept: seq<nat>)
    requires chain == []
    ensures kept + Survivors(nodes, chain, p) == kept
  {
  }

  lemma HeldKept(nodes: seq<Node>, all: Chains, kept: Chains, p: Symbol)
    requires |all| == |kept| && forall j | 0 <= j < |all| :: kept[j] == Survivors(nodes, all[j], p)
    ensures forall k: nat :: Held(kept, k) <==> Held(all, k) && !(k < |nodes| && Killed(nodes, k, p))
  {
  }

  lemma SurvivorsOk(m: Machine, index: Op -> nat, location: Option<Symbol> -> nat, nodes: seq<Node>,
                    count: nat, count1: nat, all: Chains, kept: Chains, p: Symbol)
    requires ChainsOk(m, index, location, nodes, count, all) && |kept| == 16 && count1 == Count(kept)
    requires forall j | 0 <= j < 16 :: kept[j] == Survivors(nodes, all[j], p)
    ensures ChainsOk(m, index, location, nodes, count1, kept)
  {
    HeldKept(nodes, all, kept, p);
    hide Held, Count;
  }

  lemma MoreNodes(m: Machine, nodes: seq<Node>, vals: seq<Val>, nodes1: seq<Node>, vals1: seq<Val>, chains: Chains, mem: Memory)
    requires |nodes| == |vals| && |nodes1| == |vals1| && nodes <= nodes1 && vals <= vals1 && WellLinked(nodes)
    requires forall i, n: nat | 0 <= i < |chains| && n in chains[i] :: n < |nodes|
    ensures Narrow(m, nodes, chains) ==> Narrow(m, nodes1, chains)
    ensures Coherent(m, nodes, vals, chains, mem) ==> Coherent(m, nodes1, vals1, chains, mem)
  {
    forall n: nat | Held(chains, n)
      ensures n < |nodes| && LoadsSymbol(nodes, n) == LoadsSymbol(nodes1, n)
      ensures Rebuild(m, nodes, vals, n, mem) == Rebuild(m, nodes1, vals1, n, mem)
    {
      var i :| 0 <= i < |chains| && n in chains[i];
      assert WellFormedNode(nodes[n], n);
    }
  }

  lemma OneMoreNode(m: Machine, nodes: seq<Node>, vals: seq<Val>, op: Op, l: Option<nat>, r: Option<nat>, sym: Option<Symbol>, mem: Memory)
    requires |nodes| == |vals| && WellLinked(nodes) && AddressesKnown(m, nodes, vals)
    requires WellFormedNode(Node(op, l, r, sym), |nodes|)
    ensures var nodes1 := nodes + [Node(op, l, r, sym)];
            var vals1 := vals + [Compute(m, op, sym, ValueOf(vals, l), ValueOf(vals, r), mem)];
            WellLinked(nodes1) && AddressesKnown(m, nodes1, vals1)
  {
  }

  lemma HeldInsert(chains: Chains, i: nat, p: nat)
    requires i < |chains|
    ensures forall n: nat :: Held(chains[i := [p] + chains[i]], n) <==> n == p || Held(chains, n)
  {
    var chains1 := chains[i := [p] + chains[i]];
    assert p in chains1[i];
    forall n: nat ensures Held(chains1, n) <==> n == p || Held(chains, n) {
      if Held(chains, n) {
        var j :| 0 <= j < |chains| && n in chains[j];
        assert n in chains1[j];
      }
    }
  }

  /** Roots that write nothing leave the store and the nodes in the buckets alone. */
  lemma QuietRoot(m: Machine, nodes: seq<Node>, vals: seq<Val>, equated: map<nat, nat>, r: Root, flow: Flow)
    requires |nodes| == |vals| && RootIn(r, |nodes|) && (r.Pass? || r.Force? || r.Goto? || r.Test?)
    ensures var f := Exec(m, nodes, vals, equated, r, flow);
            (f.At? ==> flow.At? && f.st.mem == flow.st.mem)
    ensures forall k: nat | k < |nodes| :: !Meets(nodes, k, r)
    ensures r.Force? ==> Exec(m, nodes, vals, equated, r, flow) == flow
  {
  }

  lemma OneMoreCall(m: Machine, nodes: seq<Node>, vals: seq<Val>, d: Node, v: Val)
    requires |nodes| == |vals| && WellLinked(nodes) && AddressesKnown(m, nodes, vals) && WellFormedNode(d, |nodes|) && d.op.Call?
    ensures WellLinked(nodes + [d]) && AddressesKnown(m, nodes + [d], vals + [v])
  {
  }

  lemma CallFlow(m: Machine, nodes: seq<Node>, vals: seq<Val>, d: Node, v: Val, equated: map<nat, nat>, flow: Flow)
    requires |nodes| == |vals| && WellFormedNode(d, |nodes|) && d.op.Call?
    ensures Built(m, d, vals, flow.st) == m.callee(ValueOf(vals, d.left), flow.st).1
    ensures Exec(m, nodes + [d], vals + [v], equated, Invoke(|nodes|), flow) ==
            if flow.At? then At(m.callee(ValueOf(vals, d.left), flow.st).0) else flow
  {
  }

  lemma LabelKeeps(s: Snap, lab: nat)
    requires Shaped(s)
    ensures Handed(s, AddRoot(s, Label(lab)), {Join}, {}, true, None)
  {
    RootKeeps(s, Label(lab), {Join});
    if Calm(s) {
      RootCalm(s, Label(lab));
    }
    hide Keeps, Calm;
  }

  /** Nothing has been equated with a label that is not placed yet. */
  lemma LabelLands(m: Machine, nodes: seq<Node>, vals: seq<Val>, equated: map<nat, nat>, forest: seq<Root>, start: Flow,
                   flow: Flow, placed: set<nat>, labels: nat, lab: nat)
    requires ListedFor(m, nodes, vals, equated, forest, start, flow, placed, labels) && lab !in placed
    ensures Exec(m, nodes, vals, equated, Label(lab), flow) == Landed(flow, lab)
  {
  }

  lemma {:induction false} ScratchGrows(m: Machine, nodes: seq<Node>, nodes1: seq<Node>, n: nat, mem: Memory)
    requires nodes <= nodes1 && n < |nodes|
    ensures Scratch(m, nodes1, n, mem) == Scratch(m, nodes, n, mem)
    decreases n
  {
    var d := nodes[n];
    assert nodes1[n] == d;
    if d.left.Some? && d.left.value < n {
      ScratchGrows(m, nodes, nodes1, d.left.value, mem);
    }
    if d.right.Some? && d.right.value < n {
      ScratchGrows(m, nodes, nodes1, d.right.value, mem);
    }
  }

  /** A store through p meets no load that `killnodes(p)` leaves. */
  lemma HeldStored(s: Snap, all: Chains, kept: Chains, p: Symbol, l: nat, r: nat, size: nat)
    requires HeldOk(s, all) && WellLinked(s.nodes) && l < |s.nodes| && s.nodes[l].op.Addr? && s.nodes[l].sym == Some(p)
    requires p.Variable? && !p.computed
    requires forall k: nat :: Held(kept, k) <==> Held(all, k) && !(k < |s.nodes| && Killed(s.nodes, k, p))
    ensures HeldOk(AddRoot(s, Assign(l, r, size)), kept)
  {
    hide Held;
    forall n: nat | Held(kept, n) && n < |s.nodes| && s.nodes[n].op.Indir? ensures !Meets(s.nodes, n, Assign(l, r, size)) {
      assert WellFormedNode(s.nodes[n], n);
      assert WellFormedNode(s.nodes[s.nodes[n].left.value], s.nodes[n].left.value);
    }
    hide HeldOk, Meets;
    HeldRoot(s, all, kept, Assign(l, r, size));
  }

  lemma HandedGoto(s0: Snap, s1: Snap, lab: nat)
    requires Shaped(s0) && Shaped(s1) && Keeps(s0, s1, {}) && (Calm(s0) ==> Calm(s1))
    ensures Handed(s0, AddRoot(s1, Goto(lab)), {}, {}, true, None)
  {
    hide Shaped, Keeps, Calm;
    HandedRoot(s0, s1, Goto(lab), {}, {}, true, None);
    var none: set<Effect> := {};
    assert none + none == none;
  }

  lemma MadeInserted(m: Machine, v0: View, v1: View, v2: View, p: nat, d: Node)
    requires Made(m, v0, v1, p, d) && v2.(nodecount := v1.nodecount, chains := v1.chains) == v1
    ensures Made(m, v0, v2, p, d)
  {
    hide Shaped, Got, NewValue;
  }
}

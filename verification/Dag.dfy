/** The DAG builder of the C compiler (lcc/src/dag.c): expression trees become shared nodes and a
    list of roots with labels and jumps.  Two results are proved together of `listnodes`: the value
    a shared node was built with is still its value in the current store whenever it is handed out
    again, and conditions jump to their label exactly when they should. */
module Dag {
  import opened Words

  // ----- values and stores -----

  /** A value is the list of its words. */
  type Val = seq<int>

  type Memory = int -> int

  /** Data memory, and the argument words passed since the last call. */
  datatype Store = Store(mem: Memory, args: seq<Val>)

  function First(v: Val): int {
    if v == [] then 0 else v[0]
  }

  function WordAt(v: Val, i: nat): int {
    if i < |v| then v[i] else 0
  }

  function Fetch(mem: Memory, a: int, size: nat): Val {
    seq(size, i requires 0 <= i < size => mem(a + i))
  }

  function Update(mem: Memory, a: int, v: Val, size: nat): Memory {
    x => if a <= x < a + size then WordAt(v, x - a) else mem(x)
  }

  /** What is stored is what is loaded, and nothing else changes. */
  lemma StoreThenLoad(mem: Memory, a: int, v: Val, b: int, n: nat)
    ensures Fetch(Update(mem, a, v, |v|), a, |v|) == v
    ensures b + n <= a || a + |v| <= b ==> Fetch(Update(mem, a, v, |v|), b, n) == Fetch(mem, b, n)
  {
    var u := Update(mem, a, v, |v|);
    var w := Fetch(u, a, |v|);
    forall i | 0 <= i < |v| ensures w[i] == v[i] {
      var x := a + i;
      assert w[i] == u(x) && u(x) == WordAt(v, x - a);
    }
    if b + n <= a || a + |v| <= b {
      forall i | 0 <= i < n ensures Fetch(u, b, n)[i] == Fetch(mem, b, n)[i] {
        var x := b + i;
        assert u(x) == mem(x);
      }
    }
  }

  // ----- nodes -----

  /** Variables, interned constants, and the symbols of labels.  A computed variable stands for an
      address inside another variable. */
  datatype Symbol =
    | Variable(id: nat, computed: bool)
    | Constant(size: nat, value: int)
    | LabelSymbol(lab: nat)

  datatype AddrKind = AddrG | AddrF | AddrL

  datatype UnaryName = Neg | BCom
  datatype BinaryName = Add | Sub | Mul | Div | Mod | BAnd | BOr | BXor | Lsh | Rsh

  /** Operators with the size of their result in words. */
  datatype Op =
    | Addr(kind: AddrKind)
    | Cnst(size: nat)
    | Indir(size: nat)
    | Convert(size: nat)
    | Unary(unary: UnaryName, size: nat)
    | Binary(binary: BinaryName, size: nat)
    | Call(size: nat)

  datatype Node = Node(op: Op, left: Option<nat>, right: Option<nat>, sym: Option<Symbol>)

  /** What the model does not fix: where symbols are stored and how widely they are accessed, what
      the arithmetic operators compute, the number a value stands for, and what calls do. */
  datatype Machine = Machine(
    layout: Symbol -> int,
    width: Symbol -> nat,
    literal: Symbol -> Val,
    apply: (Op, Option<Symbol>, Val, Val) -> Val,
    number: Val -> int,
    callee: (Val, Store) -> (Store, Val))

  function Compute(m: Machine, op: Op, sym: Option<Symbol>, x: Val, y: Val, mem: Memory): Val {
    match op
    case Addr(_) => if sym.Some? then [m.layout(sym.value)] else [0]
    case Cnst(_) => if sym.Some? then m.literal(sym.value) else []
    case Indir(n) => Fetch(mem, First(x), n)
    case _ => m.apply(op, sym, x, y)
  }

  function ValueOf(vals: seq<Val>, k: Option<nat>): Val {
    if k.Some? && k.value < |vals| then vals[k.value] else []
  }

  /** The value a freshly built copy of node n would have. */
  function Rebuild(m: Machine, nodes: seq<Node>, vals: seq<Val>, n: nat, mem: Memory): Val
    requires n < |nodes|
  {
    Compute(m, nodes[n].op, nodes[n].sym, ValueOf(vals, nodes[n].left), ValueOf(vals, nodes[n].right), mem)
  }

  ghost predicate KidBelow(k: Option<nat>, n: nat) {
    k.Some? ==> k.value < n
  }

  /** Kids are older than their parents, address nodes name a symbol, loads have an operand. */
  ghost predicate WellLinked(nodes: seq<Node>) {
    forall n | 0 <= n < |nodes| :: WellFormedNode(nodes[n], n)
  }

  ghost predicate WellFormedNode(d: Node, n: nat) {
    && KidBelow(d.left, n) && KidBelow(d.right, n)
    && (d.op.Addr? ==> d.sym.Some?)
    && (d.op.Indir? ==> d.left.Some?)
  }

  /** The value of a node computed from scratch in a store, kids included. */
  function Scratch(m: Machine, nodes: seq<Node>, n: nat, mem: Memory): Val
    requires n < |nodes|
    decreases n
  {
    var x := if nodes[n].left.Some? && nodes[n].left.value < n then Scratch(m, nodes, nodes[n].left.value, mem) else [];
    var y := if nodes[n].right.Some? && nodes[n].right.value < n then Scratch(m, nodes, nodes[n].right.value, mem) else [];
    Compute(m, nodes[n].op, nodes[n].sym, x, y, mem)
  }

  // ----- the buckets -----

  type Chains = seq<seq<nat>>

  ghost predicate Held(chains: Chains, n: nat) {
    exists i | 0 <= i < |chains| :: n in chains[i]
  }

  /** Every node that `node` can return denotes what a freshly built node would denote. */
  ghost predicate Coherent(m: Machine, nodes: seq<Node>, vals: seq<Val>, chains: Chains, mem: Memory) {
    forall n: nat | Held(chains, n) && n < |nodes| && n < |vals| :: vals[n] == Rebuild(m, nodes, vals, n, mem)
  }

  /** Loads through a symbol are no wider than the symbol's width. */
  ghost predicate Narrow(m: Machine, nodes: seq<Node>, chains: Chains) {
    forall n: nat | Held(chains, n) && n < |nodes| && LoadsSymbol(nodes, n) ::
      nodes[n].op.size <= m.width(LoadedSymbol(nodes, n))
  }

  predicate LoadsSymbol(nodes: seq<Node>, n: nat)
    requires n < |nodes|
  {
    && nodes[n].op.Indir? && nodes[n].left.Some? && nodes[n].left.value < |nodes|
    && nodes[nodes[n].left.value].op.Addr? && nodes[nodes[n].left.value].sym.Some?
  }

  function LoadedSymbol(nodes: seq<Node>, n: nat): Symbol
    requires n < |nodes| && LoadsSymbol(nodes, n)
  {
    nodes[nodes[n].left.value].sym.value
  }

  predicate IsAddress(nodes: seq<Node>, k: Option<nat>) {
    k.Some? && k.value < |nodes| && nodes[k.value].op.Addr?
  }

  /** The test of `killnodes`: loads through other than symbol addresses, and through p. */
  predicate Killed(nodes: seq<Node>, n: nat, p: Symbol)
    requires n < |nodes|
  {
    && nodes[n].op.Indir?
    && (!IsAddress(nodes, nodes[n].left) || nodes[nodes[n].left.value].sym == Some(p))
  }

  function Survivors(nodes: seq<Node>, chain: seq<nat>, p: Symbol): (r: seq<nat>)
    ensures forall n: nat :: n in r <==> n in chain && !(n < |nodes| && Killed(nodes, n, p))
  {
    if chain == [] then []
    else if chain[0] < |nodes| && Killed(nodes, chain[0], p) then Survivors(nodes, chain[1..], p)
    else [chain[0]] + Survivors(nodes, chain[1..], p)
  }

  function Count(chains: Chains): nat {
    if chains == [] then 0 else |chains[|chains| - 1]| + Count(chains[..|chains| - 1])
  }

  lemma {:induction false} CountUpdate(chains: Chains, i: nat, c: seq<nat>)
    requires i < |chains|
    ensures Count(chains[i := c]) + |chains[i]| == Count(chains) + |c|
    decreases |chains|
  {
    var k := |chains| - 1;
    if i < k {
      CountUpdate(chains[..k], i, c);
      assert chains[i := c][..k] == chains[..k][i := c];
    } else {
      assert chains[i := c][..k] == chains[..k];
    }
  }

  lemma {:induction false} CountZero(chains: Chains)
    ensures Count(chains) == 0 <==> forall i | 0 <= i < |chains| :: chains[i] == []
    decreases |chains|
  {
    if chains != [] {
      var init := chains[..|chains| - 1];
      CountZero(init);
      assert forall i | 0 <= i < |init| :: init[i] == chains[i];
    }
  }

  // ----- soundness of killnodes -----

  predicate Disjoint(a: int, n: nat, b: int, k: nat) {
    n == 0 || k == 0 || a + n <= b || b + k <= a
  }

  /** Non-computed symbols are stored apart from everything else. */
  ghost predicate Separated(m: Machine) {
    forall p: Symbol, q: Symbol | p.Variable? && !p.computed && p != q ::
      Disjoint(m.layout(p), m.width(p), m.layout(q), m.width(q))
  }

  lemma FetchUpdate(mem: Memory, a: int, v: Val, n: nat, b: int, k: nat)
    requires Disjoint(a, n, b, k)
    ensures Fetch(Update(mem, a, v, n), b, k) == Fetch(mem, b, k)
  {
  }

  /** Address nodes carry their symbol's address. */
  ghost predicate AddressesKnown(m: Machine, nodes: seq<Node>, vals: seq<Val>) {
    forall n | 0 <= n < |nodes| && n < |vals| && nodes[n].op.Addr? && nodes[n].sym.Some? ::
      vals[n] == [m.layout(nodes[n].sym.value)]
  }

  /** What survives `killnodes(p)` is still good after any store through p, exactly when no surviving
      load through another symbol overlaps the words stored. */
  lemma KillIsSound(m: Machine, nodes: seq<Node>, vals: seq<Val>, chains: Chains, kept: Chains, p: Symbol, n: nat, mem: Memory)
    requires WellLinked(nodes) && |vals| == |nodes| && AddressesKnown(m, nodes, vals)
    requires Coherent(m, nodes, vals, chains, mem)
    requires forall k: nat :: Held(kept, k) <==> Held(chains, k) && !(k < |nodes| && Killed(nodes, k, p))
    ensures forall k: nat | Held(kept, k) && k < |nodes| && nodes[k].op.Indir? :: LoadsSymbol(nodes, k)
    ensures (forall v: Val :: Coherent(m, nodes, vals, kept, Update(mem, m.layout(p), v, n)))
            <==> (forall k: nat | Held(kept, k) && k < |nodes| && nodes[k].op.Indir? ::
                    Disjoint(m.layout(p), n, m.layout(LoadedSymbol(nodes, k)), nodes[k].op.size))
  {
    forall k: nat | Held(kept, k) && k < |nodes| && nodes[k].op.Indir? ensures LoadsSymbol(nodes, k) {
      assert WellFormedNode(nodes[k], k);
      assert WellFormedNode(nodes[nodes[k].left.value], nodes[k].left.value);
    }
    hide Held;
    if forall k: nat | Held(kept, k) && k < |nodes| && nodes[k].op.Indir? ::
         Disjoint(m.layout(p), n, m.layout(LoadedSymbol(nodes, k)), nodes[k].op.size) {
      forall v: Val ensures Coherent(m, nodes, vals, kept, Update(mem, m.layout(p), v, n)) {
        DisjointIsCoherent(m, nodes, vals, chains, kept, p, v, n, mem);
      }
    } else {
      var k: nat :| Held(kept, k) && k < |nodes| && nodes[k].op.Indir? &&
        !Disjoint(m.layout(p), n, m.layout(LoadedSymbol(nodes, k)), nodes[k].op.size);
      var v := OverlapSpoils(m, nodes, vals, kept, k, p, n, mem);
    }
  }

  lemma DisjointIsCoherent(m: Machine, nodes: seq<Node>, vals: seq<Val>, chains: Chains, kept: Chains, p: Symbol, v: Val, n: nat, mem: Memory)
    requires WellLinked(nodes) && |vals| == |nodes| && AddressesKnown(m, nodes, vals)
    requires Coherent(m, nodes, vals, chains, mem)
    requires forall k: nat | Held(kept, k) :: Held(chains, k)
    requires forall k: nat | Held(kept, k) && k < |nodes| && nodes[k].op.Indir? :: LoadsSymbol(nodes, k)
    requires forall k: nat | Held(kept, k) && k < |nodes| && nodes[k].op.Indir? ::
               Disjoint(m.layout(p), n, m.layout(LoadedSymbol(nodes, k)), nodes[k].op.size)
    ensures Coherent(m, nodes, vals, kept, Update(mem, m.layout(p), v, n))
  {
    hide Held, Update, Disjoint;
    forall k: nat | Held(kept, k) && k < |nodes|
      ensures vals[k] == Rebuild(m, nodes, vals, k, Update(mem, m.layout(p), v, n))
    {
      assert vals[k] == Rebuild(m, nodes, vals, k, mem);
      if nodes[k].op.Indir? {
        FetchUpdate(mem, m.layout(p), v, n, m.layout(LoadedSymbol(nodes, k)), nodes[k].op.size);
      }
    }
  }

  lemma OverlapSpoils(m: Machine, nodes: seq<Node>, vals: seq<Val>, kept: Chains, k: nat, p: Symbol, n: nat, mem: Memory)
    returns (v: Val)
    requires WellLinked(nodes) && |vals| == |nodes| && AddressesKnown(m, nodes, vals)
    requires Held(kept, k) && k < |nodes| && LoadsSymbol(nodes, k)
    requires !Disjoint(m.layout(p), n, m.layout(LoadedSymbol(nodes, k)), nodes[k].op.size)
    ensures !Coherent(m, nodes, vals, kept, Update(mem, m.layout(p), v, n))
  {
    hide Held;
    var a, b := m.layout(p), m.layout(LoadedSymbol(nodes, k));
    var x := if a <= b then b else a;
    assert a <= x < a + n && b <= x < b + nodes[k].op.size;
    // a word that differs from the one the node was built with
    var w := WordAt(vals[k], x - b) + 1;
    v := seq(n, i => w);
    var after := Update(mem, a, v, n);
    assert after(x) == w;
    assert Rebuild(m, nodes, vals, k, after)[x - b] == w;
  }

  function Blank(): Memory {
    x => 0
  }

  function Inside(): Machine {
    Machine(s => if s == Variable(1, true) then 1 else 0, s => 2, s => [], (o, s, x, y) => [], v => 0, (f, s) => (s, []))
  }

  function LoadInside(): seq<Node> {
    [Node(Addr(AddrL), None, None, Some(Variable(1, true))), Node(Indir(1), Some(0), None, None)]
  }

  /** The hypothesis of soundness is needed: a computed symbol inside p survives a two-word store
      through p, and the node of the word inside p then holds the old word. */
  lemma ComputedSymbolGoesStale()
    ensures var m, nodes, p := Inside(), LoadInside(), Variable(0, false);
            var vals := [[1], [0]];
            && m.layout(p) == 0 && m.width(p) == 2 && m.layout(Variable(1, true)) == 1
            && Coherent(m, nodes, vals, [[1, 0]], Blank())
            && Survivors(nodes, [1, 0], p) == [1, 0]
            && !Coherent(m, nodes, vals, [[1, 0]], Update(Blank(), m.layout(p), [5, 5], 2))
  {
    var m, nodes, p := Inside(), LoadInside(), Variable(0, false);
    var vals: seq<Val> := [[1], [0]];
    var chains := [[1, 0]];
    StaleLoad(vals);
    assert Rebuild(m, nodes, vals, 0, Blank()) == vals[0];
    hide Rebuild;
    assert chains[0] == [1, 0];
    assert Held(chains, 0) && Held(chains, 1);
    assert [1, 0][1..] == [0] && [0][1..] == [];
    assert Survivors(nodes, [0], p) == [0] by { assert Survivors(nodes, [], p) == []; }
  }

  lemma StaleLoad(vals: seq<Val>)
    requires vals == [[1], [0]]
    ensures Rebuild(Inside(), LoadInside(), vals, 1, Blank()) == vals[1]
    ensures Rebuild(Inside(), LoadInside(), vals, 1, Update(Blank(), 0, [5, 5], 2)) != vals[1]
  {
    var five: Val := [5, 5];
    var after := Update(Blank(), 0, five, 2);
    assert WordAt(five, 1) == 5 && after(1) == 5;
    assert Fetch(after, 1, 1) == [5] && Fetch(Blank(), 1, 1) == [0];
  }
}

/** Loads of volatile objects (lcc/src/dag.c:344-352): every one of a tree is a node of its own, made where the tree
    reads, and never handed out again; and the nodes of a value spell its tree. */
module Reads {
  import opened Words
  import opened Dag
  import opened Roots
  import opened Late
  import opened Trees
  import opened Builder

  /** The sizes of the volatile loads of a tree, in the order in which it is listed. */
  function Loads(t: Tree): seq<nat> {
    match t
    case TIndir(size, volatile, a) => Loads(a) + if volatile then [size] else []
    case TConvert(_, _, k) => Loads(k)
    case TUnary(_, _, k) => Loads(k)
    case TNot(k) => Loads(k)
    case TBinary(_, _, l, r) => Loads(l) + Loads(r)
    case TAsgn(_, l, r) => Loads(l) + Loads(r)
    case TCall(_, f, args) => Loads(f) + Loads(args)
    case TArg(e, before) => Loads(before) + Loads(e)
    case TRight(l, r) => Loads(l) + Loads(r)
    case TPost(_, a, e) => Loads(a) + Loads(e)
    case TAnd(l, r) => Loads(l) + Loads(r)
    case TOr(l, r) => Loads(l) + Loads(r)
    case TCompare(_, l, r) => Loads(l) + Loads(r)
    case _ => []
  }

  /** Node n stands for the value of the tree, operand by operand, with the volatile loads at the nodes rs. */
  predicate Spells(nodes: seq<Node>, n: nat, t: Tree, rs: seq<nat>)
    requires |rs| == |Loads(t)|
    decreases t
  {
    n < |nodes|
    && match t
       case TAddr(kind, sym) => nodes[n] == Node(Addr(kind), None, None, Some(sym))
       case TCnst(size, value) => nodes[n] == Node(Cnst(size), None, None, Some(Constant(size, value)))
       case TIndir(size, volatile, a) =>
         && nodes[n] == Node(Indir(size), nodes[n].left, None, None) && nodes[n].left.Some?
         && Spells(nodes, nodes[n].left.value, a, rs[..|Loads(a)|])
         && (volatile ==> n == rs[|Loads(a)|])
       case TConvert(size, from, k) =>
         && nodes[n] == Node(Convert(size), nodes[n].left, None, ConstantOf(1, from)) && nodes[n].left.Some?
         && Spells(nodes, nodes[n].left.value, k, rs)
       case TUnary(name, size, k) =>
         && nodes[n] == Node(Unary(name, size), nodes[n].left, None, None) && nodes[n].left.Some?
         && Spells(nodes, nodes[n].left.value, k, rs)
       case TBinary(name, size, l, r) =>
         && nodes[n] == Node(Binary(name, size), nodes[n].left, nodes[n].right, None) && nodes[n].left.Some? && nodes[n].right.Some?
         && Spells(nodes, nodes[n].left.value, l, rs[..|Loads(l)|])
         && Spells(nodes, nodes[n].right.value, r, rs[|Loads(l)|..])
       case TCall(size, f, _) =>
         && nodes[n].op == Call(size) && nodes[n].left.Some?
         && Spells(nodes, nodes[n].left.value, f, rs[..|Loads(f)|])
       case TAsgn(_, l, r) => Spells(nodes, n, r, rs[|Loads(l)|..])
       case TRight(l, r) => if r.TNone? then Spells(nodes, n, l, rs[..|Loads(l)|]) else Spells(nodes, n, r, rs[|Loads(l)|..])
       case TPost(size, a, _) =>
         && nodes[n] == Node(Indir(size), nodes[n].left, None, None) && nodes[n].left.Some?
         && Spells(nodes, nodes[n].left.value, a, rs[..|Loads(a)|])
       case _ => true
  }

  lemma {:induction false} SpellsGrows(nodes: seq<Node>, nodes1: seq<Node>, n: nat, t: Tree, rs: seq<nat>)
    requires |rs| == |Loads(t)| && nodes <= nodes1 && Spells(nodes, n, t, rs)
    ensures Spells(nodes1, n, t, rs)
    decreases t
  {
    assert nodes1[n] == nodes[n];
    match t
    case TIndir(_, _, a) => SpellsGrows(nodes, nodes1, nodes[n].left.value, a, rs[..|Loads(a)|]);
    case TConvert(_, _, k) => SpellsGrows(nodes, nodes1, nodes[n].left.value, k, rs);
    case TUnary(_, _, k) => SpellsGrows(nodes, nodes1, nodes[n].left.value, k, rs);
    case TBinary(_, _, l, r) =>
      SpellsGrows(nodes, nodes1, nodes[n].left.value, l, rs[..|Loads(l)|]);
      SpellsGrows(nodes, nodes1, nodes[n].right.value, r, rs[|Loads(l)|..]);
    case TCall(_, f, _) => SpellsGrows(nodes, nodes1, nodes[n].left.value, f, rs[..|Loads(f)|]);
    case TAsgn(_, l, r) => SpellsGrows(nodes, nodes1, n, r, rs[|Loads(l)|..]);
    case TRight(l, r) =>
      if r.TNone? {
        SpellsGrows(nodes, nodes1, n, l, rs[..|Loads(l)|]);
      } else {
        SpellsGrows(nodes, nodes1, n, r, rs[|Loads(l)|..]);
      }
    case TPost(_, a, _) => SpellsGrows(nodes, nodes1, nodes[n].left.value, a, rs[..|Loads(a)|]);
    case _ =>
  }

  // ----- nodes that are not handed out again -----

  /** No node made before comes into a bucket. */
  ghost predicate Closed(v0: View, v1: View) {
    && v0.snap.nodes <= v1.snap.nodes
    && forall n: nat | n < |v0.snap.nodes| && Held(v1.chains, n) :: Held(v0.chains, n)
  }

  /** Between two states loads of these sizes were made in this order, and are in no bucket. */
  ghost predicate Loaded(ls: seq<nat>, v0: View, v1: View, rs: seq<nat>) {
    && Closed(v0, v1) && |rs| == |ls|
    && (forall i | 0 <= i < |rs| :: |v0.snap.nodes| <= rs[i] < |v1.snap.nodes| && v1.snap.nodes[rs[i]].op == Indir(ls[i]))
    && (forall i, j | 0 <= i < j < |rs| :: rs[i] < rs[j])
    && (forall i | 0 <= i < |rs| :: !Held(v1.chains, rs[i]))
  }

  /** The answer of a tree spells it, and is new or in a bucket before. */
  ghost predicate AnswerReads(t: Tree, v0: View, v1: View, p: Option<nat>, rs: seq<nat>)
    requires |rs| == |Loads(t)|
  {
    p.Some? ==>
      && (Yields(t) ==> Spells(v1.snap.nodes, p.value, t, rs))
      && (p.value < |v0.snap.nodes| ==> Held(v0.chains, p.value))
  }

  /** The root a tree lists last uses nodes that spell its operands. */
  ghost predicate RootReads(t: Tree, v: View, rs: seq<nat>)
    requires |rs| == |Loads(t)|
  {
    match t
    case TAsgn(size, l, r) =>
      exists a, b :: LastIs(v, Assign(a, b, size)) && Spells(v.snap.nodes, a, l, rs[..|Loads(l)|]) && Spells(v.snap.nodes, b, r, rs[|Loads(l)|..])
    case TPost(size, l, r) =>
      exists a, b :: LastIs(v, Assign(a, b, size)) && Spells(v.snap.nodes, a, l, rs[..|Loads(l)|]) && Spells(v.snap.nodes, b, r, rs[|Loads(l)|..])
    case TArg(e, before) =>
      exists a :: LastIs(v, Pass(a)) && Spells(v.snap.nodes, a, e, rs[|Loads(before)|..])
    case TCompare(_, l, r) =>
      exists c, a, b, lab :: LastIs(v, Test(c, a, b, lab))
        && Spells(v.snap.nodes, a, l, rs[..|Loads(l)|]) && Spells(v.snap.nodes, b, r, rs[|Loads(l)|..])
    case _ => true
  }

  ghost predicate LastIs(v: View, r: Root) {
    |v.snap.forest| > 0 && v.snap.forest[|v.snap.forest| - 1] == r
  }

  ghost predicate Read(t: Tree, v0: View, v1: View, p: Option<nat>, rs: seq<nat>) {
    Loaded(Loads(t), v0, v1, rs) && AnswerReads(t, v0, v1, p, rs) && RootReads(t, v1, rs) && ConditionForgets(t, v0, v1)
  }

  /** A condition that is not part of another begins with empty buckets: no node from before it is in one behind it. */
  ghost predicate ConditionForgets(t: Tree, v0: View, v1: View) {
    (t.TAnd? || t.TOr?) && v0.depth == 0 ==> forall n: nat | Held(v1.chains, n) :: |v0.snap.nodes| <= n
  }

  ghost predicate Vacant(v: View) {
    forall n: nat :: !Held(v.chains, n)
  }

  lemma EmptyVacant(v: View)
    requires forall i | 0 <= i < |v.chains| :: v.chains[i] == []
    ensures Vacant(v)
  {
  }

  lemma VacantSame(v: View, v1: View)
    requires v1.chains == v.chains
    ensures Vacant(v1) == Vacant(v)
  {
  }

  lemma VacantForgets(t: Tree, v0: View, v1: View, v2: View)
    requires v0.depth == 0 ==> Vacant(v1) && v1.snap.nodes == v0.snap.nodes
    requires Closed(v1, v2)
    ensures ConditionForgets(t, v0, v2)
  {
    hide Held;
  }

  lemma ClosedThen(v0: View, v1: View, v2: View)
    requires Closed(v0, v1) && Closed(v1, v2)
    ensures Closed(v0, v2)
  {
    hide Held;
  }

  lemma LoadedNone(v0: View, v1: View)
    requires Closed(v0, v1)
    ensures Loaded([], v0, v1, [])
  {
  }

  lemma LoadedThen(ls: seq<nat>, ls1: seq<nat>, v0: View, v1: View, v2: View, rs: seq<nat>, rs1: seq<nat>)
    requires Loaded(ls, v0, v1, rs) && Loaded(ls1, v1, v2, rs1)
    ensures Loaded(ls + ls1, v0, v2, rs + rs1)
  {
    hide Held;
  }

  lemma LoadedKept(ls: seq<nat>, v0: View, v1: View, v2: View, rs: seq<nat>)
    requires Loaded(ls, v0, v1, rs) && Closed(v1, v2)
    ensures Loaded(ls, v0, v2, rs)
  {
    hide Held;
  }

  lemma LoadedLater(ls: seq<nat>, v0: View, v1: View, v2: View, rs: seq<nat>)
    requires Closed(v0, v1) && Loaded(ls, v1, v2, rs)
    ensures Loaded(ls, v0, v2, rs)
  {
    hide Held;
  }

  lemma NothingHeld(v0: View, v1: View)
    requires v0.snap.nodes <= v1.snap.nodes && forall i | 0 <= i < |v1.chains| :: v1.chains[i] == []
    ensures Closed(v0, v1)
  {
  }

  lemma SameHeld(v0: View, v1: View)
    requires v0.snap.nodes <= v1.snap.nodes && v1.chains == v0.chains
    ensures Closed(v0, v1)
  {
  }

  /** A new node at the front of a chain. */
  lemma InsertedClosed(v: View, i: nat, p: nat, v0: View)
    requires i < |v.chains| && v0.snap.nodes <= v.snap.nodes && v.chains == v0.chains && |v0.snap.nodes| <= p
    ensures Closed(v0, Inserted(v, i, p))
  {
    forall n: nat | n < |v0.snap.nodes| && Held(Inserted(v, i, p).chains, n) ensures Held(v0.chains, n) {
      var j :| 0 <= j < |v.chains| && n in Inserted(v, i, p).chains[j];
      assert n in v.chains[j];
    }
  }

  lemma KilledClosed(v0: View, v1: View, p: Symbol)
    requires KilledIn(v0, v1, p)
    ensures Closed(v0, v1)
  {
    forall n: nat | Held(v1.chains, n) ensures Held(v0.chains, n) {
      var j :| 0 <= j < 16 && n in v1.chains[j];
      assert n in v0.chains[j];
    }
  }

  lemma MadeIs(m: Machine, v0: View, v1: View, p: nat, d: Node)
    requires Made(m, v0, v1, p, d)
    ensures p < |v1.snap.nodes| && v1.snap.nodes[p] == d
  {
  }

  lemma NodedParts(m: Machine, v: View, d: Node)
    ensures Noded(m, v, d).snap.nodes == v.snap.nodes + [d] && Noded(m, v, d).chains == v.chains
  {
  }

  lemma NewUnheld(m: Machine, index: Op -> nat, location: Option<Symbol> -> nat, v: View)
    requires InvOf(m, index, location, v)
    ensures !Held(v.chains, |v.snap.nodes|)
  {
    hide ListedFor, TabledFor, WellLinked, AddressesKnown, HashOf, Count, Narrow;
  }

  // ----- tree by tree -----

  lemma AnswerLater(v0: View, v1: View, v2: View, p: nat)
    requires Closed(v0, v1) && (p < |v1.snap.nodes| ==> Held(v1.chains, p))
    ensures p < |v0.snap.nodes| ==> Held(v0.chains, p)
  {
    hide Held;
  }

  lemma {:induction false} ReadLeaf(t: Tree, v0: View, v1: View, n: nat)
    requires (t.TAddr? || t.TCnst?) && Closed(v0, v1) && n < |v1.snap.nodes| && Held(v1.chains, n)
    requires v1.snap.nodes[n] == LeafNode(t)
    ensures Read(t, v0, v1, Some(n), [])
  {
    LoadedNone(v0, v1);
    hide Held, Loaded;
  }

  lemma {:induction false} ReadUnary(t: Tree, v0: View, v1: View, v2: View, k: nat, n: nat, rs: seq<nat>)
    requires (t.TUnary? || t.TConvert?) && Yields(t.kid) && Read(t.kid, v0, v1, Some(k), rs) && Closed(v1, v2)
    requires n < |v2.snap.nodes| && Held(v2.chains, n) && v2.snap.nodes[n] == UnaryNode(t, k)
    ensures Read(t, v0, v2, Some(n), rs)
  {
    LoadedKept(Loads(t.kid), v0, v1, v2, rs);
    ClosedThen(v0, v1, v2);
    SpellsGrows(v1.snap.nodes, v2.snap.nodes, k, t.kid, rs);
    hide Held, Loaded;
  }

  lemma {:induction false} ReadIndir(t: Tree, v0: View, v1: View, v2: View, k: nat, n: nat, rs: seq<nat>)
    requires t.TIndir? && !t.volatile && Yields(t.addr) && Read(t.addr, v0, v1, Some(k), rs) && Closed(v1, v2)
    requires n < |v2.snap.nodes| && Held(v2.chains, n) && v2.snap.nodes[n] == Node(Indir(t.size), Some(k), None, None)
    ensures Read(t, v0, v2, Some(n), rs)
  {
    LoadedKept(Loads(t.addr), v0, v1, v2, rs);
    ClosedThen(v0, v1, v2);
    SpellsGrows(v1.snap.nodes, v2.snap.nodes, k, t.addr, rs);
    assert Loads(t) == Loads(t.addr) && rs[..|Loads(t.addr)|] == rs;
    hide Held, Loaded;
  }

  /** The load of a volatile object: a node that was not there before, and that is in no bucket. */
  lemma {:induction false} ReadVolatile(t: Tree, v0: View, v1: View, v2: View, k: nat, n: nat, rs: seq<nat>)
    requires t.TIndir? && t.volatile && Yields(t.addr) && Read(t.addr, v0, v1, Some(k), rs)
    requires n == |v1.snap.nodes| && v2.snap.nodes == v1.snap.nodes + [Node(Indir(t.size), Some(k), None, None)]
    requires v2.chains == v1.chains && !Held(v1.chains, n)
    ensures Read(t, v0, v2, Some(n), rs + [n])
  {
    hide Held, Loaded, Closed, ConditionForgets, RootReads, AnswerReads;
    ReadParts(t.addr, v0, v1, Some(k), rs);
    VolatileSpells(t, v0, v1, v2, k, n, rs);
    SameHeld(v1, v2);
    OneLoaded(t.size, v1, v2, n);
    LoadedThen(Loads(t.addr), [t.size], v0, v1, v2, rs, [n]);
    VolatileAnswer(t, v0, v2, n, rs);
  }

  lemma {:induction false} VolatileSpells(t: Tree, v0: View, v1: View, v2: View, k: nat, n: nat, rs: seq<nat>)
    requires t.TIndir? && t.volatile && Yields(t.addr) && |rs| == |Loads(t.addr)| && Spells(v1.snap.nodes, k, t.addr, rs)
    requires n == |v1.snap.nodes| && v2.snap.nodes == v1.snap.nodes + [Node(Indir(t.size), Some(k), None, None)]
    ensures |rs + [n]| == |Loads(t)| && Spells(v2.snap.nodes, n, t, rs + [n])
  {
    SpellsGrows(v1.snap.nodes, v2.snap.nodes, k, t.addr, rs);
    assert (rs + [n])[..|Loads(t.addr)|] == rs;
  }

  lemma {:induction false} VolatileAnswer(t: Tree, v0: View, v2: View, n: nat, rs: seq<nat>)
    requires t.TIndir? && |rs + [n]| == |Loads(t)| && Spells(v2.snap.nodes, n, t, rs + [n]) && Loaded(Loads(t), v0, v2, rs + [n])
    ensures Read(t, v0, v2, Some(n), rs + [n])
  {
    assert (rs + [n])[|rs|] == n;
    hide Spells, Held;
  }

  lemma OneLoaded(size: nat, v1: View, v2: View, n: nat)
    requires Closed(v1, v2) && |v1.snap.nodes| <= n < |v2.snap.nodes| && v2.snap.nodes[n].op == Indir(size) && !Held(v2.chains, n)
    ensures Loaded([size], v1, v2, [n])
  {
  }

  lemma {:induction false} ReadParts(t: Tree, v0: View, v1: View, p: Option<nat>, rs: seq<nat>)
    requires Read(t, v0, v1, p, rs)
    ensures Loaded(Loads(t), v0, v1, rs) && Closed(v0, v1) && |rs| == |Loads(t)|
    ensures p.Some? && Yields(t) ==> Spells(v1.snap.nodes, p.value, t, rs)
    ensures p.Some? && p.value < |v0.snap.nodes| ==> Held(v0.chains, p.value)
  {
    hide Held, Spells, RootReads;
  }

  lemma Halves(rs: seq<nat>, rs1: seq<nat>)
    ensures (rs + rs1)[..|rs|] == rs && (rs + rs1)[|rs|..] == rs1
  {
  }

  lemma ClosedNodes(v0: View, v1: View)
    requires Closed(v0, v1)
    ensures v0.snap.nodes <= v1.snap.nodes
  {
  }

  /** Two trees, one after the other, and what follows. */
  lemma {:induction false} ReadBoth(t: Tree, l: Tree, r: Tree, v0: View, v1: View, v2: View, v3: View, p: Option<nat>, q: Option<nat>,
                                    rs: seq<nat>, rs1: seq<nat>)
    requires Read(l, v0, v1, p, rs) && Read(r, v1, v2, q, rs1) && Closed(v2, v3) && Loads(t) == Loads(l) + Loads(r)
    ensures Loaded(Loads(t), v0, v3, rs + rs1) && |rs| == |Loads(l)| && |rs1| == |Loads(r)|
    ensures p.Some? && Yields(l) ==> Spells(v3.snap.nodes, p.value, l, rs)
    ensures q.Some? && Yields(r) ==> Spells(v3.snap.nodes, q.value, r, rs1)
    ensures Closed(v0, v3) && v2.snap.nodes <= v3.snap.nodes
    ensures q.Some? && q.value < |v0.snap.nodes| ==> Held(v0.chains, q.value)
  {
    hide *;
    ReadParts(l, v0, v1, p, rs);
    ReadParts(r, v1, v2, q, rs1);
    LoadedThen(Loads(l), Loads(r), v0, v1, v2, rs, rs1);
    LoadedKept(Loads(t), v0, v2, v3, rs + rs1);
    ClosedThen(v1, v2, v3);
    ClosedThen(v0, v1, v3);
    if q.Some? {
      AnswerLater(v0, v1, v2, q.value);
    }
    if p.Some? && Yields(l) {
      ClosedNodes(v1, v3);
      SpellsGrows(v1.snap.nodes, v3.snap.nodes, p.value, l, rs);
    }
    if q.Some? && Yields(r) {
      ClosedNodes(v2, v3);
      SpellsGrows(v2.snap.nodes, v3.snap.nodes, q.value, r, rs1);
    }
    ClosedNodes(v2, v3);
  }

  lemma {:induction false} ReadBinary(t: Tree, v0: View, v1: View, v2: View, v3: View, l: nat, r: nat, n: nat, rs: seq<nat>, rs1: seq<nat>)
    requires t.TBinary? && Yields(t.left) && Yields(t.right) && Read(t.left, v0, v1, Some(l), rs) && Read(t.right, v1, v2, Some(r), rs1)
    requires Closed(v2, v3) && n < |v3.snap.nodes| && Held(v3.chains, n)
    requires v3.snap.nodes[n] == Node(Binary(t.binary, t.size), Some(l), Some(r), None)
    ensures Read(t, v0, v3, Some(n), rs + rs1)
  {
    ReadBoth(t, t.left, t.right, v0, v1, v2, v3, Some(l), Some(r), rs, rs1);
    Halves(rs, rs1);
    hide Held, Loaded;
  }

  lemma {:induction false} ReadAsgn(t: Tree, v0: View, v1: View, v2: View, v3: View, l: nat, r: nat, rs: seq<nat>, rs1: seq<nat>)
    requires t.TAsgn? && Yields(t.target) && Yields(t.source) && Read(t.target, v0, v1, Some(l), rs) && Read(t.source, v1, v2, Some(r), rs1)
    requires Closed(v2, v3) && LastIs(v3, Assign(l, r, t.size))
    ensures Read(t, v0, v3, Some(r), rs + rs1)
  {
    ReadBoth(t, t.target, t.source, v0, v1, v2, v3, Some(l), Some(r), rs, rs1);
    Halves(rs, rs1);
    hide Held, Loaded;
  }

  lemma {:induction false} ReadPost(t: Tree, v0: View, v1: View, v2: View, v3: View, v4: View, v5: View, l: nat, n: nat, r: nat,
                                    rs: seq<nat>, rs1: seq<nat>)
    requires t.TPost? && Yields(t.target) && Yields(t.source) && Read(t.target, v0, v1, Some(l), rs) && Closed(v1, v2) && Closed(v2, v3)
    requires n < |v2.snap.nodes| && Held(v2.chains, n) && v2.snap.nodes[n] == Node(Indir(t.size), Some(l), None, None)
    requires Read(t.source, v3, v4, Some(r), rs1) && Closed(v4, v5) && LastIs(v5, Assign(l, r, t.size))
    ensures Read(t, v0, v5, Some(n), rs + rs1)
  {
    ClosedThen(v1, v2, v3);
    LoadedLater(Loads(t.source), v1, v3, v4, rs1);
    LoadedThen(Loads(t.target), Loads(t.source), v0, v1, v4, rs, rs1);
    LoadedKept(Loads(t), v0, v4, v5, rs + rs1);
    SpellsGrows(v1.snap.nodes, v5.snap.nodes, l, t.target, rs);
    SpellsGrows(v4.snap.nodes, v5.snap.nodes, r, t.source, rs1);
    ClosedThen(v0, v1, v2);
    assert (rs + rs1)[..|Loads(t.target)|] == rs && (rs + rs1)[|Loads(t.target)|..] == rs1;
    assert v5.snap.nodes[n] == v2.snap.nodes[n];
    hide Held, Loaded;
  }

  lemma {:induction false} ReadCall(t: Tree, v0: View, v1: View, v2: View, v3: View, l: nat, r: Option<nat>, n: nat, rs: seq<nat>, rs1: seq<nat>)
    requires t.TCall? && Yields(t.func) && Read(t.func, v0, v1, Some(l), rs) && Read(t.args, v1, v2, r, rs1)
    requires Closed(v2, v3) && n == |v2.snap.nodes| < |v3.snap.nodes| && v3.snap.nodes[n] == Node(Call(t.size), Some(l), r, None)
    ensures Read(t, v0, v3, Some(n), rs + rs1)
  {
    ReadBoth(t, t.func, t.args, v0, v1, v2, v3, Some(l), r, rs, rs1);
    Halves(rs, rs1);
    hide Held, Loaded;
  }

  lemma {:induction false} ReadArg(t: Tree, v0: View, v1: View, v2: View, v3: View, q: Option<nat>, l: nat, rs: seq<nat>, rs1: seq<nat>)
    requires t.TArg? && Yields(t.arg) && Read(t.before, v0, v1, q, rs) && Read(t.arg, v1, v2, Some(l), rs1)
    requires Closed(v2, v3) && LastIs(v3, Pass(l))
    ensures Read(t, v0, v3, None, rs + rs1)
  {
    ReadBoth(t, t.before, t.arg, v0, v1, v2, v3, q, Some(l), rs, rs1);
    Halves(rs, rs1);
    hide Held, Loaded;
  }

  lemma {:induction false} ReadTest(t: Tree, v0: View, v1: View, v2: View, v3: View, l: nat, r: nat, c: Cond, lab: nat, rs: seq<nat>, rs1: seq<nat>)
    requires t.TCompare? && Yields(t.left) && Yields(t.right) && Read(t.left, v0, v1, Some(l), rs) && Read(t.right, v1, v2, Some(r), rs1)
    requires Closed(v2, v3) && LastIs(v3, Test(c, l, r, lab))
    ensures Read(t, v0, v3, None, rs + rs1)
  {
    ReadBoth(t, t.left, t.right, v0, v1, v2, v3, Some(l), Some(r), rs, rs1);
    Halves(rs, rs1);
    hide Held, Loaded;
  }

  lemma {:induction false} ReadRight(t: Tree, v0: View, v1: View, v2: View, q: Option<nat>, p: Option<nat>, rs: seq<nat>, rs1: seq<nat>)
    requires t.TRight? && Read(t.left, v0, v1, q, rs) && Read(t.right, v1, v2, p, rs1) && !t.right.TNone?
    ensures Read(t, v0, v2, p, rs + rs1)
  {
    SameHeld(v2, v2);
    ReadBoth(t, t.left, t.right, v0, v1, v2, v2, q, p, rs, rs1);
    Halves(rs, rs1);
    hide Held, Loaded;
  }

  lemma {:induction false} ReadLast(t: Tree, v0: View, v1: View, p: Option<nat>, rs: seq<nat>)
    requires t.TRight? && t.right.TNone? && Read(t.left, v0, v1, p, rs)
    ensures Read(t, v0, v1, p, rs)
  {
    assert Loads(t) == Loads(t.left) && rs[..|Loads(t.left)|] == rs;
    hide Held, Loaded;
  }

  lemma {:induction false} LoadedBoth(l: Tree, r: Tree, v0: View, v1: View, v2: View, v3: View, v4: View, p: Option<nat>, q: Option<nat>,
                                      rs: seq<nat>, rs1: seq<nat>)
    requires Closed(v0, v1) && Read(l, v1, v2, p, rs) && Read(r, v2, v3, q, rs1) && Closed(v3, v4)
    ensures Loaded(Loads(l) + Loads(r), v0, v4, rs + rs1)
  {
    hide AnswerReads, RootReads, Loaded, Closed;
    LoadedThen(Loads(l), Loads(r), v1, v2, v3, rs, rs1);
    LoadedLater(Loads(l) + Loads(r), v0, v1, v3, rs + rs1);
    LoadedKept(Loads(l) + Loads(r), v0, v3, v4, rs + rs1);
  }

  /** A condition: two trees, between entering and leaving. */
  lemma {:induction false} ReadCondition(t: Tree, v0: View, v1: View, v2: View, v3: View, rs: seq<nat>)
    requires (t.TAnd? || t.TOr?) && Closed(v0, v1) && Loaded(Loads(t.left) + Loads(t.right), v1, v2, rs) && Closed(v2, v3)
    requires v0.depth == 0 ==> Vacant(v1) && v1.snap.nodes == v0.snap.nodes
    ensures Read(t, v0, v3, None, rs)
  {
    ClosedThen(v1, v2, v3);
    VacantForgets(t, v0, v1, v3);
    LoadedLater(Loads(t), v0, v1, v2, rs);
    LoadedKept(Loads(t), v0, v2, v3, rs);
    hide Loaded, ConditionForgets;
  }

  lemma {:induction false} ReadNot(t: Tree, v0: View, v1: View, p: Option<nat>, rs: seq<nat>)
    requires t.TNot? && Read(t.kid, v0, v1, p, rs)
    ensures Read(t, v0, v1, p, rs)
  {
  }

  lemma {:induction false} ReadNothing(t: Tree, v0: View, v1: View)
    requires (t.TNone? || t.TCnst?) && Closed(v0, v1)
    ensures Read(t, v0, v1, None, [])
  {
    LoadedNone(v0, v1);
    hide Loaded;
  }

  /** No tree that is listed later is answered with a volatile load made before. */
  lemma NeverAgain(ls: seq<nat>, v0: View, v1: View, v2: View, v3: View, t: Tree, q: nat, rs: seq<nat>, rs1: seq<nat>, i: nat)
    requires Loaded(ls, v0, v1, rs) && Closed(v1, v2) && Read(t, v2, v3, Some(q), rs1) && i < |rs|
    ensures q != rs[i]
  {
    LoadedKept(ls, v0, v1, v2, rs);
    hide Held, RootReads, Spells;
  }

  /** `z + z` for a volatile z reads twice (lcc/tst/front.c:27-31). */
  lemma {:induction false} TwoReads(name: BinaryName, size: nat, a: Tree, b: Tree, v0: View, v1: View, p: nat, rs: seq<nat>)
    requires var t := TBinary(name, size, TIndir(size, true, a), TIndir(size, true, b)); Read(t, v0, v1, Some(p), rs)
    ensures p < |v1.snap.nodes| && v1.snap.nodes[p].left.Some? && v1.snap.nodes[p].right.Some?
    ensures v1.snap.nodes[p].left != v1.snap.nodes[p].right
  {
    var l, r := TIndir(size, true, a), TIndir(size, true, b);
    var t := TBinary(name, size, l, r);
    assert Loads(t) == Loads(l) + Loads(r) && Spells(v1.snap.nodes, p, t, rs);
    var x, y := v1.snap.nodes[p].left.value, v1.snap.nodes[p].right.value;
    assert Spells(v1.snap.nodes, x, l, rs[..|Loads(l)|]) && Spells(v1.snap.nodes, y, r, rs[|Loads(l)|..]);
    assert x == rs[|Loads(a)|] && y == rs[|Loads(l)| + |Loads(b)|];
  }
}

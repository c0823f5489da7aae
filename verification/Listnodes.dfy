/** `listnodes` (lcc/src/dag.c:102-378): trees to nodes and roots, with labels for conditions.  What a tree
    means is compared with both runs of its roots: the one at built values for every tree, and the late one,
    which the code has, for steady trees, where nothing between the making of a load and its use may write
    what it reads. */
module Listnodes {
  import opened Words
  import opened Dag
  import opened Roots
  import opened Late
  import opened Trees
  import opened Builder
  import opened Reads

  class Lister {
    ghost const m: Machine
    const index: Op -> nat
    const location: Option<Symbol> -> nat
    var nodes: seq<Node>
    const buckets: array<seq<nat>>
    var nodecount: nat
    var depth: nat
    var labels: nat
    var forest: seq<Root>
    var equated: map<nat, nat>
    ghost var born: seq<nat>
    ghost var floors: seq<nat>
    ghost var floor: nat
    ghost var vals: seq<Val>
    ghost var start: Flow
    ghost var flow: Flow
    ghost var placed: set<nat>

    constructor (index: Op -> nat, location: Option<Symbol> -> nat, ghost m: Machine, ghost st: Store)
      ensures Valid() && fresh(buckets) && nodes == [] && forest == [] && depth == 0 && flow == At(st)
      ensures this.m == m
    {
      this.index, this.location, this.m := index, location, m;
      nodes, forest, equated, nodecount, depth, labels := [], [], map[], 0, 0, 1;
      born, floors, floor := [], [], 0;
      vals, start, flow, placed := [], At(st), At(st), {};
      buckets := new seq<nat>[16](i => []);
      new;
      assert forall i | 0 <= i < 16 :: buckets[..][i] == [];
      CountZero(buckets[..]);
    }

    ghost function Now(): Snap
      reads this
    {
      Snap(nodes, born, forest, floors, floor)
    }

    ghost function Here(): View
      reads this, buckets
    {
      View(Now(), vals, equated, labels, placed, depth, start, flow, nodecount, buckets[..])
    }

    /** All but what must hold of the nodes in the buckets. */
    ghost predicate Inv()
      reads this, buckets
    {
      buckets.Length == 16 && InvOf(m, index, location, Here())
    }

    ghost predicate Valid()
      reads this, buckets
    {
      Inv() && SoundOf(m, Here())
    }

    method Attach(d: Node, ghost x: Val) returns (p: nat)
      modifies this`nodes, this`vals, this`born
      ensures p == |old(nodes)| && Here() == old(Here()).(snap := AddNode(old(Now()), d), vals := old(vals) + [x])
    {
      p := |nodes|;
      nodes, vals, born := nodes + [d], vals + [x], born + [|forest|];
    }

    method NewNode(op: Op, l: Option<nat>, r: Option<nat>, sym: Option<Symbol>) returns (p: nat)
      requires Valid() && Buildable(m, Here(), Node(op, l, r, sym))
      modifies this`nodes, this`vals, this`born
      ensures Valid() && Made(m, old(Here()), Here(), p, Node(op, l, r, sym))
      ensures p == |old(nodes)| && Here() == Noded(m, old(Here()), Node(op, l, r, sym)) && NewHere(m, Here(), p)
      ensures !Held(buckets[..], p)
    {
      var d := Node(op, l, r, sym);
      NewUnheld(m, index, location, Here());
      NodedInv(m, index, location, Here(), d);
      hide InvOf, SoundOf, Buildable, NewValue, Made, NewHere, Held;
      p := Attach(d, NewValue(m, Here(), d));
    }

    method GetNode(op: Op, l: Option<nat>, r: Option<nat>, sym: Option<Symbol>) returns (p: nat)
      requires Valid() && Buildable(m, Here(), Node(op, l, r, sym))
      modifies this`nodes, this`vals, this`born, this`nodecount, buckets
      ensures Valid() && Made(m, old(Here()), Here(), p, Node(op, l, r, sym))
      ensures Held(buckets[..], p)
      ensures (exists q: nat :: old(Held(buckets[..], q)) && q < |old(nodes)| && old(nodes)[q] == Node(op, l, r, sym))
              ==> nodes == old(nodes)
      ensures Closed(old(Here()), Here())
    {
      hide InvOf, SoundOf, Buildable, NewValue, Made, NewHere, Held, HashOf, Closed;
      var i := HashIndex(op, sym);
      var found := Find(i, Node(op, l, r, sym));
      if found.Some? {
        p := found.value;
        HeldMade(m, index, location, Here(), p);
        SameHeld(Here(), Here());
        return;
      }
      p := NewNode(op, l, r, sym);
      ghost var v1 := Here();
      Insert(i, p);
      MadeInserted(m, old(Here()), v1, Here(), p, Node(op, l, r, sym));
      InsertedClosed(v1, i, p, old(Here()));
    }

    /** A new node goes to the front of its chain. */
    method Insert(i: nat, p: nat)
      requires Valid() && NewHere(m, Here(), p) && i < 16 && i == HashOf(index, location, nodes[p].op, nodes[p].sym)
      modifies this`nodecount, buckets
      ensures Valid() && i < |old(Here()).chains| && Here() == Inserted(old(Here()), i, p) && Held(buckets[..], p)
    {
      ghost var v := Here();
      InsertedInv(m, index, location, v, i, p);
      hide InvOf, SoundOf, NewHere, Held, HashOf;
      buckets[i] := [p] + buckets[i];
      nodecount := nodecount + 1;
      assert buckets[..] == v.chains[i := [p] + v.chains[i]];
    }

    method HashIndex(op: Op, sym: Option<Symbol>) returns (i: nat)
      ensures i == HashOf(index, location, op, sym) && i < 16
    {
      BitsBound(Xor, index(op) % 16, location(sym) / 4 % 16, 4);
      assert Pow2(4) == 16;
      i := HashOf(index, location, op, sym);
    }

    /** The walk along one chain. */
    method Find(i: nat, d: Node) returns (found: Option<nat>)
      requires Inv() && i < 16 && i == HashOf(index, location, d.op, d.sym)
      ensures found.Some? ==> found.value < |nodes| && nodes[found.value] == d && Held(buckets[..], found.value)
      ensures found.None? ==> !exists q: nat :: Held(buckets[..], q) && q < |nodes| && nodes[q] == d
    {
      assert forall j, n: nat | 0 <= j < 16 && n in buckets[..][j] :: n < |nodes|;
      hide InvOf, HashOf;
      var k := 0;
      assert buckets[..][i] == buckets[i];
      assert forall j | 0 <= j < |buckets[i]| :: buckets[i][j] in buckets[..][i];
      while k < |buckets[i]|
        invariant k <= |buckets[i]|
        invariant forall j | 0 <= j < k :: buckets[i][j] < |nodes| && nodes[buckets[i][j]] != d
      {
        assert buckets[i][k] in buckets[..][i];
        if nodes[buckets[i][k]] == d {
          return Some(buckets[i][k]);
        }
        k := k + 1;
      }
      found := None;
      NoneHeld(i, d);
    }

    lemma NoneHeld(i: nat, d: Node)
      requires Inv() && i < 16 && HashOf(index, location, d.op, d.sym) == i
      requires forall j | 0 <= j < |buckets[i]| :: buckets[i][j] < |nodes| && nodes[buckets[i][j]] != d
      ensures !exists q: nat :: Held(buckets[..], q) && q < |nodes| && nodes[q] == d
    {
      hide ListedFor, TabledFor, AddressesKnown, Narrow, Count, HashOf, WellLinked;
      forall q: nat | Held(buckets[..], q) && q < |nodes| ensures nodes[q] != d {
        var j :| 0 <= j < 16 && q in buckets[..][j];
        assert buckets[..][j] == buckets[j];
      }
    }

    method Reset()
      requires Inv()
      modifies this`nodecount, buckets
      ensures Valid() && Here() == Cleared(old(Here())) && forall i | 0 <= i < 16 :: buckets[i] == []
      ensures Closed(old(Here()), Here())
    {
      ClearedInv(m, index, location, Here());
      hide InvOf, SoundOf;
      assert forall i | 0 <= i < 16 :: buckets[..][i] == buckets[i];
      if nodecount > 0 {
        forall i | 0 <= i < 16 {
          buckets[i] := [];
        }
      }
      nodecount := 0;
      assert buckets[..] == Empty();
      NothingHeld(old(Here()), Here());
    }

    /** The part of `killnodes` that follows one chain. */
    method KillChain(chain: seq<nat>, p: Symbol) returns (kept: seq<nat>)
      requires (forall n: nat | n in chain :: n < |nodes|) && WellLinked(nodes) && |chain| <= nodecount
      modifies this`nodecount
      ensures kept == Survivors(nodes, chain, p)
      ensures nodecount + |chain| == old(nodecount) + |kept|
    {
      hide Survivors, WellLinked;
      kept := [];
      var k := 0;
      assert chain[0..] == chain && [] + Survivors(nodes, chain, p) == Survivors(nodes, chain, p);
      while k < |chain|
        invariant k <= |chain|
        invariant kept + Survivors(nodes, chain[k..], p) == Survivors(nodes, chain, p)
        invariant nodecount + k == old(nodecount) + |kept|
      {
        SurvivorsStep(nodes, chain, k, p, kept);
        var c := chain[k];
        if nodes[c].op.Indir? && (!IsAddress(nodes, nodes[c].left) || nodes[nodes[c].left.value].sym == Some(p)) {
          nodecount := nodecount - 1;
        } else {
          kept := kept + [c];
        }
        k := k + 1;
      }
      SurvivorsEnd(nodes, chain[k..], p, kept);
    }

    /** `killnodes`: the links of every chain are followed, and killed nodes are taken out. */
    method KillNodes(p: Symbol)
      requires Inv()
      modifies this`nodecount, buckets
      ensures Inv() && KilledIn(old(Here()), Here(), p)
    {
      ghost var v, all := Here(), buckets[..];
      ChainsIn();
      hide InvOf, WellLinked, Survivors, Count;
      var i := 0;
      while i < 16
        invariant i <= 16 && buckets.Length == 16
        invariant forall j | 0 <= j < i :: buckets[..][j] == Survivors(nodes, all[j], p)
        invariant forall j | i <= j < 16 :: buckets[..][j] == all[j]
        invariant nodecount == Count(buckets[..])
      {
        ghost var cur := buckets[..];
        assert cur[i] == all[i] == buckets[i];
        CountUpdate(cur, i, []);
        var kept := KillChain(buckets[i], p);
        CountUpdate(cur, i, kept);
        buckets[i] := kept;
        assert buckets[..] == cur[i := kept];
        i := i + 1;
      }
      KilledInv(m, index, location, v, Here(), p);
    }

    lemma ChainsIn()
      requires Inv()
      ensures WellLinked(nodes) && nodecount == Count(buckets[..])
      ensures forall i, n: nat | 0 <= i < 16 && n in buckets[..][i] :: n < |nodes|
    {
      hide ListedFor, TabledFor, AddressesKnown, Narrow, Count, HashOf, WellLinked;
    }

    method GenLabel(n: nat) returns (lab: nat)
      requires Valid() && 1 <= n
      modifies this`labels
      ensures Valid() && lab == old(labels) && Here() == old(Here()).(labels := old(labels) + n)
      ensures Sane(old(Here())) && Sane(Here())
    {
      ghost var v := Here();
      LabelsInv(m, index, location, v, n);
      Sanity(m, index, location, v);
      Sanity(m, index, location, v.(labels := v.labels + n));
      hide InvOf, Sane, HeldOk, Coherent;
      lab := labels;
      labels := labels + n;
      assert Here() == v.(labels := v.labels + n);
    }

    method Append(r: Root)
      modifies this`forest, this`floors
      ensures Here() == old(Here()).(snap := old(Now()).(forest := old(forest) + [r], floors := old(floors) + [floor]))
    {
      floors := floors + [floor];
      forest := forest + [r];
    }

    /** `list`: a root goes to the end of the list. */
    method List(r: Root)
      requires Inv() && Listable(m, Here(), r)
      modifies this`forest, this`flow, this`placed, this`floors, this`floor
      ensures Inv() && Here() == Rooted(m, old(Here()), r)
    {
      ghost var v := Here();
      RootedInv(m, index, location, v, r);
      RootedParts(m, v, r);
      ghost var w := Rooted(m, v, r);
      hide InvOf, Rooted, Listable;
      Append(r);
      flow, placed, floor := w.flow, w.placed, w.snap.floor;
      assert Here() == w;
    }

    /** A root that writes nothing. */
    method ListQuiet(r: Root)
      requires Valid() && Listable(m, Here(), r) && (r.Pass? || r.Force? || r.Goto? || r.Test?)
      modifies this`forest, this`flow, this`placed, this`floors, this`floor
      ensures Valid() && After(m, old(Here()), Here(), r) && Closed(old(Here()), Here()) && LastIs(Here(), r)
    {
      ghost var v := Here();
      Sanity(m, index, location, v);
      QuietSound(m, v, r);
      hide InvOf, SoundOf, Exec, RootMeasured, Sane;
      List(r);
      Sanity(m, index, location, Here());
      RootedParts(m, v, r);
      SameHeld(v, Here());
    }

    /** A forced load is listed only once. */
    method ListForce(n: nat)
      requires Valid() && Listable(m, Here(), Force(n))
      modifies this`forest, this`flow, this`placed, this`floors, this`floor
      ensures Valid()
      ensures After(m, old(Here()), Here(), Force(n)) || (Here() == old(Here()) && Force(n) in old(Now()).forest)
      ensures Closed(old(Here()), Here())
    {
      if Force(n) in forest {
        SameHeld(Here(), Here());
        return;
      }
      hide InvOf, SoundOf, After, Closed;
      ListQuiet(Force(n));
    }

    /** A call: the node, whose value is what the callee returns, and the root that calls. */
    method ListInvoke(size: nat, l: Option<nat>, r: Option<nat>) returns (p: nat)
      requires Inv() && WellFormedNode(Node(Call(size), l, r, None), |nodes|)
      modifies this`nodes, this`vals, this`born, this`forest, this`flow, this`floors
      ensures |old(Here()).vals| == |old(Here()).snap.nodes|
      ensures Inv() && p == |old(nodes)| && Here() == Invoked(m, old(Here()), Node(Call(size), l, r, None))
    {
      var d := Node(Call(size), l, r, None);
      ghost var v := Here();
      InvokedInv(m, index, location, v, d);
      InvokedParts(m, v, d);
      ghost var w := Invoked(m, v, d);
      hide InvOf, WellFormedNode, ValueOf, Invoked;
      p := Attach(d, w.vals[|vals|]);
      flow, forest, floors := w.flow, forest + [Invoke(p)], floors + [floor];
      assert Here() == w;
    }

    method LabelNode(lab: nat)
      requires Valid() && lab !in placed && lab < labels
      modifies this`forest, this`flow, this`placed, this`equated, this`floors, this`floor, this`nodecount, buckets
      ensures Valid() && Placed(old(Here()), Here(), lab) && Closed(old(Here()), Here())
    {
      ghost var v := Here();
      if |forest| > 0 && forest[|forest| - 1].Label? {
        EquatedInv(m, index, location, v, lab);
        hide InvOf, SoundOf, Placed;
        equated := equated[lab := forest[|forest| - 1].lab];
        placed := placed + {lab};
        flow := Landed(flow, lab);
        floor := |nodes|;
        assert Here() == Equated(v, lab);
      } else {
        LabelledInv(m, index, location, v, lab);
        hide InvOf, SoundOf, Placed, Listable;
        List(Label(lab));
      }
      Reset();
      NothingHeld(v, Here());
    }

    /** The end of an assignment: the store is listed, and loads it may change are dropped. */
    method StoreAndKill(t: Tree, l: nat, r: nat, size: nat)
      requires Valid() && Storable(m, Here(), t, l, r, size)
      modifies this, buckets
      ensures Valid() && After(m, old(Here()), Here(), Assign(l, r, size))
      ensures Closed(old(Here()), Here()) && LastIs(Here(), Assign(l, r, size))
    {
      ghost var v0 := Here();
      Sanity(m, index, location, v0);
      StoreListable(m, v0, t, l, r, size);
      RootedParts(m, v0, Assign(l, r, size));
      hide InvOf, SoundOf, Storable, Listable, Sane, Exec, Survivors, Closed, Rooted, KilledIn;
      List(Assign(l, r, size));
      SameHeld(v0, Here());
      if t.TAddr? && t.sym.Variable? && !t.sym.computed {
        ghost var v1 := Here();
        KillNodes(t.sym);
        KilledClosed(v1, Here(), t.sym);
        ClosedThen(v0, v1, Here());
        StoredSound(m, index, location, v0, v1, Here(), t, l, r, size);
      } else {
        ghost var v1 := Here();
        Reset();
        ClosedThen(v0, v1, Here());
      }
      Sanity(m, index, location, Here());
    }

    // ----- trees -----

    method ListLeaf(t: Tree) returns (p: Option<nat>, ghost rs: seq<nat>)
      requires Valid() && (t.TAddr? || t.TCnst?)
      modifies this, buckets
      ensures Valid() && Done(m, t, 0, 0, old(Here()), Here(), p) && Read(t, old(Here()), Here(), p, rs)
    {
      hide InvOf, SoundOf, Done, Made, Read, Closed, Held;
      var n: nat;
      if t.TAddr? {
        n := GetNode(Addr(t.kind), None, None, Some(t.sym));
      } else {
        n := GetNode(Cnst(t.size), None, None, Some(Constant(t.size, t.value)));
      }
      p, rs := Some(n), [];
      LeafDone(m, t, old(Here()), Here(), n);
      MadeIs(m, old(Here()), Here(), n, LeafNode(t));
      ReadLeaf(t, old(Here()), Here(), n);
    }

    method ListUnary(t: Tree) returns (p: Option<nat>, ghost rs: seq<nat>)
      requires Valid() && Can(m, t, 0, 0, labels) && (t.TUnary? || t.TConvert?)
      modifies this, buckets
      ensures Valid() && Done(m, t, 0, 0, old(Here()), Here(), p) && Read(t, old(Here()), Here(), p, rs)
      decreases t, 1
    {
      hide InvOf, SoundOf, Can, Done, Made, Read, Closed, Held;
      CanOne(m, t, 0, 0, labels, labels);
      var k, rs0 := ListNodes(t.kid, 0, 0);
      rs := rs0;
      ghost var v1 := Here();
      DoneGrew(m, t.kid, 0, 0, old(Here()), v1, k);
      var n: nat;
      if t.TUnary? {
        n := GetNode(Unary(t.unary, t.size), k, None, None);
      } else {
        n := GetNode(Convert(t.size), k, None, ConstantOf(1, t.from));
      }
      p := Some(n);
      UnaryDone(m, t, old(Here()), v1, Here(), k.value, n);
      MadeIs(m, v1, Here(), n, UnaryNode(t, k.value));
      ReadUnary(t, old(Here()), v1, Here(), k.value, n, rs);
    }

    method ListBinary(t: Tree) returns (p: Option<nat>, ghost rs: seq<nat>)
      requires Valid() && Can(m, t, 0, 0, labels) && t.TBinary?
      modifies this, buckets
      ensures Valid() && Done(m, t, 0, 0, old(Here()), Here(), p) && Read(t, old(Here()), Here(), p, rs)
      decreases t, 1
    {
      hide InvOf, SoundOf, Can, Done, Made, Grew, Sane, Read, Closed, Held;
      CanTwo(m, t, 0, 0, labels, labels);
      var l, rs1 := ListNodes(t.left, 0, 0);
      ghost var v1 := Here();
      DoneGrew(m, t.left, 0, 0, old(Here()), v1, l);
      CanTwo(m, t, 0, 0, old(labels), labels);
      var r, rs2 := ListNodes(t.right, 0, 0);
      ghost var v2 := Here();
      DoneGrew(m, t.right, 0, 0, v1, v2, r);
      var n := GetNode(Binary(t.binary, t.size), l, r, None);
      p, rs := Some(n), rs1 + rs2;
      BinaryDone(m, t, old(Here()), v1, v2, Here(), l.value, r.value, n);
      MadeIs(m, v2, Here(), n, Node(Binary(t.binary, t.size), l, r, None));
      ReadBinary(t, old(Here()), v1, v2, Here(), l.value, r.value, n, rs1, rs2);
    }

    method ListIndir(t: Tree) returns (p: Option<nat>, ghost rs: seq<nat>)
      requires Valid() && Can(m, t, 0, 0, labels) && t.TIndir?
      modifies this, buckets
      ensures Valid() && Done(m, t, 0, 0, old(Here()), Here(), p) && Read(t, old(Here()), Here(), p, rs)
      decreases t, 1
    {
      hide InvOf, SoundOf, Can, Done, Made, Grew, Sane, Buildable, NewHere, Read, Closed, Held;
      CanOne(m, t, 0, 0, labels, labels);
      var l, rs0 := ListNodes(t.addr, 0, 0);
      ghost var v1 := Here();
      DoneGrew(m, t.addr, 0, 0, old(Here()), v1, l);
      IndirBuildable(m, t, old(labels), old(Here()), v1, l.value);
      var n: nat;
      if t.volatile {
        n := NewNode(Indir(t.size), l, None, None);
        rs := rs0 + [n];
        NodedParts(m, v1, Node(Indir(t.size), l, None, None));
        ReadVolatile(t, old(Here()), v1, Here(), l.value, n, rs0);
      } else {
        n := GetNode(Indir(t.size), l, None, None);
        rs := rs0;
        MadeIs(m, v1, Here(), n, Node(Indir(t.size), l, None, None));
        ReadIndir(t, old(Here()), v1, Here(), l.value, n, rs0);
      }
      p := Some(n);
      IndirDone(m, t, old(Here()), v1, Here(), l.value, n);
    }

    method ListAsgn(t: Tree) returns (p: Option<nat>, ghost rs: seq<nat>)
      requires Valid() && Can(m, t, 0, 0, labels) && t.TAsgn?
      modifies this, buckets
      ensures Valid() && Done(m, t, 0, 0, old(Here()), Here(), p) && Read(t, old(Here()), Here(), p, rs)
      decreases t, 1
    {
      hide InvOf, SoundOf, Can, Done, Grew, Sane, Storable, After, Read, Closed, LastIs;
      CanTwo(m, t, 0, 0, labels, labels);
      var l, rs1 := ListNodes(t.target, 0, 0);
      ghost var v1 := Here();
      DoneGrew(m, t.target, 0, 0, old(Here()), v1, l);
      CanTwo(m, t, 0, 0, old(labels), labels);
      var r, rs2 := ListNodes(t.source, 0, 0);
      ghost var v2 := Here();
      DoneGrew(m, t.source, 0, 0, v1, v2, r);
      NodesGrew(v1, v2);
      AsgnStorable(m, t, old(labels), old(Here()), v1, v2, l.value, r.value);
      StoreAndKill(t.target, l.value, r.value, t.size);
      p, rs := r, rs1 + rs2;
      AsgnDone(m, t, old(Here()), v1, v2, Here(), l.value, r.value);
      ReadAsgn(t, old(Here()), v1, v2, Here(), l.value, r.value, rs1, rs2);
    }

    method ListPost(t: Tree) returns (p: Option<nat>, ghost rs: seq<nat>)
      requires Valid() && Can(m, t, 0, 0, labels) && t.TPost?
      modifies this, buckets
      ensures Valid() && Done(m, t, 0, 0, old(Here()), Here(), p) && Read(t, old(Here()), Here(), p, rs)
      decreases t, 1
    {
      hide InvOf, SoundOf, Can, Done, Grew, Sane, Storable, After, Buildable, Made, Listable, Read, Closed, LastIs, Held;
      CanTwo(m, t, 0, 0, labels, labels);
      var l, rs1 := ListNodes(t.target, 0, 0);
      ghost var v1 := Here();
      DoneGrew(m, t.target, 0, 0, old(Here()), v1, l);
      PostBuildable(m, t, old(labels), old(Here()), v1, l.value);
      var n := GetNode(Indir(t.size), l, None, None);
      ghost var v2 := Here();
      MadeListable(m, v1, v2, n, Node(Indir(t.size), l, None, None));
      ListForce(n);
      ghost var v3 := Here();
      ForcedGrew(m, v1, v2, v3, n);
      CanTwo(m, t, 0, 0, old(labels), labels);
      var r, rs2 := ListNodes(t.source, 0, 0);
      ghost var v4 := Here();
      DoneGrew(m, t.source, 0, 0, v3, v4, r);
      GrewThen(v1, v3, v4);
      NodesGrew(v1, v4);
      AsgnStorable(m, t, old(labels), old(Here()), v1, v4, l.value, r.value);
      StoreAndKill(t.target, l.value, r.value, t.size);
      p, rs := Some(n), rs1 + rs2;
      PostDone(m, t, old(Here()), v1, v2, v3, v4, Here(), l.value, n, r.value);
      MadeIs(m, v1, v2, n, Node(Indir(t.size), l, None, None));
      ReadPost(t, old(Here()), v1, v2, v3, v4, Here(), l.value, n, r.value, rs1, rs2);
    }

    method ListCall(t: Tree) returns (p: Option<nat>, ghost rs: seq<nat>)
      requires Valid() && Can(m, t, 0, 0, labels) && t.TCall?
      modifies this, buckets
      ensures Valid() && Done(m, t, 0, 0, old(Here()), Here(), p) && Read(t, old(Here()), Here(), p, rs)
      decreases t, 1
    {
      hide InvOf, SoundOf, Can, Done, Grew, Sane, Invoked, Called, Read, Closed;
      CanMixed(m, t, 0, 0, labels, labels);
      var l, rs1 := ListNodes(t.func, 0, 0);
      ghost var v1 := Here();
      DoneGrew(m, t.func, 0, 0, old(Here()), v1, l);
      CanMixed(m, t, 0, 0, old(labels), labels);
      var r, rs2 := ListNodes(t.args, 0, 0);
      ghost var v2 := Here();
      DoneGrew(m, t.args, 0, 0, v1, v2, r);
      var n := ListInvoke(t.size, l, r);
      ghost var v3 := Here();
      InvokedParts(m, v2, Node(Call(t.size), l, r, None));
      SameHeld(v2, v3);
      Reset();
      ClosedThen(v2, v3, Here());
      p, rs := Some(n), rs1 + rs2;
      ReadCall(t, old(Here()), v1, v2, Here(), l.value, r, n, rs1, rs2);
      CalledCleared(m, index, location, v2, Here(), Node(Call(t.size), l, r, None));
      CallDone(m, t, old(Here()), v1, v2, Here(), l.value, r);
    }

    method ListArg(t: Tree) returns (p: Option<nat>, ghost rs: seq<nat>)
      requires Valid() && Can(m, t, 0, 0, labels) && t.TArg?
      modifies this, buckets
      ensures Valid() && Done(m, t, 0, 0, old(Here()), Here(), p) && Read(t, old(Here()), Here(), p, rs)
      decreases t, 1
    {
      hide InvOf, SoundOf, Can, Done, Grew, Sane, After, Read, Closed, LastIs;
      CanMixed(m, t, 0, 0, labels, labels);
      p, rs := ListNodes(t.before, 0, 0);
      ghost var rs1 := rs;
      ghost var v1, q := Here(), p;
      DoneGrew(m, t.before, 0, 0, old(Here()), v1, q);
      CanMixed(m, t, 0, 0, old(labels), labels);
      var l, rs2 := ListNodes(t.arg, 0, 0);
      ghost var v2 := Here();
      DoneGrew(m, t.arg, 0, 0, v1, v2, l);
      ListQuiet(Pass(l.value));
      p, rs := None, rs1 + rs2;
      ArgDone(m, t, old(Here()), v1, v2, Here(), q, l.value);
      ReadArg(t, old(Here()), v1, v2, Here(), q, l.value, rs1, rs2);
    }

    method ListRight(t: Tree, tlab: nat, flab: nat) returns (p: Option<nat>, ghost rs: seq<nat>)
      requires Valid() && Can(m, t, tlab, flab, labels) && t.TRight?
      modifies this, buckets
      ensures Valid() && Done(m, t, tlab, flab, old(Here()), Here(), p) && Read(t, old(Here()), Here(), p, rs)
      decreases t, 1
    {
      CanMixed(m, t, tlab, flab, labels, labels);
      CanAnd(m, t, tlab, flab, labels);
      hide InvOf, SoundOf, Can, Done, Grew, Sane, Read;
      if t.right.TNone? {
        p, rs := ListNodes(t.left, tlab, flab);
        LastDone(m, t, tlab, flab, old(Here()), Here(), p);
        ReadLast(t, old(Here()), Here(), p, rs);
      } else {
        p, rs := ListNodes(t.left, 0, 0);
        ghost var v1, q, rs1 := Here(), p, rs;
        DoneGrew(m, t.left, 0, 0, old(Here()), v1, q);
        CanMixed(m, t, tlab, flab, old(labels), labels);
        p, rs := ListNodes(t.right, tlab, flab);
        RightDone(m, t, tlab, flab, old(Here()), v1, Here(), q, p);
        ReadRight(t, old(Here()), v1, Here(), q, p, rs1, rs);
        rs := rs1 + rs;
      }
    }

    /** `if (depth++ == 0) reset();` */
    method EnterCondition()
      requires Valid()
      modifies this`depth, this`nodecount, buckets
      ensures Valid() && Entered(old(Here()), Here()) && Closed(old(Here()), Here())
      ensures old(depth) == 0 ==> Vacant(Here()) && nodes == old(nodes)
    {
      hide InvOf, SoundOf, Closed, Vacant;
      SameHeld(Here(), Here());
      if depth == 0 {
        Reset();
        EmptyVacant(Here());
      }
      ghost var v := Here();
      DepthInv(m, index, location, v, depth + 1);
      depth := depth + 1;
      assert Here() == v.(depth := v.depth + 1);
      VacantSame(v, Here());
      SameHeld(v, Here());
      ClosedThen(old(Here()), v, Here());
    }

    method LeaveCondition()
      requires Valid() && depth > 0
      modifies this`depth
      ensures Valid() && Here() == old(Here()).(depth := old(depth) - 1)
    {
      ghost var v := Here();
      DepthInv(m, index, location, v, depth - 1);
      hide InvOf, SoundOf;
      depth := depth - 1;
      assert Here() == v.(depth := v.depth - 1);
    }

    /** Two conditions with a common exit: the second runs only when the first falls through. */
    method ListBoth(ghost t: Tree, l: Tree, r: Tree, tlab: nat, flab: nat) returns (ghost rs: seq<nat>)
      requires l < t && r < t
      requires Valid() && Can(m, l, tlab, flab, labels) && Can(m, r, tlab, flab, labels) && (tlab != 0 || flab != 0)
      modifies this, buckets
      ensures Valid() && BothDone(m, l, r, tlab, flab, old(Here()), Here())
      ensures Loaded(Loads(l) + Loads(r), old(Here()), Here(), rs)
      decreases t, 0
    {
      hide InvOf, SoundOf, Can, Done, Grew, Sane, BothDone, Read, Loaded;
      var q, rs1 := ListNodes(l, tlab, flab);
      ghost var v1, q1 := Here(), q;
      DoneGrew(m, l, tlab, flab, old(Here()), v1, q);
      CanMore(m, r, tlab, flab, old(labels), labels);
      q, rs := ListNodes(r, tlab, flab);
      BothAre(m, l, r, tlab, flab, old(Here()), v1, Here(), q1, q);
      SameHeld(old(Here()), old(Here()));
      SameHeld(Here(), Here());
      LoadedBoth(l, r, old(Here()), old(Here()), v1, Here(), Here(), q1, q, rs1, rs);
      rs := rs1 + rs;
    }

    /** The first condition jumps over the second tree to a new label behind it. */
    method ListSkipping(ghost t: Tree, l: Tree, r: Tree, whenTrue: bool, tlab: nat, flab: nat) returns (ghost rs: seq<nat>)
      requires l < t && r < t
      requires Valid() && Can(m, l, if whenTrue then labels else 0, if whenTrue then 0 else labels, labels + 1)
      requires Can(m, r, tlab, flab, labels)
      modifies this, buckets
      ensures Valid() && SkipDone(m, l, r, whenTrue, tlab, flab, old(Here()), Here())
      ensures Loaded(Loads(l) + Loads(r), old(Here()), Here(), rs)
      decreases t, 0
    {
      hide InvOf, SoundOf, Can, Done, Grew, Sane, SkipDone, Placed, Read, Loaded, Closed;
      var lab := GenLabel(1);
      ghost var v1 := Here();
      SameHeld(old(Here()), v1);
      var q, rs1 := ListNodes(l, if whenTrue then lab else 0, if whenTrue then 0 else lab);
      ghost var v2, q1 := Here(), q;
      DoneGrew(m, l, if whenTrue then lab else 0, if whenTrue then 0 else lab, v1, v2, q);
      CanMore(m, r, tlab, flab, old(labels), labels);
      q, rs := ListNodes(r, tlab, flab);
      ghost var v3 := Here();
      StillFree(m, l, r, if whenTrue then lab else 0, if whenTrue then 0 else lab, tlab, flab, old(Here()), v1, v2, v3, q1, q);
      LabelNode(lab);
      SkipIs(m, l, r, whenTrue, tlab, flab, old(Here()), v1, v2, v3, Here(), q1, q);
      LoadedBoth(l, r, old(Here()), v1, v2, v3, Here(), q1, q, rs1, rs);
      rs := rs1 + rs;
    }

    method ListAnd(t: Tree, tlab: nat, flab: nat) returns (ghost rs: seq<nat>)
      requires Valid() && Can(m, t, tlab, flab, labels) && t.TAnd?
      modifies this, buckets
      ensures Valid() && Done(m, t, tlab, flab, old(Here()), Here(), None) && Read(t, old(Here()), Here(), None, rs)
      decreases t, 1
    {
      hide InvOf, SoundOf, Can, Done, BothDone, SkipDone, Read, Loaded, Closed, Vacant;
      CanAnd(m, t, tlab, flab, labels);
      CanBounds(m, t, tlab, flab, labels);
      EnterCondition();
      ghost var v1 := Here();
      if flab != 0 {
        rs := ListBoth(t, t.left, t.right, 0, flab);
      } else {
        rs := ListSkipping(t, t.left, t.right, false, tlab, 0);
      }
      AndDone(m, t, tlab, flab, old(Here()), v1, Here());
      ghost var v2 := Here();
      LeaveCondition();
      SameHeld(v2, Here());
      ReadCondition(t, old(Here()), v1, v2, Here(), rs);
    }

    method ListOr(t: Tree, tlab: nat, flab: nat) returns (ghost rs: seq<nat>)
      requires Valid() && Can(m, t, tlab, flab, labels) && t.TOr?
      modifies this, buckets
      ensures Valid() && Done(m, t, tlab, flab, old(Here()), Here(), None) && Read(t, old(Here()), Here(), None, rs)
      decreases t, 1
    {
      hide InvOf, SoundOf, Can, Done, BothDone, SkipDone, Read, Loaded, Closed, Vacant;
      CanAnd(m, t, tlab, flab, labels);
      CanBounds(m, t, tlab, flab, labels);
      EnterCondition();
      ghost var v1 := Here();
      if tlab != 0 {
        rs := ListBoth(t, t.left, t.right, tlab, 0);
      } else {
        rs := ListSkipping(t, t.left, t.right, true, 0, flab);
      }
      OrDone(m, t, tlab, flab, old(Here()), v1, Here());
      ghost var v2 := Here();
      LeaveCondition();
      SameHeld(v2, Here());
      ReadCondition(t, old(Here()), v1, v2, Here(), rs);
    }

    /** `list(jump(lab))`: the jump's operand is the address of the label. */
    method ListJump(t: Tree, tlab: nat, flab: nat, lab: nat)
      requires Valid() && lab < labels && t.TCnst? && (tlab == 0 || flab == 0) && (tlab != 0 || flab != 0)
      requires lab == (if tlab != 0 then tlab else flab) && (tlab != 0 <==> t.value != 0)
      modifies this, buckets
      ensures Valid() && Done(m, t, tlab, flab, old(Here()), Here(), None) && Read(t, old(Here()), Here(), None, [])
    {
      hide InvOf, SoundOf, Done, After, Grew, Got, Read, Closed, LastIs, Held;
      var n := GetNode(Addr(AddrG), None, None, Some(LabelSymbol(lab)));
      ghost var v1 := Here();
      MadeListable(m, old(Here()), v1, n, Node(Addr(AddrG), None, None, Some(LabelSymbol(lab))));
      ListQuiet(Goto(lab));
      JumpDone(m, t, tlab, flab, lab, old(Here()), v1, Here(), n);
      ClosedThen(old(Here()), v1, Here());
      ReadNothing(t, old(Here()), Here());
    }

    method ListTest(t: Tree, tlab: nat, flab: nat) returns (ghost rs: seq<nat>)
      requires Valid() && Can(m, t, tlab, flab, labels) && t.TCompare?
      modifies this, buckets
      ensures Valid() && Done(m, t, tlab, flab, old(Here()), Here(), None) && Read(t, old(Here()), Here(), None, rs)
      decreases t, 1
    {
      CanMixed(m, t, tlab, flab, labels, labels);
      CanAnd(m, t, tlab, flab, labels);
      assert tlab < labels && flab < labels;
      hide InvOf, SoundOf, Can, Done, Grew, Sane, After, Read, Closed, LastIs;
      var l, rs1 := ListNodes(t.left, 0, 0);
      ghost var v1 := Here();
      DoneGrew(m, t.left, 0, 0, old(Here()), v1, l);
      CanMixed(m, t, tlab, flab, old(labels), labels);
      var r, rs2 := ListNodes(t.right, 0, 0);
      ghost var v2 := Here();
      DoneGrew(m, t.right, 0, 0, v1, v2, r);
      NodesGrew(v1, v2);
      var test := if tlab != 0 then Test(t.cond, l.value, r.value, tlab) else Test(Negated(t.cond), l.value, r.value, flab);
      TestListable(m, v2, test);
      hide Negated, Listable;
      ListQuiet(test);
      TestDone(m, t, tlab, flab, old(Here()), v1, v2, Here(), l.value, r.value);
      rs := rs1 + rs2;
      ReadTest(t, old(Here()), v1, v2, Here(), l.value, r.value, test.cond, test.lab, rs1, rs2);
    }

    /** `listnodes`, the main result: whatever the tree, the list of roots, run at built values, does what the
        tree means, and the answer node holds its value; and a steady tree keeps the list calm, so that nodes
        may as well be evaluated late. */
    method ListNodes(t: Tree, tlab: nat, flab: nat) returns (p: Option<nat>, ghost rs: seq<nat>)
      requires Valid() && Can(m, t, tlab, flab, labels)
      modifies this, buckets
      ensures Valid() && Done(m, t, tlab, flab, old(Here()), Here(), p) && Read(t, old(Here()), Here(), p, rs)
      decreases t, 2
    {
      Sanity(m, index, location, Here());
      CanOne(m, t, tlab, flab, labels, labels);
      CanTwo(m, t, tlab, flab, labels, labels);
      CanMixed(m, t, tlab, flab, labels, labels);
      CanAnd(m, t, tlab, flab, labels);
      assert tlab < labels && flab < labels;
      hide InvOf, SoundOf, Can, Done, Sane, Read, Closed;
      p, rs := None, [];
      SameHeld(Here(), Here());
      if t.TAnd? {
        rs := ListAnd(t, tlab, flab);
      } else if t.TOr? {
        rs := ListOr(t, tlab, flab);
      } else if t.TNot? {
        p, rs := ListNodes(t.kid, flab, tlab);
        NotDone(m, t, tlab, flab, old(Here()), Here(), p);
        ReadNot(t, old(Here()), Here(), p, rs);
      } else if t.TCnst? && (tlab != 0 || flab != 0) {
        if tlab != 0 && t.value != 0 {
          ListJump(t, tlab, flab, tlab);
        } else if flab != 0 && t.value == 0 {
          ListJump(t, tlab, flab, flab);
        } else {
          FallsDone(m, t, tlab, flab, Here());
          ReadNothing(t, Here(), Here());
        }
      } else if t.TRight? {
        p, rs := ListRight(t, tlab, flab);
      } else if t.TPost? {
        p, rs := ListPost(t);
      } else if t.TCall? {
        p, rs := ListCall(t);
      } else if t.TArg? {
        p, rs := ListArg(t);
      } else if t.TCompare? {
        rs := ListTest(t, tlab, flab);
      } else if t.TAsgn? {
        p, rs := ListAsgn(t);
      } else if t.TBinary? {
        p, rs := ListBinary(t);
      } else if t.TUnary? || t.TConvert? {
        p, rs := ListUnary(t);
      } else if t.TIndir? {
        p, rs := ListIndir(t);
      } else if t.TNone? {
        NoneDone(m, Here());
        ReadNothing(t, Here(), Here());
      } else {
        p, rs := ListLeaf(t);
      }
    }

    /** `walk`: the list is handed over to code generation, and nothing is shared beyond it.  Run at built
        values it does what the tree means; for a steady tree the late run does so too, whatever is in
        temporaries whose assignment was jumped over. */
    method Walk(t: Tree, tlab: nat, flab: nat) returns (done: seq<Root>, ghost rs: seq<nat>)
      requires Valid() && Can(m, t, tlab, flab, labels)
      modifies this, buckets
      ensures Valid() && forest == [] && AllIn(done, |nodes|) && |vals| == |nodes|
      ensures flow == start == Meaning(m, t, tlab, flab, old(flow))
      ensures Run(m, nodes, vals, equated, done, old(start)) == flow
      ensures old(Calm(Now())) && Steady(t) ==>
                RunsLate(m, nodes, equated, done, old(start), flow)
      ensures forall i | 0 <= i < 16 :: buckets[i] == []
      ensures Loaded(Loads(t), old(Here()), Here(), rs)
    {
      hide InvOf, SoundOf, Can, Done, Meaning, Run, RunsLate, Calm, AllIn, Closed, Loaded, AnswerReads, RootReads, ConditionForgets;
      CanSeparated(m, t, tlab, flab, labels);
      var p, rs0 := ListNodes(t, tlab, flab);
      rs := rs0;
      WalkedAll(m, index, location, t, tlab, flab, old(Here()), Here(), p);
      WalkedLate(m, index, location, t, tlab, flab, old(Here()), Here(), p);
      EmptiedInv(m, index, location, Here());
      ghost var v := Here();
      done := forest;
      forest, floors, floor, start := [], [], |nodes|, flow;
      assert Here() == Emptied(v);
      Reset();
      NothingHeld(v, Here());
      LoadedKept(Loads(t), old(Here()), v, Here(), rs);
    }
  }

  // ----- a tree that is not steady -----

  function VarX(): Symbol { Variable(0, false) }
  function VarY(): Symbol { Variable(1, false) }
  function FunF(): Symbol { Variable(2, false) }

  /** x, y and f lie at 0, 1 and 2; f stores 1 to x and returns 0. */
  function Storing(): Machine {
    Machine(s => if s == VarX() then 0 else if s == VarY() then 1 else 2, s => 1, s => [],
            (o, s, x, y) => [First(x) + First(y)], v => First(v),
            (f, st: Store) => (st.(mem := Update(st.mem, 0, [1], 1)), [0]))
  }

  /** `y = x + f()`. */
  function SumOfCall(): Tree {
    TAsgn(1, TAddr(AddrG, VarY()), TBinary(Add, 1, TIndir(1, false, TAddr(AddrG, VarX())), TCall(1, TAddr(AddrG, FunF()), TNone)))
  }

  /** Its nodes and roots. */
  function SumNodes(): (ns: seq<Node>)
    ensures |ns| == 6
  {
    [Node(Addr(AddrG), None, None, Some(VarY())), Node(Addr(AddrG), None, None, Some(VarX())), Node(Indir(1), Some(1), None, None),
     Node(Addr(AddrG), None, None, Some(FunF())), Node(Call(1), Some(3), None, None), Node(Binary(Add, 1), Some(2), Some(4), None)]
  }

  function SumRoots(): (rs: seq<Root>)
    ensures AllIn(rs, 6)
  {
    [Invoke(4), Assign(0, 5, 1)]
  }

  function SumVals(): (vs: seq<Val>)
    ensures |vs| == 6
  {
    [[1], [0], [0], [2], [0], [0]]
  }

  /** Steadiness is needed: for `y = x + f()`, where f stores to x, the run at built values adds the old x as
      the tree says, and the late run adds the new one. */
  lemma LateLoadDiffers(junk: nat -> Val)
    ensures !Steady(SumOfCall()) && ValueTree(SumOfCall()) && AllIn(SumRoots(), 6) && |SumNodes()| == |SumVals()| == 6
    ensures var m, start := Storing(), At(Store(Blank(), []));
            var built := Run(m, SumNodes(), SumVals(), map[], SumRoots(), start);
            var late := RunLate(m, SumNodes(), map[], SumRoots(), junk, start).flow;
            var meant := Value(m, SumOfCall(), start.st).1;
            && built.At? && late.At?
            && meant.mem(1) == 0 && built.st.mem(1) == 0 && late.st.mem(1) == 1
  {
    NotSteady();
    SumShapes();
    SumMeaning();
    SumBuilt();
    SumLate(junk);
    hide *;
  }

  lemma SumShapes()
    ensures AllIn(SumRoots(), 6) && |SumNodes()| == |SumVals()| == 6
  {
  }

  lemma NotSteady()
    ensures !Steady(SumOfCall()) && ValueTree(SumOfCall())
  {
    var sum := SumOfCall().source;
    assert Some(VarX()) in Pending(sum.left) && Write(None) in Writes(sum.right);
    assert !Apart(Pending(sum.left), Writes(sum.right));
  }

  lemma SumMeaning()
    ensures Value(Storing(), SumOfCall(), Store(Blank(), [])).1.mem(1) == 0
  {
    var m, st, sum := Storing(), Store(Blank(), []), SumOfCall().source;
    assert Value(m, sum.left, st) == ([0], st) by { assert Fetch(Blank(), 0, 1) == [0]; }
    assert Value(m, sum.right, st).0 == [0];
    assert Value(m, sum, st).0 == [0];
  }

  lemma SumBuilt()
    ensures var f := Run(Storing(), SumNodes(), SumVals(), map[], SumRoots(), At(Store(Blank(), [])));
            f.At? && f.st.mem(1) == 0
  {
    var m, start := Storing(), At(Store(Blank(), []));
    assert SumRoots()[..1] == [Invoke(4)] && [Invoke(4)][..0] == [];
    assert Run(m, SumNodes(), SumVals(), map[], [], start) == start;
    var first := Run(m, SumNodes(), SumVals(), map[], [Invoke(4)], start);
    assert first == Exec(m, SumNodes(), SumVals(), map[], Invoke(4), start);
    assert first.At?;
  }

  lemma SumLate(junk: nat -> Val)
    ensures var f := RunLate(Storing(), SumNodes(), map[], SumRoots(), junk, At(Store(Blank(), []))).flow;
            f.At? && f.st.mem(1) == 1
  {
    var m, nodes, start := Storing(), SumNodes(), At(Store(Blank(), []));
    var roots: seq<Root> := [Invoke(4)];
    SumCalled(junk);
    SumSplits();
    var s1 := RunLate(m, nodes, map[], roots, junk, start);
    assert RunLate(m, nodes, map[], SumRoots(), junk, start) == ExecLate(m, nodes, map[], Assign(0, 5, 1), {4, 3}, junk, s1);
    hide RunLate, ValueAt, Seen, Touched, Reach, MemoAfter, SumNodes, Storing;
    SumAdded(s1.flow.st.mem, Temps({4, 3}, s1.memo, junk));
  }

  lemma SumSplits()
    ensures SumRoots()[..1] == [Invoke(4)] && SumRoots()[1] == Assign(0, 5, 1) && |SumRoots()| == 2
    ensures AllIn(SumRoots(), 6) && AllIn([Invoke(4)], 6) && |SumNodes()| == 6
  {
  }

  /** After the call x is 1, and the result is in a temporary. */
  lemma SumCalled(junk: nat -> Val)
    ensures var s1 := RunLate(Storing(), SumNodes(), map[], [Invoke(4)], junk, At(Store(Blank(), [])));
            && Seen(SumNodes(), [Invoke(4)]) == {4, 3}
            && s1.flow.At? && s1.flow.st.mem(0) == 1 && 4 in s1.memo && s1.memo[4] == [0]
  {
    var m, start, nodes := Storing(), At(Store(Blank(), [])), SumNodes();
    var roots: seq<Root> := [Invoke(4)];
    assert roots[..0] == [];
    assert Seen(nodes, []) == {};
    assert Touched(nodes, Invoke(4)) == {4, 3};
    var s0 := Stage(start, map[]);
    assert RunLate(m, nodes, map[], [], junk, start) == s0;
    var s1 := ExecLate(m, nodes, map[], Invoke(4), {}, junk, s0);
    assert RunLate(m, nodes, map[], roots, junk, start) == s1;
    var ts := Temps({}, map[], junk);
    assert KeptAt(m, nodes, Invoke(4), 4, start.st, ts) == [0];
    assert s1.memo == MemoAfter(m, nodes, Invoke(4), start.st, ts);
    assert 4 in Touched(nodes, Invoke(4)) - {};
    assert s1.flow.st.mem(0) == 1;
  }

  lemma {:induction false} SumAdded(mem: Memory, ts: Temps)
    requires mem(0) == 1 && ts.seen == {4, 3} && 4 in ts.memo && ts.memo[4] == [0]
    ensures ValueAt(Storing(), SumNodes(), 0, mem, ts) == [1] && ValueAt(Storing(), SumNodes(), 5, mem, ts) == [1]
  {
    var m, nodes := Storing(), SumNodes();
    assert ValueAt(m, nodes, 1, mem, ts) == [0];
    assert ValueAt(m, nodes, 2, mem, ts) == [1] by { assert Fetch(mem, 0, 1) == [1]; }
    assert ValueAt(m, nodes, 4, mem, ts) == [0];
  }
}

/** The tree labeller that lburg emits for a rule list (lcc/lburg/lburg.c), and why it is optimal.

    A rule list is a tree grammar with costs.  A derivation covers a subject tree with rules;
    its cost is the sum of the costs of the rules it uses.  The emitted `_label` leaves in every
    node, for every nonterminal, a cost and the number of a rule.  */
module Lburg {

  /** The initial value of every `p->cost[]` entry. */
  const MAX_COST: nat := 0x7fff

  datatype Pattern =
    | Nt(nt: nat)
    | P0(op: nat)
    | P1(op: nat, left: Pattern)
    | P2(op: nat, left: Pattern, right: Pattern)

  datatype Tree =
    | T0(op: nat)
    | T1(op: nat, left: Tree)
    | T2(op: nat, left: Tree, right: Tree)

  /** A constant cost, or C code evaluated at the node being labelled. */
  datatype Cost = Const(n: nat) | Code(f: Tree -> nat)

  datatype Rule = Rule(lhs: nat, pattern: Pattern, cost: Cost)

  /** Rules in the order they were read; `arity` lists the declared terminals. */
  datatype Grammar = Grammar(ntNumber: nat, arity: map<nat, nat>, rules: seq<Rule>)

  ghost predicate WfPattern(g: Grammar, p: Pattern) {
    match p
    case Nt(n) => 1 <= n <= g.ntNumber
    case P0(op) => op in g.arity && g.arity[op] == 0
    case P1(op, l) => op in g.arity && g.arity[op] == 1 && WfPattern(g, l)
    case P2(op, l, r) => op in g.arity && g.arity[op] == 2 && WfPattern(g, l) && WfPattern(g, r)
  }

  ghost predicate WfRule(g: Grammar, r: Rule) {
    && 1 <= r.lhs <= g.ntNumber
    && WfPattern(g, r.pattern)
    && (r.pattern.Nt? ==> r.cost.Const?)
  }

  /** What lburg accepts without an error message. */
  ghost predicate Wf(g: Grammar) {
    && 1 <= g.ntNumber
    && forall j | 0 <= j < |g.rules| :: WfRule(g, g.rules[j])
  }

  /** Every operator of the tree is a declared terminal used with its arity. */
  predicate WfTree(g: Grammar, t: Tree) {
    match t
    case T0(op) => op in g.arity && g.arity[op] == 0
    case T1(op, l) => op in g.arity && g.arity[op] == 1 && WfTree(g, l)
    case T2(op, l, r) => op in g.arity && g.arity[op] == 2 && WfTree(g, l) && WfTree(g, r)
  }

  function RuleCost(g: Grammar, j: nat, t: Tree): nat
    requires j < |g.rules|
  {
    match g.rules[j].cost
    case Const(n) => n
    case Code(f) => f(t)
  }

  // ----- derivations: the meaning of a rule list -----

  datatype Deriv = Deriv(rule: nat, body: Match)
  datatype Match = AtNt(d: Deriv) | M0 | M1(left: Match) | M2(left: Match, right: Match)

  ghost predicate Derives(g: Grammar, d: Deriv, nt: nat, t: Tree)
    decreases d
  {
    && d.rule < |g.rules|
    && g.rules[d.rule].lhs == nt
    && Covers(g, g.rules[d.rule].pattern, t, d.body)
  }

  ghost predicate Covers(g: Grammar, p: Pattern, t: Tree, m: Match)
    decreases m
  {
    match p
    case Nt(n) => m.AtNt? && Derives(g, m.d, n, t)
    case P0(op) => m.M0? && t.T0? && t.op == op
    case P1(op, l) => m.M1? && t.T1? && t.op == op && Covers(g, l, t.left, m.left)
    case P2(op, l, r) =>
      && m.M2? && t.T2? && t.op == op
      && Covers(g, l, t.left, m.left) && Covers(g, r, t.right, m.right)
  }

  ghost function DerivCost(g: Grammar, d: Deriv, nt: nat, t: Tree): nat
    requires Derives(g, d, nt, t)
    decreases d
  {
    RuleCost(g, d.rule, t) + CoverCost(g, g.rules[d.rule].pattern, t, d.body)
  }

  ghost function CoverCost(g: Grammar, p: Pattern, t: Tree, m: Match): nat
    requires Covers(g, p, t, m)
    decreases m
  {
    match p
    case Nt(n) => DerivCost(g, m.d, n, t)
    case P0(_) => 0
    case P1(_, l) => CoverCost(g, l, t.left, m.left)
    case P2(_, l, r) => CoverCost(g, l, t.left, m.left) + CoverCost(g, r, t.right, m.right)
  }

  // ----- the lists that `rule` threads through the rules -----

  /** `lhs->rules`, linked by `decode`: rules with this left-hand side, oldest first. */
  function DecodeList(rules: seq<Rule>, nt: nat): seq<nat> {
    if rules == [] then []
    else
      var k := |rules| - 1;
      DecodeList(rules[..k], nt) + if rules[k].lhs == nt then [k] else []
  }

  /** `r->packed`: the position of rule j in its decode list, counted from 1. */
  function Packed(rules: seq<Rule>, j: nat): nat
    requires j < |rules|
  {
    |DecodeList(rules[..j + 1], rules[j].lhs)|
  }

  /** `term->rules`, linked by `next`: rules whose pattern root is this terminal, oldest first. */
  function TermList(rules: seq<Rule>, op: nat): seq<nat> {
    if rules == [] then []
    else
      var k := |rules| - 1;
      TermList(rules[..k], op) + if !rules[k].pattern.Nt? && rules[k].pattern.op == op then [k] else []
  }

  /** `nonterm->chain`: chain rules whose pattern is this nonterminal, newest first. */
  function ChainList(rules: seq<Rule>, nt: nat): seq<nat> {
    if rules == [] then []
    else
      var k := |rules| - 1;
      (if rules[k].pattern == Nt(nt) then [k] else []) + ChainList(rules[..k], nt)
  }

  /** The `_rule` lookup `decode[packed]` recovers the rule number that `packed` stands for. */
  lemma {:induction false} DecodePacked(rules: seq<Rule>, j: nat)
    requires j < |rules|
    ensures 1 <= Packed(rules, j) <= |DecodeList(rules, rules[j].lhs)|
    ensures DecodeList(rules, rules[j].lhs)[Packed(rules, j) - 1] == j
  {
    var nt := rules[j].lhs;
    var k := |rules| - 1;
    if j == k {
      assert rules[..j + 1] == rules;
    } else {
      DecodePacked(rules[..k], j);
      assert rules[..k][..j + 1] == rules[..j + 1];
    }
  }

  lemma {:induction false} TermListMembers(rules: seq<Rule>, op: nat)
    ensures forall i | 0 <= i < |TermList(rules, op)| :: TermList(rules, op)[i] < |rules|
    ensures forall j | 0 <= j < |rules| ::
      j in TermList(rules, op) <==> !rules[j].pattern.Nt? && rules[j].pattern.op == op
  {
    if rules != [] {
      TermListMembers(rules[..|rules| - 1], op);
    }
  }

  lemma {:induction false} ChainListMembers(rules: seq<Rule>, nt: nat)
    ensures forall i | 0 <= i < |ChainList(rules, nt)| :: ChainList(rules, nt)[i] < |rules|
    ensures forall j | 0 <= j < |rules| :: j in ChainList(rules, nt) <==> rules[j].pattern == Nt(nt)
  {
    if rules != [] {
      ChainListMembers(rules[..|rules| - 1], nt);
    }
  }

  /** What one more rule does to the three lists. */
  lemma {:induction false} ListsOfOneMore(rules: seq<Rule>, r: Rule, n: nat)
    ensures DecodeList(rules + [r], n) == DecodeList(rules, n) + if r.lhs == n then [|rules|] else []
    ensures TermList(rules + [r], n) ==
            TermList(rules, n) + if !r.pattern.Nt? && r.pattern.op == n then [|rules|] else []
    ensures ChainList(rules + [r], n) == (if r.pattern == Nt(n) then [|rules|] else []) + ChainList(rules, n)
  {
    assert (rules + [r])[..|rules|] == rules;
  }

  function Entry(m: map<nat, seq<nat>>, n: nat): seq<nat> {
    if n in m then m[n] else []
  }

  function Appended(m: map<nat, seq<nat>>, n: nat, x: nat): map<nat, seq<nat>> {
    m[n := Entry(m, n) + [x]]
  }

  function Prepended(m: map<nat, seq<nat>>, n: nat, x: nat): map<nat, seq<nat>> {
    m[n := [x] + Entry(m, n)]
  }

  ghost predicate HoldsDecode(m: map<nat, seq<nat>>, rules: seq<Rule>) {
    forall n: nat :: Entry(m, n) == DecodeList(rules, n)
  }

  ghost predicate HoldsTerms(m: map<nat, seq<nat>>, rules: seq<Rule>) {
    forall n: nat :: Entry(m, n) == TermList(rules, n)
  }

  ghost predicate HoldsChain(m: map<nat, seq<nat>>, rules: seq<Rule>) {
    forall n: nat :: Entry(m, n) == ChainList(rules, n)
  }

  lemma DecodeGrows(m: map<nat, seq<nat>>, rules: seq<Rule>, r: Rule)
    requires HoldsDecode(m, rules)
    ensures HoldsDecode(Appended(m, r.lhs, |rules|), rules + [r])
    ensures |Entry(m, r.lhs)| + 1 == Packed(rules + [r], |rules|)
  {
    forall n: nat
      ensures Entry(Appended(m, r.lhs, |rules|), n) == DecodeList(rules + [r], n)
    {
      ListsOfOneMore(rules, r, n);
      assert Entry(m, n) == DecodeList(rules, n);
    }
    assert (rules + [r])[..|rules| + 1] == rules + [r];
    ListsOfOneMore(rules, r, r.lhs);
    assert Entry(m, r.lhs) == DecodeList(rules, r.lhs);
  }

  lemma TermsGrow(m: map<nat, seq<nat>>, rules: seq<Rule>, r: Rule)
    requires HoldsTerms(m, rules)
    ensures r.pattern.Nt? ==> HoldsTerms(m, rules + [r])
    ensures !r.pattern.Nt? ==>
              HoldsTerms(Appended(m, r.pattern.op, |rules|), rules + [r])
  {
    forall n: nat
      ensures r.pattern.Nt? ==> Entry(m, n) == TermList(rules + [r], n)
      ensures !r.pattern.Nt? ==>
                Entry(Appended(m, r.pattern.op, |rules|), n) == TermList(rules + [r], n)
    {
      ListsOfOneMore(rules, r, n);
      assert Entry(m, n) == TermList(rules, n);
    }
  }

  lemma ChainGrows(m: map<nat, seq<nat>>, rules: seq<Rule>, r: Rule)
    requires HoldsChain(m, rules)
    ensures !r.pattern.Nt? ==> HoldsChain(m, rules + [r])
    ensures r.pattern.Nt? ==>
              HoldsChain(Prepended(m, r.pattern.nt, |rules|), rules + [r])
  {
    forall n: nat
      ensures !r.pattern.Nt? ==> Entry(m, n) == ChainList(rules + [r], n)
      ensures r.pattern.Nt? ==>
                Entry(Prepended(m, r.pattern.nt, |rules|), n) == ChainList(rules + [r], n)
    {
      ListsOfOneMore(rules, r, n);
      assert Entry(m, n) == ChainList(rules, n);
    }
  }

  /** The lists that `rule` keeps while the grammar is read. */
  class RuleTable {
    var rules: seq<Rule>
    var decode: map<nat, seq<nat>>
    var terms: map<nat, seq<nat>>
    var chain: map<nat, seq<nat>>

    ghost predicate Valid()
      reads this
    {
      HoldsDecode(decode, rules) && HoldsTerms(terms, rules) && HoldsChain(chain, rules)
    }

    constructor ()
      ensures Valid() && rules == []
    {
      rules, decode, terms, chain := [], map[], map[], map[];
    }

    /** Appends to the lhs and terminal lists and prepends to the chain list. */
    method AddRule(r: Rule) returns (packed: nat)
      requires Valid()
      modifies this
      ensures Valid() && rules == old(rules) + [r]
      ensures packed == Packed(old(rules) + [r], |old(rules)|)
    {
      packed := LinkDecode(r);
      if r.pattern.Nt? {
        LinkChain(r);
      } else {
        LinkTerms(r);
      }
      rules := rules + [r];
    }

    method LinkDecode(r: Rule) returns (packed: nat)
      requires HoldsDecode(decode, rules)
      modifies this`decode
      ensures HoldsDecode(decode, rules + [r])
      ensures packed == Packed(rules + [r], |rules|)
    {
      DecodeGrows(decode, rules, r);
      packed := |Entry(decode, r.lhs)| + 1;
      decode := Appended(decode, r.lhs, |rules|);
    }

    method LinkTerms(r: Rule)
      requires !r.pattern.Nt?
      requires HoldsTerms(terms, rules) && HoldsChain(chain, rules)
      modifies this`terms
      ensures HoldsTerms(terms, rules + [r]) && HoldsChain(chain, rules + [r])
    {
      TermsGrow(terms, rules, r);
      ChainGrows(chain, rules, r);
      terms := Appended(terms, r.pattern.op, |rules|);
    }

    method LinkChain(r: Rule)
      requires r.pattern.Nt?
      requires HoldsTerms(terms, rules) && HoldsChain(chain, rules)
      modifies this`chain
      ensures HoldsTerms(terms, rules + [r]) && HoldsChain(chain, rules + [r])
    {
      TermsGrow(terms, rules, r);
      ChainGrows(chain, rules, r);
      chain := Prepended(chain, r.pattern.nt, |rules|);
    }
  }

  // ----- what the emitted labeller tests and adds up -----

  /** The states left in a labelled tree: `cost[]` and `rule` of the node, then its children's. */
  datatype Labels = Labels(cost: seq<nat>, rule: seq<nat>, kids: seq<Labels>)

  ghost predicate Shape(g: Grammar, t: Tree, s: Labels)
    decreases t
  {
    && |s.cost| == |s.rule| == g.ntNumber + 1
    && match t
       case T0(_) => s.kids == []
       case T1(_, l) => |s.kids| == 1 && Shape(g, l, s.kids[0])
       case T2(_, l, r) => |s.kids| == 2 && Shape(g, l, s.kids[0]) && Shape(g, r, s.kids[1])
  }

  /** The tests `emittest` prints: operators are compared, and nothing else. */
  predicate Test(g: Grammar, p: Pattern, t: Tree)
    requires WfPattern(g, p) && WfTree(g, t)
  {
    match p
    case Nt(_) => true
    case P0(op) => t.op == op
    case P1(op, l) => t.op == op && Test(g, l, t.left)
    case P2(op, l, r) => t.op == op && Test(g, l, t.left) && Test(g, r, t.right)
  }

  /** The sum `emitcost` prints: the costs of the pattern's nonterminal leaves, left to right. */
  function CostAt(g: Grammar, p: Pattern, t: Tree, s: Labels): nat
    requires WfPattern(g, p) && WfTree(g, t) && Shape(g, t, s) && Test(g, p, t)
    decreases p
  {
    match p
    case Nt(n) => s.cost[n]
    case P0(_) => 0
    case P1(_, l) => CostAt(g, l, t.left, s.kids[0])
    case P2(_, l, r) => CostAt(g, l, t.left, s.kids[0]) + CostAt(g, r, t.right, s.kids[1])
  }

  /** `computekids`: the subtrees at the pattern's nonterminal leaves. */
  function Kids(p: Pattern, t: Tree): (ks: seq<Tree>) {
    match p
    case Nt(_) => [t]
    case P0(_) => []
    case P1(_, l) => if t.T0? then [] else Kids(l, t.left)
    case P2(_, l, r) => if t.T2? then Kids(l, t.left) + Kids(r, t.right) else []
  }

  /** `computents`: the nonterminals at the pattern's leaves. */
  function Nts(p: Pattern): seq<nat> {
    match p
    case Nt(n) => [n]
    case P0(_) => []
    case P1(_, l) => Nts(l)
    case P2(_, l, r) => Nts(l) + Nts(r)
  }

  ghost function Leaves(m: Match): seq<Deriv> {
    match m
    case AtNt(d) => [d]
    case M0 => []
    case M1(l) => Leaves(l)
    case M2(l, r) => Leaves(l) + Leaves(r)
  }

  /** A reducer that pairs the i-th entry of `_kids` with the i-th entry of `_nts` visits exactly
      the sub-derivations of the match. */
  lemma {:induction false} KidsMatchNts(g: Grammar, p: Pattern, t: Tree, m: Match)
    requires Covers(g, p, t, m)
    ensures |Kids(p, t)| == |Nts(p)| == |Leaves(m)|
    ensures forall i | 0 <= i < |Nts(p)| :: Derives(g, Leaves(m)[i], Nts(p)[i], Kids(p, t)[i])
    decreases p
  {
    match p
    case Nt(_) =>
    case P0(_) =>
    case P1(_, l) =>
      KidsMatchNts(g, l, t.left, m.left);
    case P2(_, l, r) =>
      KidsMatchNts(g, l, t.left, m.left);
      KidsMatchNts(g, r, t.right, m.right);
      var n := |Nts(l)|;
      var leaves, nts, kids := Leaves(m), Nts(p), Kids(p, t);
      hide Leaves, Nts, Kids;
      forall i | 0 <= i < |nts|
        ensures Derives(g, leaves[i], nts[i], kids[i])
      {
        if i < n {
          assert Derives(g, Leaves(m.left)[i], Nts(l)[i], Kids(l, t.left)[i]);
        } else {
          assert Derives(g, Leaves(m.right)[i - n], Nts(r)[i - n], Kids(r, t.right)[i - n]);
        }
      }
  }

  // ----- what a labelled tree promises -----

  /** Following the recorded rule numbers from (t, nt) reproduces derivation d. */
  ghost predicate Selects(g: Grammar, t: Tree, s: Labels, nt: nat, d: Deriv)
    decreases d
  {
    && nt < |s.rule|
    && d.rule < |g.rules|
    && g.rules[d.rule].lhs == nt
    && s.rule[nt] == Packed(g.rules, d.rule)
    && SelectsBody(g, g.rules[d.rule].pattern, t, s, d.body)
  }

  ghost predicate SelectsBody(g: Grammar, p: Pattern, t: Tree, s: Labels, m: Match)
    decreases m
  {
    match p
    case Nt(n) => m.AtNt? && Selects(g, t, s, n, m.d)
    case P0(_) => m.M0?
    case P1(_, l) => m.M1? && t.T1? && |s.kids| == 1 && SelectsBody(g, l, t.left, s.kids[0], m.left)
    case P2(_, l, r) =>
      && m.M2? && t.T2? && |s.kids| == 2
      && SelectsBody(g, l, t.left, s.kids[0], m.left)
      && SelectsBody(g, r, t.right, s.kids[1], m.right)
  }

  /** The recorded numbers determine the derivation: the reducer has no choice. */
  lemma {:induction false} SelectsUnique(g: Grammar, t: Tree, s: Labels, nt: nat, d: Deriv, e: Deriv)
    requires Selects(g, t, s, nt, d) && Selects(g, t, s, nt, e)
    ensures d == e
    decreases d
  {
    DecodePacked(g.rules, d.rule);
    DecodePacked(g.rules, e.rule);
    SelectsBodyUnique(g, g.rules[d.rule].pattern, t, s, d.body, e.body);
  }

  lemma {:induction false} SelectsBodyUnique(g: Grammar, p: Pattern, t: Tree, s: Labels, m: Match, n: Match)
    requires SelectsBody(g, p, t, s, m) && SelectsBody(g, p, t, s, n)
    ensures m == n
    decreases m
  {
    match p
    case Nt(nt) => SelectsUnique(g, t, s, nt, m.d, n.d);
    case P0(_) =>
    case P1(_, l) => SelectsBodyUnique(g, l, t.left, s.kids[0], m.left, n.left);
    case P2(_, l, r) =>
      SelectsBodyUnique(g, l, t.left, s.kids[0], m.left, n.left);
      SelectsBodyUnique(g, r, t.right, s.kids[1], m.right, n.right);
  }

  /** No derivation is cheaper than the recorded cost. */
  ghost predicate LowerBound(g: Grammar, t: Tree, s: Labels) {
    && |s.cost| == g.ntNumber + 1
    && forall d: Deriv, nt: nat | 1 <= nt <= g.ntNumber && Derives(g, d, nt, t) ::
         s.cost[nt] <= DerivCost(g, d, nt, t)
  }

  /** A recorded cost below MAX_COST is the cost of the derivation the recorded rules select. */
  ghost predicate Achieved(g: Grammar, t: Tree, s: Labels) {
    && |s.cost| == g.ntNumber + 1
    && forall nt | 1 <= nt <= g.ntNumber :: s.cost[nt] <= MAX_COST &&
         (s.cost[nt] < MAX_COST ==>
           exists d :: Derives(g, d, nt, t) && DerivCost(g, d, nt, t) == s.cost[nt] && Selects(g, t, s, nt, d))
  }

  /** Every node of the tree holds the minimum cost, cut off at MAX_COST, for every nonterminal. */
  ghost predicate Optimal(g: Grammar, t: Tree, s: Labels)
    decreases t
  {
    && Shape(g, t, s)
    && LowerBound(g, t, s)
    && Achieved(g, t, s)
    && match t
       case T0(_) => true
       case T1(_, l) => Optimal(g, l, s.kids[0])
       case T2(_, l, r) => Optimal(g, l, s.kids[0]) && Optimal(g, r, s.kids[1])
  }

  /** The children's labels are optimal; the node's own state does not matter. */
  ghost predicate KidsOptimal(g: Grammar, t: Tree, kids: seq<Labels>) {
    match t
    case T0(_) => kids == []
    case T1(_, l) => |kids| == 1 && Optimal(g, l, kids[0])
    case T2(_, l, r) => |kids| == 2 && Optimal(g, l, kids[0]) && Optimal(g, r, kids[1])
  }

  // ----- lowering costs: the value-level facts behind `emitrecord` and `emitclosure` -----

  function Total(s: seq<nat>): nat {
    if s == [] then 0 else s[0] + Total(s[1..])
  }

  lemma {:induction false} TotalLowered(s: seq<nat>, u: seq<nat>)
    requires |s| == |u| && forall i | 0 <= i < |s| :: u[i] <= s[i]
    ensures Total(u) <= Total(s)
    ensures (exists i | 0 <= i < |s| :: u[i] < s[i]) ==> Total(u) < Total(s)
  {
    if s != [] {
      TotalLowered(s[1..], u[1..]);
      if i :| 0 <= i < |s| && u[i] < s[i] {
        if i > 0 {
          assert u[1..][i - 1] < s[1..][i - 1];
        }
      }
    }
  }

  /** Entries only go down, and never below v. */
  ghost predicate Lowered(s: seq<nat>, u: seq<nat>, v: nat) {
    && |s| == |u|
    && forall i | 0 <= i < |s| :: u[i] == s[i] || v <= u[i] < s[i]
  }

  /** Chain rules out of m have nothing left to improve. */
  ghost predicate Sat(g: Grammar, cost: seq<nat>, m: nat)
    requires Wf(g) && |cost| == g.ntNumber + 1 && m < |cost|
  {
    forall j | 0 <= j < |g.rules| && g.rules[j].pattern == Nt(m) ::
      cost[g.rules[j].lhs] <= cost[m] + g.rules[j].cost.n
  }

  /** Whoever was settled stays settled, and whoever was lowered has been settled. */
  ghost predicate SettledAt(g: Grammar, s: seq<nat>, u: seq<nat>, m: nat)
    requires Wf(g) && |s| == |u| == g.ntNumber + 1 && m < |s|
  {
    Sat(g, s, m) || u[m] != s[m] ==> Sat(g, u, m)
  }

  ghost predicate Settled(g: Grammar, s: seq<nat>, u: seq<nat>)
    requires Wf(g) && |s| == |u| == g.ntNumber + 1
  {
    forall m | 0 <= m <= g.ntNumber :: SettledAt(g, s, u, m)
  }

  lemma LoweringKeepsSat(g: Grammar, s: seq<nat>, lhs: nat, v: nat, m: nat)
    requires Wf(g) && |s| == g.ntNumber + 1 && lhs < |s| && m < |s| && m != lhs
    requires v <= s[lhs] && Sat(g, s, m)
    ensures Sat(g, s[lhs := v], m)
  {
    forall j | 0 <= j < |g.rules| && g.rules[j].pattern == Nt(m)
      ensures s[lhs := v][g.rules[j].lhs] <= s[lhs := v][m] + g.rules[j].cost.n
    {
    }
  }

  lemma SettledRefl(g: Grammar, s: seq<nat>)
    requires Wf(g) && |s| == g.ntNumber + 1
    ensures Settled(g, s, s)
  {
  }

  ghost predicate SettledExcept(g: Grammar, s: seq<nat>, u: seq<nat>, m: nat)
    requires Wf(g) && |s| == |u| == g.ntNumber + 1
  {
    forall n | 0 <= n <= g.ntNumber && n != m :: SettledAt(g, s, u, n)
  }

  lemma SettledExceptTrans(g: Grammar, s: seq<nat>, mid: seq<nat>, u: seq<nat>, m: nat)
    requires Wf(g) && |s| == |mid| == |u| == g.ntNumber + 1
    requires SettledExcept(g, s, mid, m) && Settled(g, mid, u)
    ensures SettledExcept(g, s, u, m)
  {
    forall n | 0 <= n <= g.ntNumber && n != m
      ensures SettledAt(g, s, u, n)
    {
      assert SettledAt(g, s, mid, n) && SettledAt(g, mid, u, n);
    }
  }

  lemma NothingSettledYet(g: Grammar, s: seq<nat>, m: nat)
    requires Wf(g) && |s| == g.ntNumber + 1 && m < |s|
    ensures SettledExcept(g, s, s, m) && SatUpTo(g, s, m, 0)
  {
  }

  /** The first i chain rules of m, in list order, have nothing left to improve. */
  ghost predicate SatUpTo(g: Grammar, cost: seq<nat>, m: nat, i: nat)
    requires Wf(g) && |cost| == g.ntNumber + 1 && m < |cost|
    requires i <= |ChainList(g.rules, m)|
  {
    ChainListMembers(g.rules, m);
    forall k | 0 <= k < i ::
      var r := g.rules[ChainList(g.rules, m)[k]];
      r.pattern == Nt(m) && cost[r.lhs] <= cost[m] + r.cost.n
  }

  lemma {:induction false} SatUpToStep(g: Grammar, s: seq<nat>, u: seq<nat>, v: nat, m: nat, i: nat)
    requires Wf(g) && |s| == |u| == g.ntNumber + 1 && m < |s| && i < |ChainList(g.rules, m)|
    requires SatUpTo(g, s, m, i) && Lowered(s, u, v) && s[m] == u[m]
    requires ChainList(g.rules, m)[i] < |g.rules|
    requires var r := g.rules[ChainList(g.rules, m)[i]]; r.pattern == Nt(m) && u[r.lhs] <= u[m] + r.cost.n
    ensures SatUpTo(g, u, m, i + 1)
  {
    ChainListMembers(g.rules, m);
    forall k | 0 <= k < i + 1
      ensures var r := g.rules[ChainList(g.rules, m)[k]]; r.pattern == Nt(m) && u[r.lhs] <= u[m] + r.cost.n
    {
      if k < i {
        var r := g.rules[ChainList(g.rules, m)[k]];
        assert WfRule(g, r);
      }
    }
  }

  lemma {:induction false} SatUpToAll(g: Grammar, s: seq<nat>, u: seq<nat>, m: nat)
    requires Wf(g) && |s| == |u| == g.ntNumber + 1 && m < |u|
    requires SatUpTo(g, u, m, |ChainList(g.rules, m)|)
    requires SettledExcept(g, s, u, m)
    ensures Sat(g, u, m) && Settled(g, s, u)
  {
    ChainListMembers(g.rules, m);
    forall j | 0 <= j < |g.rules| && g.rules[j].pattern == Nt(m)
      ensures u[g.rules[j].lhs] <= u[m] + g.rules[j].cost.n
    {
      assert j in ChainList(g.rules, m);
    }
  }

  lemma ChainCandidate(g: Grammar, t: Tree, kids: seq<Labels>, cost: seq<nat>, rule: seq<nat>,
                       derivs: map<nat, Deriv>, m: nat, j: nat)
    requires Wf(g) && Sound(g, t, kids, cost, rule, derivs)
    requires 1 <= m <= g.ntNumber && cost[m] < MAX_COST
    requires j < |g.rules| && g.rules[j].pattern == Nt(m)
    ensures m in derivs
    ensures Candidate(g, t, kids, cost, derivs, g.rules[j].lhs, cost[m] + g.rules[j].cost.n,
                      Deriv(j, AtNt(derivs[m])))
  {
    assert SoundAt(g, t, kids, cost, rule, derivs, m);
    var d := Deriv(j, AtNt(derivs[m]));
    assert WfRule(g, g.rules[j]);
    assert Covers(g, Nt(m), t, d.body);
  }

  lemma RecordSettles(g: Grammar, s: seq<nat>, lhs: nat, v: nat, mid: seq<nat>, u: seq<nat>)
    requires Wf(g) && |s| == |u| == g.ntNumber + 1 && lhs < |s| && v < s[lhs]
    requires mid == s[lhs := v]
    requires Settled(g, mid, u) && Sat(g, u, lhs)
    ensures Settled(g, s, u)
  {
    forall m | 0 <= m <= g.ntNumber
      ensures SettledAt(g, s, u, m)
    {
      assert SettledAt(g, mid, u, m);
      if m != lhs && Sat(g, s, m) {
        LoweringKeepsSat(g, s, lhs, v, m);
      }
    }
  }

  /** The derivation behind one entry, and where the entry's rule number came from. */
  ghost predicate Linked(g: Grammar, t: Tree, kids: seq<Labels>, cost: seq<nat>, derivs: map<nat, Deriv>,
                         nt: nat, d: Deriv)
    requires Derives(g, d, nt, t)
  {
    match g.rules[d.rule].pattern
    case Nt(m) =>
      && m in derivs && m < |cost| && d.body.AtNt? && Derives(g, d.body.d, m, t)
      && (d.body.d == derivs[m] || cost[m] < DerivCost(g, d.body.d, m, t))
    case _ => SelectsBody(g, g.rules[d.rule].pattern, t, Labels([], [], kids), d.body)
  }

  ghost predicate SoundAt(g: Grammar, t: Tree, kids: seq<Labels>, cost: seq<nat>, rule: seq<nat>,
                          derivs: map<nat, Deriv>, nt: nat)
    requires nt < |cost| == |rule|
  {
    && nt in derivs
    && Derives(g, derivs[nt], nt, t)
    && DerivCost(g, derivs[nt], nt, t) == cost[nt]
    && rule[nt] == Packed(g.rules, derivs[nt].rule)
    && Linked(g, t, kids, cost, derivs, nt, derivs[nt])
  }

  ghost predicate Sound(g: Grammar, t: Tree, kids: seq<Labels>, cost: seq<nat>, rule: seq<nat>,
                        derivs: map<nat, Deriv>)
  {
    && |cost| == |rule| == g.ntNumber + 1
    && (forall nt | nt in derivs :: 1 <= nt <= g.ntNumber && cost[nt] < MAX_COST)
    && forall nt | 1 <= nt <= g.ntNumber ::
         cost[nt] <= MAX_COST && (cost[nt] < MAX_COST ==> SoundAt(g, t, kids, cost, rule, derivs, nt))
  }

  /** d is a derivation of cost v that the labeller may record now. */
  ghost predicate Candidate(g: Grammar, t: Tree, kids: seq<Labels>, cost: seq<nat>, derivs: map<nat, Deriv>,
                            nt: nat, v: nat, d: Deriv)
  {
    && Derives(g, d, nt, t)
    && DerivCost(g, d, nt, t) == v
    && match g.rules[d.rule].pattern
       case Nt(m) => m in derivs && m < |cost| && d.body == AtNt(derivs[m]) && cost[m] <= v
       case _ => SelectsBody(g, g.rules[d.rule].pattern, t, Labels([], [], kids), d.body)
  }

  lemma SoundIsBounded(g: Grammar, t: Tree, kids: seq<Labels>, cost: seq<nat>, rule: seq<nat>,
                       derivs: map<nat, Deriv>, nt: nat)
    requires Sound(g, t, kids, cost, rule, derivs) && 1 <= nt <= g.ntNumber
    ensures cost[nt] <= MAX_COST
    ensures cost[nt] < MAX_COST ==> SoundAt(g, t, kids, cost, rule, derivs, nt)
  {
  }

  lemma WriteKeepsSound(g: Grammar, t: Tree, kids: seq<Labels>, cost: seq<nat>, rule: seq<nat>,
                        derivs: map<nat, Deriv>, nt: nat, v: nat, d: Deriv)
    requires Sound(g, t, kids, cost, rule, derivs)
    requires 1 <= nt <= g.ntNumber && v < cost[nt]
    requires Candidate(g, t, kids, cost, derivs, nt, v, d)
    ensures Sound(g, t, kids, cost[nt := v], rule[nt := Packed(g.rules, d.rule)], derivs[nt := d])
  {
    var cost1, rule1, derivs1 := cost[nt := v], rule[nt := Packed(g.rules, d.rule)], derivs[nt := d];
    forall n | 1 <= n <= g.ntNumber && cost1[n] < MAX_COST
      ensures SoundAt(g, t, kids, cost1, rule1, derivs1, n)
    {
      if n != nt {
        assert SoundAt(g, t, kids, cost, rule, derivs, n);
        assert derivs1[n] == derivs[n];
        if g.rules[derivs[n].rule].pattern == Nt(nt) {
          assert Covers(g, Nt(nt), t, derivs[n].body);
          if derivs[n].body.d == derivs[nt] {
            assert SoundAt(g, t, kids, cost, rule, derivs, nt);
          }
        }
      }
    }
  }

  // ----- ties -----

  lemma {:induction false} TermListAscending(rules: seq<Rule>, op: nat)
    ensures forall i, k | 0 <= i < k < |TermList(rules, op)| :: TermList(rules, op)[i] < TermList(rules, op)[k]
  {
    if rules != [] {
      TermListAscending(rules[..|rules| - 1], op);
      TermListMembers(rules[..|rules| - 1], op);
    }
  }

  lemma {:induction false} ChainListDescending(rules: seq<Rule>, nt: nat)
    ensures forall i, k | 0 <= i < k < |ChainList(rules, nt)| :: ChainList(rules, nt)[i] > ChainList(rules, nt)[k]
  {
    if rules != [] {
      ChainListDescending(rules[..|rules| - 1], nt);
      ChainListMembers(rules[..|rules| - 1], nt);
    }
  }

  /** Recording rule j at cost v is fair: every rule of the same operator that stands before it in the grammar, and
      every chain rule between the same nonterminals that stands behind it, costs more. */
  ghost predicate Fair(g: Grammar, t: Tree, kids: seq<Labels>, v: nat, j: nat)
    requires Wf(g) && WfTree(g, t) && KidsShape(g, t, kids) && j < |g.rules|
  {
    forall k | 0 <= k < |g.rules| && k != j && g.rules[k].lhs == g.rules[j].lhs ::
      if g.rules[j].pattern.Nt? then k > j && g.rules[k].pattern == g.rules[j].pattern ==> g.rules[k].cost.n > g.rules[j].cost.n
      else k < j && !g.rules[k].pattern.Nt? && WfRule(g, g.rules[k]) && Test(g, g.rules[k].pattern, t) ==>
             v < RootCost(g, g.rules[k].pattern, t, kids) + RuleCost(g, k, t)
  }

  ghost predicate AllFair(g: Grammar, t: Tree, kids: seq<Labels>, cost: seq<nat>, derivs: map<nat, Deriv>)
    requires Wf(g) && WfTree(g, t) && KidsShape(g, t, kids)
  {
    forall nt | nt in derivs && nt < |cost| :: derivs[nt].rule < |g.rules| && Fair(g, t, kids, cost[nt], derivs[nt].rule)
  }

  /** A rule of the operator tried in the order of the list. */
  lemma {:induction false} TermFair(g: Grammar, t: Tree, kids: seq<Labels>, cost: seq<nat>, i: nat, v: nat)
    requires Wf(g) && WfTree(g, t) && KidsShape(g, t, kids) && |cost| == g.ntNumber + 1
    requires i < |TermList(g.rules, t.op)| && TriedUpTo(g, t, kids, cost, i)
    requires var j := TermList(g.rules, t.op)[i]; j < |g.rules| && !g.rules[j].pattern.Nt? && v < cost[g.rules[j].lhs]
    ensures Fair(g, t, kids, v, TermList(g.rules, t.op)[i])
  {
    var terms := TermList(g.rules, t.op);
    TermListMembers(g.rules, t.op);
    TermListAscending(g.rules, t.op);
    var j := terms[i];
    forall k | 0 <= k < j && g.rules[k].lhs == g.rules[j].lhs && !g.rules[k].pattern.Nt? && WfRule(g, g.rules[k]) && Test(g, g.rules[k].pattern, t)
      ensures v < RootCost(g, g.rules[k].pattern, t, kids) + RuleCost(g, k, t)
    {
      assert g.rules[k].pattern.op == t.op;
      assert k in terms;
      var h :| 0 <= h < |terms| && terms[h] == k;
      assert h < i;
      assert TermSat(g, t, kids, cost, k);
    }
  }

  /** A chain rule tried in the order of its list. */
  lemma {:induction false} ChainFair(g: Grammar, t: Tree, kids: seq<Labels>, cost: seq<nat>, m: nat, i: nat)
    requires Wf(g) && WfTree(g, t) && KidsShape(g, t, kids) && |cost| == g.ntNumber + 1 && m < |cost|
    requires i < |ChainList(g.rules, m)| && SatUpTo(g, cost, m, i)
    requires var j := ChainList(g.rules, m)[i];
             j < |g.rules| && g.rules[j].pattern == Nt(m) && g.rules[j].lhs < |cost| && cost[m] + g.rules[j].cost.n < cost[g.rules[j].lhs]
    ensures var j := ChainList(g.rules, m)[i]; Fair(g, t, kids, cost[m] + g.rules[j].cost.n, j)
  {
    var chain := ChainList(g.rules, m);
    ChainListMembers(g.rules, m);
    ChainListDescending(g.rules, m);
    var j := chain[i];
    forall k | j < k < |g.rules| && g.rules[k].lhs == g.rules[j].lhs && g.rules[k].pattern == g.rules[j].pattern
      ensures g.rules[k].cost.n > g.rules[j].cost.n
    {
      assert k in chain;
      var h :| 0 <= h < |chain| && chain[h] == k;
      assert h < i;
    }
  }

  lemma {:induction false} WriteKeepsFair(g: Grammar, t: Tree, kids: seq<Labels>, cost: seq<nat>, derivs: map<nat, Deriv>, nt: nat, v: nat, d: Deriv)
    requires Wf(g) && WfTree(g, t) && KidsShape(g, t, kids) && AllFair(g, t, kids, cost, derivs)
    requires nt < |cost| && d.rule < |g.rules| && Fair(g, t, kids, v, d.rule)
    ensures AllFair(g, t, kids, cost[nt := v], derivs[nt := d])
  {
    hide Fair;
  }

  /** Every recorded rule of a labelled tree is the first of the cheapest for its operator, and the last of the cheapest
      between its nonterminals. */
  ghost predicate FirstChosen(g: Grammar, t: Tree, s: Labels)
    requires Wf(g) && WfTree(g, t)
    decreases t, 1
  {
    && KidsShape(g, t, s.kids) && |s.cost| == |s.rule| == g.ntNumber + 1
    && (forall nt | 1 <= nt <= g.ntNumber && s.cost[nt] < MAX_COST ::
          exists j | 0 <= j < |g.rules| :: ChosenAt(g, t, s, nt, j))
    && KidsFirst(g, t, s.kids)
  }

  ghost predicate KidsFirst(g: Grammar, t: Tree, kids: seq<Labels>)
    requires Wf(g) && WfTree(g, t)
    decreases t, 0
  {
    match t
    case T0(_) => true
    case T1(_, l) => |kids| == 1 && FirstChosen(g, l, kids[0])
    case T2(_, l, r) => |kids| == 2 && FirstChosen(g, l, kids[0]) && FirstChosen(g, r, kids[1])
  }

  ghost predicate ChosenAt(g: Grammar, t: Tree, s: Labels, nt: nat, j: nat)
    requires Wf(g) && WfTree(g, t) && KidsShape(g, t, s.kids) && j < |g.rules| && nt < |s.cost| == |s.rule|
  {
    g.rules[j].lhs == nt && s.rule[nt] == Packed(g.rules, j) && Fair(g, t, s.kids, s.cost[nt], j)
  }

  lemma {:induction false} FinishedFirst(g: Grammar, t: Tree, kids: seq<Labels>, cost: seq<nat>, rule: seq<nat>, derivs: map<nat, Deriv>)
    requires Wf(g) && WfTree(g, t) && KidsShape(g, t, kids) && Sound(g, t, kids, cost, rule, derivs) && AllFair(g, t, kids, cost, derivs)
    requires KidsFirst(g, t, kids)
    ensures FirstChosen(g, t, Labels(cost, rule, kids))
  {
    var s := Labels(cost, rule, kids);
    forall nt | 1 <= nt <= g.ntNumber && cost[nt] < MAX_COST
      ensures exists j | 0 <= j < |g.rules| :: ChosenAt(g, t, s, nt, j)
    {
      assert SoundAt(g, t, kids, cost, rule, derivs, nt);
      hide Fair, Linked;
      assert ChosenAt(g, t, s, nt, derivs[nt].rule);
    }
  }

  // ----- the emitted labeller -----

  /** The state `_label` allocates for a node.  Only the start nonterminal's rule is cleared. */
  class State {
    const cost: array<nat>
    const rule: array<nat>
    /** The derivation each lowered entry stands for. */
    ghost var derivs: map<nat, Deriv>

    ghost predicate Valid(g: Grammar, t: Tree, kids: seq<Labels>)
      reads this, cost, rule
    {
      && cost != rule && cost.Length == rule.Length == g.ntNumber + 1
      && Sound(g, t, kids, cost[..], rule[..], derivs)
    }

    constructor (n: nat)
      requires 1 <= n
      ensures fresh(cost) && fresh(rule) && cost != rule
      ensures cost.Length == rule.Length == n + 1
      ensures forall i | 1 <= i <= n :: cost[i] == MAX_COST
      ensures rule[1] == 0
      ensures derivs == map[]
    {
      cost, rule := new nat[n + 1], new nat[n + 1];
      derivs := map[];
      new;
      rule[1] := 0;
      for i := 1 to n + 1
        invariant forall k | 1 <= k < i :: cost[k] == MAX_COST
        invariant rule[1] == 0 && derivs == map[]
      {
        cost[i] := MAX_COST;
      }
    }
  }

  /** `emitrecord`: a cheaper cost is recorded and passed on to the closure of its left-hand side.
      Each nested call has a strictly smaller total cost, so the closure terminates. */
  method Record(g: Grammar, t: Tree, kids: seq<Labels>, p: State, j: nat, c: nat, cost: nat, ghost d: Deriv)
    requires Wf(g) && p.Valid(g, t, kids) && j < |g.rules|
    requires c + cost < MAX_COST ==>
               d.rule == j && Candidate(g, t, kids, p.cost[..], p.derivs, g.rules[j].lhs, c + cost, d)
    requires WfTree(g, t) && KidsShape(g, t, kids) && AllFair(g, t, kids, p.cost[..], p.derivs)
    requires g.rules[j].lhs < p.cost.Length && c + cost < p.cost[g.rules[j].lhs] ==> Fair(g, t, kids, c + cost, j)
    modifies p, p.cost, p.rule
    ensures p.Valid(g, t, kids) && AllFair(g, t, kids, p.cost[..], p.derivs)
    ensures Lowered(old(p.cost[..]), p.cost[..], c + cost)
    ensures Settled(g, old(p.cost[..]), p.cost[..])
    ensures p.cost[g.rules[j].lhs] <= c + cost
    decreases Total(p.cost[..]), 0, 0
  {
    hide Settled, SettledAt, Sat, Sound, AllFair, Fair, KidsShape;
    var lhs := g.rules[j].lhs;
    SettledRefl(g, p.cost[..]);
    SoundIsBounded(g, t, kids, p.cost[..], p.rule[..], p.derivs, lhs);
    if c + cost < p.cost[lhs] {
      ghost var before := p.cost[..];
      WriteKeepsSound(g, t, kids, p.cost[..], p.rule[..], p.derivs, lhs, c + cost, d);
      WriteKeepsFair(g, t, kids, p.cost[..], p.derivs, lhs, c + cost, d);
      p.cost[lhs] := c + cost;
      p.rule[lhs] := Packed(g.rules, j);
      p.derivs := p.derivs[lhs := d];
      ghost var mid := p.cost[..];
      assert mid == before[lhs := c + cost];
      TotalLowered(before, mid);
      assert mid[lhs] < before[lhs];
      Closure(g, t, kids, p, lhs, c + cost);
      RecordSettles(g, before, lhs, c + cost, mid, p.cost[..]);
    }
  }

  /** `emitclosure`: every chain rule out of m is tried with the cost c just recorded for m. */
  method Closure(g: Grammar, t: Tree, kids: seq<Labels>, p: State, m: nat, c: nat)
    requires Wf(g) && p.Valid(g, t, kids)
    requires 1 <= m <= g.ntNumber && p.cost[m] == c < MAX_COST
    requires WfTree(g, t) && KidsShape(g, t, kids) && AllFair(g, t, kids, p.cost[..], p.derivs)
    modifies p, p.cost, p.rule
    ensures p.Valid(g, t, kids) && AllFair(g, t, kids, p.cost[..], p.derivs)
    ensures Lowered(old(p.cost[..]), p.cost[..], c)
    ensures Settled(g, old(p.cost[..]), p.cost[..])
    ensures Sat(g, p.cost[..], m)
    decreases Total(p.cost[..]), 1, 0
  {
    hide Settled, SettledAt, SettledExcept, Sat, SatUpTo, Sound, Candidate, AllFair, Fair, KidsShape;
    var chain := ChainList(g.rules, m);
    ChainListMembers(g.rules, m);
    ghost var before := p.cost[..];
    NothingSettledYet(g, before, m);
    var i := 0;
    while i < |chain|
      invariant 0 <= i <= |chain|
      invariant p.Valid(g, t, kids) && p.cost[m] == c && AllFair(g, t, kids, p.cost[..], p.derivs)
      invariant Lowered(before, p.cost[..], c)
      invariant SettledExcept(g, before, p.cost[..], m)
      invariant SatUpTo(g, p.cost[..], m, i)
    {
      var j := chain[i];
      assert j in chain;
      ghost var mid := p.cost[..];
      TotalLowered(before, mid);
      ChainCandidate(g, t, kids, p.cost[..], p.rule[..], p.derivs, m, j);
      assert WfRule(g, g.rules[j]);
      if c + g.rules[j].cost.n < p.cost[g.rules[j].lhs] {
        ChainFair(g, t, kids, mid, m, i);
      }
      Record(g, t, kids, p, j, c, g.rules[j].cost.n, Deriv(j, AtNt(p.derivs[m])));
      SettledExceptTrans(g, before, mid, p.cost[..], m);
      SatUpToStep(g, mid, p.cost[..], c + g.rules[j].cost.n, m, i);
      i := i + 1;
    }
    SatUpToAll(g, before, p.cost[..], m);
  }

  // ----- from settled costs to the optimum -----

  /** `emitcost` for a rule's whole pattern: only the children's states are read. */
  function RootCost(g: Grammar, p: Pattern, t: Tree, kids: seq<Labels>): nat
    requires WfPattern(g, p) && WfTree(g, t) && !p.Nt? && Test(g, p, t)
    requires KidsShape(g, t, kids)
  {
    match p
    case P0(_) => 0
    case P1(_, l) => CostAt(g, l, t.left, kids[0])
    case P2(_, l, r) => CostAt(g, l, t.left, kids[0]) + CostAt(g, r, t.right, kids[1])
  }

  ghost predicate KidsShape(g: Grammar, t: Tree, kids: seq<Labels>) {
    match t
    case T0(_) => kids == []
    case T1(_, l) => |kids| == 1 && Shape(g, l, kids[0])
    case T2(_, l, r) => |kids| == 2 && Shape(g, l, kids[0]) && Shape(g, r, kids[1])
  }

  /** Rule j, whose pattern starts with a terminal, has nothing left to improve at this node. */
  ghost predicate TermSat(g: Grammar, t: Tree, kids: seq<Labels>, cost: seq<nat>, j: nat)
    requires Wf(g) && WfTree(g, t) && KidsShape(g, t, kids)
    requires |cost| == g.ntNumber + 1 && j < |g.rules| && !g.rules[j].pattern.Nt?
  {
    WfRule(g, g.rules[j]) &&
    (Test(g, g.rules[j].pattern, t) ==>
      cost[g.rules[j].lhs] <= RootCost(g, g.rules[j].pattern, t, kids) + RuleCost(g, j, t))
  }

  /** Where a pattern fits, some match costs exactly the sum of the recorded costs. */
  lemma {:induction false} BestMatch(g: Grammar, p: Pattern, t: Tree, s: Labels) returns (m: Match)
    requires WfPattern(g, p) && WfTree(g, t) && Optimal(g, t, s) && Test(g, p, t)
    requires CostAt(g, p, t, s) < MAX_COST
    ensures Covers(g, p, t, m) && CoverCost(g, p, t, m) == CostAt(g, p, t, s) && SelectsBody(g, p, t, s, m)
    decreases p
  {
    match p
    case Nt(n) =>
      var d :| Derives(g, d, n, t) && DerivCost(g, d, n, t) == s.cost[n] && Selects(g, t, s, n, d);
      m := AtNt(d);
    case P0(_) =>
      m := M0;
    case P1(_, l) =>
      var ml := BestMatch(g, l, t.left, s.kids[0]);
      m := M1(ml);
    case P2(_, l, r) =>
      var ml := BestMatch(g, l, t.left, s.kids[0]);
      var mr := BestMatch(g, r, t.right, s.kids[1]);
      m := M2(ml, mr);
  }

  lemma TermCandidate(g: Grammar, t: Tree, kids: seq<Labels>, cost: seq<nat>, derivs: map<nat, Deriv>, j: nat)
    returns (d: Deriv)
    requires Wf(g) && WfTree(g, t) && KidsOptimal(g, t, kids)
    requires j < |g.rules| && !g.rules[j].pattern.Nt? && WfPattern(g, g.rules[j].pattern)
    requires Test(g, g.rules[j].pattern, t)
    requires RootCost(g, g.rules[j].pattern, t, kids) + RuleCost(g, j, t) < MAX_COST
    ensures d.rule == j
    ensures Candidate(g, t, kids, cost, derivs, g.rules[j].lhs,
                      RootCost(g, g.rules[j].pattern, t, kids) + RuleCost(g, j, t), d)
  {
    match g.rules[j].pattern
    case P0(_) =>
      d := Deriv(j, M0);
    case P1(_, l) =>
      var ml := BestMatch(g, l, t.left, kids[0]);
      d := Deriv(j, M1(ml));
    case P2(_, l, r) =>
      var ml := BestMatch(g, l, t.left, kids[0]);
      var mr := BestMatch(g, r, t.right, kids[1]);
      d := Deriv(j, M2(ml, mr));
  }

  /** Every match costs at least the sum of the recorded costs. */
  lemma {:induction false} CoverAtLeast(g: Grammar, p: Pattern, t: Tree, s: Labels, m: Match)
    requires WfPattern(g, p) && WfTree(g, t) && Optimal(g, t, s) && Covers(g, p, t, m)
    ensures Test(g, p, t) && CostAt(g, p, t, s) <= CoverCost(g, p, t, m)
    decreases p
  {
    match p
    case Nt(n) =>
      assert Derives(g, m.d, n, t);
    case P0(_) =>
    case P1(_, l) =>
      CoverAtLeast(g, l, t.left, s.kids[0], m.left);
    case P2(_, l, r) =>
      CoverAtLeast(g, l, t.left, s.kids[0], m.left);
      CoverAtLeast(g, r, t.right, s.kids[1], m.right);
  }

  lemma {:induction false} RootCoverAtLeast(g: Grammar, p: Pattern, t: Tree, kids: seq<Labels>, m: Match)
    requires WfPattern(g, p) && WfTree(g, t) && KidsOptimal(g, t, kids) && !p.Nt? && Covers(g, p, t, m)
    ensures Test(g, p, t) && RootCost(g, p, t, kids) <= CoverCost(g, p, t, m)
  {
    match p
    case P0(_) =>
    case P1(_, l) =>
      CoverAtLeast(g, l, t.left, kids[0], m.left);
    case P2(_, l, r) =>
      CoverAtLeast(g, l, t.left, kids[0], m.left);
      CoverAtLeast(g, r, t.right, kids[1], m.right);
  }

  /** Costs no rule can improve are below the cost of every derivation. */
  lemma {:induction false} NoneCheaper(g: Grammar, t: Tree, kids: seq<Labels>, cost: seq<nat>, d: Deriv, nt: nat)
    requires Wf(g) && WfTree(g, t) && KidsOptimal(g, t, kids) && |cost| == g.ntNumber + 1
    requires forall j | 0 <= j < |g.rules| && !g.rules[j].pattern.Nt? :: TermSat(g, t, kids, cost, j)
    requires forall m | 1 <= m <= g.ntNumber :: Sat(g, cost, m)
    requires Derives(g, d, nt, t) && nt <= g.ntNumber
    ensures cost[nt] <= DerivCost(g, d, nt, t)
    decreases d
  {
    var r := g.rules[d.rule];
    assert WfRule(g, r);
    if r.pattern.Nt? {
      NoneCheaper(g, t, kids, cost, d.body.d, r.pattern.nt);
      assert Sat(g, cost, r.pattern.nt);
    } else {
      assert TermSat(g, t, kids, cost, d.rule);
      RootCoverAtLeast(g, r.pattern, t, kids, d.body);
    }
  }

  /** Once costs are settled, the recorded rule numbers select the derivations recorded. */
  lemma {:induction false} SettledSelects(g: Grammar, t: Tree, kids: seq<Labels>, cost: seq<nat>, rule: seq<nat>,
                       derivs: map<nat, Deriv>, nt: nat)
    requires Wf(g) && Sound(g, t, kids, cost, rule, derivs)
    requires forall m | 1 <= m <= g.ntNumber :: Sat(g, cost, m)
    requires 1 <= nt <= g.ntNumber && cost[nt] < MAX_COST
    ensures nt in derivs && Selects(g, t, Labels(cost, rule, kids), nt, derivs[nt])
    decreases derivs[nt]
  {
    assert SoundAt(g, t, kids, cost, rule, derivs, nt);
    var d := derivs[nt];
    var r := g.rules[d.rule];
    assert WfRule(g, r);
    if r.pattern.Nt? {
      var m := r.pattern.nt;
      assert Sat(g, cost, m);
      assert DerivCost(g, d, nt, t) == RuleCost(g, d.rule, t) + DerivCost(g, d.body.d, m, t);
      SettledSelects(g, t, kids, cost, rule, derivs, m);
    }
  }

  lemma {:induction false} SettlingKeepsTermSat(g: Grammar, t: Tree, kids: seq<Labels>, s: seq<nat>, u: seq<nat>, v: nat, j: nat)
    requires Wf(g) && WfTree(g, t) && KidsShape(g, t, kids)
    requires |s| == |u| == g.ntNumber + 1 && j < |g.rules| && !g.rules[j].pattern.Nt?
    requires TermSat(g, t, kids, s, j) && Lowered(s, u, v)
    ensures TermSat(g, t, kids, u, j)
  {
    assert WfRule(g, g.rules[j]);
  }

  lemma SettledEverywhere(g: Grammar, s: seq<nat>, u: seq<nat>)
    requires Wf(g) && |s| == |u| == g.ntNumber + 1 && Settled(g, s, u)
    requires forall m | 1 <= m <= g.ntNumber :: Sat(g, s, m)
    ensures forall m | 1 <= m <= g.ntNumber :: Sat(g, u, m)
  {
    forall m | 1 <= m <= g.ntNumber
      ensures Sat(g, u, m)
    {
      assert SettledAt(g, s, u, m);
    }
  }

  ghost predicate AllSat(g: Grammar, cost: seq<nat>)
    requires Wf(g) && |cost| == g.ntNumber + 1
  {
    forall m | 1 <= m <= g.ntNumber :: Sat(g, cost, m)
  }

  /** The first i rules of the terminal's list have been tried. */
  ghost predicate TriedUpTo(g: Grammar, t: Tree, kids: seq<Labels>, cost: seq<nat>, i: nat)
    requires Wf(g) && WfTree(g, t) && KidsShape(g, t, kids) && |cost| == g.ntNumber + 1
    requires i <= |TermList(g.rules, t.op)|
  {
    TermListMembers(g.rules, t.op);
    forall k | 0 <= k < i ::
      var j := TermList(g.rules, t.op)[k];
      j in TermList(g.rules, t.op) && TermSat(g, t, kids, cost, j)
  }

  lemma {:induction false} TriedStep(g: Grammar, t: Tree, kids: seq<Labels>, s: seq<nat>, u: seq<nat>, v: nat, i: nat)
    requires Wf(g) && WfTree(g, t) && KidsShape(g, t, kids) && |s| == |u| == g.ntNumber + 1
    requires i < |TermList(g.rules, t.op)|
    requires TriedUpTo(g, t, kids, s, i) && Lowered(s, u, v)
    requires var j := TermList(g.rules, t.op)[i];
             j < |g.rules| && !g.rules[j].pattern.Nt? && TermSat(g, t, kids, u, j)
    ensures TriedUpTo(g, t, kids, u, i + 1)
  {
    TermListMembers(g.rules, t.op);
    forall k | 0 <= k < i + 1
      ensures var j := TermList(g.rules, t.op)[k];
              j in TermList(g.rules, t.op) && TermSat(g, t, kids, u, j)
    {
      var j := TermList(g.rules, t.op)[k];
      assert j in TermList(g.rules, t.op);
      if k < i {
        SettlingKeepsTermSat(g, t, kids, s, u, v, j);
      }
    }
  }

  lemma KidsOptimalShape(g: Grammar, t: Tree, kids: seq<Labels>)
    requires KidsOptimal(g, t, kids)
    ensures KidsShape(g, t, kids)
  {
  }

  /** When all rules of the operator have been tried, all of the grammar's have. */
  lemma {:induction false} AllTried(g: Grammar, t: Tree, kids: seq<Labels>, cost: seq<nat>)
    requires Wf(g) && WfTree(g, t) && KidsShape(g, t, kids) && |cost| == g.ntNumber + 1
    requires TriedUpTo(g, t, kids, cost, |TermList(g.rules, t.op)|)
    ensures forall j | 0 <= j < |g.rules| && !g.rules[j].pattern.Nt? :: TermSat(g, t, kids, cost, j)
  {
    TermListMembers(g.rules, t.op);
    forall j | 0 <= j < |g.rules| && !g.rules[j].pattern.Nt?
      ensures TermSat(g, t, kids, cost, j)
    {
      assert WfRule(g, g.rules[j]);
      if g.rules[j].pattern.op == t.op {
        assert j in TermList(g.rules, t.op);
      }
    }
  }

  lemma {:induction false} FinishedLower(g: Grammar, t: Tree, kids: seq<Labels>, cost: seq<nat>, rule: seq<nat>)
    requires Wf(g) && WfTree(g, t) && KidsOptimal(g, t, kids) && |cost| == g.ntNumber + 1 && AllSat(g, cost)
    requires forall j | 0 <= j < |g.rules| && !g.rules[j].pattern.Nt? :: TermSat(g, t, kids, cost, j)
    ensures LowerBound(g, t, Labels(cost, rule, kids))
  {
    hide TermSat, Sat, KidsOptimal, Derives, DerivCost;
    forall d: Deriv, nt: nat | 1 <= nt <= g.ntNumber && Derives(g, d, nt, t)
      ensures cost[nt] <= DerivCost(g, d, nt, t)
    {
      NoneCheaper(g, t, kids, cost, d, nt);
    }
  }

  lemma {:induction false} FinishedAchieved(g: Grammar, t: Tree, kids: seq<Labels>, cost: seq<nat>, rule: seq<nat>,
                          derivs: map<nat, Deriv>)
    requires Wf(g) && Sound(g, t, kids, cost, rule, derivs) && AllSat(g, cost)
    ensures Achieved(g, t, Labels(cost, rule, kids))
  {
    hide Sat, Derives, DerivCost, Selects, Linked;
    var s := Labels(cost, rule, kids);
    forall nt | 1 <= nt <= g.ntNumber && cost[nt] < MAX_COST
      ensures exists d :: Derives(g, d, nt, t) && DerivCost(g, d, nt, t) == cost[nt] && Selects(g, t, s, nt, d)
    {
      SettledSelects(g, t, kids, cost, rule, derivs, nt);
      assert SoundAt(g, t, kids, cost, rule, derivs, nt);
    }
  }

  /** A node whose rules have all been tried, over optimal children, is optimal. */
  lemma {:induction false} FinishedIsOptimal(g: Grammar, t: Tree, kids: seq<Labels>, cost: seq<nat>, rule: seq<nat>,
                          derivs: map<nat, Deriv>)
    requires Wf(g) && WfTree(g, t) && KidsOptimal(g, t, kids) && KidsShape(g, t, kids)
    requires Sound(g, t, kids, cost, rule, derivs)
    requires AllSat(g, cost) && TriedUpTo(g, t, kids, cost, |TermList(g.rules, t.op)|)
    ensures Optimal(g, t, Labels(cost, rule, kids))
  {
    AllTried(g, t, kids, cost);
    FinishedLower(g, t, kids, cost, rule);
    FinishedAchieved(g, t, kids, cost, rule, derivs);
    hide Sound, AllSat, TriedUpTo, TermSat, LowerBound, Achieved;
  }

  /** The case `emitcase` prints for the node's operator: every rule of its list is tested, costed
      and recorded. */
  method LabelNode(g: Grammar, t: Tree, kids: seq<Labels>) returns (s: Labels)
    requires Wf(g) && WfTree(g, t) && KidsOptimal(g, t, kids) && KidsFirst(g, t, kids)
    ensures Optimal(g, t, s) && FirstChosen(g, t, s)
  {
    hide Settled, Sat, Sound, Candidate, TermSat, Optimal, AllFair, Fair, FirstChosen;
    KidsOptimalShape(g, t, kids);
    var p := new State(g.ntNumber);
    FreshState(g, t, kids, p.cost[..], p.rule[..]);
    NothingUnfair(g, t, kids, p.cost[..]);
    var terms := TermList(g.rules, t.op);
    TermListMembers(g.rules, t.op);
    var i := 0;
    while i < |terms|
      invariant 0 <= i <= |terms|
      invariant fresh(p) && fresh(p.cost) && fresh(p.rule)
      invariant p.Valid(g, t, kids) && AllFair(g, t, kids, p.cost[..], p.derivs)
      invariant AllSat(g, p.cost[..])
      invariant TriedUpTo(g, t, kids, p.cost[..], i)
    {
      var j := terms[i];
      assert j in terms;
      assert WfRule(g, g.rules[j]);
      ghost var mid := p.cost[..];
      if Test(g, g.rules[j].pattern, t) {
        var c := RootCost(g, g.rules[j].pattern, t, kids) + RuleCost(g, j, t);
        ghost var d := Deriv(j, M0);
        if c < MAX_COST {
          d := TermCandidate(g, t, kids, mid, p.derivs, j);
        }
        if c < p.cost[g.rules[j].lhs] {
          TermFair(g, t, kids, mid, i, c);
        }
        Record(g, t, kids, p, j, c, 0, d);
        NowTried(g, t, kids, p.cost[..], j);
        TriedStep(g, t, kids, mid, p.cost[..], c, i);
        SettledEverywhere(g, mid, p.cost[..]);
      } else {
        NowTried(g, t, kids, mid, j);
        TriedStep(g, t, kids, mid, mid, 0, i);
      }
      i := i + 1;
    }
    s := Labels(p.cost[..], p.rule[..], kids);
    FinishedIsOptimal(g, t, kids, p.cost[..], p.rule[..], p.derivs);
    FinishedFirst(g, t, kids, p.cost[..], p.rule[..], p.derivs);
  }

  lemma {:induction false} NothingUnfair(g: Grammar, t: Tree, kids: seq<Labels>, cost: seq<nat>)
    requires Wf(g) && WfTree(g, t) && KidsShape(g, t, kids)
    ensures AllFair(g, t, kids, cost, map[])
  {
  }

  lemma {:induction false} FreshState(g: Grammar, t: Tree, kids: seq<Labels>, cost: seq<nat>, rule: seq<nat>)
    requires Wf(g) && WfTree(g, t) && KidsShape(g, t, kids) && |cost| == |rule| == g.ntNumber + 1
    requires forall i | 1 <= i <= g.ntNumber :: cost[i] == MAX_COST
    ensures Sound(g, t, kids, cost, rule, map[])
    ensures AllSat(g, cost) && TriedUpTo(g, t, kids, cost, 0)
  {
    forall m | 1 <= m <= g.ntNumber
      ensures Sat(g, cost, m)
    {
      forall j | 0 <= j < |g.rules| && g.rules[j].pattern == Nt(m)
        ensures cost[g.rules[j].lhs] <= cost[m] + g.rules[j].cost.n
      {
        assert WfRule(g, g.rules[j]);
      }
    }
  }

  lemma {:induction false} NowTried(g: Grammar, t: Tree, kids: seq<Labels>, cost: seq<nat>, j: nat)
    requires Wf(g) && WfTree(g, t) && KidsShape(g, t, kids)
    requires |cost| == g.ntNumber + 1 && j < |g.rules| && !g.rules[j].pattern.Nt?
    requires WfRule(g, g.rules[j])
    requires Test(g, g.rules[j].pattern, t) ==>
               cost[g.rules[j].lhs] <= RootCost(g, g.rules[j].pattern, t, kids) + RuleCost(g, j, t)
    ensures TermSat(g, t, kids, cost, j)
  {
  }

  /** The emitted `_label`: children first, then the node.  An operator that is no declared terminal
      is fatal.  Otherwise every node ends with the minimum cost of every nonterminal, cut off at
      MAX_COST, and with rule numbers that lead the reducer through a cheapest derivation. */
  method Label(g: Grammar, t: Tree) returns (ok: bool, s: Labels)
    requires Wf(g)
    ensures ok <==> WfTree(g, t)
    ensures ok ==> Optimal(g, t, s) && FirstChosen(g, t, s)
    decreases t
  {
    hide Optimal, FirstChosen;
    s := Labels([], [], []);
    var kids: seq<Labels> := [];
    match t {
      case T0(op) =>
        ok := op in g.arity && g.arity[op] == 0;
      case T1(op, l) =>
        ok := op in g.arity && g.arity[op] == 1;
        if ok {
          var k;
          ok, k := Label(g, l);
          kids := [k];
        }
      case T2(op, l, r) =>
        ok := op in g.arity && g.arity[op] == 2;
        if ok {
          var k0, k1;
          ok, k0 := Label(g, l);
          if ok {
            ok, k1 := Label(g, r);
            kids := [k0, k1];
          }
        }
    }
    if ok {
      s := LabelNode(g, t, kids);
    }
  }
}

/** The linker (binutils/linker.cpp:145-284, 391-485): dead objects are stripped, sections laid out,
    labels relocated and resolved, and marked words replaced by label positions. */
module Linker {
  import opened Words

  const BLOCK: nat := 8

  /** A label as written: a symbol, and the text of a shift behind it (`+3`, `-1`). */
  datatype Name = Name(base: string, suffix: string)

  datatype Label = Label(name: Name, section: nat, uid: nat, position: int, needExport: bool, needImport: bool, shift: int)

  datatype Section = Section(labelMap: set<nat>, offset: nat, code: seq<Word>)

  /** An object file: text, data, and its labels in the order of their names. */
  datatype Obj = Obj(text: Section, data: Section, labels: seq<Label>)

  datatype Mode = OneSeg | TwoSeg | RawBin

  // ----- finding labels -----

  function IndexOf(ls: seq<Label>, n: Name): (k: nat)
    ensures k <= |ls| && (k < |ls| ==> ls[k].name == n)
    ensures forall j | 0 <= j < k :: ls[j].name != n
  {
    if ls == [] then 0 else if ls[0].name == n then 0 else 1 + IndexOf(ls[1..], n)
  }

  predicate Exports(o: Obj, n: Name) {
    var k := IndexOf(o.labels, n);
    k < |o.labels| && o.labels[k].needExport
  }

  predicate Defines(o: Obj, n: Name) {
    var k := IndexOf(o.labels, n);
    k < |o.labels| && !o.labels[k].needImport
  }

  /** `whoProvides`: the first object that exports the label. */
  function Provider(objs: seq<Obj>, n: Name): (i: nat)
    ensures i <= |objs| && (i < |objs| ==> Exports(objs[i], n))
    ensures forall j | 0 <= j < i :: !Exports(objs[j], n)
  {
    if objs == [] then 0 else if Exports(objs[0], n) then 0 else 1 + Provider(objs[1..], n)
  }

  /** The search of `findGlobalLabel`: the first object with a label of that name that is not, or no
      longer, an import. */
  function Definer(objs: seq<Obj>, n: Name): (i: nat)
    ensures i <= |objs| && (i < |objs| ==> Defines(objs[i], n))
    ensures forall j | 0 <= j < i :: !Defines(objs[j], n)
  {
    if objs == [] then 0 else if Defines(objs[0], n) then 0 else 1 + Definer(objs[1..], n)
  }

  // ----- stripping -----

  const PROGBEG := Name("__progbeg", "")

  /** Object i imports a label that object k is the first to export. */
  predicate Edge(objs: seq<Obj>, i: nat, k: nat)
    requires i < |objs|
  {
    exists j | 0 <= j < |objs[i].labels| :: objs[i].labels[j].needImport && Provider(objs, objs[i].labels[j].name) == k < |objs|
  }

  predicate Path(objs: seq<Obj>, p: seq<nat>) {
    && |p| > 0 && p[0] == Provider(objs, PROGBEG)
    && (forall i | 0 <= i < |p| :: p[i] < |objs|)
    && (forall i, j | 0 <= i && j == i + 1 < |p| :: Edge(objs, p[i], p[j]))
  }

  ghost predicate Reachable(objs: seq<Obj>, k: nat) {
    exists p: seq<nat> :: Path(objs, p) && p[|p| - 1] == k
  }

  /** A set of objects with the start in it that follows every edge holds all reachable objects. */
  ghost predicate Closed(objs: seq<Obj>, req: seq<nat>) {
    && Provider(objs, PROGBEG) in req
    && (forall i | 0 <= i < |req| :: req[i] < |objs|)
    && forall i: nat, k: nat | i in req && i < |objs| && k < |objs| && Edge(objs, i, k) :: k in req
  }

  lemma {:induction false} ClosedHoldsReachable(objs: seq<Obj>, req: seq<nat>, p: seq<nat>)
    requires Closed(objs, req) && Path(objs, p)
    ensures p[|p| - 1] in req
    decreases |p|
  {
    if |p| > 1 {
      var q := p[..|p| - 1];
      assert Path(objs, q);
      ClosedHoldsReachable(objs, req, q);
      assert Edge(objs, p[|p| - 2], p[|p| - 1]);
    }
  }

  lemma StepReachable(objs: seq<Obj>, i: nat, k: nat)
    requires Reachable(objs, i) && i < |objs| && k < |objs| && Edge(objs, i, k)
    ensures Reachable(objs, k)
  {
    hide Edge, Provider;
    var p: seq<nat> :| Path(objs, p) && p[|p| - 1] == i;
    var q := p + [k];
    assert Path(objs, q) && q[|q| - 1] == k;
  }

  lemma {:induction false} StartReachable(objs: seq<Obj>)
    requires Provider(objs, PROGBEG) < |objs|
    ensures Reachable(objs, Provider(objs, PROGBEG))
  {
    assert Path(objs, [Provider(objs, PROGBEG)]);
  }

  predicate Distinct(s: seq<nat>) {
    forall i, j | 0 <= i < j < |s| :: s[i] != s[j]
  }

  lemma {:induction false} DistinctShort(s: seq<nat>, n: nat)
    requires Distinct(s) && forall i | 0 <= i < |s| :: s[i] < n
    ensures |s| <= n
    decreases n
  {
    var first := if |s| > 0 then s[0] else 0;
    if n == 0 {
    } else if k :| 0 <= k < |s| && s[k] == n - 1 {
      var t := s[..k] + s[k + 1..];
      assert forall i | 0 <= i < |t| :: t[i] == if i < k then s[i] else s[i + 1];
      DistinctShort(t, n - 1);
    } else {
      DistinctShort(s, n - 1);
    }
  }

  /** The objects with the given numbers, in their original order. */
  function Selected(objs: seq<Obj>, req: seq<nat>, n: nat): seq<Obj>
    requires n <= |objs|
  {
    if n == 0 then [] else Selected(objs, req, n - 1) + (if n - 1 in req then [objs[n - 1]] else [])
  }

  // ----- layout -----

  function TextBefore(objs: seq<Obj>, i: nat): nat
    requires i <= |objs|
  {
    if i == 0 then 0 else TextBefore(objs, i - 1) + |objs[i - 1].text.code|
  }

  function DataBefore(objs: seq<Obj>, i: nat): nat
    requires i <= |objs|
  {
    if i == 0 then 0 else DataBefore(objs, i - 1) + |objs[i - 1].data.code|
  }

  function DataStart(objs: seq<Obj>, mode: Mode): nat {
    if mode == TwoSeg then 0 else TextBefore(objs, |objs|)
  }

  /** Where a label that is defined in an object with these section offsets ends up: text positions
      count blocks of eight words. */
  function Moved(l: Label, textOffset: nat, dataOffset: nat, globalBase: nat, dataBase: nat): Label {
    if l.needImport then l
    else if l.section == 0 then l.(position := l.position + (globalBase + textOffset) / BLOCK)
    else l.(position := l.position + globalBase + dataOffset + dataBase)
  }

  function MovedAll(ls: seq<Label>, textOffset: nat, dataOffset: nat, globalBase: nat, dataBase: nat): seq<Label> {
    seq(|ls|, j requires 0 <= j < |ls| => Moved(ls[j], textOffset, dataOffset, globalBase, dataBase))
  }

  function Placed(objs: seq<Obj>, mode: Mode, globalBase: nat, dataBase: nat, i: nat): Obj
    requires i < |objs|
  {
    var t, d := TextBefore(objs, i), DataStart(objs, mode) + DataBefore(objs, i);
    Obj(objs[i].text.(offset := t), objs[i].data.(offset := d), MovedAll(objs[i].labels, t, d, globalBase, dataBase))
  }

  /** A label in text is at word 8 * position of its section; its block number after layout stands for
      that word exactly when base and section offset together are whole blocks. */
  lemma TextPositionExact(l: Label, textOffset: nat, dataOffset: nat, globalBase: nat, dataBase: nat)
    requires !l.needImport && l.section == 0
    ensures BLOCK * Moved(l, textOffset, dataOffset, globalBase, dataBase).position
            == globalBase + textOffset + BLOCK * l.position
            <==> (globalBase + textOffset) % BLOCK == 0
  {
    var b := globalBase + textOffset;
    assert b == BLOCK * (b / BLOCK) + b % BLOCK;
    assert BLOCK * (l.position + b / BLOCK) == BLOCK * l.position + BLOCK * (b / BLOCK);
  }

  /** With whole blocks of text in every object all text sections start at whole blocks. */
  lemma {:induction false} WholeBlocks(objs: seq<Obj>, globalBase: nat, i: nat)
    requires i <= |objs| && globalBase % BLOCK == 0 && forall k | 0 <= k < |objs| :: |objs[k].text.code| % BLOCK == 0
    ensures (globalBase + TextBefore(objs, i)) % BLOCK == 0
  {
    if i > 0 {
      WholeBlocks(objs, globalBase, i - 1);
      BlocksAdd(globalBase + TextBefore(objs, i - 1), |objs[i - 1].text.code|);
    }
  }

  lemma BlocksAdd(a: nat, b: nat)
    requires a % BLOCK == 0 && b % BLOCK == 0
    ensures (a + b) % BLOCK == 0
  {
  }

  /** Sections occupy contiguous, disjoint ranges. */
  lemma {:induction false} TextsDisjoint(objs: seq<Obj>, i: nat, k: nat)
    requires i < k <= |objs|
    ensures TextBefore(objs, i) + |objs[i].text.code| <= TextBefore(objs, k)
    decreases k
  {
    if i < k - 1 {
      TextsDisjoint(objs, i, k - 1);
    }
  }

  lemma {:induction false} DatasDisjoint(objs: seq<Obj>, i: nat, k: nat)
    requires i < k <= |objs|
    ensures DataBefore(objs, i) + |objs[i].data.code| <= DataBefore(objs, k)
    decreases k
  {
    if i < k - 1 {
      DatasDisjoint(objs, i, k - 1);
    }
  }

  // ----- the image -----

  function TextImage(objs: seq<Obj>): seq<Word> {
    if objs == [] then [] else TextImage(objs[..|objs| - 1]) + objs[|objs| - 1].text.code
  }

  function DataImage(objs: seq<Obj>): seq<Word> {
    if objs == [] then [] else DataImage(objs[..|objs| - 1]) + objs[|objs| - 1].data.code
  }

  lemma {:induction false} PrefixBefore(objs: seq<Obj>, n: nat, i: nat)
    requires i <= n <= |objs|
    ensures TextBefore(objs[..n], i) == TextBefore(objs, i) && DataBefore(objs[..n], i) == DataBefore(objs, i)
    decreases i
  {
    if i > 0 {
      PrefixBefore(objs, n, i - 1);
    }
  }

  /** The words of a section lie in the image where the layout has put the section. */
  lemma {:induction false} ImageHoldsText(objs: seq<Obj>, i: nat, j: nat)
    requires i < |objs| && j < |objs[i].text.code|
    ensures |TextImage(objs)| == TextBefore(objs, |objs|)
    ensures TextBefore(objs, i) + j < |TextImage(objs)|
    ensures TextImage(objs)[TextBefore(objs, i) + j] == objs[i].text.code[j]
    decreases |objs|
  {
    var k := |objs| - 1;
    var init := objs[..k];
    PrefixBefore(objs, k, k);
    TextImageLength(init);
    if i < k {
      PrefixBefore(objs, k, i);
      ImageHoldsText(init, i, j);
    }
  }

  lemma {:induction false} TextImageLength(objs: seq<Obj>)
    ensures |TextImage(objs)| == TextBefore(objs, |objs|)
    decreases |objs|
  {
    if objs != [] {
      PrefixBefore(objs, |objs| - 1, |objs| - 1);
      TextImageLength(objs[..|objs| - 1]);
    }
  }

  lemma {:induction false} ImageHoldsData(objs: seq<Obj>, i: nat, j: nat)
    requires i < |objs| && j < |objs[i].data.code|
    ensures |DataImage(objs)| == DataBefore(objs, |objs|)
    ensures DataBefore(objs, i) + j < |DataImage(objs)|
    ensures DataImage(objs)[DataBefore(objs, i) + j] == objs[i].data.code[j]
    decreases |objs|
  {
    var k := |objs| - 1;
    var init := objs[..k];
    PrefixBefore(objs, k, k);
    DataImageLength(init);
    if i < k {
      PrefixBefore(objs, k, i);
      ImageHoldsData(init, i, j);
    }
  }

  lemma {:induction false} DataImageLength(objs: seq<Obj>)
    ensures |DataImage(objs)| == DataBefore(objs, |objs|)
    decreases |objs|
  {
    if objs != [] {
      PrefixBefore(objs, |objs| - 1, |objs| - 1);
      DataImageLength(objs[..|objs| - 1]);
    }
  }

  // ----- resolving and linking -----

  /** The name cut at its first sign; a name that starts with a sign is not cut. */
  function BaseName(n: Name): Name {
    if n.base == "" then n else Name(n.base, "")
  }

  /** The definition an import resolves to. */
  function Definition(objs: seq<Obj>, n: Name): Label
    requires Definer(objs, n) < |objs|
  {
    var o := objs[Definer(objs, n)];
    o.labels[IndexOf(o.labels, n)]
  }

  function Resolved(objs: seq<Obj>, l: Label): Label {
    if l.needImport && Definer(objs, BaseName(l.name)) < |objs| then
      var d := Definition(objs, BaseName(l.name));
      l.(position := d.position, section := d.section, needImport := false)
    else l
  }

  function ResolvedLabels(objs: seq<Obj>, ls: seq<Label>): seq<Label> {
    seq(|ls|, j requires 0 <= j < |ls| => Resolved(objs, ls[j]))
  }

  /** Labels up to label j of object i have been resolved. */
  ghost predicate Resolving(objs0: seq<Obj>, objs: seq<Obj>, i: nat, j: nat) {
    && |objs| == |objs0|
    && forall k | 0 <= k < |objs| ::
         && objs[k].text == objs0[k].text && objs[k].data == objs0[k].data && |objs[k].labels| == |objs0[k].labels|
         && forall m | 0 <= m < |objs[k].labels| ::
              objs[k].labels[m] == if k < i || (k == i && m < j) then Resolved(objs0, objs0[k].labels[m]) else objs0[k].labels[m]
  }

  /** The state of a half-resolved table: every label is as before or resolved. */
  ghost predicate Partly(objs0: seq<Obj>, objs: seq<Obj>) {
    && |objs| == |objs0|
    && forall k | 0 <= k < |objs| ::
         && |objs[k].labels| == |objs0[k].labels|
         && forall m | 0 <= m < |objs[k].labels| ::
              objs[k].labels[m] == objs0[k].labels[m] || objs[k].labels[m] == Resolved(objs0, objs0[k].labels[m])
  }

  lemma {:induction false} SameIndexOf(ls: seq<Label>, ls1: seq<Label>, n: Name)
    requires |ls| == |ls1| && forall m | 0 <= m < |ls| :: ls1[m].name == ls[m].name
    ensures IndexOf(ls1, n) == IndexOf(ls, n)
    decreases |ls|
  {
    if ls != [] && ls[0].name != n {
      SameIndexOf(ls[1..], ls1[1..], n);
    }
  }

  lemma ResolvedKeepsName(objs: seq<Obj>, l: Label)
    ensures Resolved(objs, l).name == l.name && (!l.needImport ==> Resolved(objs, l) == l)
  {
  }

  /** One object of a half-resolved table: a definition is unchanged, a new one is a copy of the first. */
  lemma {:induction false} DefinesWhileResolving(objs0: seq<Obj>, objs: seq<Obj>, n: Name, k: nat)
    requires Partly(objs0, objs) && BaseName(n) == n && k < |objs|
    ensures IndexOf(objs[k].labels, n) == IndexOf(objs0[k].labels, n)
    ensures Defines(objs0[k], n) ==> Defines(objs[k], n)
    ensures Defines(objs0[k], n) ==> objs[k].labels[IndexOf(objs[k].labels, n)] == objs0[k].labels[IndexOf(objs0[k].labels, n)]
    ensures Defines(objs[k], n) && !Defines(objs0[k], n) ==>
              && Definer(objs0, n) < |objs0|
              && objs[k].labels[IndexOf(objs[k].labels, n)].position == Definition(objs0, n).position
              && objs[k].labels[IndexOf(objs[k].labels, n)].section == Definition(objs0, n).section
  {
    forall m | 0 <= m < |objs[k].labels| ensures objs[k].labels[m].name == objs0[k].labels[m].name {
      ResolvedKeepsName(objs0, objs0[k].labels[m]);
    }
    SameIndexOf(objs0[k].labels, objs[k].labels, n);
    var m := IndexOf(objs0[k].labels, n);
    if m < |objs0[k].labels| {
      assert BaseName(objs0[k].labels[m].name) == n;
      ResolvedKeepsName(objs0, objs0[k].labels[m]);
    }
  }

  /** Looking a plain name up in a half-resolved table finds the position of the first definition:
      entries already resolved in between are copies of it. */
  lemma {:induction false} LookupWhileResolving(objs0: seq<Obj>, objs: seq<Obj>, n: Name)
    requires Partly(objs0, objs) && BaseName(n) == n
    ensures Definer(objs, n) < |objs| <==> Definer(objs0, n) < |objs0|
    ensures Definer(objs, n) < |objs| ==>
              && Definition(objs, n).position == Definition(objs0, n).position
              && Definition(objs, n).section == Definition(objs0, n).section
  {
    hide Resolved, Partly, IndexOf, Definer, Defines;
    var d0, d := Definer(objs0, n), Definer(objs, n);
    assert |objs| == |objs0| by { PartlySize(objs0, objs); }
    if d0 < |objs0| {
      DefinesWhileResolving(objs0, objs, n, d0);
      assert Defines(objs[d0], n);
      assert d <= d0;
    }
    if d < |objs| {
      DefinesWhileResolving(objs0, objs, n, d);
    }
  }

  lemma PartlySize(objs0: seq<Obj>, objs: seq<Obj>)
    requires Partly(objs0, objs)
    ensures |objs| == |objs0|
  {
  }

  /** `findLabelByUid`. */
  function ByUid(ls: seq<Label>, uid: int): (k: nat)
    ensures k <= |ls| && (k < |ls| ==> ls[k].uid == uid)
    ensures forall j | 0 <= j < k :: ls[j].uid != uid
  {
    if ls == [] then 0 else if ls[0].uid == uid then 0 else 1 + ByUid(ls[1..], uid)
  }

  /** The label a marked word stands for, if it is known and resolved. */
  predicate Linkable(ls: seq<Label>, w: Word) {
    var k := ByUid(ls, w);
    k < |ls| && !ls[k].needImport
  }

  function LinkedWord(ls: seq<Label>, w: Word): Word
    requires Linkable(ls, w)
  {
    var l := ls[ByUid(ls, w)];
    W(l.position + l.shift)
  }

  ghost predicate SectionLinked(ls: seq<Label>, s: Section, s1: Section) {
    && |s1.code| == |s.code| && s1.labelMap == s.labelMap && s1.offset == s.offset
    && forall j | 0 <= j < |s.code| ::
         if j in s.labelMap then Linkable(ls, s.code[j]) && s1.code[j] == LinkedWord(ls, s.code[j])
         else s1.code[j] == s.code[j]
  }

  ghost predicate Unlinkable(ls: seq<Label>, s: Section) {
    exists j | 0 <= j < |s.code| :: j in s.labelMap && !Linkable(ls, s.code[j])
  }

  ghost predicate ObjLinked(o: Obj, o1: Obj) {
    o1.labels == o.labels && SectionLinked(o.labels, o.text, o1.text) && SectionLinked(o.labels, o.data, o1.data)
  }

  ghost predicate ObjLinkable(o: Obj) {
    !Unlinkable(o.labels, o.text) && !Unlinkable(o.labels, o.data)
  }

  // ----- the whole run -----

  ghost predicate Stripped(objs: seq<Obj>, kept: seq<Obj>) {
    exists req: seq<nat> ::
      (forall k: nat :: k in req <==> k < |objs| && Reachable(objs, k)) && kept == Selected(objs, req, |objs|)
  }

  lemma {:induction false} StrippedIs(objs: seq<Obj>, kept: seq<Obj>, req: seq<nat>)
    requires forall k: nat :: k in req <==> k < |objs| && Reachable(objs, k)
    requires kept == Selected(objs, req, |objs|)
    ensures Stripped(objs, kept)
  {
    hide Selected, Reachable;
  }

  /** The label moved as its object i is placed. */
  function Shifted(objs: seq<Obj>, mode: Mode, globalBase: nat, dataBase: nat, i: nat, l: Label): Label
    requires i < |objs|
  {
    Moved(l, TextBefore(objs, i), DataStart(objs, mode) + DataBefore(objs, i), globalBase, dataBase)
  }

  /** A label of some object has a definition: its own, or for an import that of its base name. */
  predicate Known(objs: seq<Obj>, l: Label) {
    l.needImport ==> Definer(objs, BaseName(l.name)) < |objs|
  }

  /** The final address of a label of object i. */
  function Address(objs: seq<Obj>, mode: Mode, globalBase: nat, dataBase: nat, i: nat, l: Label): int
    requires i < |objs| && Known(objs, l)
  {
    if l.needImport then
      Shifted(objs, mode, globalBase, dataBase, Definer(objs, BaseName(l.name)), Definition(objs, BaseName(l.name))).position
    else
      Shifted(objs, mode, globalBase, dataBase, i, l).position
  }

  /** A marked word of object i has a label in that object's table, and the label is known. */
  predicate KnownWord(objs: seq<Obj>, i: nat, w: Word)
    requires i < |objs|
  {
    var ls := objs[i].labels;
    ByUid(ls, w) < |ls| && Known(objs, ls[ByUid(ls, w)])
  }

  ghost predicate SectionKnown(objs: seq<Obj>, i: nat, s: Section)
    requires i < |objs|
  {
    forall j | 0 <= j < |s.code| && j in s.labelMap :: KnownWord(objs, i, s.code[j])
  }

  ghost predicate AllKnown(objs: seq<Obj>) {
    forall i | 0 <= i < |objs| :: SectionKnown(objs, i, objs[i].text) && SectionKnown(objs, i, objs[i].data)
  }

  /** The word the image must hold for word w of object i. */
  function FinalWord(objs: seq<Obj>, mode: Mode, globalBase: nat, dataBase: nat, i: nat, marked: bool, w: Word): Word
    requires i < |objs|
  {
    if marked && KnownWord(objs, i, w) then
      var l := objs[i].labels[ByUid(objs[i].labels, w)];
      W(Address(objs, mode, globalBase, dataBase, i, l) + l.shift)
    else w
  }

  /** From word `at` on the image holds section s of object i, relocated. */
  ghost predicate HoldsSection(objs: seq<Obj>, mode: Mode, globalBase: nat, dataBase: nat, i: nat, s: Section, image: seq<Word>, at: nat)
    requires i < |objs|
  {
    && SectionKnown(objs, i, s)
    && at + |s.code| <= |image|
    && forall j | 0 <= j < |s.code| ::
         image[at + j] == FinalWord(objs, mode, globalBase, dataBase, i, j in s.labelMap, s.code[j])
  }

  ghost predicate Relocated(objs: seq<Obj>, mode: Mode, globalBase: nat, dataBase: nat, image: seq<Word>) {
    && |image| == TextBefore(objs, |objs|) + DataBefore(objs, |objs|)
    && forall i | 0 <= i < |objs| ::
         && HoldsSection(objs, mode, globalBase, dataBase, i, objs[i].text, image, TextBefore(objs, i))
         && HoldsSection(objs, mode, globalBase, dataBase, i, objs[i].data, image, TextBefore(objs, |objs|) + DataBefore(objs, i))
  }

  // --- placing changes positions only

  ghost predicate PlacedAs(objs: seq<Obj>, mode: Mode, globalBase: nat, dataBase: nat, placed: seq<Obj>) {
    |placed| == |objs| && forall i | 0 <= i < |objs| :: placed[i] == Placed(objs, mode, globalBase, dataBase, i)
  }

  ghost predicate ResolvedAs(placed: seq<Obj>, resolved: seq<Obj>) {
    |resolved| == |placed| && forall i | 0 <= i < |placed| :: resolved[i] == placed[i].(labels := ResolvedLabels(placed, placed[i].labels))
  }

  lemma PlacedLabels(objs: seq<Obj>, mode: Mode, globalBase: nat, dataBase: nat, placed: seq<Obj>, i: nat)
    requires PlacedAs(objs, mode, globalBase, dataBase, placed) && i < |objs|
    ensures |placed[i].labels| == |objs[i].labels|
    ensures forall m | 0 <= m < |objs[i].labels| ::
              placed[i].labels[m] == Shifted(objs, mode, globalBase, dataBase, i, objs[i].labels[m])
    ensures placed[i].text.code == objs[i].text.code && placed[i].text.labelMap == objs[i].text.labelMap
    ensures placed[i].data.code == objs[i].data.code && placed[i].data.labelMap == objs[i].data.labelMap
  {
    hide TextBefore, DataBefore, DataStart, Moved;
  }

  lemma ShiftedKeeps(objs: seq<Obj>, mode: Mode, globalBase: nat, dataBase: nat, i: nat, l: Label)
    requires i < |objs|
    ensures var r := Shifted(objs, mode, globalBase, dataBase, i, l);
            r.name == l.name && r.needImport == l.needImport && r.uid == l.uid && r.shift == l.shift
            && (l.needImport ==> r == l)
  {
  }

  lemma {:induction false} PlacedDefines(objs: seq<Obj>, mode: Mode, globalBase: nat, dataBase: nat, placed: seq<Obj>, n: Name, i: nat)
    requires PlacedAs(objs, mode, globalBase, dataBase, placed) && i < |objs|
    ensures IndexOf(placed[i].labels, n) == IndexOf(objs[i].labels, n)
    ensures Defines(placed[i], n) == Defines(objs[i], n)
  {
    hide Placed, Shifted;
    PlacedLabels(objs, mode, globalBase, dataBase, placed, i);
    forall m | 0 <= m < |objs[i].labels|
      ensures placed[i].labels[m].name == objs[i].labels[m].name
      ensures placed[i].labels[m].needImport == objs[i].labels[m].needImport
    {
      ShiftedKeeps(objs, mode, globalBase, dataBase, i, objs[i].labels[m]);
    }
    SameIndexOf(objs[i].labels, placed[i].labels, n);
  }

  /** The definitions found after placing are those of the input, moved with their objects. */
  lemma {:induction false} PlacedDefinition(objs: seq<Obj>, mode: Mode, globalBase: nat, dataBase: nat, placed: seq<Obj>, n: Name)
    requires PlacedAs(objs, mode, globalBase, dataBase, placed)
    ensures Definer(placed, n) == Definer(objs, n)
    ensures Definer(objs, n) < |objs| ==>
              Definition(placed, n) == Shifted(objs, mode, globalBase, dataBase, Definer(objs, n), Definition(objs, n))
  {
    hide Placed, Shifted, IndexOf, Defines, Definer;
    var d, p := Definer(objs, n), Definer(placed, n);
    if d < |objs| {
      PlacedDefines(objs, mode, globalBase, dataBase, placed, n, d);
      PlacedLabels(objs, mode, globalBase, dataBase, placed, d);
      DefinesIndex(objs[d], n);
    }
    if p < |placed| {
      PlacedDefines(objs, mode, globalBase, dataBase, placed, n, p);
    }
  }

  lemma {:induction false} DefinesIndex(o: Obj, n: Name)
    requires Defines(o, n)
    ensures IndexOf(o.labels, n) < |o.labels|
  {
  }

  /** After placing and resolving a label of the table is known exactly if it is no import any more, and then
      at its address. */
  lemma LabelFinal(objs: seq<Obj>, mode: Mode, globalBase: nat, dataBase: nat, placed: seq<Obj>, resolved: seq<Obj>, i: nat, m: nat)
    requires PlacedAs(objs, mode, globalBase, dataBase, placed) && ResolvedAs(placed, resolved)
    requires i < |objs| && m < |objs[i].labels|
    ensures |resolved[i].labels| == |objs[i].labels|
    ensures var l, r := objs[i].labels[m], resolved[i].labels[m];
            && r.uid == l.uid && r.shift == l.shift && (r.needImport <==> !Known(objs, l))
            && (Known(objs, l) ==> r.position == Address(objs, mode, globalBase, dataBase, i, l))
  {
    hide Placed, Shifted, Definer, Definition, PlacedAs;
    var l := objs[i].labels[m];
    PlacedSize(objs, mode, globalBase, dataBase, placed);
    PlacedLabels(objs, mode, globalBase, dataBase, placed, i);
    ShiftedKeeps(objs, mode, globalBase, dataBase, i, l);
    PlacedDefinition(objs, mode, globalBase, dataBase, placed, BaseName(l.name));
  }

  lemma PlacedSize(objs: seq<Obj>, mode: Mode, globalBase: nat, dataBase: nat, placed: seq<Obj>)
    requires PlacedAs(objs, mode, globalBase, dataBase, placed)
    ensures |placed| == |objs|
  {
  }

  lemma {:induction false} SameByUid(ls: seq<Label>, ls1: seq<Label>, uid: int)
    requires |ls| == |ls1| && forall m | 0 <= m < |ls| :: ls1[m].uid == ls[m].uid
    ensures ByUid(ls1, uid) == ByUid(ls, uid)
    decreases |ls|
  {
    if ls != [] && ls[0].uid != uid {
      SameByUid(ls[1..], ls1[1..], uid);
    }
  }

  /** A word can be linked exactly if it is known, and linking gives its final word. */
  lemma WordFinal(objs: seq<Obj>, mode: Mode, globalBase: nat, dataBase: nat, placed: seq<Obj>, resolved: seq<Obj>, i: nat, w: Word)
    requires PlacedAs(objs, mode, globalBase, dataBase, placed) && ResolvedAs(placed, resolved) && i < |objs|
    ensures |resolved| == |objs|
    ensures Linkable(resolved[i].labels, w) <==> KnownWord(objs, i, w)
    ensures KnownWord(objs, i, w) ==>
              LinkedWord(resolved[i].labels, w) == FinalWord(objs, mode, globalBase, dataBase, i, true, w)
  {
    hide PlacedAs, Known, Address, ByUid;
    PlacedSize(objs, mode, globalBase, dataBase, placed);
    PlacedLabels(objs, mode, globalBase, dataBase, placed, i);
    forall m | 0 <= m < |objs[i].labels| ensures resolved[i].labels[m].uid == objs[i].labels[m].uid {
      LabelFinal(objs, mode, globalBase, dataBase, placed, resolved, i, m);
    }
    SameByUid(objs[i].labels, resolved[i].labels, w);
    var m := ByUid(objs[i].labels, w);
    if m < |objs[i].labels| {
      LabelFinal(objs, mode, globalBase, dataBase, placed, resolved, i, m);
    }
  }

  lemma SectionsKept(objs: seq<Obj>, mode: Mode, globalBase: nat, dataBase: nat, placed: seq<Obj>, resolved: seq<Obj>, i: nat)
    requires PlacedAs(objs, mode, globalBase, dataBase, placed) && ResolvedAs(placed, resolved) && i < |objs|
    ensures |resolved| == |objs|
    ensures resolved[i].text.code == objs[i].text.code && resolved[i].text.labelMap == objs[i].text.labelMap
    ensures resolved[i].data.code == objs[i].data.code && resolved[i].data.labelMap == objs[i].data.labelMap
  {
    hide PlacedAs;
    PlacedSize(objs, mode, globalBase, dataBase, placed);
    PlacedLabels(objs, mode, globalBase, dataBase, placed, i);
  }

  lemma SectionKnownIff(objs: seq<Obj>, mode: Mode, globalBase: nat, dataBase: nat, placed: seq<Obj>, resolved: seq<Obj>,
                        i: nat, s: Section, s1: Section)
    requires PlacedAs(objs, mode, globalBase, dataBase, placed) && ResolvedAs(placed, resolved) && i < |objs|
    requires s1.code == s.code && s1.labelMap == s.labelMap
    ensures |resolved| == |objs|
    ensures SectionKnown(objs, i, s) <==> !Unlinkable(resolved[i].labels, s1)
  {
    hide PlacedAs, ResolvedAs, KnownWord, Linkable, LinkedWord, FinalWord;
    SectionsKept(objs, mode, globalBase, dataBase, placed, resolved, i);
    forall j | 0 <= j < |s.code| ensures Linkable(resolved[i].labels, s.code[j]) <==> KnownWord(objs, i, s.code[j]) {
      WordFinal(objs, mode, globalBase, dataBase, placed, resolved, i, s.code[j]);
    }
  }

  lemma KnownIffLinkable(objs: seq<Obj>, mode: Mode, globalBase: nat, dataBase: nat, placed: seq<Obj>, resolved: seq<Obj>)
    requires |placed| == |objs| && forall i | 0 <= i < |objs| :: placed[i] == Placed(objs, mode, globalBase, dataBase, i)
    requires |resolved| == |placed|
    requires forall i | 0 <= i < |placed| :: resolved[i] == placed[i].(labels := ResolvedLabels(placed, placed[i].labels))
    ensures AllKnown(objs) <==> forall i | 0 <= i < |resolved| :: ObjLinkable(resolved[i])
  {
    hide Placed, ResolvedLabels, SectionKnown, Unlinkable;
    assert PlacedAs(objs, mode, globalBase, dataBase, placed) && ResolvedAs(placed, resolved);
    forall i | 0 <= i < |objs|
      ensures SectionKnown(objs, i, objs[i].text) && SectionKnown(objs, i, objs[i].data) <==> ObjLinkable(resolved[i])
    {
      SectionsKept(objs, mode, globalBase, dataBase, placed, resolved, i);
      SectionKnownIff(objs, mode, globalBase, dataBase, placed, resolved, i, objs[i].text, resolved[i].text);
      SectionKnownIff(objs, mode, globalBase, dataBase, placed, resolved, i, objs[i].data, resolved[i].data);
    }
  }

  /** A linked section holds the final words. */
  lemma SectionFinal(objs: seq<Obj>, mode: Mode, globalBase: nat, dataBase: nat, placed: seq<Obj>, resolved: seq<Obj>,
                     i: nat, s: Section, s0: Section, s1: Section)
    requires PlacedAs(objs, mode, globalBase, dataBase, placed) && ResolvedAs(placed, resolved) && i < |objs|
    requires s0.code == s.code && s0.labelMap == s.labelMap && i < |resolved|
    requires SectionLinked(resolved[i].labels, s0, s1)
    ensures SectionKnown(objs, i, s) && |s1.code| == |s.code|
    ensures forall j | 0 <= j < |s.code| ::
              s1.code[j] == FinalWord(objs, mode, globalBase, dataBase, i, j in s.labelMap, s.code[j])
  {
    hide PlacedAs, ResolvedAs, KnownWord, Linkable, LinkedWord, Address;
    forall j | 0 <= j < |s.code|
      ensures j in s.labelMap ==> KnownWord(objs, i, s.code[j])
      ensures s1.code[j] == FinalWord(objs, mode, globalBase, dataBase, i, j in s.labelMap, s.code[j])
    {
      WordFinal(objs, mode, globalBase, dataBase, placed, resolved, i, s.code[j]);
    }
  }

  /** Sections of equal sizes lie at equal places. */
  lemma {:induction false} SameBefore(objs: seq<Obj>, objs1: seq<Obj>, i: nat)
    requires |objs| == |objs1| && i <= |objs|
    requires forall k | 0 <= k < |objs| :: |objs1[k].text.code| == |objs[k].text.code| && |objs1[k].data.code| == |objs[k].data.code|
    ensures TextBefore(objs1, i) == TextBefore(objs, i) && DataBefore(objs1, i) == DataBefore(objs, i)
  {
    if i > 0 {
      SameBefore(objs, objs1, i - 1);
    }
  }

  lemma {:induction false} ImageRelocated(objs: seq<Obj>, mode: Mode, globalBase: nat, dataBase: nat, placed: seq<Obj>, resolved: seq<Obj>, linked: seq<Obj>)
    requires |placed| == |objs| && forall i | 0 <= i < |objs| :: placed[i] == Placed(objs, mode, globalBase, dataBase, i)
    requires |resolved| == |placed|
    requires forall i | 0 <= i < |placed| :: resolved[i] == placed[i].(labels := ResolvedLabels(placed, placed[i].labels))
    requires |linked| == |resolved| && forall i | 0 <= i < |resolved| :: ObjLinked(resolved[i], linked[i])
    ensures Relocated(objs, mode, globalBase, dataBase, TextImage(linked) + DataImage(linked))
  {
    hide Placed, ResolvedLabels, SectionKnown, SectionLinked, TextImage, DataImage, FinalWord, TextBefore, DataBefore;
    assert PlacedAs(objs, mode, globalBase, dataBase, placed) && ResolvedAs(placed, resolved);
    forall i | 0 <= i < |objs|
      ensures ObjFinal(objs, mode, globalBase, dataBase, i, linked[i])
    {
      SectionsKept(objs, mode, globalBase, dataBase, placed, resolved, i);
      SectionFinal(objs, mode, globalBase, dataBase, placed, resolved, i, objs[i].text, resolved[i].text, linked[i].text);
      SectionFinal(objs, mode, globalBase, dataBase, placed, resolved, i, objs[i].data, resolved[i].data, linked[i].data);
    }
    FinalImage(objs, mode, globalBase, dataBase, linked);
  }

  ghost predicate ObjFinal(objs: seq<Obj>, mode: Mode, globalBase: nat, dataBase: nat, i: nat, o: Obj)
    requires i < |objs|
  {
    && SectionKnown(objs, i, objs[i].text) && SectionKnown(objs, i, objs[i].data)
    && |o.text.code| == |objs[i].text.code| && |o.data.code| == |objs[i].data.code|
    && (forall j | 0 <= j < |o.text.code| ::
          o.text.code[j] == FinalWord(objs, mode, globalBase, dataBase, i, j in objs[i].text.labelMap, objs[i].text.code[j]))
    && (forall j | 0 <= j < |o.data.code| ::
          o.data.code[j] == FinalWord(objs, mode, globalBase, dataBase, i, j in objs[i].data.labelMap, objs[i].data.code[j]))
  }

  lemma {:induction false} FinalImage(objs: seq<Obj>, mode: Mode, globalBase: nat, dataBase: nat, linked: seq<Obj>)
    requires |linked| == |objs| && forall i | 0 <= i < |objs| :: ObjFinal(objs, mode, globalBase, dataBase, i, linked[i])
    ensures Relocated(objs, mode, globalBase, dataBase, TextImage(linked) + DataImage(linked))
  {
    hide SectionKnown, TextImage, DataImage, FinalWord, TextBefore, DataBefore;
    var image := TextImage(linked) + DataImage(linked);
    TextImageLength(linked);
    DataImageLength(linked);
    SameBefore(objs, linked, |objs|);
    forall i | 0 <= i < |objs|
      ensures HoldsSection(objs, mode, globalBase, dataBase, i, objs[i].text, image, TextBefore(objs, i))
      ensures HoldsSection(objs, mode, globalBase, dataBase, i, objs[i].data, image, TextBefore(objs, |objs|) + DataBefore(objs, i))
    {
      SameBefore(objs, linked, i);
      assert ObjFinal(objs, mode, globalBase, dataBase, i, linked[i]);
      FinalText(objs, mode, globalBase, dataBase, linked, i);
      FinalData(objs, mode, globalBase, dataBase, linked, i);
    }
  }

  lemma {:induction false} FinalText(objs: seq<Obj>, mode: Mode, globalBase: nat, dataBase: nat, linked: seq<Obj>, i: nat)
    requires |linked| == |objs| && i < |objs| && ObjFinal(objs, mode, globalBase, dataBase, i, linked[i])
    requires TextBefore(linked, i) == TextBefore(objs, i)
    ensures HoldsSection(objs, mode, globalBase, dataBase, i, objs[i].text, TextImage(linked) + DataImage(linked), TextBefore(objs, i))
  {
    hide SectionKnown, TextImage, DataImage, FinalWord, TextBefore, DataBefore;
    var t, d, at := TextImage(linked), DataImage(linked), TextBefore(objs, i);
    TextFits(linked, i);
    forall j | 0 <= j < |objs[i].text.code| ensures (t + d)[at + j] == linked[i].text.code[j] {
      ImageHoldsText(linked, i, j);
    }
  }

  lemma {:induction false} FinalData(objs: seq<Obj>, mode: Mode, globalBase: nat, dataBase: nat, linked: seq<Obj>, i: nat)
    requires |linked| == |objs| && i < |objs| && ObjFinal(objs, mode, globalBase, dataBase, i, linked[i])
    requires DataBefore(linked, i) == DataBefore(objs, i) && |TextImage(linked)| == TextBefore(objs, |objs|)
    ensures HoldsSection(objs, mode, globalBase, dataBase, i, objs[i].data, TextImage(linked) + DataImage(linked),
                         TextBefore(objs, |objs|) + DataBefore(objs, i))
  {
    hide SectionKnown, TextImage, DataImage, FinalWord, TextBefore, DataBefore;
    var t, d, at := TextImage(linked), DataImage(linked), TextBefore(objs, |objs|) + DataBefore(objs, i);
    DataFits(linked, i);
    forall j | 0 <= j < |objs[i].data.code| ensures (t + d)[at + j] == linked[i].data.code[j] {
      ImageHoldsData(linked, i, j);
      assert (t + d)[|t| + (DataBefore(objs, i) + j)] == d[DataBefore(objs, i) + j];
    }
  }

  lemma {:induction false} TextFits(objs: seq<Obj>, i: nat)
    requires i < |objs|
    ensures TextBefore(objs, i) + |objs[i].text.code| <= |TextImage(objs)|
  {
    TextImageLength(objs);
    TextsDisjoint(objs, i, |objs|);
  }

  lemma {:induction false} DataFits(objs: seq<Obj>, i: nat)
    requires i < |objs|
    ensures DataBefore(objs, i) + |objs[i].data.code| <= |DataImage(objs)|
  {
    DataImageLength(objs);
    DatasDisjoint(objs, i, |objs|);
  }

  /** In the one-segment modes a data address is, without bases, the place of the word in the image, and a
      text address its block there when all texts are whole blocks. */
  lemma {:induction false} AddressIsPlace(objs: seq<Obj>, mode: Mode, i: nat, l: Label)
    requires i < |objs| && !l.needImport && mode != TwoSeg
    requires forall k | 0 <= k < |objs| :: |objs[k].text.code| % BLOCK == 0
    ensures l.section != 0 ==>
              Address(objs, mode, 0, 0, i, l) == TextBefore(objs, |objs|) + DataBefore(objs, i) + l.position
    ensures l.section == 0 ==> BLOCK * Address(objs, mode, 0, 0, i, l) == TextBefore(objs, i) + BLOCK * l.position
  {
    WholeBlocks(objs, 0, i);
    if l.section == 0 {
      TextPositionExact(l, TextBefore(objs, i), DataStart(objs, mode) + DataBefore(objs, i), 0, 0);
    }
  }

  lemma {:induction false} OffsetsAreLengths(objs: seq<Obj>, i: nat)
    requires i <= |objs|
    ensures TextBefore(objs, i) == |TextImage(objs[..i])| && DataBefore(objs, i) == |DataImage(objs[..i])|
  {
    TextImageLength(objs[..i]);
    DataImageLength(objs[..i]);
    PrefixBefore(objs, i, i);
  }

  /** A data label is at its position behind both bases and the data of the objects before its own; the texts
      of all objects lie before that, unless text and data have a segment each. */
  lemma {:induction false} DataAddress(objs: seq<Obj>, mode: Mode, globalBase: nat, dataBase: nat, i: nat, l: Label)
    requires i < |objs| && !l.needImport && l.section != 0
    ensures Address(objs, mode, globalBase, dataBase, i, l) ==
            globalBase + dataBase + (if mode == TwoSeg then 0 else |TextImage(objs)|) + |DataImage(objs[..i])| + l.position
  {
    OffsetsAreLengths(objs, i);
    TextImageLength(objs);
    hide TextImage, DataImage, TextBefore, DataBefore;
  }

  /** With two segments the texts have no part in data addresses. */
  lemma {:induction false} TwoSegData(objs: seq<Obj>, objs1: seq<Obj>, globalBase: nat, dataBase: nat, i: nat, l: Label)
    requires i < |objs| == |objs1| && !l.needImport && l.section != 0
    requires forall k | 0 <= k < i :: |objs1[k].data.code| == |objs[k].data.code|
    ensures Address(objs, TwoSeg, globalBase, dataBase, i, l) == Address(objs1, TwoSeg, globalBase, dataBase, i, l)
  {
    SameData(objs, objs1, i);
    hide TextBefore, DataBefore;
  }

  lemma {:induction false} SameData(objs: seq<Obj>, objs1: seq<Obj>, i: nat)
    requires i <= |objs| == |objs1| && forall k | 0 <= k < i :: |objs1[k].data.code| == |objs[k].data.code|
    ensures DataBefore(objs1, i) == DataBefore(objs, i)
  {
    if i > 0 {
      SameData(objs, objs1, i - 1);
    }
  }

  /** A text label counts blocks: with whole blocks before it, its block begins at its own word. */
  lemma {:induction false} TextAddress(objs: seq<Obj>, mode: Mode, globalBase: nat, dataBase: nat, i: nat, l: Label)
    requires i < |objs| && !l.needImport && l.section == 0 && (globalBase + |TextImage(objs[..i])|) % BLOCK == 0
    ensures BLOCK * Address(objs, mode, globalBase, dataBase, i, l) == globalBase + |TextImage(objs[..i])| + BLOCK * l.position
  {
    OffsetsAreLengths(objs, i);
    TextPositionExact(l, TextBefore(objs, i), DataStart(objs, mode) + DataBefore(objs, i), globalBase, dataBase);
    hide TextImage, DataImage, TextBefore, DataBefore;
  }

  /** What the loader makes of an image with so many words of text: with two segments data memory begins behind
      the text, else where the text begins. */
  function DataMemory(mode: Mode, texts: nat, image: seq<Word>): seq<Word>
    requires texts <= |image|
  {
    if mode == TwoSeg then image[texts..] else image
  }

  /** Less the bases, the address of a data label is where its word is in data memory. */
  lemma {:induction false} DataWordAt(objs: seq<Obj>, mode: Mode, globalBase: nat, dataBase: nat, image: seq<Word>, i: nat, l: Label)
    requires Relocated(objs, mode, globalBase, dataBase, image) && i < |objs|
    requires !l.needImport && l.section != 0 && 0 <= l.position < |objs[i].data.code|
    ensures |TextImage(objs)| <= |image|
    ensures var a := Address(objs, mode, globalBase, dataBase, i, l) - globalBase - dataBase;
            && 0 <= a < |DataMemory(mode, |TextImage(objs)|, image)|
            && DataMemory(mode, |TextImage(objs)|, image)[a] ==
               FinalWord(objs, mode, globalBase, dataBase, i, l.position in objs[i].data.labelMap, objs[i].data.code[l.position])
  {
    hide *;
    KnownLocal(objs, l);
    DataSectionAt(objs, i);
    DataImageWord(objs, mode, globalBase, dataBase, image, i, l.position);
    DataAddress(objs, mode, globalBase, dataBase, i, l);
    MemoryAt(mode, |TextImage(objs)|, image, |DataImage(objs[..i])| + l.position);
  }

  lemma KnownLocal(objs: seq<Obj>, l: Label)
    requires !l.needImport
    ensures Known(objs, l)
  {
  }

  lemma {:induction false} DataImageWord(objs: seq<Obj>, mode: Mode, globalBase: nat, dataBase: nat, image: seq<Word>, i: nat, p: nat)
    requires Relocated(objs, mode, globalBase, dataBase, image) && i < |objs| && p < |objs[i].data.code|
    ensures SectionAt(objs, i, true) + p < |image|
    ensures image[SectionAt(objs, i, true) + p] ==
            FinalWord(objs, mode, globalBase, dataBase, i, p in objs[i].data.labelMap, objs[i].data.code[p])
  {
    assert SectionOf(objs[i], true) == objs[i].data;
    hide Relocated, SectionAt, FinalWord;
    ImageWord(objs, mode, globalBase, dataBase, image, i, true, p);
  }

  lemma MemoryAt(mode: Mode, t: nat, image: seq<Word>, k: nat)
    requires t + k < |image|
    ensures var a := if mode == TwoSeg then k else t + k;
            a < |DataMemory(mode, t, image)| && DataMemory(mode, t, image)[a] == image[t + k]
  {
  }

  lemma {:induction false} DataSectionAt(objs: seq<Obj>, i: nat)
    requires i < |objs|
    ensures SectionAt(objs, i, true) == |TextImage(objs)| + |DataImage(objs[..i])|
  {
    OffsetsAreLengths(objs, i);
    TextImageLength(objs);
    hide TextImage, DataImage, TextBefore, DataBefore;
  }

  /** The final address of the label n that object k defines. */
  function OwnAddress(objs: seq<Obj>, mode: Mode, globalBase: nat, dataBase: nat, k: nat, n: Name): int
    requires k < |objs| && Defines(objs[k], n)
  {
    Shifted(objs, mode, globalBase, dataBase, k, objs[k].labels[IndexOf(objs[k].labels, n)]).position
  }

  function SectionOf(o: Obj, data: bool): Section {
    if data then o.data else o.text
  }

  /** Where a section of object i begins in the image. */
  function SectionAt(objs: seq<Obj>, i: nat, data: bool): nat
    requires i < |objs|
  {
    if data then TextBefore(objs, |objs|) + DataBefore(objs, i) else TextBefore(objs, i)
  }

  /** No object before p defines the name, or the first that does has it where object p has it, modulo 2^16. */
  ghost predicate FoundAt(objs: seq<Obj>, mode: Mode, globalBase: nat, dataBase: nat, p: nat, n: Name)
    requires p < |objs| && Defines(objs[p], n)
  {
    || (forall k | 0 <= k < p :: !Defines(objs[k], n))
    || (exists k: nat | k < p && Defines(objs[k], n) :: (forall h | 0 <= h < k :: !Defines(objs[h], n))
          && W(OwnAddress(objs, mode, globalBase, dataBase, k, n)) == W(OwnAddress(objs, mode, globalBase, dataBase, p, n)))
  }

  /** A word of object i marked with an import holds what object p defines under the name, plus the shift,
      exactly when no object before p defines that name, exported or not, or the first that does has it at the
      same address modulo 2^16. */
  lemma {:induction false} ImportGoesTo(objs: seq<Obj>, mode: Mode, globalBase: nat, dataBase: nat, image: seq<Word>,
                                        i: nat, data: bool, j: nat, l: Label, p: nat)
    requires Relocated(objs, mode, globalBase, dataBase, image) && i < |objs|
    requires j < |SectionOf(objs[i], data).code| && j in SectionOf(objs[i], data).labelMap
    requires ByUid(objs[i].labels, SectionOf(objs[i], data).code[j]) < |objs[i].labels|
    requires l == objs[i].labels[ByUid(objs[i].labels, SectionOf(objs[i], data).code[j])]
    requires l.needImport && p < |objs| && Defines(objs[p], BaseName(l.name))
    ensures SectionAt(objs, i, data) + j < |image|
    ensures image[SectionAt(objs, i, data) + j] == W(OwnAddress(objs, mode, globalBase, dataBase, p, BaseName(l.name)) + l.shift) <==>
            FoundAt(objs, mode, globalBase, dataBase, p, BaseName(l.name))
  {
    hide Relocated, Defines, OwnAddress, ByUid, SectionAt, SectionOf, BaseName, FinalWord, W, FoundAt, Definer;
    var n := BaseName(l.name);
    ImageWord(objs, mode, globalBase, dataBase, image, i, data, j);
    FirstDefiner(objs, mode, globalBase, dataBase, p, n);
    ImportWord(objs, mode, globalBase, dataBase, i, SectionOf(objs[i], data).code[j], l);
    SameShift(OwnAddress(objs, mode, globalBase, dataBase, Definer(objs, n), n), OwnAddress(objs, mode, globalBase, dataBase, p, n), l.shift);
  }

  /** An import `name+k` in an object that defines name, as the assembler makes it for `name+1`, is meant for
      the object itself. */
  lemma {:induction false} ShiftedLocalIff(objs: seq<Obj>, mode: Mode, globalBase: nat, dataBase: nat, image: seq<Word>,
                                           i: nat, data: bool, j: nat, l: Label)
    requires Relocated(objs, mode, globalBase, dataBase, image) && i < |objs|
    requires j < |SectionOf(objs[i], data).code| && j in SectionOf(objs[i], data).labelMap
    requires ByUid(objs[i].labels, SectionOf(objs[i], data).code[j]) < |objs[i].labels|
    requires l == objs[i].labels[ByUid(objs[i].labels, SectionOf(objs[i], data).code[j])]
    requires l.needImport && Defines(objs[i], BaseName(l.name))
    ensures SectionAt(objs, i, data) + j < |image|
    ensures image[SectionAt(objs, i, data) + j] == W(OwnAddress(objs, mode, globalBase, dataBase, i, BaseName(l.name)) + l.shift) <==>
            FoundAt(objs, mode, globalBase, dataBase, i, BaseName(l.name))
  {
    hide *;
    ImportGoesTo(objs, mode, globalBase, dataBase, image, i, data, j, l, i);
  }

  /** An import is meant for the first object that exports the name, which is where stripping looks for it. */
  lemma {:induction false} ExportedIff(objs: seq<Obj>, mode: Mode, globalBase: nat, dataBase: nat, image: seq<Word>,
                                       i: nat, data: bool, j: nat, l: Label)
    requires Relocated(objs, mode, globalBase, dataBase, image) && i < |objs|
    requires j < |SectionOf(objs[i], data).code| && j in SectionOf(objs[i], data).labelMap
    requires ByUid(objs[i].labels, SectionOf(objs[i], data).code[j]) < |objs[i].labels|
    requires l == objs[i].labels[ByUid(objs[i].labels, SectionOf(objs[i], data).code[j])]
    requires var p := Provider(objs, BaseName(l.name)); l.needImport && p < |objs| && Defines(objs[p], BaseName(l.name))
    ensures SectionAt(objs, i, data) + j < |image|
    ensures var p := Provider(objs, BaseName(l.name));
            image[SectionAt(objs, i, data) + j] == W(OwnAddress(objs, mode, globalBase, dataBase, p, BaseName(l.name)) + l.shift) <==>
            FoundAt(objs, mode, globalBase, dataBase, p, BaseName(l.name))
  {
    hide *;
    ImportGoesTo(objs, mode, globalBase, dataBase, image, i, data, j, l, Provider(objs, BaseName(l.name)));
  }

  /** The linker takes the first object that defines the name. */
  lemma {:induction false} FirstDefiner(objs: seq<Obj>, mode: Mode, globalBase: nat, dataBase: nat, p: nat, n: Name)
    requires p < |objs| && Defines(objs[p], n)
    ensures var d := Definer(objs, n);
            && d <= p && Defines(objs[d], n)
            && (W(OwnAddress(objs, mode, globalBase, dataBase, d, n)) == W(OwnAddress(objs, mode, globalBase, dataBase, p, n)) <==>
                FoundAt(objs, mode, globalBase, dataBase, p, n))
  {
    hide Defines, OwnAddress, W;
    var d := Definer(objs, n);
    assert forall h | 0 <= h < d :: !Defines(objs[h], n);
    forall k: nat | k < p && Defines(objs[k], n) && (forall h | 0 <= h < k :: !Defines(objs[h], n)) ensures k == d {
    }
  }

  /** A marked word of an import becomes the first definer's address plus shift. */
  lemma {:induction false} ImportWord(objs: seq<Obj>, mode: Mode, globalBase: nat, dataBase: nat, i: nat, w: Word, l: Label)
    requires i < |objs| && ByUid(objs[i].labels, w) < |objs[i].labels| && l == objs[i].labels[ByUid(objs[i].labels, w)]
    requires l.needImport && Definer(objs, BaseName(l.name)) < |objs|
    ensures FinalWord(objs, mode, globalBase, dataBase, i, true, w) ==
            W(OwnAddress(objs, mode, globalBase, dataBase, Definer(objs, BaseName(l.name)), BaseName(l.name)) + l.shift)
  {
    hide ByUid, IndexOf, Shifted, W;
  }

  /** Every word of the image is where its section begins there. */
  lemma ImageWord(objs: seq<Obj>, mode: Mode, globalBase: nat, dataBase: nat, image: seq<Word>, i: nat, data: bool, j: nat)
    requires Relocated(objs, mode, globalBase, dataBase, image) && i < |objs| && j < |SectionOf(objs[i], data).code|
    ensures SectionAt(objs, i, data) + j < |image|
    ensures var s := SectionOf(objs[i], data);
            image[SectionAt(objs, i, data) + j] == FinalWord(objs, mode, globalBase, dataBase, i, j in s.labelMap, s.code[j])
  {
    assert HoldsSection(objs, mode, globalBase, dataBase, i, SectionOf(objs[i], data), image, SectionAt(objs, i, data));
    hide FinalWord, TextBefore, DataBefore, SectionKnown, Relocated;
  }

  lemma SameShift(x: int, y: int, s: int)
    ensures W(x + s) == W(y + s) <==> W(x) == W(y)
  {
  }

  /** Labels inside their own data sections have different addresses if there are at most 2^16 words of data. */
  lemma {:induction false} DataPlacesDiffer(objs: seq<Obj>, mode: Mode, globalBase: nat, dataBase: nat, k: nat, i: nat, l: Label, l1: Label)
    requires k < i < |objs| && DataBefore(objs, |objs|) <= 0x1_0000
    requires l.section != 0 && !l.needImport && 0 <= l.position < |objs[k].data.code|
    requires l1.section != 0 && !l1.needImport && 0 <= l1.position < |objs[i].data.code|
    ensures W(Shifted(objs, mode, globalBase, dataBase, k, l).position) != W(Shifted(objs, mode, globalBase, dataBase, i, l1).position)
  {
    DatasDisjoint(objs, k, i);
    DatasDisjoint(objs, i, |objs|);
    hide TextBefore, DataBefore;
    ApartMod(Shifted(objs, mode, globalBase, dataBase, k, l).position, Shifted(objs, mode, globalBase, dataBase, i, l1).position);
  }

  /** So have labels inside their own texts, if all texts are whole blocks, of at most 2^16 blocks in all. */
  lemma {:induction false} TextPlacesDiffer(objs: seq<Obj>, mode: Mode, globalBase: nat, dataBase: nat, k: nat, i: nat, l: Label, l1: Label)
    requires k < i < |objs| && TextBefore(objs, |objs|) <= BLOCK * 0x1_0000
    requires forall h | 0 <= h < |objs| :: |objs[h].text.code| % BLOCK == 0
    requires l.section == 0 && !l.needImport && 0 <= BLOCK * l.position < |objs[k].text.code|
    requires l1.section == 0 && !l1.needImport && 0 <= BLOCK * l1.position < |objs[i].text.code|
    ensures W(Shifted(objs, mode, globalBase, dataBase, k, l).position) != W(Shifted(objs, mode, globalBase, dataBase, i, l1).position)
  {
    TextsDisjoint(objs, k, i);
    TextsDisjoint(objs, i, |objs|);
    WholeBlocks(objs, 0, k);
    WholeBlocks(objs, 0, i);
    hide TextBefore, DataBefore;
    var a, b := TextBefore(objs, k) / BLOCK, TextBefore(objs, i) / BLOCK;
    assert TextBefore(objs, k) == BLOCK * a && TextBefore(objs, i) == BLOCK * b;
    BlockShift(globalBase, a);
    BlockShift(globalBase, b);
    ApartMod(Shifted(objs, mode, globalBase, dataBase, k, l).position, Shifted(objs, mode, globalBase, dataBase, i, l1).position);
  }

  lemma BlockShift(base: nat, a: nat)
    ensures (base + BLOCK * a) / BLOCK == base / BLOCK + a
  {
  }

  lemma ApartMod(x: int, y: int)
    requires x < y < x + 0x1_0000
    ensures W(x) != W(y)
  {
  }

  /** Both objects have a local x; the second also uses `x+1`. */
  function LocalX(): Obj {
    Obj(Section({}, 0, []), Section({}, 0, [7, 8]), [Label(Name("x", ""), 1, 0, 0, false, false, 0)])
  }

  function LocalXUser(): Obj {
    Obj(Section({0}, 0, [1]), Section({}, 0, [9, 10]),
        [Label(Name("x", ""), 1, 0, 0, false, false, 0), Label(Name("x", "+1"), 0, 1, 0, false, true, 1)])
  }

  lemma LocalXFacts()
    ensures var u, v, x := LocalX(), LocalXUser(), Name("x", "");
            && IndexOf(u.labels, x) == 0 && IndexOf(v.labels, x) == 0 && ByUid(v.labels, 1) == 1
            && BaseName(v.labels[1].name) == x
            && TextBefore([u, v], 0) == 0 && TextBefore([u, v], 1) == 0 && TextBefore([u, v], 2) == 1
            && DataBefore([u, v], 0) == 0 && DataBefore([u, v], 1) == 2 && DataBefore([u, v], 2) == 4
  {
    var u, v := LocalX(), LocalXUser();
    assert v.labels[1..] == [v.labels[1]];
    assert [u, v][..1] == [u] && [u, v][..1][..0] == [];
  }

  function LocalXs(): (objs: seq<Obj>)
    ensures |objs| == 2 && objs[0] == LocalX() && objs[1] == LocalXUser()
  {
    [LocalX(), LocalXUser()]
  }

  const X := Name("x", "")

  lemma LocalXDefined()
    ensures Defines(LocalX(), X) && Defines(LocalXUser(), X)
  {
    LocalXFacts();
    hide IndexOf, TextBefore, DataBefore, ByUid;
  }

  lemma LocalXDefiner()
    ensures Definer(LocalXs(), X) == 0
  {
    LocalXDefined();
    hide Defines, LocalX, LocalXUser;
  }

  lemma LocalXAddress()
    ensures Defines(LocalXs()[0], X) && OwnAddress(LocalXs(), OneSeg, 0, 0, 0, X) == 1
    ensures Defines(LocalXs()[1], X) && OwnAddress(LocalXs(), OneSeg, 0, 0, 1, X) == 3
  {
    LocalXFacts();
    LocalXDefined();
    hide IndexOf, TextBefore, DataBefore, ByUid, Defines, BaseName;
  }

  lemma LocalXNumber()
    ensures var l := Label(Name("x", "+1"), 0, 1, 0, false, true, 1);
            var ls := LocalXs()[1].labels;
            ByUid(ls, 1) < |ls| && ls[ByUid(ls, 1)] == l && BaseName(l.name) == X
  {
    LocalXFacts();
    hide IndexOf, TextBefore, DataBefore, ByUid, Defines;
  }

  /** The second object's `x+1` becomes the first object's: 2 instead of its own 4, without an error. */
  lemma {:induction false} ShiftedLocalGoesElsewhere(image: seq<Word>)
    requires Relocated(LocalXs(), OneSeg, 0, 0, image)
    ensures AllKnown(LocalXs()) && |image| == 5 && image[0] == 2
    ensures Defines(LocalXs()[1], X) && OwnAddress(LocalXs(), OneSeg, 0, 0, 1, X) + 1 == 4
  {
    LocalXKnown();
    LocalXAddress();
    LocalXImage(image);
    LocalXWord();
    hide *;
  }

  lemma LocalXImage(image: seq<Word>)
    requires Relocated(LocalXs(), OneSeg, 0, 0, image)
    ensures |image| == 5 && image[0] == FinalWord(LocalXs(), OneSeg, 0, 0, 1, true, 1)
  {
    LocalXSizes();
    assert |image| == TextBefore(LocalXs(), 2) + DataBefore(LocalXs(), 2);
    ImageWord(LocalXs(), OneSeg, 0, 0, image, 1, false, 0);
    hide Relocated, FinalWord, TextBefore, DataBefore, LocalXs;
  }

  lemma LocalXWord()
    ensures FinalWord(LocalXs(), OneSeg, 0, 0, 1, true, 1) == 2
  {
    LocalXNumber();
    LocalXDefiner();
    LocalXAddress();
    hide FinalWord, OwnAddress, Definer, Defines, IndexOf, ByUid, BaseName, LocalXs;
    ImportWord(LocalXs(), OneSeg, 0, 0, 1, 1, Label(Name("x", "+1"), 0, 1, 0, false, true, 1));
  }

  lemma LocalXSizes()
    ensures TextBefore(LocalXs(), 1) == 0 && TextBefore(LocalXs(), 2) == 1 && DataBefore(LocalXs(), 2) == 4
    ensures SectionAt(LocalXs(), 1, false) == 0 && SectionOf(LocalXs()[1], false) == Section({0}, 0, [1])
  {
    LocalXFacts();
    hide TextBefore, DataBefore, IndexOf, ByUid;
  }

  lemma LocalXKnown()
    ensures AllKnown(LocalXs())
  {
    LocalXDefiner();
    LocalXNumber();
    hide Definer, ByUid, BaseName;
    assert KnownWord(LocalXs(), 1, 1);
    hide KnownWord;
  }

  // --- stripping and linking

  lemma {:induction false} SelectedHas(objs: seq<Obj>, req: seq<nat>, n: nat, k: nat)
    requires k < n <= |objs| && k in req
    ensures objs[k] in Selected(objs, req, n)
    decreases n
  {
    if k < n - 1 {
      SelectedHas(objs, req, n - 1, k);
    }
  }

  lemma {:induction false} SelectedFrom(objs: seq<Obj>, req: seq<nat>, n: nat, o: Obj) returns (k: nat)
    requires n <= |objs| && o in Selected(objs, req, n)
    ensures k < n && k in req && objs[k] == o
    decreases n
  {
    if n - 1 in req && objs[n - 1] == o {
      k := n - 1;
    } else {
      k := SelectedFrom(objs, req, n - 1, o);
    }
  }

  /** A marked word of object i, in either section. */
  ghost predicate Marked(o: Obj, w: Word) {
    || (exists j | 0 <= j < |o.text.code| :: j in o.text.labelMap && o.text.code[j] == w)
    || (exists j | 0 <= j < |o.data.code| :: j in o.data.labelMap && o.data.code[j] == w)
  }

  /** Some reachable object defines the name. */
  ghost predicate DefinedWithin(objs: seq<Obj>, n: Name) {
    exists k: nat :: k < |objs| && Reachable(objs, k) && Defines(objs[k], n)
  }

  lemma {:induction false} KnownInKept(objs: seq<Obj>, req: seq<nat>, kept: seq<Obj>, n: Name)
    requires forall k: nat :: k in req <==> k < |objs| && Reachable(objs, k)
    requires kept == Selected(objs, req, |objs|)
    ensures Definer(kept, n) < |kept| <==> DefinedWithin(objs, n)
  {
    hide Reachable, Selected, Defines;
    if Definer(kept, n) < |kept| {
      var k := SelectedFrom(objs, req, |objs|, kept[Definer(kept, n)]);
      assert k in req && Defines(objs[k], n);
    }
    if DefinedWithin(objs, n) {
      var k: nat :| k < |objs| && Reachable(objs, k) && Defines(objs[k], n);
      SelectedHas(objs, req, |objs|, k);
      var a :| 0 <= a < |kept| && kept[a] == objs[k];
    }
  }

  lemma SectionsMarked(objs: seq<Obj>, i: nat)
    requires i < |objs|
    ensures SectionKnown(objs, i, objs[i].text) && SectionKnown(objs, i, objs[i].data) <==>
            forall w: Word :: Marked(objs[i], w) ==> KnownWord(objs, i, w)
  {
    hide KnownWord;
    if SectionKnown(objs, i, objs[i].text) && SectionKnown(objs, i, objs[i].data) {
      forall w: Word | Marked(objs[i], w) ensures KnownWord(objs, i, w) {
      }
    }
    if forall w: Word :: Marked(objs[i], w) ==> KnownWord(objs, i, w) {
      forall j | 0 <= j < |objs[i].text.code| && j in objs[i].text.labelMap ensures KnownWord(objs, i, objs[i].text.code[j]) {
        assert Marked(objs[i], objs[i].text.code[j]);
      }
      forall j | 0 <= j < |objs[i].data.code| && j in objs[i].data.labelMap ensures KnownWord(objs, i, objs[i].data.code[j]) {
        assert Marked(objs[i], objs[i].data.code[j]);
      }
    }
  }

  /** What the marked words of a reachable object import is defined by some reachable object. */
  ghost predicate ImportsWithin(objs: seq<Obj>, i: nat)
    requires i < |objs|
  {
    forall w: Word | Marked(objs[i], w) ::
      var k := ByUid(objs[i].labels, w);
      k < |objs[i].labels| && objs[i].labels[k].needImport ==> DefinedWithin(objs, BaseName(objs[i].labels[k].name))
  }

  lemma {:induction false} KeptLinks(objs: seq<Obj>, req: seq<nat>, kept: seq<Obj>, i: nat, a: nat)
    requires forall k: nat :: k in req <==> k < |objs| && Reachable(objs, k)
    requires kept == Selected(objs, req, |objs|) && i < |objs| && a < |kept| && kept[a] == objs[i]
    requires forall w: Word :: Marked(objs[i], w) ==> KnownWord(objs, i, w)
    ensures (forall w: Word :: Marked(kept[a], w) ==> KnownWord(kept, a, w)) <==> ImportsWithin(objs, i)
  {
    hide Reachable, Selected, ByUid, Marked, Definer, DefinedWithin;
    forall w: Word | Marked(objs[i], w)
      ensures var k := ByUid(objs[i].labels, w);
              k < |objs[i].labels| && (KnownWord(kept, a, w) <==>
                (objs[i].labels[k].needImport ==> DefinedWithin(objs, BaseName(objs[i].labels[k].name))))
    {
      assert KnownWord(objs, i, w);
      KnownInKept(objs, req, kept, BaseName(objs[i].labels[ByUid(objs[i].labels, w)].name));
    }
  }

  /** What links without stripping links with it exactly when every import that a marked word of a reachable
      object uses is defined, under its name without shift, by some reachable object. */
  lemma {:induction false} StripKeepsKnown(objs: seq<Obj>, kept: seq<Obj>)
    requires AllKnown(objs) && Stripped(objs, kept)
    ensures AllKnown(kept) <==> forall i: nat :: i < |objs| && Reachable(objs, i) ==> ImportsWithin(objs, i)
  {
    hide Reachable, Selected, KnownWord, ByUid, ImportsWithin, Marked, SectionKnown;
    var req: seq<nat> :| (forall k: nat :: k in req <==> k < |objs| && Reachable(objs, k)) && kept == Selected(objs, req, |objs|);
    if AllKnown(kept) {
      forall i: nat | i < |objs| && Reachable(objs, i) ensures ImportsWithin(objs, i) {
        SelectedHas(objs, req, |objs|, i);
        var a :| 0 <= a < |kept| && kept[a] == objs[i];
        SectionsMarked(objs, i);
        SectionsMarked(kept, a);
        KeptLinks(objs, req, kept, i, a);
      }
    }
    if forall i: nat :: i < |objs| && Reachable(objs, i) ==> ImportsWithin(objs, i) {
      forall a | 0 <= a < |kept| ensures SectionKnown(kept, a, kept[a].text) && SectionKnown(kept, a, kept[a].data) {
        var i := SelectedFrom(objs, req, |objs|, kept[a]);
        SectionsMarked(objs, i);
        SectionsMarked(kept, a);
        KeptLinks(objs, req, kept, i, a);
      }
    }
  }

  function ShiftedUser(): Obj {
    Obj(Section({0}, 0, [1]), Section({}, 0, []),
        [Label(PROGBEG, 0, 0, 0, true, false, 0), Label(Name("x", "+1"), 0, 1, 0, false, true, 1)])
  }

  function PlainOwner(): Obj {
    Obj(Section({}, 0, []), Section({}, 0, [7, 8]), [Label(Name("x", ""), 1, 0, 0, true, false, 0)])
  }

  lemma ShiftedLookups()
    ensures var u, v, x1, x := ShiftedUser(), PlainOwner(), Name("x", "+1"), Name("x", "");
            && IndexOf(u.labels, PROGBEG) == 0 && IndexOf(u.labels, x1) == 1 && IndexOf(u.labels, x) == 2 && ByUid(u.labels, 1) == 1
            && IndexOf(v.labels, x1) == 1 && IndexOf(v.labels, x) == 0
  {
    var u, v := ShiftedUser(), PlainOwner();
    assert u.labels[1..] == [u.labels[1]] && u.labels[1..][1..] == [];
    assert v.labels[1..] == [];
  }

  /** From the first object no edge leaves. */
  lemma OnlyFirstReachable(k: nat)
    requires Reachable([ShiftedUser(), PlainOwner()], k)
    ensures k == 0
  {
    var objs := [ShiftedUser(), PlainOwner()];
    var p: seq<nat> :| Path(objs, p) && p[|p| - 1] == k;
    assert |p| > 1 ==> Edge(objs, p[0], p[1]) by { hide Edge, Provider; }
    ShiftedLookups();
    assert objs[1..] == [objs[1]] && objs[1..][1..] == [];
    assert Provider(objs, PROGBEG) == 0 && Provider(objs, Name("x", "+1")) == 2;
  }

  /** Stripping looks an import up with its shift, linking without: an object that is needed only for `x+1`
      is dropped, and a link that works without stripping fails with it. */
  lemma StripDropsShifted(kept: seq<Obj>)
    requires Stripped([ShiftedUser(), PlainOwner()], kept)
    ensures AllKnown([ShiftedUser(), PlainOwner()]) && !AllKnown(kept)
  {
    var u, v := ShiftedUser(), PlainOwner();
    var objs, x := [u, v], Name("x", "");
    ShiftedLookups();
    assert BaseName(u.labels[1].name) == x;
    assert objs[1..] == [v];
    assert Provider(objs, PROGBEG) == 0 && Definer(objs, x) == 1;
    assert KnownWord(objs, 0, 1);
    StartReachable(objs);
    var req: seq<nat> :| (forall k: nat :: k in req <==> k < |objs| && Reachable(objs, k)) && kept == Selected(objs, req, |objs|);
    if 1 in req {
      OnlyFirstReachable(1);
    }
    KeptFirst(objs, req);
    assert Definer([u], x) == 1;
    assert !KnownWord([u], 0, 1);
    assert !SectionKnown([u], 0, [u][0].text);
  }

  lemma {:induction false} KeptFirst(objs: seq<Obj>, req: seq<nat>)
    requires |objs| == 2 && 0 in req && 1 !in req
    ensures Selected(objs, req, 2) == [objs[0]]
  {
    assert Selected(objs, req, 1) == Selected(objs, req, 0) + [objs[0]];
  }

  /** Every edge from the first n required objects ends in a required object. */
  ghost predicate Followed(objs: seq<Obj>, req: seq<nat>, n: nat) {
    && (forall k | 0 <= k < |req| :: req[k] < |objs|)
    && forall a: nat, k: nat | a < n && a < |req| && k < |objs| && Edge(objs, req[a], k) :: k in req
  }

  lemma FollowedMore(objs: seq<Obj>, req: seq<nat>, r: seq<nat>, i: nat)
    requires Followed(objs, req, i) && i < |req| && req <= r && forall k | 0 <= k < |r| :: r[k] < |objs|
    requires forall k: nat | k < |objs| && Edge(objs, req[i], k) :: k in r
    ensures Followed(objs, r, i + 1)
  {
    hide Edge;
    forall a: nat, k: nat | a < i + 1 && k < |objs| && Edge(objs, r[a], k) ensures k in r {
      assert r[a] == req[a];
      if a < i {
        assert k in req;
      }
    }
  }

  lemma {:induction false} FollowedAll(objs: seq<Obj>, req: seq<nat>, start: nat)
    requires Followed(objs, req, |req|) && |req| > 0 && req[0] == start == Provider(objs, PROGBEG)
    requires forall k | 0 <= k < |req| :: Reachable(objs, req[k])
    ensures forall k: nat :: k in req <==> k < |objs| && Reachable(objs, k)
  {
    hide Edge, Provider;
    assert Closed(objs, req) by {
      forall i: nat, k: nat | i in req && i < |objs| && k < |objs| && Edge(objs, i, k) ensures k in req {
        var a :| 0 <= a < |req| && req[a] == i;
      }
      assert req[0] in req;
    }
    forall k: nat | k < |objs| && Reachable(objs, k) ensures k in req {
      var p: seq<nat> :| Path(objs, p) && p[|p| - 1] == k;
      ClosedHoldsReachable(objs, req, p);
    }
  }

  lemma {:induction false} ImportIsEdge(objs: seq<Obj>, o: nat, j: nat)
    requires o < |objs| && j < |objs[o].labels| && objs[o].labels[j].needImport
    requires Provider(objs, objs[o].labels[j].name) < |objs|
    ensures Edge(objs, o, Provider(objs, objs[o].labels[j].name))
  {
  }

  lemma {:induction false} EdgesAreImports(objs: seq<Obj>, o: nat, r: seq<nat>)
    requires o < |objs|
    requires forall m | 0 <= m < |objs[o].labels| && objs[o].labels[m].needImport
                        && Provider(objs, objs[o].labels[m].name) < |objs| ::
               Provider(objs, objs[o].labels[m].name) in r
    ensures forall k: nat | k < |objs| && Edge(objs, o, k) :: k in r
  {
    hide Provider;
  }

  function WithText(objs: seq<Obj>, k: nat): Obj
    requires k < |objs|
  {
    objs[k].(text := objs[k].text.(offset := TextBefore(objs, k)))
  }

  function WithData(objs: seq<Obj>, mode: Mode, k: nat): Obj
    requires k < |objs|
  {
    WithText(objs, k).(data := objs[k].data.(offset := DataStart(objs, mode) + DataBefore(objs, k)))
  }

  lemma {:induction false} WithTextIs(objs: seq<Obj>, k: nat)
    requires k < |objs|
    ensures WithText(objs, k) == objs[k].(text := objs[k].text.(offset := TextBefore(objs, k)))
  {
  }

  lemma {:induction false} WithDataIs(objs: seq<Obj>, mode: Mode, k: nat)
    requires k < |objs|
    ensures WithText(objs, k).data == objs[k].data
    ensures WithData(objs, mode, k) ==
            WithText(objs, k).(data := objs[k].data.(offset := DataStart(objs, mode) + DataBefore(objs, k)))
  {
  }

  lemma PlacedIs(objs: seq<Obj>, mode: Mode, globalBase: nat, dataBase: nat, k: nat)
    requires k < |objs|
    ensures var o := WithData(objs, mode, k);
            Placed(objs, mode, globalBase, dataBase, k) ==
            o.(labels := MovedAll(o.labels, o.text.offset, o.data.offset, globalBase, dataBase))
  {
  }

  class Linker {
    var objs: seq<Obj>
    var mode: Mode
    var globalOffset: nat
    var dataOffset: nat

    constructor (objs: seq<Obj>, mode: Mode, globalOffset: nat, dataOffset: nat)
      ensures this.objs == objs && this.mode == mode && this.globalOffset == globalOffset && this.dataOffset == dataOffset
    {
      this.objs, this.mode, this.globalOffset, this.dataOffset := objs, mode, globalOffset, dataOffset;
    }

    method WhoProvides(n: Name) returns (i: nat)
      ensures i == Provider(objs, n)
    {
      i := 0;
      while i < |objs|
        invariant i <= |objs| && forall j | 0 <= j < i :: !Exports(objs[j], n)
      {
        if Exports(objs[i], n) {
          return;
        }
        i := i + 1;
      }
    }

    /** `strip`: exactly the objects needed from the start remain, in their order. */
    method Strip() returns (ghost req: seq<nat>)
      requires Provider(objs, PROGBEG) < |objs|
      modifies this`objs
      ensures forall k: nat :: k in req <==> k < |old(objs)| && Reachable(old(objs), k)
      ensures objs == Selected(old(objs), req, |old(objs)|)
    {
      hide Provider, Path, Reachable, Edge;
      var start := WhoProvides(PROGBEG);
      var required: seq<nat> := [start];
      ghost var objs0 := objs;
      StartReachable(objs);
      var i := 0;
      while i < |required|
        invariant objs == objs0
        invariant i <= |required| && |required| > 0 && Distinct(required) && required[0] == start
        invariant forall k | 0 <= k < |required| :: required[k] < |objs| && Reachable(objs, required[k])
        invariant Followed(objs, required, i)
        decreases |objs| - i
      {
        DistinctShort(required, |objs|);
        var r := Follow(required, i);
        FollowedMore(objs, required, r, i);
        required := r;
        i := i + 1;
      }
      FollowedAll(objs, required, start);
      req := required;
      objs := Sorted(required);
    }

    /** The imports of one required object: providers not yet required are added. */
    method Follow(required: seq<nat>, i: nat) returns (r: seq<nat>)
      requires i < |required| && Distinct(required)
      requires forall k | 0 <= k < |required| :: required[k] < |objs| && Reachable(objs, required[k])
      ensures required <= r && Distinct(r)
      ensures forall k | 0 <= k < |r| :: r[k] < |objs| && Reachable(objs, r[k])
      ensures forall k: nat | k < |objs| && Edge(objs, required[i], k) :: k in r
    {
      hide Provider, Path, Reachable, Edge;
      r := required;
      var o := required[i];
      var j := 0;
      while j < |objs[o].labels|
        invariant j <= |objs[o].labels| && required <= r && Distinct(r)
        invariant forall k | 0 <= k < |r| :: r[k] < |objs| && Reachable(objs, r[k])
        invariant forall m | 0 <= m < j && objs[o].labels[m].needImport && Provider(objs, objs[o].labels[m].name) < |objs| ::
                    Provider(objs, objs[o].labels[m].name) in r
      {
        var l := objs[o].labels[j];
        if l.needImport {
          var who := WhoProvides(l.name);
          if who < |objs| && who !in r {
            ImportIsEdge(objs, o, j);
            StepReachable(objs, o, who);
            r := r + [who];
          }
        }
        j := j + 1;
      }
      EdgesAreImports(objs, o, r);
    }

    /** Sorting the numbers and copying the objects. */
    method Sorted(required: seq<nat>) returns (out: seq<Obj>)
      ensures out == Selected(objs, required, |objs|)
    {
      out := [];
      var k := 0;
      while k < |objs|
        invariant k <= |objs| && out == Selected(objs, required, k)
      {
        if k in required {
          out := out + [objs[k]];
        }
        k := k + 1;
      }
    }

    /** `computeOffsets`. */
    method ComputeOffsets()
      modifies this`objs
      ensures |objs| == |old(objs)|
      ensures forall i | 0 <= i < |objs| :: objs[i] == Placed(old(objs), mode, globalOffset, dataOffset, i)
    {
      hide TextBefore, DataBefore, MovedAll;
      ghost var objs0 := objs;
      PlaceTexts();
      PlaceDatas(objs0);
      MoveAll(objs0);
    }

    /** Text sections one behind the other. */
    method PlaceTexts()
      modifies this`objs
      ensures |objs| == |old(objs)| && forall k | 0 <= k < |objs| :: objs[k] == WithText(old(objs), k)
    {
      hide WithText;
      ghost var objs0 := objs;
      var cOffset := 0;
      var i := 0;
      while i < |objs|
        invariant |objs| == |objs0| && i <= |objs| && cOffset == TextBefore(objs0, i)
        invariant forall k | 0 <= k < i :: objs[k] == WithText(objs0, k)
        invariant forall k | i <= k < |objs| :: objs[k] == objs0[k]
      {
        assert TextBefore(objs0, i + 1) == cOffset + |objs0[i].text.code|;
        var o := objs[i].(text := objs[i].text.(offset := cOffset));
        assert o == WithText(objs0, i) by { WithTextIs(objs0, i); }
        objs := objs[i := o];
        cOffset := cOffset + |o.text.code|;
        i := i + 1;
      }
    }

    /** Data sections one behind the other, behind the text or from zero on. */
    method PlaceDatas(ghost objs0: seq<Obj>)
      requires |objs| == |objs0| && forall k | 0 <= k < |objs| :: objs[k] == WithText(objs0, k)
      modifies this`objs
      ensures |objs| == |objs0| && forall k | 0 <= k < |objs| :: objs[k] == WithData(objs0, mode, k)
    {
      hide WithText, WithData;
      var cOffset := 0;
      if mode != TwoSeg {
        cOffset := TextEnd(objs0);
      }
      var i := 0;
      while i < |objs|
        invariant |objs| == |objs0| && i <= |objs| && cOffset == DataStart(objs0, mode) + DataBefore(objs0, i)
        invariant forall k | 0 <= k < i :: objs[k] == WithData(objs0, mode, k)
        invariant forall k | i <= k < |objs| :: objs[k] == WithText(objs0, k)
      {
        assert DataBefore(objs0, i + 1) == DataBefore(objs0, i) + |objs0[i].data.code|;
        var o := objs[i].(data := objs[i].data.(offset := cOffset));
        assert o == WithData(objs0, mode, i) && o.data.code == objs0[i].data.code by { WithDataIs(objs0, mode, i); }
        objs := objs[i := o];
        cOffset := cOffset + |o.data.code|;
        i := i + 1;
      }
    }

    /** The offset behind the last text section. */
    method TextEnd(ghost objs0: seq<Obj>) returns (cOffset: nat)
      requires |objs| == |objs0| && forall k | 0 <= k < |objs| :: objs[k] == WithText(objs0, k)
      ensures cOffset == TextBefore(objs0, |objs0|)
    {
      cOffset := 0;
      var i := 0;
      while i < |objs|
        invariant i <= |objs| && cOffset == TextBefore(objs0, i)
      {
        cOffset := cOffset + |objs[i].text.code|;
        i := i + 1;
      }
    }

    /** Every defined label moves with its section. */
    method MoveAll(ghost objs0: seq<Obj>)
      requires |objs| == |objs0| && forall k | 0 <= k < |objs| :: objs[k] == WithData(objs0, mode, k)
      modifies this`objs
      ensures |objs| == |objs0| && forall k | 0 <= k < |objs| :: objs[k] == Placed(objs0, mode, globalOffset, dataOffset, k)
    {
      hide WithData, Placed;
      var i := 0;
      while i < |objs|
        invariant |objs| == |objs0| && i <= |objs|
        invariant forall k | 0 <= k < i :: objs[k] == Placed(objs0, mode, globalOffset, dataOffset, k)
        invariant forall k | i <= k < |objs| :: objs[k] == WithData(objs0, mode, k)
      {
        var moved := MoveLabels(objs[i]);
        PlacedIs(objs0, mode, globalOffset, dataOffset, i);
        objs := objs[i := objs[i].(labels := moved)];
        i := i + 1;
      }
    }

    method MoveLabels(o: Obj) returns (ls: seq<Label>)
      ensures ls == MovedAll(o.labels, o.text.offset, o.data.offset, globalOffset, dataOffset)
    {
      ls := o.labels;
      var j := 0;
      while j < |ls|
        invariant |ls| == |o.labels| && j <= |ls|
        invariant forall m | 0 <= m < |ls| :: ls[m] ==
                    if m < j then Moved(o.labels[m], o.text.offset, o.data.offset, globalOffset, dataOffset) else o.labels[m]
      {
        if !ls[j].needImport {
          if ls[j].section == 0 {
            ls := ls[j := ls[j].(position := ls[j].position + (globalOffset + o.text.offset) / BLOCK)];
          } else {
            ls := ls[j := ls[j].(position := ls[j].position + globalOffset + o.data.offset + dataOffset)];
          }
        }
        j := j + 1;
      }
    }

    /** `findGlobalLabel`, where the name is cropped at its shift. */
    method FindGlobalLabel(name: Name) returns (found: bool, entry: Label)
      ensures found <==> Definer(objs, BaseName(name)) < |objs|
      ensures found ==> entry == Definition(objs, BaseName(name))
    {
      var n := BaseName(name);
      var i := 0;
      while i < |objs|
        invariant i <= |objs| && forall j | 0 <= j < i :: !Defines(objs[j], n)
      {
        var k := IndexOf(objs[i].labels, n);
        if k < |objs[i].labels| && !objs[i].labels[k].needImport {
          return true, objs[i].labels[k];
        }
        i := i + 1;
      }
      found := false;
      entry := Label(n, 0, 0, 0, false, false, 0);
    }

    /** `resolveNames`: every import takes position and section of the first definition of its base
        name, also where entries resolved earlier are met on the way. */
    method ResolveNames()
      modifies this`objs
      ensures |objs| == |old(objs)|
      ensures forall i | 0 <= i < |objs| ::
                objs[i] == old(objs)[i].(labels := ResolvedLabels(old(objs), old(objs)[i].labels))
    {
      ghost var objs0 := objs;
      var i := 0;
      while i < |objs|
        invariant i <= |objs| && Resolving(objs0, objs, i, 0)
      {
        var j := 0;
        while j < |objs[i].labels|
          invariant i < |objs| && j <= |objs[i].labels| && Resolving(objs0, objs, i, j)
          decreases |objs0[i].labels| - j
        {
          ResolveOne(i, j, objs0);
          j := j + 1;
        }
        NextObject(objs0, objs, i, j);
        i := i + 1;
      }
      ResolvedAll(objs0, objs);
    }

    method ResolveOne(i: nat, j: nat, ghost objs0: seq<Obj>)
      requires i < |objs| && j < |objs[i].labels| && Resolving(objs0, objs, i, j)
      modifies this`objs
      ensures Resolving(objs0, objs, i, j + 1)
    {
      hide Definer, Definition, Partly, Resolving, Resolved, IndexOf;
      ResolvingIsPartly(objs0, objs, i, j);
      var l := objs[i].labels[j];
      ghost var was := objs;
      LookupWhileResolving(objs0, objs, BaseName(l.name));
      var l1 := l;
      assert was[i].labels[j := l] == was[i].labels && was[i := was[i]] == was;
      if l.needImport {
        var found, entry := FindGlobalLabel(l.name);
        if found {
          l1 := l.(position := entry.position, section := entry.section, needImport := false);
          objs := objs[i := objs[i].(labels := objs[i].labels[j := l1])];
        }
      }
      ResolvedIs(objs0, was, l, l1);
      ResolvingMore(objs0, was, objs, i, j, l1);
    }

    /** `link`: marked words, which hold label numbers, become label positions. It stops at the first word
        that has no label here or whose label is still an import. */
    method Link() returns (ok: bool)
      modifies this`objs
      ensures |objs| == |old(objs)|
      ensures ok <==> forall i | 0 <= i < |old(objs)| :: ObjLinkable(old(objs)[i])
      ensures ok ==> forall i | 0 <= i < |objs| :: ObjLinked(old(objs)[i], objs[i])
    {
      hide Unlinkable, SectionLinked;
      ghost var objs0 := objs;
      var i := 0;
      while i < |objs|
        invariant |objs| == |objs0| && i <= |objs|
        invariant forall k | 0 <= k < i :: ObjLinkable(objs0[k]) && ObjLinked(objs0[k], objs[k])
        invariant forall k | i <= k < |objs| :: objs[k] == objs0[k]
      {
        var o := objs[i];
        var t, d;
        ok, t := LinkSection(o.labels, o.text);
        if !ok {
          return;
        }
        ok, d := LinkSection(o.labels, o.data);
        if !ok {
          return;
        }
        objs := objs[i := o.(text := t, data := d)];
        i := i + 1;
      }
      ok := true;
    }

    method LinkSection(ls: seq<Label>, s: Section) returns (ok: bool, s1: Section)
      ensures ok <==> !Unlinkable(ls, s)
      ensures ok ==> SectionLinked(ls, s, s1)
    {
      s1 := s;
      var j := 0;
      while j < |s1.code|
        invariant |s1.code| == |s.code| && s1.labelMap == s.labelMap && s1.offset == s.offset && j <= |s.code|
        invariant forall k | 0 <= k < j && k in s.labelMap :: Linkable(ls, s.code[k]) && s1.code[k] == LinkedWord(ls, s.code[k])
        invariant forall k | 0 <= k < j && k !in s.labelMap :: s1.code[k] == s.code[k]
        invariant forall k | j <= k < |s.code| :: s1.code[k] == s.code[k]
      {
        if j in s1.labelMap {
          var k := ByUid(ls, s1.code[j]);
          if k == |ls| || ls[k].needImport {
            return false, s1;
          }
          s1 := s1.(code := s1.code[j := W(ls[k].position + ls[k].shift)]);
        }
        j := j + 1;
      }
      ok := true;
    }

    /** The body of the image file: all text, then all data. */
    method WriteBin() returns (image: seq<Word>)
      ensures image == TextImage(objs) + DataImage(objs)
    {
      image := [];
      var i := 0;
      while i < |objs|
        invariant i <= |objs| && image == TextImage(objs[..i])
      {
        assert objs[..i + 1][..i] == objs[..i];
        image := image + objs[i].text.code;
        i := i + 1;
      }
      assert objs[..i] == objs;
      i := 0;
      while i < |objs|
        invariant i <= |objs| && image == TextImage(objs) + DataImage(objs[..i])
      {
        assert objs[..i + 1][..i] == objs[..i];
        image := image + objs[i].data.code;
        i := i + 1;
      }
      assert objs[..i] == objs;
    }

    /** The linker's run on the loaded files. The link fails exactly when some marked word has no label
        or a label that nothing defines; otherwise every marked word of the image is the final address
        of its label plus shift, and every other word is what the object file has. */
    method Run(stripping: bool) returns (ok: bool, image: seq<Word>, ghost input: seq<Obj>)
      requires stripping ==> Provider(objs, PROGBEG) < |objs|
      modifies this`objs
      ensures !stripping ==> input == old(objs)
      ensures stripping ==> Stripped(old(objs), input)
      ensures ok <==> AllKnown(input)
      ensures ok ==> Relocated(input, mode, globalOffset, dataOffset, image)
    {
      hide *;
      if stripping {
        ghost var req := Strip();
        StrippedIs(old(objs), objs, req);
      }
      input := objs;
      ComputeOffsets();
      ghost var placed := objs;
      ResolveNames();
      ghost var resolved := objs;
      ok := Link();
      KnownIffLinkable(input, mode, globalOffset, dataOffset, placed, resolved);
      image := [];
      if ok {
        image := WriteBin();
        ImageRelocated(input, mode, globalOffset, dataOffset, placed, resolved, objs);
      }
    }
  }

  /** What the search in a half-resolved table yields is the label resolved. */
  lemma {:induction false} ResolvedIs(objs0: seq<Obj>, objs: seq<Obj>, l: Label, l1: Label)
    requires Definer(objs, BaseName(l.name)) < |objs| <==> Definer(objs0, BaseName(l.name)) < |objs0|
    requires Definer(objs, BaseName(l.name)) < |objs| ==>
               && Definition(objs, BaseName(l.name)).position == Definition(objs0, BaseName(l.name)).position
               && Definition(objs, BaseName(l.name)).section == Definition(objs0, BaseName(l.name)).section
    requires l1 == if l.needImport && Definer(objs, BaseName(l.name)) < |objs| then
                     var d := Definition(objs, BaseName(l.name));
                     l.(position := d.position, section := d.section, needImport := false)
                   else l
    ensures l1 == Resolved(objs0, l)
  {
    hide Definer, Definition;
  }

  lemma ResolvingMore(objs0: seq<Obj>, was: seq<Obj>, objs: seq<Obj>, i: nat, j: nat, l1: Label)
    requires Resolving(objs0, was, i, j) && i < |was| && j < |was[i].labels|
    requires objs == was[i := was[i].(labels := was[i].labels[j := l1])]
    requires l1 == Resolved(objs0, was[i].labels[j])
    ensures Resolving(objs0, objs, i, j + 1)
  {
    hide Resolved;
  }

  lemma ResolvingIsPartly(objs0: seq<Obj>, objs: seq<Obj>, i: nat, j: nat)
    requires Resolving(objs0, objs, i, j)
    ensures Partly(objs0, objs)
  {
  }

  lemma NextObject(objs0: seq<Obj>, objs: seq<Obj>, i: nat, j: nat)
    requires i < |objs| && j == |objs[i].labels| && Resolving(objs0, objs, i, j)
    ensures Resolving(objs0, objs, i + 1, 0)
  {
    hide Resolved;
  }

  lemma ResolvedAll(objs0: seq<Obj>, objs: seq<Obj>)
    requires Resolving(objs0, objs, |objs|, 0)
    ensures |objs| == |objs0|
    ensures forall i | 0 <= i < |objs| :: objs[i] == objs0[i].(labels := ResolvedLabels(objs0, objs0[i].labels))
  {
    hide Resolved;
  }
}

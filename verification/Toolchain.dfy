/** Assembler and linker together: programs are assembled (binutils/assembler.cpp), their object files are loaded
    (binutils/linker.cpp:63-126, 290-350) and linked.  The word at which a program writes a name holds, in the
    image, the place where some program of the link defines that name. */
module Toolchain {
  import opened Words
  import A = Assembler
  import L = Linker
  import C = Contents
  import S = Sim

  type Text = A.Text

  /** A program, and the order in which its labels come out of the table. */
  datatype Source = Source(stmts: seq<A.Stmt>, order: seq<Text>)

  ghost predicate Assembles(p: Source) {
    A.Enumerates(A.Final(p.stmts).labels, p.order) && A.Final(p.stmts).labelUid <= 0x10000
  }

  // ----- names -----

  function Chars(s: seq<A.Byte>): string {
    seq(|s|, i requires 0 <= i < |s| => s[i] as char)
  }

  /** A name with the text of its shift apart. */
  function Split(n: Text): L.Name {
    L.Name(Chars(n[..A.SignAt(n)]), Chars(n[A.SignAt(n)..]))
  }

  /** The name without its shift; a name that starts with a sign stays as it is. */
  function Base(n: Text): Text {
    if A.SignAt(n) == 0 then n else n[..A.SignAt(n)]
  }

  function Shift(n: Text): int {
    if A.ShiftOf(n).Some? then A.ShiftOf(n).value else 0
  }

  lemma CharsSame(s: seq<A.Byte>, t: seq<A.Byte>)
    requires Chars(s) == Chars(t)
    ensures s == t
  {
    assert |s| == |Chars(s)| == |Chars(t)| == |t|;
    forall i | 0 <= i < |s| ensures s[i] == t[i] {
      assert Chars(s)[i] == s[i] as char && Chars(t)[i] == t[i] as char;
    }
  }

  lemma SplitSame(n: Text, o: Text)
    requires Split(n) == Split(o)
    ensures n == o
  {
    hide Chars;
    CharsSame(n[..A.SignAt(n)], o[..A.SignAt(o)]);
    CharsSame(n[A.SignAt(n)..], o[A.SignAt(o)..]);
    assert n == n[..A.SignAt(n)] + n[A.SignAt(n)..] && o == o[..A.SignAt(o)] + o[A.SignAt(o)..];
  }

  lemma {:induction false} SplitBase(n: Text)
    ensures L.BaseName(Split(n)) == Split(Base(n))
  {
    var k, b := A.SignAt(n), Base(n);
    if k > 0 {
      assert forall i | 0 <= i < k :: b[i] == n[i];
      assert A.SignAt(b) == k;
      assert b[..k] == n[..k] && b[k..] == [];
    }
  }

  // ----- object files -----

  function ToLabel(r: A.Record): L.Label {
    var l := A.Load(r);
    L.Label(Split(r.name), l.section, l.uid, l.position, l.needExport, l.needImport, l.shift)
  }

  function ToLabels(rs: seq<A.Record>): seq<L.Label> {
    seq(|rs|, k requires 0 <= k < |rs| => ToLabel(rs[k]))
  }

  function ToSection(s: A.Section): L.Section {
    L.Section(s.labelMap, 0, s.code)
  }

  /** The object file of a program, as the linker has it after loading. */
  ghost function ObjectOf(p: Source): L.Obj
    requires Assembles(p)
  {
    var s := A.Final(p.stmts);
    L.Obj(ToSection(s.sections[0]), ToSection(s.sections[1]), ToLabels(A.Records(s.labels, p.order)))
  }

  ghost predicate Objects(ps: seq<Source>, objs: seq<L.Obj>) {
    |objs| == |ps| && forall i | 0 <= i < |ps| :: Assembles(ps[i]) && objs[i] == ObjectOf(ps[i])
  }

  // ----- what names mean -----

  /** The program defines the name and does not declare it an import. */
  ghost predicate Gives(p: Source, n: Text) {
    n in A.Meaning(p.stmts).defined && A.Import(n) !in p.stmts
  }

  /** The place of a name that program d gives, after layout. */
  ghost function PlaceIn(ps: seq<Source>, objs: seq<L.Obj>, mode: L.Mode, globalBase: nat, dataBase: nat, d: nat, n: Text): int
    requires |objs| == |ps| && d < |ps| && Gives(ps[d], n)
  {
    var at := A.Meaning(ps[d].stmts).defined[n];
    if at.0 == 0 then W(at.1 / L.BLOCK) + (globalBase + L.TextBefore(objs, d)) / L.BLOCK
    else W(at.1) + globalBase + (if mode == L.TwoSeg then 0 else L.TextBefore(objs, |objs|)) + L.DataBefore(objs, d) + dataBase
  }

  /** Name n, written by program i, is given by it or, without its shift, by some program. */
  ghost predicate Found(ps: seq<Source>, i: nat, n: Text)
    requires i < |ps|
  {
    Gives(ps[i], n) || exists d :: 0 <= d < |ps| && Gives(ps[d], Base(n))
  }

  /** The word holds the place of n in program i, if it gives the name, and otherwise the place of the name
      without shift in the first program that gives it, plus the shift. */
  ghost predicate HoldsPlace(ps: seq<Source>, objs: seq<L.Obj>, mode: L.Mode, globalBase: nat, dataBase: nat, i: nat, n: Text, w: Word)
    requires |objs| == |ps| && i < |ps|
  {
    if Gives(ps[i], n) then w == W(PlaceIn(ps, objs, mode, globalBase, dataBase, i, n) + Shift(n))
    else exists d :: 0 <= d < |ps| && Gives(ps[d], Base(n)) && (forall k | 0 <= k < d :: !Gives(ps[k], Base(n)))
           && w == W(PlaceIn(ps, objs, mode, globalBase, dataBase, d, Base(n)) + Shift(n))
  }

  predicate Declares(labels: map<Text, A.Entry>, n: Text) {
    n in labels && labels[n].needImport
  }

  lemma {:induction false} PutManyLabels(s: A.State, num: nat, val: int)
    requires A.Shape(s)
    ensures A.PutMany(s, num, val).labels == s.labels
  {
    if num > 0 {
      PutManyLabels(s, num - 1, val);
    }
  }

  lemma AlignedLabels(s: A.State)
    requires A.Shape(s)
    ensures A.Aligned(s).labels == s.labels
  {
    PutManyLabels(s, (A.BLOCK - A.Size(s) % A.BLOCK) % A.BLOCK, 0);
  }

  lemma ReferredDeclares(s: A.State, name: Text, n: Text)
    requires A.Shape(s)
    ensures Declares(A.Referred(s, name).labels, n) <==> Declares(s.labels, n)
  {
  }

  lemma RegisteredDeclares(s: A.State, name: Text, n: Text)
    requires A.Shape(s)
    ensures Declares(A.Registered(s, name).labels, n) <==> Declares(s.labels, n)
  {
  }

  /** One statement declares what it says and nothing else. */
  lemma ApplyDeclares(s: A.State, stmt: A.Stmt, n: Text)
    requires A.Shape(s)
    ensures Declares(A.Apply(s, stmt).labels, n) <==> Declares(s.labels, n) || stmt == A.Import(n)
  {
    hide A.Numbered, A.Aligned, A.PutMany, A.Referred, A.Registered;
    match stmt
    case Label(name) =>
      AlignedLabels(s);
      RegisteredDeclares(A.Aligned(s), name, n);
    case Repeat(num, val) => PutManyLabels(s, if num < 0 then 0 else num, val);
    case Address(name) => ReferredDeclares(s, name, n);
    case WithLabel(opcode, name) => ReferredDeclares(A.Put(s, opcode), name, n);
    case _ =>
  }

  lemma {:induction false} DeclaresIff(stmts: seq<A.Stmt>, n: Text)
    ensures Declares(A.ApplyAll(stmts).labels, n) <==> A.Import(n) in stmts
    decreases |stmts|
  {
    if stmts != [] {
      var k := |stmts| - 1;
      DeclaresIff(stmts[..k], n);
      ApplyDeclares(A.ApplyAll(stmts[..k]), stmts[k], n);
      assert stmts == stmts[..k] + [stmts[k]];
    }
  }

  lemma FinalDeclares(stmts: seq<A.Stmt>, n: Text)
    ensures Declares(A.Final(stmts).labels, n) <==> A.Import(n) in stmts
  {
    hide A.Aligned, A.ApplyAll;
    DeclaresIff(stmts, n);
    var s := A.ApplyAll(stmts).(cSection := 0);
    AlignedLabels(s);
    AlignedLabels(A.Aligned(s).(cSection := 1));
  }

  // ----- labels in object files -----

  /** The table of a program's object file, record by record. */
  lemma {:induction false} LabelsAre(p: Source, k: nat)
    requires Assembles(p) && k < |ObjectOf(p).labels|
    ensures var rs := A.Records(A.Final(p.stmts).labels, p.order);
            && |rs| == |ObjectOf(p).labels| && rs[k].name in A.Final(p.stmts).labels && A.Written(A.Final(p.stmts).labels[rs[k].name])
            && ObjectOf(p).labels[k] == ToLabel(A.ToRecord(rs[k].name, A.Final(p.stmts).labels[rs[k].name]))
            && ObjectOf(p).labels[k].name == Split(rs[k].name)
  {
    hide A.Final, Split, A.Written, A.Records, A.ShiftOf;
    A.RecordFrom(A.Final(p.stmts).labels, p.order, k);
  }

  lemma {:induction false} LabelHas(p: Source, n: Text) returns (k: nat)
    requires Assembles(p) && n in A.Final(p.stmts).labels && A.Written(A.Final(p.stmts).labels[n])
    ensures k < |ObjectOf(p).labels| && ObjectOf(p).labels[k].name == Split(n)
  {
    hide A.Final, Split, A.Written, A.Records, A.ShiftOf;
    var labels := A.Final(p.stmts).labels;
    A.RecordOf(labels, p.order, n);
    var rs := A.Records(labels, p.order);
    k :| k < |rs| && rs[k] == A.ToRecord(n, labels[n]);
  }

  /** The label of a name in the object file. */
  lemma {:induction false} NamedLabel(p: Source, n: Text)
    requires Assembles(p)
    ensures var ls := ObjectOf(p).labels;
            var labels := A.Final(p.stmts).labels;
            L.IndexOf(ls, Split(n)) < |ls| <==> n in labels && A.Written(labels[n])
    ensures var ls := ObjectOf(p).labels;
            var labels := A.Final(p.stmts).labels;
            n in labels && A.Written(labels[n]) ==> ls[L.IndexOf(ls, Split(n))] == ToLabel(A.ToRecord(n, labels[n]))
  {
    hide A.Final, Split, A.Written, A.Records, A.ShiftOf, ToLabel, ObjectOf;
    var ls, labels := ObjectOf(p).labels, A.Final(p.stmts).labels;
    var k := L.IndexOf(ls, Split(n));
    if k < |ls| {
      LabelsAre(p, k);
      SplitSame(n, A.Records(labels, p.order)[k].name);
    } else if n in labels && A.Written(labels[n]) {
      var k1 := LabelHas(p, n);
    }
  }

  /** A program's object file defines exactly the names the program gives, at their places. */
  lemma {:induction false} ObjectDefines(p: Source, n: Text)
    requires Assembles(p)
    ensures L.Defines(ObjectOf(p), Split(n)) <==> Gives(p, n)
    ensures Gives(p, n) ==>
              var ls := ObjectOf(p).labels;
              var l, at := ls[L.IndexOf(ls, Split(n))], A.Meaning(p.stmts).defined[n];
              l.section == at.0 < 2 && l.position == W(at.1 / (if at.0 == 0 then L.BLOCK else 1)) && !l.needImport
  {
    hide A.Final, Split, A.Records, A.ShiftOf, ObjectOf, A.Meaning, A.Marks, A.Numbers, A.Placed;
    NamedLabel(p, n);
    FinalDeclares(p.stmts, n);
    A.FinalKeeps(p.stmts);
    var s, t := A.Final(p.stmts), A.Meaning(p.stmts);
    if n in s.labels {
      A.DefinedPlace(s.labels, s.labelUid, t, n);
    }
    DefinedIn(s, t, n);
  }

  lemma DefinedIn(s: A.State, t: A.Trace, n: Text)
    requires A.Inv(s, t)
    ensures n in t.defined ==> n in s.labels
  {
  }

  /** The label a marked word names, by number. */
  lemma {:induction false} MarkedLabel(p: Source, section: nat, j: nat)
    requires Assembles(p) && section < 2 && j in A.Final(p.stmts).sections[section].labelMap
    ensures (section, j) in A.Meaning(p.stmts).refs && j < |A.Final(p.stmts).sections[section].code|
    ensures var ls, w, n := ObjectOf(p).labels, A.Final(p.stmts).sections[section].code[j], A.Meaning(p.stmts).refs[(section, j)];
            && StandsFor(ObjectOf(p), w, n)
            && (ls[L.ByUid(ls, w)].needImport <==> !Gives(p, n))
  {
    hide A.Final, Split, A.Records, A.ShiftOf, ObjectOf, A.Meaning, A.LoadAll, A.Written;
    var s, t := A.Final(p.stmts), A.Meaning(p.stmts);
    A.SlotFindsLabel(p.stmts, p.order, section, j);
    A.RoundTrip(s.labels, p.order);
    var table, ls, w, n := A.LoadAll(A.Records(s.labels, p.order)), ObjectOf(p).labels, s.sections[section].code[j], t.refs[(section, j)];
    NamedLabel(p, n);
    FinalDeclares(p.stmts, n);
    var i := L.IndexOf(ls, Split(n));
    assert ls[i].uid == w;
    var k := L.ByUid(ls, w);
    LabelsAre(p, k);
    var m := A.Records(s.labels, p.order)[k].name;
    assert m in table && table[m].uid == w;
    assert m == n;
  }

  /** The block size of the assembler and of the linker is the one with which the simulator finds a jump's target. */
  lemma BlocksAgree(pc: nat, target: Word)
    ensures S.GoTo(pc, target) == A.BLOCK * target == L.BLOCK * target
  {
  }

  // ----- the theorem -----

  lemma SectionsOf(ps: seq<Source>, objs: seq<L.Obj>, i: nat, section: nat, j: nat)
    requires Objects(ps, objs) && i < |ps| && section < 2
    ensures var s := A.Final(ps[i].stmts).sections[section];
            && L.SectionOf(objs[i], section == 1).code == s.code && L.SectionOf(objs[i], section == 1).labelMap == s.labelMap
  {
    hide A.Final, A.Records, ToLabels;
  }

  /** Which program gives a name is the linker's search for it. */
  lemma {:induction false} DefinerGives(ps: seq<Source>, objs: seq<L.Obj>, n: Text)
    requires Objects(ps, objs)
    ensures var d := L.Definer(objs, Split(n));
            && d <= |ps| && (d < |ps| ==> Gives(ps[d], n)) && forall k | 0 <= k < d :: !Gives(ps[k], n)
  {
    hide L.Defines, Gives, ObjectOf, Split, Assembles;
    var d := L.Definer(objs, Split(n));
    if d < |ps| {
      ObjectDefines(ps[d], n);
    }
    forall k | 0 <= k < d ensures !Gives(ps[k], n) {
      ObjectDefines(ps[k], n);
    }
  }

  /** The address of a name a program gives. */
  lemma {:induction false} GivenAddress(ps: seq<Source>, objs: seq<L.Obj>, mode: L.Mode, globalBase: nat, dataBase: nat, d: nat, n: Text)
    requires Objects(ps, objs) && d < |ps| && Gives(ps[d], n)
    ensures L.Defines(objs[d], Split(n))
    ensures L.OwnAddress(objs, mode, globalBase, dataBase, d, Split(n)) == PlaceIn(ps, objs, mode, globalBase, dataBase, d, n)
  {
    ObjectDefines(ps[d], n);
    hide ObjectOf, Split, Assembles, A.Meaning, L.TextBefore, L.DataBefore, L.IndexOf;
  }

  /** For every link of assembled programs: where program i writes name n, the image holds the place of n. */
  lemma {:induction false} NameReachesImage(ps: seq<Source>, objs: seq<L.Obj>, mode: L.Mode, globalBase: nat, dataBase: nat, image: seq<Word>,
                                            i: nat, section: nat, j: nat)
    requires Objects(ps, objs) && L.Relocated(objs, mode, globalBase, dataBase, image)
    requires i < |ps| && section < 2 && (section, j) in A.Meaning(ps[i].stmts).refs
    ensures L.SectionAt(objs, i, section == 1) + j < |image|
    ensures HoldsPlace(ps, objs, mode, globalBase, dataBase, i, A.Meaning(ps[i].stmts).refs[(section, j)],
                       image[L.SectionAt(objs, i, section == 1) + j])
  {
    hide *;
    SlotWord(ps, objs, mode, globalBase, dataBase, image, i, section, j);
    L.ImageWord(objs, mode, globalBase, dataBase, image, i, section == 1, j);
    WordHoldsPlace(ps, objs, mode, globalBase, dataBase, i, L.SectionOf(objs[i], section == 1).code[j], A.Meaning(ps[i].stmts).refs[(section, j)]);
  }

  /** Where program i writes a number, an opcode or an operand, the image holds its low word. */
  lemma {:induction false} NumberReachesImage(ps: seq<Source>, objs: seq<L.Obj>, mode: L.Mode, globalBase: nat, dataBase: nat, image: seq<Word>,
                                              i: nat, section: nat, j: nat)
    requires Objects(ps, objs) && |objs| == |ps| && L.Relocated(objs, mode, globalBase, dataBase, image)
    requires i < |ps| && section < 2 && j < |C.Object(ps[i].stmts, section)| && C.Object(ps[i].stmts, section)[j].Lit?
    ensures L.SectionAt(objs, i, section == 1) + j < |image|
    ensures image[L.SectionAt(objs, i, section == 1) + j] == W(C.Object(ps[i].stmts, section)[j].val)
  {
    hide *;
    NumberCode(ps, objs, i, section, j);
    L.ImageWord(objs, mode, globalBase, dataBase, image, i, section == 1, j);
    Unmarked(objs, mode, globalBase, dataBase, i, L.SectionOf(objs[i], section == 1).code[j]);
  }

  lemma {:induction false} NumberCode(ps: seq<Source>, objs: seq<L.Obj>, i: nat, section: nat, j: nat)
    requires Objects(ps, objs) && |objs| == |ps| && i < |ps| && section < 2
    requires j < |C.Object(ps[i].stmts, section)| && C.Object(ps[i].stmts, section)[j].Lit?
    ensures var s := L.SectionOf(objs[i], section == 1);
            j < |s.code| && j !in s.labelMap && s.code[j] == W(C.Object(ps[i].stmts, section)[j].val)
  {
    C.FinalHolds(ps[i].stmts, section);
    SectionsOf(ps, objs, i, section, j);
    hide A.Final, C.Object, Objects, ObjectOf;
  }

  lemma Unmarked(objs: seq<L.Obj>, mode: L.Mode, globalBase: nat, dataBase: nat, i: nat, w: Word)
    requires i < |objs|
    ensures L.FinalWord(objs, mode, globalBase, dataBase, i, false, w) == w
  {
  }

  lemma {:induction false} SlotWord(ps: seq<Source>, objs: seq<L.Obj>, mode: L.Mode, globalBase: nat, dataBase: nat, image: seq<Word>,
                                    i: nat, section: nat, j: nat)
    requires Objects(ps, objs) && L.Relocated(objs, mode, globalBase, dataBase, image)
    requires i < |ps| && section < 2 && (section, j) in A.Meaning(ps[i].stmts).refs
    ensures |objs| == |ps| && j < |L.SectionOf(objs[i], section == 1).code| && j in L.SectionOf(objs[i], section == 1).labelMap
    ensures var w, n := L.SectionOf(objs[i], section == 1).code[j], A.Meaning(ps[i].stmts).refs[(section, j)];
            && StandsFor(objs[i], w, n) && L.KnownWord(objs, i, w)
            && L.ByUid(objs[i].labels, w) < |objs[i].labels|
            && (objs[i].labels[L.ByUid(objs[i].labels, w)].needImport <==> !Gives(ps[i], n))
  {
    SlotIsMarked(ps[i], section, j);
    MarkedLabel(ps[i], section, j);
    SectionsOf(ps, objs, i, section, j);
    SlotKnown(objs, mode, globalBase, dataBase, image, i, section == 1, j);
    assert objs[i] == ObjectOf(ps[i]);
    hide A.Final, A.Meaning, ObjectOf, Split, Assembles, Gives, Shift, L.ByUid, L.IndexOf, L.Relocated, L.KnownWord;
  }

  lemma {:induction false} WordHoldsPlace(ps: seq<Source>, objs: seq<L.Obj>, mode: L.Mode, globalBase: nat, dataBase: nat, i: nat, w: Word, n: Text)
    requires Objects(ps, objs) && |objs| == |ps| && i < |ps| && StandsFor(objs[i], w, n) && L.KnownWord(objs, i, w)
    requires L.ByUid(objs[i].labels, w) < |objs[i].labels|
    requires objs[i].labels[L.ByUid(objs[i].labels, w)].needImport <==> !Gives(ps[i], n)
    ensures HoldsPlace(ps, objs, mode, globalBase, dataBase, i, n, L.FinalWord(objs, mode, globalBase, dataBase, i, true, w))
  {
    hide Objects, Gives, StandsFor, PlaceIn, Shift, W, L.ByUid, L.FinalWord, L.KnownWord, Base;
    if Gives(ps[i], n) {
      GivenWord(ps, objs, mode, globalBase, dataBase, i, w, n);
    } else {
      ImportedWord(ps, objs, mode, globalBase, dataBase, i, w, n);
    }
  }

  /** The number w stands for the name n in an object. */
  ghost predicate StandsFor(o: L.Obj, w: Word, n: Text) {
    var ls := o.labels;
    && L.ByUid(ls, w) < |ls| && L.IndexOf(ls, Split(n)) < |ls|
    && ls[L.ByUid(ls, w)] == ls[L.IndexOf(ls, Split(n))] && ls[L.ByUid(ls, w)].name == Split(n)
    && ls[L.ByUid(ls, w)].shift == Shift(n)
  }

  lemma {:induction false} GivenWord(ps: seq<Source>, objs: seq<L.Obj>, mode: L.Mode, globalBase: nat, dataBase: nat, i: nat, w: Word, n: Text)
    requires Objects(ps, objs) && |objs| == |ps| && i < |ps| && Gives(ps[i], n) && StandsFor(objs[i], w, n)
    requires !objs[i].labels[L.ByUid(objs[i].labels, w)].needImport
    ensures L.FinalWord(objs, mode, globalBase, dataBase, i, true, w) == W(PlaceIn(ps, objs, mode, globalBase, dataBase, i, n) + Shift(n))
  {
    hide Gives, Split, Assembles, PlaceIn, Shift, W, L.ByUid, L.IndexOf, L.FinalWord, L.OwnAddress, L.Defines, ObjectOf;
    GivenAddress(ps, objs, mode, globalBase, dataBase, i, n);
    OwnWord(objs, mode, globalBase, dataBase, i, w, objs[i].labels[L.ByUid(objs[i].labels, w)]);
  }

  lemma {:induction false} ImportedWord(ps: seq<Source>, objs: seq<L.Obj>, mode: L.Mode, globalBase: nat, dataBase: nat, i: nat, w: Word, n: Text)
    requires Objects(ps, objs) && |objs| == |ps| && i < |ps| && StandsFor(objs[i], w, n) && L.KnownWord(objs, i, w)
    requires objs[i].labels[L.ByUid(objs[i].labels, w)].needImport
    ensures exists d :: 0 <= d < |ps| && Gives(ps[d], Base(n)) && (forall k | 0 <= k < d :: !Gives(ps[k], Base(n)))
              && L.FinalWord(objs, mode, globalBase, dataBase, i, true, w) ==
                 W(PlaceIn(ps, objs, mode, globalBase, dataBase, d, Base(n)) + Shift(n))
  {
    hide Gives, Split, Assembles, PlaceIn, Shift, W, L.ByUid, L.IndexOf, L.FinalWord, L.OwnAddress, L.Defines, ObjectOf, Base, L.BaseName;
    SplitBase(n);
    DefinerGives(ps, objs, Base(n));
    var d := L.Definer(objs, Split(Base(n)));
    L.ImportWord(objs, mode, globalBase, dataBase, i, w, objs[i].labels[L.ByUid(objs[i].labels, w)]);
    GivenAddress(ps, objs, mode, globalBase, dataBase, d, Base(n));
  }

  lemma SlotKnown(objs: seq<L.Obj>, mode: L.Mode, globalBase: nat, dataBase: nat, image: seq<Word>, i: nat, data: bool, j: nat)
    requires L.Relocated(objs, mode, globalBase, dataBase, image) && i < |objs|
    requires j < |L.SectionOf(objs[i], data).code| && j in L.SectionOf(objs[i], data).labelMap
    ensures L.KnownWord(objs, i, L.SectionOf(objs[i], data).code[j])
  {
    assert L.HoldsSection(objs, mode, globalBase, dataBase, i, L.SectionOf(objs[i], data), image, L.SectionAt(objs, i, data));
    hide L.FinalWord, L.TextBefore, L.DataBefore, L.Relocated;
  }

  lemma {:induction false} OwnWord(objs: seq<L.Obj>, mode: L.Mode, globalBase: nat, dataBase: nat, i: nat, w: Word, l: L.Label)
    requires i < |objs| && L.ByUid(objs[i].labels, w) < |objs[i].labels| && l == objs[i].labels[L.ByUid(objs[i].labels, w)]
    requires !l.needImport && L.IndexOf(objs[i].labels, l.name) < |objs[i].labels| && l == objs[i].labels[L.IndexOf(objs[i].labels, l.name)]
    ensures L.Defines(objs[i], l.name)
    ensures L.FinalWord(objs, mode, globalBase, dataBase, i, true, w) == W(L.OwnAddress(objs, mode, globalBase, dataBase, i, l.name) + l.shift)
  {
    hide L.ByUid, L.IndexOf, L.Shifted, W;
  }

  lemma SlotIsMarked(p: Source, section: nat, j: nat)
    requires section < 2 && (section, j) in A.Meaning(p.stmts).refs
    ensures j in A.Final(p.stmts).sections[section].labelMap
  {
    A.FinalKeeps(p.stmts);
    hide A.Final, A.Meaning, A.Numbers, A.Placed;
  }

  /** All names that program i writes are found. */
  ghost predicate AllFound(ps: seq<Source>, i: nat)
    requires i < |ps|
  {
    forall r | r in A.Meaning(ps[i].stmts).refs :: Found(ps, i, A.Meaning(ps[i].stmts).refs[r])
  }

  /** Such a link succeeds exactly when every name that some program writes is given by that program or,
      without its shift, by some program. */
  lemma {:induction false} LinksIff(ps: seq<Source>, objs: seq<L.Obj>)
    requires Objects(ps, objs)
    ensures L.AllKnown(objs) <==> forall i | 0 <= i < |ps| :: AllFound(ps, i)
  {
    assert |objs| == |ps|;
    hide Objects, AllFound, L.SectionKnown;
    forall i | 0 <= i < |ps|
      ensures L.SectionKnown(objs, i, objs[i].text) && L.SectionKnown(objs, i, objs[i].data) <==> AllFound(ps, i)
    {
      SlotsFound(ps, objs, i);
    }
  }

  lemma {:induction false} SlotsFound(ps: seq<Source>, objs: seq<L.Obj>, i: nat)
    requires Objects(ps, objs) && |objs| == |ps| && i < |ps|
    ensures L.SectionKnown(objs, i, objs[i].text) && L.SectionKnown(objs, i, objs[i].data) <==> AllFound(ps, i)
  {
    hide *;
    SectionFound(ps, objs, i, 0);
    SectionFound(ps, objs, i, 1);
    SectionObjects(objs, i);
    AllFoundSplits(ps, i);
  }

  lemma SectionObjects(objs: seq<L.Obj>, i: nat)
    requires i < |objs|
    ensures L.SectionOf(objs[i], false) == objs[i].text && L.SectionOf(objs[i], true) == objs[i].data
  {
  }

  ghost predicate FoundIn(ps: seq<Source>, i: nat, section: nat)
    requires i < |ps|
  {
    forall j: nat | (section, j) in A.Meaning(ps[i].stmts).refs :: Found(ps, i, A.Meaning(ps[i].stmts).refs[(section, j)])
  }

  lemma AllFoundSplits(ps: seq<Source>, i: nat)
    requires i < |ps|
    ensures AllFound(ps, i) <==> FoundIn(ps, i, 0) && FoundIn(ps, i, 1)
  {
    hide A.Meaning, Found;
    forall r | r in A.Meaning(ps[i].stmts).refs ensures r == (0, r.1) || r == (1, r.1) {
      RefSection(ps[i], r);
    }
  }

  lemma {:induction false} SectionFound(ps: seq<Source>, objs: seq<L.Obj>, i: nat, section: nat)
    requires Objects(ps, objs) && |objs| == |ps| && i < |ps| && section < 2
    ensures L.SectionKnown(objs, i, L.SectionOf(objs[i], section == 1)) <==> FoundIn(ps, i, section)
  {
    SectionsOf(ps, objs, i, section, 0);
    hide Objects, A.Final, A.Meaning, Found, L.KnownWord, L.SectionOf;
    var s := L.SectionOf(objs[i], section == 1);
    forall j: nat | (section, j) in A.Meaning(ps[i].stmts).refs ensures j in s.labelMap {
      SlotIsMarked(ps[i], section, j);
    }
    forall j: nat | j in s.labelMap
      ensures (section, j) in A.Meaning(ps[i].stmts).refs && j < |s.code|
      ensures L.KnownWord(objs, i, s.code[j]) <==> Found(ps, i, A.Meaning(ps[i].stmts).refs[(section, j)])
    {
      RefKnown(ps, objs, i, section, j);
    }
  }

  lemma RefSection(p: Source, r: (nat, nat))
    requires r in A.Meaning(p.stmts).refs
    ensures r.0 < 2
  {
    A.FinalKeeps(p.stmts);
    hide A.Final, A.Meaning, A.Numbers, A.Placed;
  }

  lemma {:induction false} RefKnown(ps: seq<Source>, objs: seq<L.Obj>, i: nat, section: nat, j: nat)
    requires Objects(ps, objs) && i < |ps| && section < 2 && j in A.Final(ps[i].stmts).sections[section].labelMap
    ensures (section, j) in A.Meaning(ps[i].stmts).refs && j < |L.SectionOf(objs[i], section == 1).code|
    ensures j in L.SectionOf(objs[i], section == 1).labelMap
    ensures var n := A.Meaning(ps[i].stmts).refs[(section, j)];
            L.KnownWord(objs, i, L.SectionOf(objs[i], section == 1).code[j]) <==> Found(ps, i, n)
  {
    MarkedLabel(ps[i], section, j);
    SectionsOf(ps, objs, i, section, j);
    var n := A.Meaning(ps[i].stmts).refs[(section, j)];
    hide A.Final, A.Meaning, ObjectOf, Split, Assembles, Gives, Base, L.ByUid, L.IndexOf, L.SectionOf;
    SplitBase(n);
    DefinerGives(ps, objs, Base(n));
  }
}

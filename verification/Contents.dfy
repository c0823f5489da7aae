/** What a program puts into its sections, said statement by statement without the assembler's state
    (binutils/assembler.cpp:260-380), and that the assembled sections hold exactly that. */
module Contents {
  import opened Words
  import opened Assembler

  /** A word written as a number, or as a name. */
  datatype Cell = Lit(val: int) | Ref(name: Text)

  /** The words of one statement: an operation stands before its own operand. */
  function Emits(stmt: Stmt): seq<Cell> {
    match stmt
    case Repeat(num, val) => Copies(num, Lit(val))
    case Address(name) => [Ref(name)]
    case Plain(opcode) => [Lit(opcode)]
    case WithNumber(opcode, num) => [Lit(opcode), Lit(num)]
    case WithLabel(opcode, name) => [Lit(opcode), Ref(name)]
    case _ => []
  }

  function Copies(n: int, c: Cell): seq<Cell> {
    seq(if n < 0 then 0 else n, i => c)
  }

  /** The section selected last; the first is the text. */
  function Current(stmts: seq<Stmt>): (k: nat)
    ensures k < 2
  {
    if stmts == [] then 0
    else
      var last := stmts[|stmts| - 1];
      if last.Select? then (if last.section == 0 then 0 else 1) else Current(stmts[..|stmts| - 1])
  }

  /** Zeros up to the next whole block. */
  function Filled(c: seq<Cell>): (r: seq<Cell>)
    ensures c <= r && |r| % BLOCK == 0 && |r| < |c| + BLOCK
  {
    c + Copies((BLOCK - |c| % BLOCK) % BLOCK, Lit(0))
  }

  /** What the statements put into a section, in order; labels in the text begin blocks. */
  function Body(stmts: seq<Stmt>, k: nat): seq<Cell> {
    if stmts == [] then []
    else
      var init, last := stmts[..|stmts| - 1], stmts[|stmts| - 1];
      if Current(init) != k then Body(init, k)
      else if last.Label? && k == 0 then Filled(Body(init, k))
      else Body(init, k) + Emits(last)
  }

  /** The section of the object file. */
  function Object(stmts: seq<Stmt>, k: nat): seq<Cell> {
    if k == 0 then Filled(Body(stmts, k)) else Body(stmts, k)
  }

  // ----- the assembler's sections hold it -----

  /** Numbers are written as they are, names are marked. */
  ghost predicate Same(sect: Section, cells: seq<Cell>) {
    && |sect.code| == |cells|
    && (forall j | 0 <= j < |cells| && cells[j].Lit? :: sect.code[j] == W(cells[j].val))
    && (forall j: nat :: j in sect.labelMap <==> j < |cells| && cells[j].Ref?)
  }

  ghost predicate Holds(s: State, k: nat, c0: seq<Cell>, c1: seq<Cell>) {
    Shape(s) && s.cSection == k && Same(s.sections[0], c0) && Same(s.sections[1], c1)
  }

  /** The cells of section k replaced. */
  lemma LitSame(sect: Section, cells: seq<Cell>, val: int)
    requires Same(sect, cells)
    ensures Same(sect.(code := sect.code + [W(val)]), cells + [Lit(val)])
  {
  }

  lemma RefSame(sect: Section, cells: seq<Cell>, val: int, name: Text)
    requires Same(sect, cells)
    ensures Same(sect.(code := sect.code + [W(val)], labelMap := sect.labelMap + {|sect.code|}), cells + [Ref(name)])
  {
  }

  ghost predicate Now(s: State, k: nat, cells: seq<Cell>, other: Section) {
    Shape(s) && s.cSection == k < 2 && Same(s.sections[k], cells) && s.sections[1 - k] == other
  }

  lemma PutNow(s: State, k: nat, cells: seq<Cell>, other: Section, val: int)
    requires Now(s, k, cells, other)
    ensures Now(Put(s, val), k, cells + [Lit(val)], other)
  {
    LitSame(s.sections[k], cells, val);
    hide Same, W;
  }

  lemma {:induction false} PutManyNow(s: State, k: nat, cells: seq<Cell>, other: Section, num: nat, val: int)
    requires Now(s, k, cells, other)
    ensures Now(PutMany(s, num, val), k, cells + Copies(num, Lit(val)), other)
    decreases num
  {
    assert Shape(s);
    hide Now, Put;
    if num == 0 {
      assert cells + Copies(num, Lit(val)) == cells;
    } else {
      PutManyNow(s, k, cells, other, num - 1, val);
      PutNow(PutMany(s, num - 1, val), k, cells + Copies(num - 1, Lit(val)), other, val);
      assert cells + Copies(num - 1, Lit(val)) + [Lit(val)] == cells + Copies(num, Lit(val));
    }
  }

  lemma AlignedNow(s: State, k: nat, cells: seq<Cell>, other: Section)
    requires Now(s, k, cells, other)
    ensures Now(Aligned(s), k, if k == 0 then Filled(cells) else cells, other)
  {
    assert Size(s) == |cells|;
    hide Same;
    if k == 0 {
      PutManyNow(s, k, cells, other, (BLOCK - |cells| % BLOCK) % BLOCK, 0);
    }
  }

  lemma ReferredNow(s: State, k: nat, cells: seq<Cell>, other: Section, name: Text)
    requires Now(s, k, cells, other)
    ensures Now(Referred(s, name), k, cells + [Ref(name)], other)
  {
    var n := Numbered(s, name);
    RefSame(s.sections[k], cells, n.labels[name].uid, name);
    hide Same, W;
  }

  lemma RegisteredNow(s: State, k: nat, cells: seq<Cell>, other: Section, name: Text)
    requires Now(s, k, cells, other)
    ensures Now(Registered(s, name), k, cells, other)
  {
    hide Same;
  }

  /** One statement. */
  lemma ApplyNow(s: State, k: nat, cells: seq<Cell>, other: Section, stmt: Stmt)
    requires Now(s, k, cells, other) && !stmt.Select?
    ensures Now(Apply(s, stmt), k, if stmt.Label? && k == 0 then Filled(cells) else cells + Emits(stmt), other)
  {
    hide Same, Registered, Referred, Aligned, PutMany, Numbered;
    match stmt
    case Label(name) =>
      AlignedNow(s, k, cells, other);
      RegisteredNow(Aligned(s), k, if k == 0 then Filled(cells) else cells, other, name);
      assert cells + [] == cells;
    case Repeat(num, val) => PutManyNow(s, k, cells, other, if num < 0 then 0 else num, val);
    case Address(name) => ReferredNow(s, k, cells, other, name);
    case Plain(opcode) => PutNow(s, k, cells, other, opcode);
    case WithNumber(opcode, num) =>
      PutNow(s, k, cells, other, opcode);
      PutNow(Put(s, opcode), k, cells + [Lit(opcode)], other, num);
      assert cells + [Lit(opcode)] + [Lit(num)] == cells + [Lit(opcode), Lit(num)];
    case WithLabel(opcode, name) =>
      PutNow(s, k, cells, other, opcode);
      ReferredNow(Put(s, opcode), k, cells + [Lit(opcode)], other, name);
      assert cells + [Lit(opcode)] + [Ref(name)] == cells + [Lit(opcode), Ref(name)];
    case Import(_) => assert cells + [] == cells;
    case Export(_) => assert cells + [] == cells;
  }

  lemma {:induction false} ProgramHolds(stmts: seq<Stmt>)
    ensures Holds(ApplyAll(stmts), Current(stmts), Body(stmts, 0), Body(stmts, 1))
    decreases |stmts|
  {
    if stmts == [] {
      assert Same(Section([], {}), []);
    } else {
      var init, last := stmts[..|stmts| - 1], stmts[|stmts| - 1];
      ProgramHolds(init);
      var s, k := ApplyAll(init), Current(init);
      if !last.Select? {
        ApplyNow(s, k, Body(init, k), s.sections[1 - k], last);
      } else {
        assert Body(init, k) + [] == Body(init, k);
      }
      hide Same, Apply, Filled, Emits;
    }
  }

  /** The sections of the object file hold exactly what the program writes, word by word. */
  lemma {:induction false} FinalHolds(stmts: seq<Stmt>, k: nat)
    requires k < 2
    ensures Same(Final(stmts).sections[k], Object(stmts, k))
  {
    hide Same, Aligned, Filled, Body;
    ProgramHolds(stmts);
    var s := ApplyAll(stmts).(cSection := 0);
    AlignedNow(s, 0, Body(stmts, 0), s.sections[1]);
    var a := Aligned(s).(cSection := 1);
    AlignedNow(a, 1, Body(stmts, 1), a.sections[0]);
  }

  // ----- where statements lie -----

  lemma {:induction false} PutGrows(stmts: seq<Stmt>, i: nat, k: nat)
    requires i <= |stmts|
    ensures Body(stmts[..i], k) <= Body(stmts, k)
    decreases |stmts|
  {
    if i == |stmts| {
      assert stmts[..i] == stmts;
    } else {
      var init := stmts[..|stmts| - 1];
      assert init[..i] == stmts[..i];
      PutGrows(init, i, k);
      hide Emits, Filled;
    }
  }

  /** The words of a statement lie in its section where the statements before it have ended, one behind the
      other. */
  lemma {:induction false} StatementLies(stmts: seq<Stmt>, i: nat, j: nat)
    requires i < |stmts| && !stmts[i].Label? && j < |Emits(stmts[i])|
    ensures var k := Current(stmts[..i]);
            var at := |Body(stmts[..i], k)| + j;
            && at < |Object(stmts, k)| && Object(stmts, k)[at] == Emits(stmts[i])[j]
            && at < |Final(stmts).sections[k].code|
            && match Emits(stmts[i])[j]
               case Lit(v) => Final(stmts).sections[k].code[at] == W(v) && at !in Final(stmts).sections[k].labelMap
               case Ref(_) => at in Final(stmts).sections[k].labelMap
  {
    var k := Current(stmts[..i]);
    assert stmts[..i + 1][..i] == stmts[..i] && stmts[..i + 1][i] == stmts[i];
    var now := Body(stmts[..i], k);
    assert Body(stmts[..i + 1], k) == now + Emits(stmts[i]);
    PutGrows(stmts, i + 1, k);
    FinalHolds(stmts, k);
    hide Body, Emits, Current, Filled, Final, W;
    assert Body(stmts, k) <= Object(stmts, k);
    assert Object(stmts, k)[|now| + j] == Emits(stmts[i])[j];
  }

  /** A name in the program text is the name of the marked word, and its number is there. */
  lemma {:induction false} RefIsMarked(stmts: seq<Stmt>, k: nat, j: nat)
    requires k < 2 && j < |Object(stmts, k)| && Object(stmts, k)[j].Ref?
    ensures (k, j) in Meaning(stmts).refs && Meaning(stmts).refs[(k, j)] == Object(stmts, k)[j].name
  {
    RefsHold(stmts, k, j);
    hide Body;
    if k == 0 {
      assert j < |Body(stmts, 0)|;
    }
  }

  lemma {:induction false} RefsHold(stmts: seq<Stmt>, k: nat, j: nat)
    requires k < 2 && j < |Body(stmts, k)| && Body(stmts, k)[j].Ref?
    ensures (k, j) in Meaning(stmts).refs && Meaning(stmts).refs[(k, j)] == Body(stmts, k)[j].name
    decreases |stmts|
  {
    hide Size, ApplyAll, Filled;
    var init, last := stmts[..|stmts| - 1], stmts[|stmts| - 1];
    SizeIs(init);
    FilledRefs(Body(init, k));
    if j < |Body(init, k)| {
      RefsHold(init, k, j);
    } else {
      assert k == Current(init) && (last.Address? || last.WithLabel?);
    }
  }

  lemma FilledRefs(c: seq<Cell>)
    ensures forall i | 0 <= i < |Filled(c)| && Filled(c)[i].Ref? :: i < |c| && Filled(c)[i] == c[i]
  {
  }

  lemma {:induction false} SizeIs(stmts: seq<Stmt>)
    ensures ApplyAll(stmts).cSection == Current(stmts) && Size(ApplyAll(stmts)) == |Body(stmts, Current(stmts))|
  {
    ProgramHolds(stmts);
    hide ApplyAll, Current, Body;
  }

  /** A label stands for the next word written behind it in its section: its place is where the statements before
      it have ended, in the text at the next whole block. */
  lemma {:induction false} LabelLies(stmts: seq<Stmt>, i: nat)
    requires i < |stmts| && stmts[i].Label? && forall h | i < h < |stmts| :: stmts[h] != stmts[i]
    ensures var n, k := stmts[i].name, Current(stmts[..i]);
            && n in Meaning(stmts).defined && n in Final(stmts).labels
            && Meaning(stmts).defined[n] == (k, |Body(stmts[..i + 1], k)|)
            && Final(stmts).labels[n].section == k
            && Final(stmts).labels[n].position * (if k == 0 then BLOCK else 1) == |Body(stmts[..i + 1], k)|
  {
    DefinedLies(stmts, i);
    FinalKeeps(stmts);
    hide Final, Meaning, Body, Numbers, Marks;
    assert Place(Final(stmts).labels[stmts[i].name], Meaning(stmts).defined[stmts[i].name]);
  }

  lemma {:induction false} DefinedLies(stmts: seq<Stmt>, i: nat)
    requires i < |stmts| && stmts[i].Label? && forall h | i < h < |stmts| :: stmts[h] != stmts[i]
    ensures var n, k := stmts[i].name, Current(stmts[..i]);
            n in Meaning(stmts).defined && Meaning(stmts).defined[n] == (k, |Body(stmts[..i + 1], k)|)
    decreases |stmts|
  {
    var init, last := stmts[..|stmts| - 1], stmts[|stmts| - 1];
    if i < |init| {
      assert init[..i] == stmts[..i] && init[..i + 1] == stmts[..i + 1] && init[i] == stmts[i];
      assert forall h | i < h < |init| :: init[h] == stmts[h];
      DefinedLies(init, i);
      hide Body;
    } else {
      assert stmts[..i] == init && stmts[..i + 1] == stmts;
      var s, k := ApplyAll(init), Current(init);
      ProgramHolds(init);
      AlignedNow(s, k, Body(init, k), s.sections[1 - k]);
      hide Same, Filled, Aligned;
      assert Body(init, k) + [] == Body(init, k);
    }
  }
}

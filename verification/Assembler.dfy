/** The assembler's bookkeeping of labels (binutils/assembler.cpp:53-150, 260-380) and the label table it
    hands to the linker (binutils/linker.cpp:63-126): label numbers, marked words, aligned text labels. */
module Assembler {
  import opened Words

  const BLOCK: nat := 8

  type Byte = x: int | 0 <= x < 256

  /** A name as a C string holds it. */
  type Text = s: seq<Byte> | forall i | 0 <= i < |s| :: s[i] != 0

  datatype Entry = Entry(section: nat, uid: int, position: int, needExport: bool, needImport: bool, used: bool)

  const FRESH := Entry(0, -1, -1, false, false, false)

  datatype Section = Section(code: seq<Word>, labelMap: set<nat>)

  datatype Stmt =
    | Label(name: Text)
    | Import(name: Text)
    | Export(name: Text)
    | Repeat(num: int, val: int)
    | Select(section: nat)
    | Address(name: Text)
    | Plain(opcode: int)
    | WithNumber(opcode: int, num: int)
    | WithLabel(opcode: int, name: Text)

  datatype State = State(labels: map<Text, Entry>, sections: seq<Section>, cSection: nat, labelUid: nat)

  ghost predicate Shape(s: State) {
    |s.sections| == 2 && s.cSection < 2
  }

  // ----- what the statements do -----

  /** The entry of a name, made when it is first asked for. */
  function At(labels: map<Text, Entry>, name: Text): Entry {
    if name in labels then labels[name] else FRESH
  }

  function Numbered(s: State, name: Text): State {
    var e := At(s.labels, name);
    if e.uid == -1 then s.(labels := s.labels[name := e.(uid := s.labelUid)], labelUid := s.labelUid + 1)
    else s.(labels := s.labels[name := e])
  }

  function Size(s: State): nat
    requires Shape(s)
  {
    |s.sections[s.cSection].code|
  }

  function Put(s: State, val: int): (r: State)
    requires Shape(s)
    ensures Shape(r)
  {
    var sect := s.sections[s.cSection];
    s.(sections := s.sections[s.cSection := sect.(code := sect.code + [W(val)])])
  }

  function PutMany(s: State, num: nat, val: int): (r: State)
    requires Shape(s)
    ensures Shape(r)
  {
    if num == 0 then s else Put(PutMany(s, num - 1, val), val)
  }

  function Marked(s: State): (r: State)
    requires Shape(s)
    ensures Shape(r)
  {
    var sect := s.sections[s.cSection];
    s.(sections := s.sections[s.cSection := sect.(labelMap := sect.labelMap + {Size(s)})])
  }

  function Aligned(s: State): (r: State)
    requires Shape(s)
    ensures Shape(r)
  {
    if s.cSection == 0 then PutMany(s, (BLOCK - Size(s) % BLOCK) % BLOCK, 0) else s
  }

  function Registered(s: State, name: Text): (r: State)
    requires Shape(s)
    ensures Shape(r)
  {
    var n := Numbered(s, name);
    var p := if s.cSection == 0 then Size(s) / BLOCK else Size(s);
    n.(labels := n.labels[name := n.labels[name].(position := p, section := s.cSection)])
  }

  /** A word that stands for a label. */
  function Referred(s: State, name: Text): (r: State)
    requires Shape(s)
    ensures Shape(r)
  {
    var n := Numbered(s, name);
    var r := Put(Marked(n), n.labels[name].uid);
    r.(labels := r.labels[name := r.labels[name].(used := true)])
  }

  function Apply(s: State, stmt: Stmt): (r: State)
    requires Shape(s)
    ensures Shape(r)
  {
    match stmt
    case Label(name) => Registered(Aligned(s), name)
    case Import(name) => s.(labels := s.labels[name := At(s.labels, name).(needImport := true)])
    case Export(name) => s.(labels := s.labels[name := At(s.labels, name).(needExport := true)])
    case Repeat(num, val) => PutMany(s, if num < 0 then 0 else num, val)
    case Select(section) => s.(cSection := if section == 0 then 0 else 1)
    case Address(name) => Referred(s, name)
    case Plain(opcode) => Put(s, opcode)
    case WithNumber(opcode, num) => Put(Put(s, opcode), num)
    case WithLabel(opcode, name) => Referred(Put(s, opcode), name)
  }

  const EMPTY := State(map[], [Section([], {}), Section([], {})], 0, 0)

  function ApplyAll(stmts: seq<Stmt>): (s: State)
    ensures Shape(s)
  {
    if stmts == [] then EMPTY else Apply(ApplyAll(stmts[..|stmts| - 1]), stmts[|stmts| - 1])
  }

  /** The state written to the object file: both sections aligned. */
  function Final(stmts: seq<Stmt>): (s: State)
    ensures Shape(s)
  {
    Aligned(Aligned(ApplyAll(stmts).(cSection := 0)).(cSection := 1))
  }

  // ----- what the names in the program mean -----

  /** Where the program defines its labels and which name it writes at which place (section and word). */
  datatype Trace = Trace(defined: map<Text, (nat, nat)>, refs: map<(nat, nat), Text>)

  function Step(s: State, t: Trace, stmt: Stmt): Trace
    requires Shape(s)
  {
    match stmt
    case Label(name) => t.(defined := t.defined[name := (s.cSection, Size(Aligned(s)))])
    case Address(name) => t.(refs := t.refs[(s.cSection, Size(s)) := name])
    case WithLabel(_, name) => t.(refs := t.refs[(s.cSection, Size(s) + 1) := name])
    case _ => t
  }

  function Meaning(stmts: seq<Stmt>): Trace {
    if stmts == [] then Trace(map[], map[])
    else var k := |stmts| - 1; Step(ApplyAll(stmts[..k]), Meaning(stmts[..k]), stmts[k])
  }

  // ----- the invariant -----

  ghost predicate EntryOk(e: Entry, next: nat) {
    && -1 <= e.uid < next && -1 <= e.position
    && (e.position >= 0 || e.used ==> e.uid >= 0)
  }

  /** No two labels share a number. */
  ghost predicate Numbers(labels: map<Text, Entry>, next: nat) {
    && (forall n | n in labels :: EntryOk(labels[n], next))
    && (forall n, m | n in labels && m in labels && labels[n].uid == labels[m].uid && labels[n].uid >= 0 :: n == m)
  }

  /** A label is defined exactly if the program does so, and its position is that place: text counts blocks. */
  ghost predicate Place(e: Entry, at: (nat, nat)) {
    e.section == at.0 < 2 && e.position * (if at.0 == 0 then BLOCK else 1) == at.1
  }

  ghost predicate Placed(labels: map<Text, Entry>, t: Trace) {
    && (forall n | n in t.defined :: n in labels && Place(labels[n], t.defined[n]))
    && (forall n | n in labels && labels[n].position >= 0 :: n in t.defined)
  }

  /** The word at a place stands for a label. */
  ghost predicate Stands(labels: map<Text, Entry>, w: Word, name: Text) {
    name in labels && labels[name].used && w == W(labels[name].uid)
  }

  /** The marked words are exactly those where the program writes a name, and hold the name's number. */
  ghost predicate Marks(s: State, t: Trace)
    requires Shape(s)
  {
    && (forall i, j | 0 <= i < 2 && j in s.sections[i].labelMap :: (i, j) in t.refs)
    && (forall p | p in t.refs :: p.0 < 2 && p.1 in s.sections[p.0].labelMap && p.1 < |s.sections[p.0].code|)
    && (forall p | p in t.refs :: Stands(s.labels, s.sections[p.0].code[p.1], t.refs[p]))
  }

  ghost predicate Inv(s: State, t: Trace) {
    Shape(s) && Numbers(s.labels, s.labelUid) && Placed(s.labels, t) && Marks(s, t)
  }

  /** One entry replaced by one of the same number. */
  lemma UpdateKeepsNumbers(labels: map<Text, Entry>, next: nat, name: Text, e: Entry)
    requires Numbers(labels, next) && name in labels && e.uid == labels[name].uid && EntryOk(e, next)
    ensures Numbers(labels[name := e], next)
  {
    hide EntryOk;
  }

  lemma UpdateKeepsStands(labels: map<Text, Entry>, name: Text, e: Entry, w: Word, n: Text)
    requires Stands(labels, w, n)
    requires name in labels && labels[name].used ==> e.used && e.uid == labels[name].uid
    ensures Stands(labels[name := e], w, n)
  {
  }

  lemma UpdateKeepsMarks(s: State, t: Trace, name: Text, e: Entry)
    requires Shape(s) && Marks(s, t)
    requires name in s.labels && s.labels[name].used ==> e.used && e.uid == s.labels[name].uid
    ensures Marks(s.(labels := s.labels[name := e]), t)
  {
    hide Stands;
    forall p | p in t.refs ensures Stands(s.labels[name := e], s.sections[p.0].code[p.1], t.refs[p]) {
      UpdateKeepsStands(s.labels, name, e, s.sections[p.0].code[p.1], t.refs[p]);
    }
  }

  /** An entry that keeps section and position. */
  lemma UpdateKeepsPlaced(labels: map<Text, Entry>, t: Trace, name: Text, e: Entry)
    requires Placed(labels, t)
    requires e.section == At(labels, name).section && e.position == At(labels, name).position
    ensures Placed(labels[name := e], t)
  {
  }

  lemma NumberKeepsNumbers(labels: map<Text, Entry>, next: nat, name: Text, e: Entry)
    requires Numbers(labels, next) && e.uid == next && EntryOk(e, next + 1)
    ensures Numbers(labels[name := e], next + 1)
  {
  }

  lemma NumberedKeeps(s: State, t: Trace, name: Text)
    requires Inv(s, t)
    ensures var r := Numbered(s, name);
            && Inv(r, t) && name in r.labels && r.labels[name].uid >= 0 && r.sections == s.sections && r.cSection == s.cSection
  {
    hide Numbers, Placed, Marks;
    var e := At(s.labels, name);
    var f := if e.uid == -1 then e.(uid := s.labelUid) else e;
    EntryAt(s, name);
    UpdateKeepsPlaced(s.labels, t, name, f);
    UpdateKeepsMarks(s, t, name, f);
    if e.uid == -1 {
      NumberKeepsNumbers(s.labels, s.labelUid, name, f);
      SameMarks(s.(labels := s.labels[name := f]), Numbered(s, name), t);
    } else {
      assert s.labels[name := e] == s.labels;
    }
  }

  lemma EntryAt(s: State, name: Text)
    requires Numbers(s.labels, s.labelUid)
    ensures EntryOk(At(s.labels, name), s.labelUid)
  {
  }

  lemma SameMarks(s: State, r: State, t: Trace)
    requires Shape(s) && Shape(r) && Marks(s, t) && r.labels == s.labels && r.sections == s.sections
    ensures Marks(r, t)
  {
    hide Stands;
  }

  lemma PutKeeps(s: State, t: Trace, val: int)
    requires Inv(s, t)
    ensures Inv(Put(s, val), t)
    ensures Size(Put(s, val)) == Size(s) + 1 && Put(s, val).labels == s.labels && Put(s, val).cSection == s.cSection
  {
    hide Numbers, Placed;
  }

  lemma {:induction false} PutManyKeeps(s: State, t: Trace, num: nat, val: int)
    requires Inv(s, t)
    ensures Inv(PutMany(s, num, val), t)
    ensures Size(PutMany(s, num, val)) == Size(s) + num && PutMany(s, num, val).cSection == s.cSection
    ensures PutMany(s, num, val).sections[1 - s.cSection] == s.sections[1 - s.cSection]
    decreases num
  {
    hide Numbers, Placed, Marks;
    if num > 0 {
      PutManyKeeps(s, t, num - 1, val);
      PutKeeps(PutMany(s, num - 1, val), t, val);
    }
  }

  lemma AlignedKeeps(s: State, t: Trace)
    requires Inv(s, t)
    ensures Inv(Aligned(s), t) && Aligned(s).cSection == s.cSection
    ensures s.cSection == 0 ==> Size(Aligned(s)) % BLOCK == 0
    ensures Aligned(s).sections[1 - s.cSection] == s.sections[1 - s.cSection]
  {
    hide Numbers, Placed, Marks;
    PutManyKeeps(s, t, (BLOCK - Size(s) % BLOCK) % BLOCK, 0);
  }

  /** An entry moved to a new place of definition. */
  lemma DefineKeepsPlaced(labels: map<Text, Entry>, t: Trace, name: Text, e: Entry, at: (nat, nat))
    requires Placed(labels, t) && Place(e, at)
    ensures Placed(labels[name := e], t.(defined := t.defined[name := at]))
  {
    hide Place;
  }

  lemma RegisteredKeeps(s: State, t: Trace, name: Text)
    requires Inv(s, t) && (s.cSection == 0 ==> Size(s) % BLOCK == 0)
    ensures Inv(Registered(s, name), t.(defined := t.defined[name := (s.cSection, Size(s))]))
  {
    hide Numbered, Numbers, Placed, Marks;
    NumberedKeeps(s, t, name);
    var n := Numbered(s, name);
    var e := n.labels[name].(position := if s.cSection == 0 then Size(s) / BLOCK else Size(s), section := s.cSection);
    EntryAt(n, name);
    UpdateKeepsNumbers(n.labels, n.labelUid, name, e);
    DefineKeepsPlaced(n.labels, t, name, e, (s.cSection, Size(s)));
    UpdateKeepsMarks(n, t, name, e);
    MarksReadRefs(Registered(s, name), t, t.(defined := t.defined[name := (s.cSection, Size(s))]));
  }

  lemma MarksReadRefs(s: State, t: Trace, t1: Trace)
    requires Shape(s) && Marks(s, t) && t1.refs == t.refs
    ensures Marks(s, t1)
  {
    hide Stands;
  }

  lemma PlacedReadsDefined(labels: map<Text, Entry>, t: Trace, t1: Trace)
    requires Placed(labels, t) && t1.defined == t.defined
    ensures Placed(labels, t1)
  {
    hide Place;
  }

  /** A new marked word behind the others. */
  lemma MarkKeepsMarks(s: State, t: Trace, val: int, name: Text)
    requires Shape(s) && Marks(s, t) && Stands(s.labels, W(val), name)
    ensures Marks(Put(Marked(s), val), t.(refs := t.refs[(s.cSection, Size(s)) := name]))
  {
    hide Stands;
  }

  lemma ReferredKeeps(s: State, t: Trace, name: Text)
    requires Inv(s, t)
    ensures Inv(Referred(s, name), t.(refs := t.refs[(s.cSection, Size(s)) := name]))
  {
    hide Numbered, Numbers, Placed, Marks;
    NumberedKeeps(s, t, name);
    var n := Numbered(s, name);
    var e := n.labels[name].(used := true);
    var u := n.(labels := n.labels[name := e]);
    var t1 := t.(refs := t.refs[(s.cSection, Size(s)) := name]);
    EntryAt(n, name);
    UpdateKeepsNumbers(n.labels, n.labelUid, name, e);
    UpdateKeepsPlaced(n.labels, t, name, e);
    PlacedReadsDefined(u.labels, t, t1);
    UpdateKeepsMarks(n, t, name, e);
    MarkKeepsMarks(u, t, e.uid, name);
    assert Referred(s, name) == Put(Marked(u), e.uid);
  }

  lemma StepKeeps(s: State, t: Trace, stmt: Stmt)
    requires Inv(s, t)
    ensures Inv(Apply(s, stmt), Step(s, t, stmt))
  {
    hide Numbered, Registered, Referred, PutMany;
    match stmt
    case Label(name) =>
      AlignedKeeps(s, t);
      RegisteredKeeps(Aligned(s), t, name);
    case Repeat(num, val) =>
      PutManyKeeps(s, t, if num < 0 then 0 else num, val);
    case Address(name) =>
      ReferredKeeps(s, t, name);
    case Plain(opcode) =>
      PutKeeps(s, t, opcode);
    case WithNumber(opcode, num) =>
      PutKeeps(s, t, opcode);
      PutKeeps(Put(s, opcode), t, num);
    case WithLabel(opcode, name) =>
      PutKeeps(s, t, opcode);
      ReferredKeeps(Put(s, opcode), t, name);
    case _ =>
      DeclareKeeps(s, t, stmt);
  }

  lemma DeclareKeeps(s: State, t: Trace, stmt: Stmt)
    requires Inv(s, t) && (stmt.Import? || stmt.Export? || stmt.Select?)
    ensures Inv(Apply(s, stmt), t)
  {
    var r := Apply(s, stmt);
    forall p | p in t.refs ensures Stands(r.labels, r.sections[p.0].code[p.1], t.refs[p]) {
      assert Stands(s.labels, s.sections[p.0].code[p.1], t.refs[p]);
    }
  }

  /** Over every program: numbers are unique, text labels are at whole blocks and marked words hold the
      numbers of the names written there. */
  lemma {:induction false} ProgramKeeps(stmts: seq<Stmt>)
    ensures Inv(ApplyAll(stmts), Meaning(stmts))
    decreases |stmts|
  {
    if stmts == [] {
      assert Inv(EMPTY, Trace(map[], map[]));
    } else {
      var k := |stmts| - 1;
      ProgramKeeps(stmts[..k]);
      StepKeeps(ApplyAll(stmts[..k]), Meaning(stmts[..k]), stmts[k]);
    }
  }

  /** The object file keeps all this, and its text is whole blocks. */
  lemma {:induction false} FinalKeeps(stmts: seq<Stmt>)
    ensures Inv(Final(stmts), Meaning(stmts)) && |Final(stmts).sections[0].code| % BLOCK == 0
  {
    hide Numbers, Placed, Marks, Aligned;
    var s, t := ApplyAll(stmts), Meaning(stmts);
    ProgramKeeps(stmts);
    SelectKeeps(s, t, 0);
    AlignedKeeps(s.(cSection := 0), t);
    var a := Aligned(s.(cSection := 0));
    SelectKeeps(a, t, 1);
    AlignedKeeps(a.(cSection := 1), t);
  }

  lemma SelectKeeps(s: State, t: Trace, k: nat)
    requires Inv(s, t) && k < 2
    ensures Inv(s.(cSection := k), t)
  {
    hide Numbers, Placed;
  }

  // ----- the label table -----

  datatype Record = Record(name: Text, uid: Word, position: Word, section: Byte, needImport: bool, needExport: bool)

  function High8(w: Word): Byte {
    w / 256
  }

  function Low8(w: Word): Byte {
    w % 256
  }

  function Pair(high: int, low: int): int {
    high * 256 + low
  }

  function Flag(b: bool): Byte {
    if b then 1 else 0
  }

  /** A record in the file: the name with its final zero, then seven bytes. */
  function Bytes(r: Record): seq<Byte> {
    r.name + [0, High8(r.uid), Low8(r.uid), High8(r.position), Low8(r.position), r.section, Flag(r.needImport), Flag(r.needExport)]
  }

  /** Where a reader finds the fields behind the zero that ends the name; numbers have their high byte first. */
  lemma RecordLayout(r: Record)
    ensures var b, n := Bytes(r), |r.name|;
            && |b| == n + 8 && b[..n] == r.name && b[n] == 0
            && b[n + 1] as int * 256 + b[n + 2] == r.uid && b[n + 3] as int * 256 + b[n + 4] == r.position && b[n + 5] == r.section
            && (b[n + 6] != 0 <==> r.needImport) && (b[n + 7] != 0 <==> r.needExport)
  {
  }

  function Table(rs: seq<Record>): seq<Byte> {
    if rs == [] then [] else Table(rs[..|rs| - 1]) + Bytes(rs[|rs| - 1])
  }

  /** What of a label is written: one without place becomes an import, and an import nothing uses is left out. */
  function Imported(e: Entry): bool {
    e.needImport || e.position < 0
  }

  function Written(e: Entry): bool {
    !Imported(e) || e.used
  }

  function ToRecord(name: Text, e: Entry): Record {
    Record(name, W(e.uid), W(e.position), e.section % 256, Imported(e), e.needExport)
  }

  function Records(labels: map<Text, Entry>, order: seq<Text>): seq<Record>
    requires forall i | 0 <= i < |order| :: order[i] in labels
  {
    if order == [] then [] else
      var k := |order| - 1;
      var e := labels[order[k]];
      Records(labels, order[..k]) + (if Written(e) then [ToRecord(order[k], e)] else [])
  }

  // ----- shifts -----

  const PLUS: Byte := 43
  const MINUS: Byte := 45

  predicate Digit(b: Byte) {
    48 <= b <= 57
  }

  function Digital(b: int): int {
    b - 48
  }

  /** Evaluation of the text of a shift; None where the linker gives up. */
  function Scan(s: seq<Byte>, sub: bool, op: nat, res: int): Option<int> {
    var total := if sub then res - op else res + op;
    if s == [] then Some(total)
    else if Digit(s[0]) then Scan(s[1..], sub, op * 10 + Digital(s[0]), res)
    else if s[0] == MINUS then Scan(s[1..], true, 0, total)
    else if s[0] == PLUS then Scan(s[1..], false, 0, total)
    else None
  }

  /** A shift as a reader takes it: signed decimal numbers. */
  datatype Term = Term(minus: bool, digits: seq<Byte>)

  predicate Digits(d: seq<Byte>) {
    forall i | 0 <= i < |d| :: Digit(d[i])
  }

  function Value(d: seq<Byte>): int {
    if d == [] then 0 else Value(d[..|d| - 1]) * 10 + Digital(d[|d| - 1])
  }

  function Show(ts: seq<Term>): seq<Byte> {
    if ts == [] then [] else [if ts[0].minus then MINUS else PLUS] + ts[0].digits + Show(ts[1..])
  }

  function Sum(ts: seq<Term>): int {
    if ts == [] then 0 else (if ts[0].minus then -Value(ts[0].digits) else Value(ts[0].digits)) + Sum(ts[1..])
  }

  /** Reading the rest of a number whose first k digits are read. */
  lemma {:induction false} ScanDigits(d: seq<Byte>, k: nat, rest: seq<Byte>, sub: bool, op: nat, res: int)
    requires Digits(d) && k <= |d| && op == Value(d[..k])
    ensures Value(d) >= 0
    ensures Scan(d[k..] + rest, sub, op, res) == Scan(rest, sub, Value(d), res)
    decreases |d| - k
  {
    if k == |d| {
      assert d[..k] == d && d[k..] + rest == rest;
    } else {
      assert d[..k + 1][..k] == d[..k];
      assert (d[k..] + rest)[1..] == d[k + 1..] + rest;
      ScanDigits(d, k + 1, rest, sub, op * 10 + Digital(d[k]), res);
    }
  }

  lemma ScanSign(s: seq<Byte>, sub: bool, op: nat, res: int)
    requires s != [] && (s[0] == MINUS || s[0] == PLUS)
    ensures Scan(s, sub, op, res) == Scan(s[1..], s[0] == MINUS, 0, if sub then res - op else res + op)
  {
  }

  /** The linker's evaluation of a sum of signed numbers is their sum. */
  lemma {:induction false} ScanShow(ts: seq<Term>, sub: bool, op: nat, res: int)
    requires forall i | 0 <= i < |ts| :: Digits(ts[i].digits)
    ensures Scan(Show(ts), sub, op, res) == Some((if sub then res - op else res + op) + Sum(ts))
    decreases |ts|
  {
    if ts == [] {
      assert Show(ts) == [] && Sum(ts) == 0;
    } else {
      ShowFirst(ts);
      ScanSign(Show(ts), sub, op, res);
      hide Scan, Show, Sum, Value, Digit, Digital;
      var d, rest := ts[0].digits, Show(ts[1..]);
      var total := if sub then res - op else res + op;
      assert d[0..] == d;
      ValueNone(d);
      ScanDigits(d, 0, rest, ts[0].minus, 0, total);
      ScanShow(ts[1..], ts[0].minus, Value(d), total);
    }
  }

  lemma ValueNone(d: seq<Byte>)
    ensures d[..0] == [] && Value(d[..0]) == 0
  {
  }

  lemma {:induction false} ShowFirst(ts: seq<Term>)
    requires ts != []
    ensures Show(ts) != [] && Show(ts)[0] == (if ts[0].minus then MINUS else PLUS)
    ensures Show(ts)[1..] == ts[0].digits + Show(ts[1..])
    ensures Sum(ts) == (if ts[0].minus then -Value(ts[0].digits) else Value(ts[0].digits)) + Sum(ts[1..])
  {
    var sign: Byte, d, rest := if ts[0].minus then MINUS else PLUS, ts[0].digits, Show(ts[1..]);
    assert Show(ts) == [sign] + d + rest;
    hide Value, Show;
    Signed(sign, d, rest);
  }

  lemma Signed(sign: Byte, d: seq<Byte>, rest: seq<Byte>)
    ensures ([sign] + d + rest)[0] == sign && ([sign] + d + rest)[1..] == d + rest
  {
  }

  /** It gives up exactly on a byte that is neither digit nor sign. */
  lemma {:induction false} ScanAccepts(s: seq<Byte>, sub: bool, op: nat, res: int)
    ensures Scan(s, sub, op, res).Some? <==> forall i | 0 <= i < |s| :: Digit(s[i]) || s[i] == MINUS || s[i] == PLUS
    decreases |s|
  {
    if s != [] {
      var total := if sub then res - op else res + op;
      var rest := s[1..];
      forall sub1: bool, op1: nat, res1: int
        ensures Scan(rest, sub1, op1, res1).Some? <==> forall i | 0 <= i < |rest| :: Digit(rest[i]) || rest[i] == MINUS || rest[i] == PLUS
      {
        ScanAccepts(rest, sub1, op1, res1);
      }
      assert forall i | 0 <= i < |rest| :: s[i + 1] == rest[i];
      assert forall i | 1 <= i < |s| :: s[i] == rest[i - 1];
    }
  }

  /** The first sign of a name, or its length. */
  function SignAt(name: Text): (k: nat)
    ensures k <= |name| && (k < |name| ==> name[k] == PLUS || name[k] == MINUS)
    ensures forall i | 0 <= i < k :: name[i] != PLUS && name[i] != MINUS
  {
    if name == [] || name[0] == PLUS || name[0] == MINUS then 0 else
      assert forall i | 0 <= i < |name| - 1 :: name[1..][i] == name[i + 1];
      1 + SignAt(name[1..])
  }

  function ShiftOf(name: Text): Option<int> {
    var k := SignAt(name);
    if k == |name| then Some(0) else Scan(name[k..], false, 0, 0)
  }

  /** A name with a shift behind it reads as name and shift. */
  lemma {:induction false} ShiftOfShown(base: Text, ts: seq<Term>)
    requires forall i | 0 <= i < |base| :: base[i] != PLUS && base[i] != MINUS
    requires forall i | 0 <= i < |ts| :: Digits(ts[i].digits)
    ensures forall i | 0 <= i < |base + Show(ts)| :: (base + Show(ts))[i] != 0
    ensures SignAt(base + Show(ts)) == |base| && ShiftOf(base + Show(ts)) == Some(Sum(ts))
  {
    ShowHasNoZero(ts);
    var n: Text := base + Show(ts);
    var k := SignAt(n);
    if ts != [] {
      assert n[|base|] == Show(ts)[0];
    }
    assert k == |base|;
    assert n[k..] == Show(ts);
    ScanShow(ts, false, 0, 0);
  }

  lemma {:induction false} ShowHasNoZero(ts: seq<Term>)
    requires forall i | 0 <= i < |ts| :: Digits(ts[i].digits)
    ensures forall i | 0 <= i < |Show(ts)| :: Show(ts)[i] != 0
    decreases |ts|
  {
    if ts != [] {
      ShowHasNoZero(ts[1..]);
    }
  }

  // ----- reading the table -----

  /** A label as the linker holds it. */
  datatype Loaded = Loaded(uid: Word, position: Word, section: Byte, needImport: bool, needExport: bool, shift: int)

  function Load(r: Record): Loaded {
    Loaded(r.uid, r.position, r.section, r.needImport, r.needExport, if ShiftOf(r.name).Some? then ShiftOf(r.name).value else 0)
  }

  function LoadAll(rs: seq<Record>): map<Text, Loaded> {
    if rs == [] then map[] else var k := |rs| - 1; LoadAll(rs[..k])[rs[k].name := Load(rs[k])]
  }

  lemma {:induction false} TableFirst(rs: seq<Record>)
    requires rs != []
    ensures Table(rs) == Bytes(rs[0]) + Table(rs[1..])
    decreases |rs|
  {
    var k := |rs| - 1;
    if k > 0 {
      TableFirst(rs[..k]);
      assert rs[..k][1..] == rs[1..][..k - 1];
      assert rs[1..][k - 1] == rs[k];
    } else {
      assert rs[..0] == [] && rs[1..] == [];
    }
  }

  /** Bytes of a record from a place in the table on. */
  lemma RecordAt(src: seq<Byte>, p: nat, r: Record, rest: seq<Byte>)
    requires p <= |src| && src[p..] == Bytes(r) + rest
    ensures var q := p + |r.name|;
            && q + 8 <= |src| && src[p..q] == r.name && src[q] == 0
            && Pair(src[q + 1], src[q + 2]) == r.uid && Pair(src[q + 3], src[q + 4]) == r.position
            && src[q + 5] == r.section && src[q + 6] == Flag(r.needImport) && src[q + 7] == Flag(r.needExport)
            && src[q + 8..] == rest
  {
    var b, n, q := Bytes(r), |r.name|, p + |r.name|;
    assert |src[p..]| == n + 8 + |rest|;
    forall i | 0 <= i < n + 8 ensures src[p + i] == b[i] {
      assert src[p..][i] == (b + rest)[i];
    }
    assert forall i | 0 <= i < n :: src[p..q][i] == r.name[i];
    assert src[q + 8..] == src[p..][n + 8..] == rest;
  }

  /** What holds between the table and its reading: the records are read up to record k. */
  lemma ReadOne(src: seq<Byte>, rs: seq<Record>, k: nat, p: nat)
    requires k < |rs| && p <= |src| && src[p..] == Table(rs[k..])
    ensures src[p..] == Bytes(rs[k]) + Table(rs[k + 1..])
  {
    TableFirst(rs[k..]);
    assert rs[k..][1..] == rs[k + 1..];
  }

  /** One record read; not ok is the exit on a bad shift. */
  method ReadRecord(src: seq<Byte>, p: nat, ghost r: Record, ghost rest: seq<Byte>) returns (ok: bool, name: Text, e: Loaded, p1: nat)
    requires p <= |src| && src[p..] == Bytes(r) + rest
    ensures ok <==> ShiftOf(r.name).Some?
    ensures ok ==> name == r.name && e == Load(r) && p1 <= |src| && src[p1..] == rest
  {
    hide ShiftOf, Bytes;
    RecordAt(src, p, r, rest);
    var q := ReadName(src, p, r.name);
    name := src[p..q];
    var shift := ReadShift(name);
    ok, p1 := shift.Some?, q + 8;
    e := Loaded(Pair(src[q + 1], src[q + 2]), Pair(src[q + 3], src[q + 4]), src[q + 5], src[q + 6] != 0, src[q + 7] != 0,
                if shift.Some? then shift.value else 0);
  }

  lemma {:induction false} LoadMore(rs: seq<Record>, k: nat)
    requires k < |rs|
    ensures LoadAll(rs[..k + 1]) == LoadAll(rs[..k])[rs[k].name := Load(rs[k])]
  {
    hide Load;
    assert rs[..k + 1][..k] == rs[..k];
  }

  /** `convert8ToLabels` on a table of records; not ok is the exit on a bad shift. */
  method Convert8ToLabels(src: seq<Byte>, ghost rs: seq<Record>) returns (ok: bool, labels: map<Text, Loaded>)
    requires src == Table(rs)
    ensures ok <==> forall i | 0 <= i < |rs| :: ShiftOf(rs[i].name).Some?
    ensures ok ==> labels == LoadAll(rs)
  {
    assert LoadAll(rs[..0]) == map[] && rs[0..] == rs;
    hide Table, ShiftOf, Bytes, LoadAll, Load;
    labels := map[];
    var p: nat := 0;
    ghost var k: nat := 0;
    while p < |src|
      invariant p <= |src| && k <= |rs| && src[p..] == Table(rs[k..])
      invariant forall i | 0 <= i < k :: ShiftOf(rs[i].name).Some?
      invariant labels == LoadAll(rs[..k])
      decreases |rs| - k
    {
      assert k < |rs| by { TableEmpty(rs[k..]); }
      ReadOne(src, rs, k, p);
      var some, name, e, p1 := ReadRecord(src, p, rs[k], Table(rs[k + 1..]));
      if !some {
        return false, map[];
      }
      LoadMore(rs, k);
      labels := labels[name := e];
      p := p1;
      k := k + 1;
    }
    assert k == |rs| by { TableEmpty(rs[k..]); }
    assert rs[..k] == rs;
    ok := true;
  }

  lemma {:induction false} TableEmpty(rs: seq<Record>)
    ensures rs == [] <==> Table(rs) == []
  {
  }

  /** The name from p up to its final zero. */
  method ReadName(src: seq<Byte>, p: nat, ghost name: Text) returns (q: nat)
    requires p + |name| < |src| && src[p..p + |name|] == name && src[p + |name|] == 0
    ensures q == p + |name|
  {
    forall i | p <= i < p + |name| ensures src[i] != 0 {
      assert name[i - p] == src[p..p + |name|][i - p];
    }
    q := p;
    while src[q] != 0
      invariant p <= q <= p + |name|
      decreases p + |name| - q
    {
      q := q + 1;
    }
  }

  /** The shift behind a name. */
  method ReadShift(name: Text) returns (shift: Option<int>)
    ensures shift == ShiftOf(name)
  {
    var k := SignAt(name);
    if k == |name| {
      return Some(0);
    }
    var s: seq<Byte> := name[k..];
    var sub, res, op, i := false, 0, 0, 0;
    while true
      invariant i <= |s| && op >= 0 && Scan(s[i..], sub, op, res) == Scan(s, false, 0, 0)
      decreases |s| - i
    {
      if i < |s| && Digit(s[i]) {
        op := op * 10 + (s[i] as int - 48);
      } else {
        res := if sub then res - op else res + op;
        if i == |s| {
          return Some(res);
        } else if s[i] == MINUS {
          sub, op := true, 0;
        } else if s[i] == PLUS {
          sub, op := false, 0;
        } else {
          return None;
        }
      }
      assert s[i..][1..] == s[i + 1..];
      i := i + 1;
    }
  }

  lemma {:induction false} TableMore(rs: seq<Record>, r: Record)
    ensures Table(rs + [r]) == Table(rs) + Bytes(r)
  {
    assert (rs + [r])[..|rs|] == rs;
  }

  class Assembly {
    var labels: map<Text, Entry>
    var sections: seq<Section>
    var cSection: nat
    var labelUid: nat

    function Now(): State
      reads this
    {
      State(labels, sections, cSection, labelUid)
    }

    constructor ()
      ensures Now() == EMPTY
    {
      labels, sections, cSection, labelUid := map[], [Section([], {}), Section([], {})], 0, 0;
    }

    method GetLabelUid(name: Text) returns (uid: int)
      modifies this`labels, this`labelUid
      ensures Now() == Numbered(old(Now()), name) && name in labels && uid == labels[name].uid
    {
      labels := labels[name := At(labels, name)];
      if labels[name].uid == -1 {
        labels := labels[name := labels[name].(uid := labelUid)];
        labelUid := labelUid + 1;
      }
      uid := labels[name].uid;
    }

    method Output(val: int)
      requires Shape(Now())
      modifies this`sections
      ensures Now() == Put(old(Now()), val)
    {
      var sect := sections[cSection];
      sections := sections[cSection := sect.(code := sect.code + [W(val)])];
    }

    method MarkLabelPosition()
      requires Shape(Now())
      modifies this`sections
      ensures Now() == Marked(old(Now()))
    {
      var sect := sections[cSection];
      sections := sections[cSection := sect.(labelMap := sect.labelMap + {|sect.code|})];
    }

    method Align()
      requires Shape(Now())
      modifies this`sections
      ensures Now() == Aligned(old(Now()))
    {
      if cSection == 0 {
        ghost var s0, need := Now(), (BLOCK - Size(Now()) % BLOCK) % BLOCK;
        ghost var done := 0;
        while |sections[cSection].code| % BLOCK != 0
          invariant done <= need && Shape(Now()) && Now() == PutMany(s0, done, 0)
          invariant |sections[cSection].code| == Size(s0) + done
          decreases need - done
        {
          Output(0);
          done := done + 1;
        }
      }
    }

    method RegLabel(name: Text)
      requires Shape(Now())
      modifies this
      ensures Now() == Registered(old(Now()), name)
    {
      hide Numbered;
      var uid := GetLabelUid(name);
      if cSection == 0 {
        labels := labels[name := labels[name].(position := |sections[cSection].code| / BLOCK)];
      } else {
        labels := labels[name := labels[name].(position := |sections[cSection].code|)];
      }
      labels := labels[name := labels[name].(section := cSection)];
    }

    /** A word for a label, as `.address` and operations with a label argument make it. */
    method Refer(name: Text)
      requires Shape(Now())
      modifies this
      ensures Now() == Referred(old(Now()), name)
    {
      var uid := GetLabelUid(name);
      MarkLabelPosition();
      Output(uid);
      labels := labels[name := labels[name].(used := true)];
    }

    method Fill(num: int, val: int)
      requires Shape(Now())
      modifies this`sections
      ensures Now() == PutMany(old(Now()), if num < 0 then 0 else num, val)
    {
      ghost var s0 := Now();
      var i := 0;
      while i < num
        invariant 0 <= i && (i <= num || i == 0) && Shape(Now()) && Now() == PutMany(s0, i, val)
      {
        Output(val);
        i := i + 1;
      }
    }

    /** One line of the source. */
    method Line(stmt: Stmt)
      requires Shape(Now())
      modifies this
      ensures Now() == Apply(old(Now()), stmt)
    {
      match stmt
      case Label(name) =>
        Align();
        RegLabel(name);
      case Import(name) =>
        labels := labels[name := At(labels, name).(needImport := true)];
      case Export(name) =>
        labels := labels[name := At(labels, name).(needExport := true)];
      case Repeat(num, val) =>
        Fill(num, val);
      case Select(section) =>
        cSection := if section == 0 then 0 else 1;
      case Address(name) =>
        Refer(name);
      case Plain(opcode) =>
        Output(opcode);
      case WithNumber(opcode, num) =>
        Output(opcode);
        Output(num);
      case WithLabel(opcode, name) =>
        Output(opcode);
        Refer(name);
    }

    method Assemble(stmts: seq<Stmt>)
      requires Now() == EMPTY
      modifies this
      ensures Now() == Final(stmts)
    {
      hide Apply, Aligned;
      var i := 0;
      assert stmts[..0] == [];
      while i < |stmts|
        invariant i <= |stmts| && Shape(Now()) && Now() == ApplyAll(stmts[..i])
      {
        assert stmts[..i + 1][..i] == stmts[..i];
        Line(stmts[i]);
        i := i + 1;
      }
      assert stmts[..i] == stmts;
      cSection := 0;
      Align();
      cSection := 1;
      Align();
    }

    /** `convertLabelsTo8`, the labels in the order of the table. */
    method ConvertLabelsTo8(order: seq<Text>) returns (dst: seq<Byte>)
      requires forall i | 0 <= i < |order| :: order[i] in labels
      ensures dst == Table(Records(labels, order))
    {
      hide Bytes, ToRecord, Written;
      dst := [];
      var i := 0;
      while i < |order|
        invariant i <= |order| && dst == Table(Records(labels, order[..i]))
      {
        ghost var rs := Records(labels, order[..i]);
        assert order[..i + 1][..i] == order[..i] && rs + [] == rs;
        var some, bytes := WriteLabel(order[i], labels[order[i]]);
        if some {
          TableMore(rs, ToRecord(order[i], labels[order[i]]));
          dst := dst + bytes;
        }
        i := i + 1;
      }
      assert order[..i] == order;
    }

    method WriteLabel(name: Text, entry: Entry) returns (some: bool, bytes: seq<Byte>)
      ensures some == Written(entry)
      ensures some ==> bytes == Bytes(ToRecord(name, entry))
    {
      var e := entry;
      if e.position < 0 {
        e := e.(needImport := true);
      }
      if e.needImport && !e.used {
        return false, [];
      }
      var uid, pos := W(e.uid), W(e.position);
      return true, name + [0, High8(uid), Low8(uid), High8(pos), Low8(pos), e.section % 256, Flag(e.needImport), Flag(e.needExport)];
    }
  }

  // ----- from the program to the linker -----

  /** The order of the table: every label once. */
  ghost predicate Enumerates(labels: map<Text, Entry>, order: seq<Text>) {
    && (forall i | 0 <= i < |order| :: order[i] in labels)
    && (forall i, j | 0 <= i < j < |order| :: order[i] != order[j])
    && (forall n | n in labels :: n in order)
  }

  lemma {:induction false} RecordFrom(labels: map<Text, Entry>, order: seq<Text>, k: nat)
    requires forall i | 0 <= i < |order| :: order[i] in labels
    requires k < |Records(labels, order)|
    ensures var r := Records(labels, order)[k];
            r.name in order && Written(labels[r.name]) && r == ToRecord(r.name, labels[r.name])
    decreases |order|
  {
    var i := |order| - 1;
    if k < |Records(labels, order[..i])| {
      RecordFrom(labels, order[..i], k);
    }
  }

  lemma {:induction false} RecordOf(labels: map<Text, Entry>, order: seq<Text>, n: Text)
    requires forall i | 0 <= i < |order| :: order[i] in labels
    requires n in order && Written(labels[n])
    ensures ToRecord(n, labels[n]) in Records(labels, order)
    decreases |order|
  {
    var i := |order| - 1;
    if order[i] != n {
      assert n in order[..i];
      RecordOf(labels, order[..i], n);
    }
  }

  /** Records without two of one name read as the map from name to record. */
  lemma {:induction false} LoadAllIs(rs: seq<Record>, labels: map<Text, Entry>)
    requires forall i | 0 <= i < |rs| :: rs[i].name in labels && rs[i] == ToRecord(rs[i].name, labels[rs[i].name])
    ensures forall n :: n in LoadAll(rs) <==> exists i :: 0 <= i < |rs| && rs[i].name == n
    ensures forall n | n in LoadAll(rs) :: n in labels && LoadAll(rs)[n] == Load(ToRecord(n, labels[n]))
    decreases |rs|
  {
    hide ShiftOf, Load, ToRecord;
    if rs != [] {
      var k := |rs| - 1;
      LoadAllIs(rs[..k], labels);
      forall n ensures n in LoadAll(rs) <==> exists i :: 0 <= i < |rs| && rs[i].name == n {
        if n != rs[k].name && n in LoadAll(rs) {
          var i :| 0 <= i < |rs[..k]| && rs[..k][i].name == n;
          assert rs[i].name == n;
        }
        if i :| 0 <= i < |rs| && rs[i].name == n && n != rs[k].name {
          assert rs[..k][i].name == n;
        }
      }
    }
  }

  /** Reading back the written table gives exactly the labels that are written, with number and place modulo
      2^16 and the value of the shift in their names. */
  lemma {:induction false} RoundTrip(labels: map<Text, Entry>, order: seq<Text>)
    requires Enumerates(labels, order)
    ensures forall n :: n in LoadAll(Records(labels, order)) <==> n in labels && Written(labels[n])
    ensures forall n | n in LoadAll(Records(labels, order)) ::
              LoadAll(Records(labels, order))[n] == Load(ToRecord(n, labels[n]))
  {
    hide ShiftOf, Written, Records;
    var rs := Records(labels, order);
    forall i | 0 <= i < |rs|
      ensures rs[i].name in labels && Written(labels[rs[i].name]) && rs[i] == ToRecord(rs[i].name, labels[rs[i].name])
    {
      RecordFrom(labels, order, i);
    }
    LoadAllIs(rs, labels);
    forall n | n in labels && Written(labels[n]) ensures n in LoadAll(rs) {
      RecordOf(labels, order, n);
      var i :| 0 <= i < |rs| && rs[i] == ToRecord(n, labels[n]);
      assert rs[i].name == n;
    }
  }

  /** The number in a marked word finds in the loaded table the label whose name the program has written
      there, and no other; it is an import exactly if the program says so or defines no such label, and
      otherwise has the place of the definition. */
  ghost predicate Finds(s: State, t: Trace, table: map<Text, Loaded>, section: nat, j: nat)
    requires Shape(s) && section < 2
  {
    && (section, j) in t.refs && j < |s.sections[section].code|
    && var name, w := t.refs[(section, j)], s.sections[section].code[j];
       && name in table && name in s.labels && table[name].uid == w
       && (forall n | n in table && table[n].uid == w :: n == name)
       && (ShiftOf(name).Some? ==> table[name].shift == ShiftOf(name).value)
       && (table[name].needImport <==> s.labels[name].needImport || name !in t.defined)
       && (name in t.defined ==>
             table[name].section == t.defined[name].0 &&
             table[name].position == W(t.defined[name].1 / (if t.defined[name].0 == 0 then BLOCK else 1)))
  }

  /** For every program with at most 2^16 numbers given out, the marked words of its object file find
      their labels in the loaded table. */
  lemma {:induction false} SlotFindsLabel(stmts: seq<Stmt>, order: seq<Text>, section: nat, j: nat)
    requires Enumerates(Final(stmts).labels, order) && Final(stmts).labelUid <= 0x10000
    requires section < 2 && j in Final(stmts).sections[section].labelMap
    ensures Finds(Final(stmts), Meaning(stmts), LoadAll(Records(Final(stmts).labels, order)), section, j)
  {
    hide ShiftOf, Records, LoadAll, Final, Meaning, Numbers, Placed, Marks, Written;
    var s, t := Final(stmts), Meaning(stmts);
    FinalKeeps(stmts);
    RoundTrip(s.labels, order);
    var table := LoadAll(Records(s.labels, order));
    MarkedFinds(s, t, section, j);
    var name := t.refs[(section, j)];
    DefinedPlace(s.labels, s.labelUid, t, name);
    assert name in table;
    assert table[name] == Load(ToRecord(name, s.labels[name]));
    forall n | n in table && table[n].uid == s.sections[section].code[j] ensures n == name {
      assert table[n] == Load(ToRecord(n, s.labels[n]));
      UidUnique(s, n, name);
    }
    assert table[name].needImport == Imported(s.labels[name]);
    assert name in t.defined ==> table[name].section == t.defined[name].0;
  }

  lemma MarkedFinds(s: State, t: Trace, section: nat, j: nat)
    requires Inv(s, t) && section < 2 && j in s.sections[section].labelMap
    ensures (section, j) in t.refs && j < |s.sections[section].code|
    ensures Stands(s.labels, s.sections[section].code[j], t.refs[(section, j)])
    ensures Written(s.labels[t.refs[(section, j)]])
  {
    hide Numbers, Placed;
    assert (section, j) in t.refs;
  }

  lemma DefinedPlace(labels: map<Text, Entry>, next: nat, t: Trace, name: Text)
    requires Numbers(labels, next) && Placed(labels, t) && name in labels
    ensures Imported(labels[name]) <==> labels[name].needImport || name !in t.defined
    ensures name in t.defined ==>
              labels[name].section == t.defined[name].0 < 2 &&
              labels[name].position == t.defined[name].1 / (if t.defined[name].0 == 0 then BLOCK else 1)
  {
    if name in t.defined {
      assert Place(labels[name], t.defined[name]);
    }
  }

  lemma UidUnique(s: State, n: Text, m: Text)
    requires Numbers(s.labels, s.labelUid) && s.labelUid <= 0x10000 && n in s.labels && m in s.labels
    requires Written(s.labels[n]) && Written(s.labels[m]) && W(s.labels[n].uid) == W(s.labels[m].uid)
    ensures n == m
  {
    assert EntryOk(s.labels[n], s.labelUid) && EntryOk(s.labels[m], s.labelUid);
  }
}

/** What every printed line leaves on the stack, whatever operations it becomes (binutils/trans2.cpp:64-151, 153-479):
    library calls and conversions included. */
module Balance {
  import opened Words
  import opened Sim
  import opened Trans2

  /** Words an instruction leaves on the stack less those it takes; a call leaves its k result words. */
  function Delta(i: Instr): int {
    match i
    case Nop => 0
    case Address(_, _) => 1
    case LoadAt(_, _) => 1
    case Indir => 0
    case Indir2 => 1
    case Alu(_) => -1
    case AluImm(_, _) => 0
    case Alu2(_) => -2
    case Shl => 0
    case Shr => 0
    case Branch(_, _) => -2
    case CallTop(k) => k - 1
    case CallTo(k, _) => k
    case Ret => 0
    case JumpTop => -1
    case JumpTo(_) => 0
    case Discard(imm) => 0 - imm
    case Alloc(imm) => imm
    case Store => -2
    case Store2 => -3
    case RStore => -2
    case RStore2 => -3
    case Dup => 1
  }

  lemma WordSum(a: int, b: int)
    ensures W(W(a) + b) == W(a + b)
  {
  }

  lemma PushSp(s: State, v: Word)
    ensures Push(s, v).sp == W(s.sp + 1) && Write(s, v, v).sp == s.sp && W(s.sp) == s.sp
  {
  }

  lemma Taken(s: State, k: nat, v: Word)
    ensures Drop(s, k).sp == W(s.sp - k) && Push(Drop(s, k), v).sp == W(s.sp - k + 1)
  {
    WordSum(s.sp - k, 1);
  }

  lemma TakenTwo(s: State, k: nat, v: Word, w: Word)
    ensures Push(Push(Drop(s, k), v), w).sp == W(s.sp - k + 2)
  {
    Taken(s, k, v);
    WordSum(s.sp - k + 1, 1);
    hide W, Drop;
  }

  /** That is what the simulator does to SP, but for the inside of calls. */
  lemma DeltaIs(i: Instr, words: nat, s: State, pc: nat)
    requires !i.CallTop? && !i.CallTo? && !i.Ret?
    ensures Next(i, words, s, pc).0.sp == W(s.sp + Delta(i))
  {
    PushSp(s, 0);
    forall v: Word | true
      ensures Push(s, v).sp == W(s.sp + 1)
      ensures Push(Drop(s, 1), v).sp == W(s.sp) && Push(Drop(s, 2), v).sp == W(s.sp - 1)
    {
      PushSp(s, v);
      Taken(s, 1, v);
      Taken(s, 2, v);
    }
    forall v: Word, w: Word | true
      ensures Push(Push(Drop(s, 1), v), w).sp == W(s.sp + 1) && Push(Push(Drop(s, 4), v), w).sp == W(s.sp - 2)
    {
      TakenTwo(s, 1, v, w);
      TakenTwo(s, 4, v, w);
    }
    Taken(s, 1, 0);
    Taken(s, 2, 0);
    Taken(s, 3, 0);
    hide W, Push, Drop, GoTo, AluWord, AluDword, Holds, Top;
  }

  /** SP after a call: the saved words of the frame are gone again, and k words are left. */
  lemma DeltaOfCall(s: State, k: nat, pc: nat, t: State)
    requires s.sp + k + 4 < 0x10000 && t.bp == Enter(s, k, pc).bp
    ensures Leave(t).sp == W(s.sp + k)
  {
  }

  function Height(env: Env, es: seq<Entry>): Option<int> {
    if es == [] then Some(0)
    else
      var e, h := es[|es| - 1], Height(env, es[..|es| - 1]);
      if h.None? then None
      else if e.isDirective then h
      else
        match Decode(env, e)
        case None => None
        case Some(i) => Some(h.value + Delta(i))
  }

  /** Words of the result less words of the operands. */
  function LineHeight(l: Line): int {
    match l
    case LAddrF(_) => 1
    case LAddrG(_) => 1
    case LAddrL(_) => 1
    case LCnst(_, size) => size
    case LIndir(size) => size - 1
    case LIndirB => 0
    case LNeg(size) => size - size
    case LBcom(size) => size - size
    case LBin(_, size) => size - 2 * size
    case LBuiltin(_, size) => size - 2 * size
    case LShift(_, _, _) => -1
    case LAsgn(size) => 0 - (1 + size)
    case LAsgnB(_) => -2
    case LCompare(_, _, size, _) => 0 - 2 * size
    case LArg(size) => 0 - size
    case LCall(size) => size - 1
    case LRet(size) => 0 - (if size <= 2 then size else 0)
    case LJump => -1
    case LLabel(_) => 0
    case LConvert(from, to) => to - from
    case LDiscard(words) => 0 - words
  }

  /** Operands are there, and counts fit a word. */
  predicate Readable(l: Line) {
    match l
    case LAddrF(t) => !t.Empty?
    case LAddrG(t) => !t.Empty?
    case LAsgnB(t) => !t.Empty?
    case LConvert(from, _) => from < 0x10000
    case LDiscard(words) => words < 0x10000
    case _ => true
  }

  lemma {:induction false} HeightOne(env: Env, es: seq<Entry>, e: Entry)
    ensures Height(env, es + [e]) ==
            if Height(env, es).None? then None
            else if e.isDirective then Height(env, es)
            else if Decode(env, e).None? then None
            else Some(Height(env, es).value + Delta(Decode(env, e).value))
  {
    assert (es + [e])[..|es|] == es;
    hide Decode, Delta;
  }

  lemma {:induction false} HeightMore(env: Env, es: seq<Entry>, more: seq<Entry>, h: int, k: int)
    requires Height(env, es) == Some(h) && Height(env, more) == Some(k)
    ensures Height(env, es + more) == Some(h + k)
    decreases |more|
  {
    hide *;
    if more == [] {
      HeightNone(env);
      assert es + more == es;
    } else {
      var n := |more| - 1;
      LastApart(es, more);
      HeightOne(env, es + more[..n], more[n]);
      HeightOne(env, more[..n], more[n]);
      HeightMore(env, es, more[..n], h, Height(env, more[..n]).value);
    }
  }

  lemma {:induction false} HeightNone(env: Env)
    ensures Height(env, []) == Some(0)
  {
  }

  lemma LastApart(es: seq<Entry>, more: seq<Entry>)
    requires more != []
    ensures var n := |more| - 1; es + more == es + more[..n] + [more[n]] && more == more[..n] + [more[n]]
  {
  }

  lemma {:induction false} HeightRepeat(env: Env, e: Entry, n: nat, d: int)
    requires !e.isDirective && Decode(env, e).Some? && Delta(Decode(env, e).value) == d
    ensures Height(env, Repeat(e, n)) == Some(n * d)
    decreases n
  {
    if n == 0 {
      assert Repeat(e, 0) == [];
    } else {
      assert Repeat(e, n) == Repeat(e, n - 1) + [e];
      HeightOne(env, Repeat(e, n - 1), e);
      hide *;
      HeightRepeat(env, e, n - 1, d);
      OneMore(n, d);
    }
  }

  lemma OneMore(n: nat, d: int)
    requires n > 0
    ensures (n - 1) * d + d == n * d
  {
  }

  lemma {:induction false} HeightConstants(env: Env, n: int, size: nat)
    ensures Height(env, CnstEntries(n, size)) == Some(size)
    decreases size
  {
    hide *;
    ConstantsMore(env, n, size);
    if size == 0 {
      HeightNone(env);
    } else {
      HeightOne(env, CnstEntries(n, size - 1), CnstEntry(n, size - 1));
      HeightConstants(env, n, size - 1);
    }
  }

  lemma {:induction false} ConstantsMore(env: Env, n: int, size: nat)
    ensures size == 0 ==> CnstEntries(n, size) == []
    ensures size > 0 ==>
              var e := CnstEntry(n, size - 1);
              && CnstEntries(n, size) == CnstEntries(n, size - 1) + [e]
              && !e.isDirective && Decode(env, e).Some? && Delta(Decode(env, e).value) == 1
  {
    hide CnstWord;
  }

  /** What an operation contributes. */
  predicate Does(env: Env, e: Entry, d: int) {
    !e.isDirective && Decode(env, e).Some? && Delta(Decode(env, e).value) == d
  }

  lemma {:induction false} HeightOf1(env: Env, a: Entry, x: int)
    requires Does(env, a, x)
    ensures Height(env, [a]) == Some(x)
  {
    HeightOne(env, [], a);
    assert [] + [a] == [a];
    hide Decode, Delta;
  }

  lemma {:induction false} HeightOf2(env: Env, a: Entry, b: Entry, x: int, y: int)
    requires Does(env, a, x) && Does(env, b, y)
    ensures Height(env, [a, b]) == Some(x + y)
  {
    HeightOf1(env, a, x);
    HeightOne(env, [a], b);
    assert [a] + [b] == [a, b];
    hide Decode, Delta;
  }

  lemma {:induction false} HeightOf3(env: Env, a: Entry, b: Entry, c: Entry, x: int, y: int, z: int)
    requires Does(env, a, x) && Does(env, b, y) && Does(env, c, z)
    ensures Height(env, [a, b, c]) == Some(x + y + z)
  {
    HeightOf2(env, a, b, x, y);
    HeightOne(env, [a, b], c);
    assert [a, b] + [c] == [a, b, c];
    hide Decode, Delta;
  }

  lemma {:induction false} HeightOf4(env: Env, a: Entry, b: Entry, c: Entry, d: Entry, x: int, y: int, z: int, w: int)
    requires Does(env, a, x) && Does(env, b, y) && Does(env, c, z) && Does(env, d, w)
    ensures Height(env, [a, b, c, d]) == Some(x + y + z + w)
  {
    HeightOf3(env, a, b, c, x, y, z);
    HeightOne(env, [a, b, c], d);
    assert [a, b, c] + [d] == [a, b, c, d];
    hide Decode, Delta;
  }

  /** Library calls take two operands and leave their result in place of the first. */
  lemma {:induction false} BuiltinHeight(env: Env, text: string, size: nat)
    requires 1 <= size <= 2
    ensures Height(env, Builtin(text, size)) == Some(0 - size)
  {
    var c, d := Op(CALL0, Symbol("__builtin_" + text, 0), SizeWord, ArgLink), Op(DISCARD, Number(size), SizeWord, ArgChar);
    assert Does(env, c, 0) && Does(env, d, 0 - size);
    HeightOf2(env, c, d, 0, 0 - size);
  }

  lemma {:induction false} OnesHeight(env: Env, size: nat, negate: bool)
    requires 1 <= size <= 2
    ensures Height(env, Emitted(if negate then LNeg(size) else LBcom(size), 0, 0)) == Some(0)
  {
    var x1 := Op(BXOR, Number(0xffff), SizeWord, ArgWord);
    var a1 := Op(ADD, Number(1), SizeWord, ArgChar);
    var c, x2 := Op(CNST, Number(0xffff), SizeWord, ArgWord), Op(BXOR, Empty, SizeDword);
    var c1, c0, a2 := Op(CNST, Number(1), SizeWord, ArgChar), Op(CNST, Number(0), SizeWord, ArgChar), Op(ADD, Empty, SizeDword);
    assert Does(env, x1, 0) && Does(env, a1, 0) && Does(env, c, 1) && Does(env, x2, -2) && Does(env, c1, 1) && Does(env, c0, 1) && Does(env, a2, -2);
    hide Does;
    HeightOf1(env, x1, 0);
    HeightOf2(env, x1, a1, 0, 0);
    HeightOf3(env, c, c, x2, 1, 1, -2);
    HeightOf3(env, c1, c0, a2, 1, 1, -2);
    HeightMore(env, [c, c, x2], [c1, c0, a2], 0, 0);
    assert ONES1 == [x1] && ONES2 == [c, c, x2];
    assert [x1] + [a1] == [x1, a1];
  }

  lemma {:induction false} CompareHeight(env: Env, c: Cond, text: string, size: nat, target: Text)
    requires 1 <= size <= 2
    ensures Height(env, Emitted(LCompare(c, text, size, target), 0, 0)) == Some(0 - 2 * size)
  {
    var b1, b2 := Op(NameOfCond(c), target, SizeWord, ArgLink), Op(NE, target, SizeWord, ArgLink);
    var call, drop := Op(CALL0, Symbol("__builtin_cmp_" + text, 0), SizeWord, ArgLink), Op(DISCARD, Number(3), SizeWord, ArgChar);
    var zero := Op(CNST, Number(0), SizeWord, ArgChar);
    assert Does(env, b1, -2) && Does(env, b2, -2) && Does(env, call, 0) && Does(env, drop, -3) && Does(env, zero, 1);
    hide Does;
    HeightOf1(env, b1, -2);
    HeightOf4(env, call, drop, zero, b2, 0, -3, 1, -2);
  }

  lemma {:induction false} ReturnHeight(env: Env, size: nat)
    ensures Height(env, RetEntries(size)) == Some(LineHeight(LRet(size)))
  {
    var r, s1, s2 := Op(RET), Op(RSTORE), Op(RSTORE, Empty, SizeDword);
    var a1, a2 := Op(ADDRL, Number(-5), SizeWord, ArgChar), Op(ADDRL, Number(-6), SizeWord, ArgChar);
    assert Does(env, r, 0) && Does(env, s1, -2) && Does(env, s2, -3) && Does(env, a1, 1) && Does(env, a2, 1);
    hide Does;
    HeightOf1(env, r, 0);
    HeightOf3(env, a1, s1, r, 1, -2, 0);
    HeightOf3(env, a2, s2, r, 1, -3, 0);
    assert RetEntries(size) == if size == 1 then [a1, s1, r] else if size == 2 then [a2, s2, r] else [r];
  }

  lemma {:induction false} CopyHeight(env: Env, t: Text)
    requires !t.Empty?
    ensures Height(env, Emitted(LAsgnB(t), 0, 0)) == Some(-2)
  {
    var c, call, drop := Op(CNST, t, SizeWord, KindOf(t)), Op(CALL0, Symbol("__builtin_memcpy", 0), SizeWord, ArgLink),
                         Op(DISCARD, Number(3), SizeWord, ArgChar);
    assert Does(env, c, 1) && Does(env, call, 0) && Does(env, drop, -3);
    hide Does;
    HeightOf3(env, c, call, drop, 1, 0, -3);
  }

  lemma {:induction false} ConvertHeight(env: Env, from: nat, to: nat)
    requires from < 0x10000
    ensures Height(env, ConvertEntries(from, to)) == Some(to - from)
  {
    if from > to {
      var d := Op(DISCARD, Number(from - to), SizeWord, if from - to < 127 then ArgChar else ArgWord);
      assert Does(env, d, to - from);
      HeightOf1(env, d, to - from);
    } else {
      var z := Op(CNST, Number(0), SizeWord, ArgChar);
      assert Does(env, z, 1);
      HeightRepeat(env, z, to - from, 1);
    }
  }

  lemma {:induction false} DiscardHeight(env: Env, n: nat)
    requires n < 0x10000
    ensures Height(env, Emitted(LDiscard(n), 0, 0)) == Some(0 - n)
  {
    if n > 0 {
      var d := Op(DISCARD, Number(n), SizeWord, KindOf(Number(n)));
      assert Does(env, d, 0 - n);
      HeightOf1(env, d, 0 - n);
    }
  }

  lemma {:induction false} ArgHeight(env: Env, size: nat, cArg: nat)
    requires 1 <= size <= 2
    ensures Height(env, Emitted(LArg(size), 0, cArg)) == Some(0 - size)
  {
    var a, o := Op(ADDRL, Number(cArg), SizeWord, ByteOrWord(cArg)), Op(RSTORE, Empty, SizeOf(size));
    assert Does(env, a, 1) && Does(env, o, 0 - size - 1);
    HeightOf2(env, a, o, 1, 0 - size - 1);
  }

  /** Lines of one operation. */
  lemma {:induction false} SingleHeight(env: Env, l: Line, nArgs: nat)
    requires Accepted(l) && Readable(l)
    requires l.LAddrF? || l.LAddrG? || l.LAddrL? || l.LIndir? || l.LBin? || l.LAsgn? || l.LCall? || l.LJump?
    ensures |Emitted(l, nArgs, 0)| == 1 && Does(env, Emitted(l, nArgs, 0)[0], LineHeight(l))
  {
  }

  lemma {:induction false} LineLeaves(env: Env, l: Line, nArgs: nat, cArg: nat)
    requires Accepted(l) && Readable(l)
    ensures Height(env, Emitted(l, nArgs, cArg)) == Some(LineHeight(l))
  {
    hide Height, Decode, Delta, Does;
    HeightNone(env);
    match l
    case LCnst(n, size) => HeightConstants(env, n, size);
    case LNeg(size) => OnesHeight(env, size, true);
    case LBcom(size) => OnesHeight(env, size, false);
    case LBuiltin(text, size) => BuiltinHeight(env, text, size);
    case LShift(_, text, _) => BuiltinHeight(env, text, 1);
    case LAsgnB(t) => CopyHeight(env, t);
    case LCompare(c, text, size, target) => CompareHeight(env, c, text, size, target);
    case LArg(size) => ArgHeight(env, size, cArg);
    case LRet(size) => ReturnHeight(env, size);
    case LConvert(from, to) => ConvertHeight(env, from, to);
    case LDiscard(n) => DiscardHeight(env, n);
    case LIndirB =>
    case LLabel(t) =>
      HeightOne(env, [], Label(t));
      assert [] + [Label(t)] == [Label(t)];
    case _ =>
      SingleHeight(env, l, nArgs);
      hide LineHeight, Emitted;
      var e := Emitted(l, nArgs, cArg)[0];
      HeightOf1(env, e, LineHeight(l));
  }

  /** No directive is taken for a constant, with which `proc`-like directives may share their number. */
  ghost predicate Plain(out: seq<Entry>) {
    forall i | 0 <= i < |out| && out[i].isDirective :: out[i].name != CNST
  }

  lemma {:induction false} PlainMore(l: Line, out: seq<Entry>, nArgs: nat, cArg: nat)
    requires Accepted(l) && Plain(out)
    ensures Plain(Translated(l, out, nArgs, cArg))
  {
    EmittedPlain(l, nArgs, cArg);
    hide Emitted;
  }

  lemma {:induction false} EmittedPlain(l: Line, nArgs: nat, cArg: nat)
    requires Accepted(l)
    ensures Plain(Emitted(l, nArgs, cArg))
  {
  }

  lemma {:induction false} ConstantLast(env: Env, out: seq<Entry>, h: int)
    requires Height(env, out) == Some(h) && out != [] && out[|out| - 1].name == CNST && !out[|out| - 1].isDirective
    ensures Height(env, out[..|out| - 1]) == Some(h - 1)
  {
    var k := |out| - 1;
    assert out == out[..k] + [out[k]];
    HeightOne(env, out[..k], out[k]);
    hide Height;
  }

  lemma ShiftDoes(env: Env, left: bool)
    ensures var e := Op(if left then LSH else RSH);
            !e.isDirective && Decode(env, e).Some? && Delta(Decode(env, e).value) == 0
  {
  }

  lemma {:induction false} UnrolledHeight(env: Env, out: seq<Entry>, left: bool, n: nat, h: int)
    requires Height(env, out) == Some(h) && out != [] && out[|out| - 1].name == CNST && !out[|out| - 1].isDirective
    ensures Height(env, out[..|out| - 1] + Repeat(Op(if left then LSH else RSH), n)) == Some(h - 1)
  {
    hide *;
    var k := |out| - 1;
    var shift := Op(if left then LSH else RSH);
    ConstantLast(env, out, h);
    ShiftDoes(env, left);
    HeightRepeat(env, shift, n, 0);
    HeightMore(env, out[..k], Repeat(shift, n), h - 1, 0);
  }

  /** One line moves the stack by its height, also when a shift by a constant takes the constant back. */
  lemma {:induction false} LineBalanced(env: Env, l: Line, out: seq<Entry>, nArgs: nat, cArg: nat, h: int)
    requires Accepted(l) && Readable(l) && Plain(out) && Height(env, out) == Some(h)
    ensures Height(env, Translated(l, out, nArgs, cArg)) == Some(h + LineHeight(l))
  {
    if ShiftsByConstant(l, out) {
      hide Height, Atoi;
      UnrolledHeight(env, out, l.left, Max0(Atoi(out[|out| - 1].arg)), h);
    } else {
      hide Height, Emitted, LineHeight;
      LineLeaves(env, l, nArgs, cArg);
      HeightMore(env, out, Emitted(l, nArgs, cArg), h, LineHeight(l));
    }
  }

  function LinesHeight(ls: seq<Line>): int {
    if ls == [] then 0 else LineHeight(ls[0]) + LinesHeight(ls[1..])
  }

  /** All lines together. */
  lemma {:induction false} AllBalanced(env: Env, ls: seq<Line>, out: seq<Entry>, nArgs: nat, cArg: nat, h: int)
    requires AllAccepted(ls) && (forall l | l in ls :: Readable(l)) && Plain(out) && Height(env, out) == Some(h)
    ensures Height(env, TranslatedAll(ls, out, nArgs, cArg)) == Some(h + LinesHeight(ls))
    decreases |ls|
  {
    hide *;
    if ls == [] {
      NoLines(out, nArgs, cArg);
    } else {
      LinesSplit(ls, out, nArgs, cArg);
      PlainMore(ls[0], out, nArgs, cArg);
      LineBalanced(env, ls[0], out, nArgs, cArg, h);
      AllBalanced(env, ls[1..], Translated(ls[0], out, nArgs, cArg), nArgs, NextArg(ls[0], cArg), h + LineHeight(ls[0]));
    }
  }

  lemma {:induction false} NoLines(out: seq<Entry>, nArgs: nat, cArg: nat)
    ensures AllAccepted([]) && LinesHeight([]) == 0 && TranslatedAll([], out, nArgs, cArg) == out
  {
  }

  lemma {:induction false} LinesSplit(ls: seq<Line>, out: seq<Entry>, nArgs: nat, cArg: nat)
    requires ls != [] && AllAccepted(ls) && forall l | l in ls :: Readable(l)
    ensures Accepted(ls[0]) && Readable(ls[0]) && AllAccepted(ls[1..]) && forall l | l in ls[1..] :: Readable(l)
    ensures LinesHeight(ls) == LineHeight(ls[0]) + LinesHeight(ls[1..])
    ensures TranslatedAll(ls, out, nArgs, cArg) == TranslatedAll(ls[1..], Translated(ls[0], out, nArgs, cArg), nArgs, NextArg(ls[0], cArg))
  {
    assert ls[0] in ls;
    hide Accepted, Readable, Translated, LineHeight;
  }
}

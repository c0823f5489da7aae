/** From written to recorded cases (lcc/src/stmt.c:119-138, lcc/src/c.h:36): the constants of an unsigned switch
    go through the extension from the low half of their type before they are recorded. */
module Cases {
  import opened Switch
  import Simp

  /** The value recorded for a case. */
  function Recorded(ty: Simp.Ty, w: int): int {
    if ty.unsigned then Simp.Extend(w, ty) else w
  }

  /** What the search compares for a selector: its words as a signed number. */
  function Compared(ty: Simp.Ty, u: nat): int {
    Simp.S(Simp.Ty(false, ty.long), u)
  }

  function Half(ty: Simp.Ty): nat {
    if ty.long then 0x8000 else 0x80
  }

  /** Unsigned constants in the lower or the upper end of their type. */
  predicate Narrow(ty: Simp.Ty, w: int) {
    !ty.unsigned || w < Half(ty) || w >= Simp.M(ty) - Half(ty)
  }

  /** A case is recorded as a value that stands for the same words exactly if it is narrow. */
  lemma RecordedIff(ty: Simp.Ty, w: int)
    requires Simp.Ranged(ty, w)
    ensures Recorded(ty, w) % Simp.M(ty) == w % Simp.M(ty) <==> Narrow(ty, w)
    ensures Narrow(ty, w) <==> Recorded(ty, w) == Compared(ty, w % Simp.M(ty))
    ensures ty.unsigned ==> 0 - Half(ty) <= Recorded(ty, w) < Half(ty)
  {
    if ty.unsigned {
      UnsignedIff(ty, w);
    } else {
      SignedWords(ty, w);
    }
  }

  lemma UnsignedIff(ty: Simp.Ty, w: nat)
    requires ty.unsigned && w < Simp.M(ty)
    ensures Simp.Extend(w, ty) % Simp.M(ty) == w % Simp.M(ty) <==> Narrow(ty, w)
    ensures Narrow(ty, w) <==> Simp.Extend(w, ty) == Compared(ty, w % Simp.M(ty))
    ensures 0 - Half(ty) <= Simp.Extend(w, ty) < Half(ty)
  {
    hide *;
    if ty.long {
      UnsignedLong(w);
    } else {
      UnsignedShort(w);
    }
  }

  lemma UnsignedShort(w: nat)
    requires w < Simp.M(Simp.Ty(true, false))
    ensures var ty := Simp.Ty(true, false);
            && (Simp.Extend(w, ty) % Simp.M(ty) == w % Simp.M(ty) <==> Narrow(ty, w))
            && (Narrow(ty, w) <==> Simp.Extend(w, ty) == Compared(ty, w % Simp.M(ty)))
            && 0 - Half(ty) <= Simp.Extend(w, ty) < Half(ty)
  {
    Extended16(w);
  }

  lemma UnsignedLong(w: nat)
    requires w < Simp.M(Simp.Ty(true, true))
    ensures var ty := Simp.Ty(true, true);
            && (Simp.Extend(w, ty) % Simp.M(ty) == w % Simp.M(ty) <==> Narrow(ty, w))
            && (Narrow(ty, w) <==> Simp.Extend(w, ty) == Compared(ty, w % Simp.M(ty)))
            && 0 - Half(ty) <= Simp.Extend(w, ty) < Half(ty)
  {
    Extended32(w);
  }

  lemma Extended16(w: nat)
    requires w < 0x10000
    ensures var e := if w % 0x100 >= 0x80 then w % 0x100 - 0x100 else w % 0x100;
            && -0x80 <= e < 0x80
            && (e % 0x10000 == w <==> w < 0x80 || w >= 0xff80)
            && (e == (if w >= 0x8000 then w - 0x10000 else w) <==> w < 0x80 || w >= 0xff80)
  {
  }

  lemma Extended32(w: nat)
    requires w < 0x1_0000_0000
    ensures var e := if w % 0x10000 >= 0x8000 then w % 0x10000 - 0x10000 else w % 0x10000;
            && -0x8000 <= e < 0x8000
            && (e % 0x1_0000_0000 == w <==> w < 0x8000 || w >= 0xffff_8000)
            && (e == (if w >= 0x8000_0000 then w - 0x1_0000_0000 else w) <==> w < 0x8000 || w >= 0xffff_8000)
  {
  }

  lemma SignedWords(ty: Simp.Ty, w: int)
    requires !ty.unsigned && Simp.Ranged(ty, w)
    ensures Compared(ty, w % Simp.M(ty)) == w
  {
  }

  lemma ComparedApart(ty: Simp.Ty, u: nat, v: nat)
    requires u < Simp.M(ty) && v < Simp.M(ty)
    ensures Compared(ty, u) == Compared(ty, v) <==> u == v
  {
  }

  predicate AllRanged(ty: Simp.Ty, ws: seq<int>) {
    forall i | 0 <= i < |ws| :: Simp.Ranged(ty, ws[i])
  }

  predicate NoDuplicates(ty: Simp.Ty, ws: seq<int>) {
    forall i, j | 0 <= i < j < |ws| :: Recorded(ty, ws[i]) != Recorded(ty, ws[j])
  }

  // ----- collecting -----

  /** Values and labels after `caselabel` for every case in order. */
  function Collected(ty: Simp.Ty, ws: seq<int>, labs: seq<nat>): (c: (seq<int>, seq<nat>))
    requires |ws| == |labs|
    ensures |c.0| == |c.1| == |ws|
    decreases |ws|
  {
    if ws == [] then ([], [])
    else
      var n := |ws| - 1;
      var c := Collected(ty, ws[..n], labs[..n]);
      var k := Place(c.0, Recorded(ty, ws[n]));
      (Inserted(c.0, k, Recorded(ty, ws[n])), Inserted(c.1, k, labs[n]))
  }

  predicate Has(v: seq<int>, l: seq<nat>, r: int, lab: nat) {
    |v| == |l| && exists k :: 0 <= k < |v| && v[k] == r && l[k] == lab
  }

  lemma InsertedHas(v: seq<int>, l: seq<nat>, k: nat, r: int, lab: nat, r1: int, lab1: nat)
    requires k <= |v| == |l|
    ensures Has(Inserted(v, k, r), Inserted(l, k, lab), r1, lab1) <==> (r1 == r && lab1 == lab) || Has(v, l, r1, lab1)
  {
    var v1, l1 := Inserted(v, k, r), Inserted(l, k, lab);
    if i :| 0 <= i < |v1| && v1[i] == r1 && l1[i] == lab1 {
      var j := if i < k then i else i - 1;
      assert i != k ==> v[j] == r1 && l[j] == lab1;
    }
    if r1 == r && lab1 == lab {
      assert v1[k] == r1 && l1[k] == lab1;
    }
    if i :| 0 <= i < |v| && v[i] == r1 && l[i] == lab1 {
      var j := if i < k then i else i + 1;
      assert v1[j] == r1 && l1[j] == lab1;
    }
  }

  /** The case with number i was written with this value and this label. */
  predicate Wrote(ty: Simp.Ty, ws: seq<int>, labs: seq<nat>, r: int, lab: nat) {
    |ws| == |labs| && exists i :: 0 <= i < |ws| && Recorded(ty, ws[i]) == r && labs[i] == lab
  }

  /** What is collected is what was written, in ascending order. */
  lemma {:induction false} CollectedIs(ty: Simp.Ty, ws: seq<int>, labs: seq<nat>, r: int, lab: nat)
    requires |ws| == |labs|
    ensures Has(Collected(ty, ws, labs).0, Collected(ty, ws, labs).1, r, lab) <==> Wrote(ty, ws, labs, r, lab)
    decreases |ws|
  {
    if ws != [] {
      var n := |ws| - 1;
      var c := Collected(ty, ws[..n], labs[..n]);
      CollectedIs(ty, ws[..n], labs[..n], r, lab);
      InsertedHas(c.0, c.1, Place(c.0, Recorded(ty, ws[n])), Recorded(ty, ws[n]), labs[n], r, lab);
      WroteMore(ty, ws, labs, r, lab);
      hide Has, Wrote, Recorded, Inserted;
    }
  }

  lemma WroteMore(ty: Simp.Ty, ws: seq<int>, labs: seq<nat>, r: int, lab: nat)
    requires |ws| == |labs| > 0
    ensures var n := |ws| - 1;
            Wrote(ty, ws, labs, r, lab) <==> (Recorded(ty, ws[n]) == r && labs[n] == lab) || Wrote(ty, ws[..n], labs[..n], r, lab)
  {
    hide Recorded;
    var n := |ws| - 1;
    if i :| 0 <= i < n && Recorded(ty, ws[..n][i]) == r && labs[..n][i] == lab {
      assert ws[i] == ws[..n][i] && labs[i] == labs[..n][i];
    }
    if i :| 0 <= i < |ws| && Recorded(ty, ws[i]) == r && labs[i] == lab {
      assert i < n ==> ws[..n][i] == ws[i] && labs[..n][i] == labs[i];
    }
  }

  /** A value is among the collected ones exactly if some case was recorded as it. */
  lemma {:induction false} CollectedIn(ty: Simp.Ty, ws: seq<int>, labs: seq<nat>, r: int)
    requires |ws| == |labs|
    ensures r in Collected(ty, ws, labs).0 <==> exists i :: 0 <= i < |ws| && Recorded(ty, ws[i]) == r
  {
    hide Recorded;
    var c := Collected(ty, ws, labs);
    if r in c.0 {
      var k :| 0 <= k < |c.0| && c.0[k] == r;
      CollectedIs(ty, ws, labs, r, c.1[k]);
    }
    if i :| 0 <= i < |ws| && Recorded(ty, ws[i]) == r {
      CollectedIs(ty, ws, labs, r, labs[i]);
    }
  }

  lemma {:induction false} CollectedAscending(ty: Simp.Ty, ws: seq<int>, labs: seq<nat>)
    requires |ws| == |labs| && NoDuplicates(ty, ws)
    ensures Ascending(Collected(ty, ws, labs).0)
    decreases |ws|
  {
    hide Recorded;
    if ws != [] {
      var n := |ws| - 1;
      CollectedAscending(ty, ws[..n], labs[..n]);
      CollectedIn(ty, ws[..n], labs[..n], Recorded(ty, ws[n]));
      InsertedAscending(Collected(ty, ws[..n], labs[..n]).0, Recorded(ty, ws[n]));
    }
  }

  lemma NoMoreDuplicates(ty: Simp.Ty, ws: seq<int>, n: nat)
    requires n < |ws|
    ensures NoDuplicates(ty, ws[..n + 1]) <==>
            NoDuplicates(ty, ws[..n]) && !exists i :: 0 <= i < n && Recorded(ty, ws[..n][i]) == Recorded(ty, ws[n])
  {
    hide Recorded;
    assert forall i | 0 <= i < n :: ws[..n][i] == ws[..n + 1][i];
    assert ws[..n + 1][n] == ws[n];
  }

  /** The loop over the cases of a switch; a duplicate among the recorded values is reported. */
  method Collect(swp: Swtch, ty: Simp.Ty, ws: seq<int>, labs: seq<nat>) returns (duplicate: bool)
    requires swp.Valid() && swp.ncases == 0 && |ws| == |labs|
    modifies swp, swp.values, swp.labels
    ensures swp.Valid() && swp.ncases == |ws|
    ensures swp.values[..swp.ncases] == Collected(ty, ws, labs).0 && swp.labels[..swp.ncases] == Collected(ty, ws, labs).1
    ensures duplicate <==> !NoDuplicates(ty, ws)
  {
    hide Recorded, Place, Inserted, Collected, NoDuplicates;
    duplicate := false;
    var i := 0;
    NothingCollected(ty, ws, labs);
    while i < |ws|
      invariant i <= |ws| && swp.Valid() && swp.ncases == i
      invariant swp.values == old(swp.values) || fresh(swp.values)
      invariant swp.labels == old(swp.labels) || fresh(swp.labels)
      invariant swp.values[..i] == Collected(ty, ws[..i], labs[..i]).0
      invariant swp.labels[..i] == Collected(ty, ws[..i], labs[..i]).1
      invariant duplicate <==> !NoDuplicates(ty, ws[..i])
    {
      CollectedIn(ty, ws[..i], labs[..i], Recorded(ty, ws[i]));
      NoMoreDuplicates(ty, ws, i);
      CollectedMore(ty, ws, labs, i);
      var d := swp.CaseLabel(Recorded(ty, ws[i]), labs[i]);
      duplicate := duplicate || d;
      i := i + 1;
    }
    assert ws[..i] == ws && labs[..i] == labs;
  }

  lemma {:induction false} NothingCollected(ty: Simp.Ty, ws: seq<int>, labs: seq<nat>)
    requires |ws| == |labs|
    ensures Collected(ty, ws[..0], labs[..0]) == ([], []) && NoDuplicates(ty, ws[..0])
  {
  }

  lemma {:induction false} CollectedMore(ty: Simp.Ty, ws: seq<int>, labs: seq<nat>, n: nat)
    requires |ws| == |labs| && n < |ws|
    ensures var c, r := Collected(ty, ws[..n], labs[..n]), Recorded(ty, ws[n]);
            && Collected(ty, ws[..n + 1], labs[..n + 1]).0 == Inserted(c.0, Place(c.0, r), r)
            && Collected(ty, ws[..n + 1], labs[..n + 1]).1 == Inserted<int>(c.1, Place(c.0, r), labs[n])
  {
    hide Recorded;
    assert ws[..n + 1][..n] == ws[..n] && labs[..n + 1][..n] == labs[..n];
  }

  // ----- where selectors go -----

  /** Where a selector is meant to go: to the label of the case that is written with its value. */
  function Meant(ty: Simp.Ty, ws: seq<int>, labs: seq<nat>, deflab: nat, u: nat): nat
    requires |ws| == |labs|
  {
    if ws == [] then deflab
    else if ws[0] % Simp.M(ty) == u then labs[0]
    else Meant(ty, ws[1..], labs[1..], deflab, u)
  }

  lemma {:induction false} MeantIs(ty: Simp.Ty, ws: seq<int>, labs: seq<nat>, deflab: nat, u: nat) returns (i: nat)
    requires |ws| == |labs|
    ensures i <= |ws| && (forall j | 0 <= j < i :: ws[j] % Simp.M(ty) != u)
    ensures if i < |ws| then ws[i] % Simp.M(ty) == u && Meant(ty, ws, labs, deflab, u) == labs[i] else Meant(ty, ws, labs, deflab, u) == deflab
    decreases |ws|
  {
    i := 0;
    if ws != [] && ws[0] % Simp.M(ty) != u {
      i := MeantIs(ty, ws[1..], labs[1..], deflab, u);
      assert forall j | 1 <= j < |ws| :: ws[j] == ws[1..][j - 1] && labs[j] == labs[1..][j - 1];
      i := i + 1;
    }
  }

  function SwOf(ty: Simp.Ty, ws: seq<int>, labs: seq<nat>, deflab: nat): (s: Sw)
    requires |ws| == |labs|
    ensures |s.v| == |s.labels| == |ws|
  {
    var c := Collected(ty, ws, labs);
    Sw(c.0, c.1, deflab, ty.unsigned)
  }

  /** The search finds the label of the case recorded as x. */
  lemma {:induction false} TargetOf(ty: Simp.Ty, ws: seq<int>, labs: seq<nat>, deflab: nat, x: int)
    requires |ws| == |labs| && NoDuplicates(ty, ws)
    ensures forall i | 0 <= i < |ws| && Recorded(ty, ws[i]) == x :: Target(SwOf(ty, ws, labs, deflab), 0, |ws|, x) == labs[i]
    ensures (forall i | 0 <= i < |ws| :: Recorded(ty, ws[i]) != x) ==> Target(SwOf(ty, ws, labs, deflab), 0, |ws|, x) == deflab
  {
    hide Recorded, Target;
    var s := SwOf(ty, ws, labs, deflab);
    CollectedAscending(ty, ws, labs);
    forall i | 0 <= i < |ws| && Recorded(ty, ws[i]) == x ensures Target(s, 0, |ws|, x) == labs[i] {
      CollectedIs(ty, ws, labs, x, labs[i]);
      var k :| 0 <= k < |s.v| && s.v[k] == x && s.labels[k] == labs[i];
      TargetFound(s, 0, |ws|, x, k);
    }
    if forall i | 0 <= i < |ws| :: Recorded(ty, ws[i]) != x {
      CollectedIn(ty, ws, labs, x);
      TargetMissing(s, 0, |ws|, x);
    }
  }

  /** A selector whose value is written must be narrow, and one whose value is not must not be the recorded value
      of some case. */
  ghost predicate Clear(ty: Simp.Ty, ws: seq<int>, u: nat) {
    if exists i :: 0 <= i < |ws| && ws[i] % Simp.M(ty) == u then Narrow(ty, u)
    else forall j | 0 <= j < |ws| :: Recorded(ty, ws[j]) != Compared(ty, u)
  }

  /** The recorded cases send a selector where the written ones mean it to go exactly if it is clear. */
  lemma {:induction false} ClearIff(ty: Simp.Ty, ws: seq<int>, labs: seq<nat>, deflab: nat, u: nat)
    requires |ws| == |labs| && AllRanged(ty, ws) && NoDuplicates(ty, ws) && deflab !in labs && u < Simp.M(ty)
    ensures Target(SwOf(ty, ws, labs, deflab), 0, |ws|, Compared(ty, u)) == Meant(ty, ws, labs, deflab, u) <==> Clear(ty, ws, u)
  {
    var x := Compared(ty, u);
    var i := MeantIs(ty, ws, labs, deflab, u);
    TargetOf(ty, ws, labs, deflab, x);
    forall j | 0 <= j < |ws| ensures ws[j] % Simp.M(ty) == u && !Narrow(ty, u) ==> Recorded(ty, ws[j]) != x
                             ensures ws[j] % Simp.M(ty) == u && Narrow(ty, u) ==> Recorded(ty, ws[j]) == x
                             ensures ty.unsigned ==> 0 - Half(ty) <= Recorded(ty, ws[j]) < Half(ty)
    {
      RecordedIff(ty, ws[j]);
      if ws[j] % Simp.M(ty) == u {
        SameWords(ty, ws[j], u);
      }
    }
    WideApart(ty, u);
    hide Recorded, Compared, Narrow, Target, Meant, Half;
    if i < |ws| {
      assert ws[i] % Simp.M(ty) == u;
      if !Narrow(ty, u) {
        assert forall j | 0 <= j < |ws| :: Recorded(ty, ws[j]) != x;
      }
    }
  }

  lemma SameWords(ty: Simp.Ty, w: int, u: nat)
    requires Simp.Ranged(ty, w) && w % Simp.M(ty) == u
    ensures Narrow(ty, w) <==> Narrow(ty, u)
  {
  }

  /** A wide selector is compared as a number that no unsigned case is recorded as. */
  lemma WideApart(ty: Simp.Ty, u: nat)
    requires u < Simp.M(ty)
    ensures !Narrow(ty, u) ==> ty.unsigned && !(0 - Half(ty) <= Compared(ty, u) < Half(ty))
  {
  }

  /** For every switch as written and every selector: the code reaches the label of the case written with the
      selector's value, or the default, exactly if the selector does not stray and is clear. */
  lemma {:induction false} WrittenCorrect(ty: Simp.Ty, ws: seq<int>, labs: seq<nat>, deflab: nat, b: seq<nat>, next: nat, u: nat)
    requires |ws| == |labs| && AllRanged(ty, ws) && NoDuplicates(ty, ws) && deflab !in labs && u < Simp.M(ty)
    requires Buckets(b, |ws|) && Older(SwOf(ty, ws, labs, deflab), next)
    ensures WellFormed(SwOf(ty, ws, labs, deflab))
    ensures var s := SwOf(ty, ws, labs, deflab);
            Run(SwCodeOf(s, b, 0, |b| - 2, next).0, Compared(ty, u), At) == Going(Meant(ty, ws, labs, deflab, u)) <==>
            !Strays(s, b, 0, |b| - 2, Compared(ty, u)) && Clear(ty, ws, u)
  {
    hide Strays, Target, Run, SwCodeOf, Meant, Compared, Clear, Older, Recorded;
    var s, x := SwOf(ty, ws, labs, deflab), Compared(ty, u);
    CollectedAscending(ty, ws, labs);
    ClearIff(ty, ws, labs, deflab, u);
    SwCodeCorrect(s, b, 0, |b| - 2, next, x);
  }

  /** A switch is right for all selectors exactly if all its cases are narrow and no selector strays. */
  lemma {:induction false} NarrowCases(ty: Simp.Ty, ws: seq<int>, labs: seq<nat>, deflab: nat, b: seq<nat>, next: nat)
    requires |ws| == |labs| && AllRanged(ty, ws) && NoDuplicates(ty, ws) && deflab !in labs
    requires Buckets(b, |ws|) && Older(SwOf(ty, ws, labs, deflab), next)
    ensures WellFormed(SwOf(ty, ws, labs, deflab))
    ensures var s := SwOf(ty, ws, labs, deflab);
            (forall u: nat | u < Simp.M(ty) ::
               Run(SwCodeOf(s, b, 0, |b| - 2, next).0, Compared(ty, u), At) == Going(Meant(ty, ws, labs, deflab, u))) <==>
            (forall i | 0 <= i < |ws| :: Narrow(ty, ws[i]))
            && (forall u: nat | u < Simp.M(ty) :: !Strays(s, b, 0, |b| - 2, Compared(ty, u)))
  {
    CollectedAscending(ty, ws, labs);
    var s := SwOf(ty, ws, labs, deflab);
    forall u: nat | u < Simp.M(ty)
      ensures Run(SwCodeOf(s, b, 0, |b| - 2, next).0, Compared(ty, u), At) == Going(Meant(ty, ws, labs, deflab, u)) <==>
              !Strays(s, b, 0, |b| - 2, Compared(ty, u)) && Clear(ty, ws, u)
    {
      WrittenCorrect(ty, ws, labs, deflab, b, next, u);
    }
    AllClear(ty, ws);
    hide Strays, Run, SwCodeOf, Meant, Compared, Clear, Narrow;
  }

  lemma AllClear(ty: Simp.Ty, ws: seq<int>)
    requires AllRanged(ty, ws)
    ensures (forall u: nat | u < Simp.M(ty) :: Clear(ty, ws, u)) <==> forall i | 0 <= i < |ws| :: Narrow(ty, ws[i])
  {
    if forall i | 0 <= i < |ws| :: Narrow(ty, ws[i]) {
      forall u: nat | u < Simp.M(ty) ensures Clear(ty, ws, u) {
        NarrowClear(ty, ws, u);
      }
    }
    if i :| 0 <= i < |ws| && !Narrow(ty, ws[i]) {
      var u := ws[i] % Simp.M(ty);
      SameWords(ty, ws[i], u);
      hide Narrow, Recorded;
      assert !Clear(ty, ws, u);
    }
  }

  lemma NarrowClear(ty: Simp.Ty, ws: seq<int>, u: nat)
    requires AllRanged(ty, ws) && u < Simp.M(ty) && forall i | 0 <= i < |ws| :: Narrow(ty, ws[i])
    ensures Clear(ty, ws, u)
  {
    forall j | 0 <= j < |ws|
      ensures ws[j] % Simp.M(ty) == u ==> Narrow(ty, u)
      ensures ws[j] % Simp.M(ty) != u ==> Recorded(ty, ws[j]) != Compared(ty, u)
    {
      RecordedIff(ty, ws[j]);
      if ws[j] % Simp.M(ty) == u {
        SameWords(ty, ws[j], u);
      } else {
        ComparedApart(ty, ws[j] % Simp.M(ty), u);
      }
    }
  }

  /** `switch (u) { case 200: ... }` with an unsigned u: 200 goes to the default, 0xffc8 to the case. */
  lemma Case200()
    ensures var ty := Simp.Ty(true, false);
            var s := SwOf(ty, [200], [1], 2);
            var code := SwCodeOf(s, [0, 1], 0, 0, 3).0;
            && WellFormed(s) && s.v == [-56] && Meant(ty, [200], [1], 2, 200) == 1 && Meant(ty, [200], [1], 2, 0xffc8) == 2
            && Run(code, Compared(ty, 200), At) == Going(2) && Run(code, Compared(ty, 0xffc8), At) == Going(1)
  {
    var ty := Simp.Ty(true, false);
    var s := SwOf(ty, [200], [1], 2);
    Recorded200();
    var ws: seq<int> := [200];
    assert Compared(ty, 200) == 200 && Compared(ty, 0xffc8) == -56;
    assert Target(s, 0, 1, 200) == 2 && Target(s, 0, 1, -56) == 1;
    hide SwCodeOf, Run, Compared, Strays, SwOf;
    SingleNeverStrays(s, 200);
    SingleNeverStrays(s, -56);
    SwCodeCorrect(s, [0, 1], 0, 0, 3, 200);
    SwCodeCorrect(s, [0, 1], 0, 0, 3, -56);
  }

  lemma Recorded200()
    ensures var s := SwOf(Simp.Ty(true, false), [200], [1], 2);
            s.v == [-56] && s.labels == [1] && s.deflab == 2
  {
    var ty := Simp.Ty(true, false);
    assert Recorded(ty, 200) == -56;
    assert Collected(ty, [], []) == ([], []);
    var ws: seq<int> := [200];
    assert ws[..0] == [] && [1][..0] == [];
  }

  lemma {:induction false} SingleNeverStrays(s: Sw, x: int)
    requires s.v == [-56] && |s.labels| == 1
    ensures WellFormed(s) && Buckets([0, 1], 1) && !Strays(s, [0, 1], 0, 0, x)
  {
    assert Buckets([0, 1], 1) && Ascending(s.v);
    hide Strays;
    StraysStep(s, [0, 1], 0, 0, x);
  }
}

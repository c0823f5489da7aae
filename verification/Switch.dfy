/** Compilation of `switch` statements (lcc/src/stmt.c:366-484, lcc/src/dag.c:537-548): sorted case
    values are grouped into dense buckets, and a binary search over the buckets ends in comparisons
    or in a jump table. */
module Switch {

  // ----- emitted code -----

  datatype Op = Eq | Lt | Gt

  datatype Instr =
    | Cmp(op: Op, n: int, lab: nat)
    | Branch(lab: nat)
    | Table(first: int, entries: seq<nat>)
    | Define(lab: nat)

  /** A run over the emitted list: at the current position, on the way to a label, or gone astray by
      an index outside a table. */
  datatype Flow = At | Going(lab: nat) | Astray

  predicate Holds(op: Op, x: int, n: int) {
    match op
    case Eq => x == n
    case Lt => x < n
    case Gt => x > n
  }

  function Exec(i: Instr, x: int, f: Flow): Flow {
    match f
    case At =>
      (match i
       case Cmp(op, n, lab) => if Holds(op, x, n) then Going(lab) else At
       case Branch(lab) => Going(lab)
       case Table(first, entries) => if 0 <= x - first < |entries| then Going(entries[x - first]) else Astray
       case Define(_) => At)
    case Going(lab) => if i == Define(lab) then At else f
    case Astray => f
  }

  function Run(code: seq<Instr>, x: int, f: Flow): Flow {
    if code == [] then f else Run(code[1..], x, Exec(code[0], x, f))
  }

  lemma {:induction false} RunAppend(a: seq<Instr>, b: seq<Instr>, x: int, f: Flow)
    ensures Run(a + b, x, f) == Run(b, x, Run(a, x, f))
    decreases |a|
  {
    if a == [] {
      assert a + b == b;
    } else {
      assert (a + b)[1..] == a[1..] + b;
      RunAppend(a[1..], b, x, Exec(a[0], x, f));
    }
  }

  predicate Defines(code: seq<Instr>, lab: nat) {
    exists i | 0 <= i < |code| :: code[i] == Define(lab)
  }

  lemma {:induction false} PassesBy(code: seq<Instr>, x: int, lab: nat)
    requires !Defines(code, lab)
    ensures Run(code, x, Going(lab)) == Going(lab)
    decreases |code|
  {
    if code != [] {
      assert code[0] != Define(lab);
      forall i | 0 <= i < |code[1..]| ensures code[1..][i] != Define(lab) {
        assert code[i + 1] != Define(lab);
      }
      PassesBy(code[1..], x, lab);
    }
  }

  lemma {:induction false} StaysAstray(code: seq<Instr>, x: int)
    ensures Run(code, x, Astray) == Astray
    decreases |code|
  {
    if code != [] {
      StaysAstray(code[1..], x);
    }
  }

  // ----- the switch -----

  /** Case values in ascending order with their labels, and the default label. */
  datatype Sw = Sw(v: seq<int>, labels: seq<nat>, deflab: nat, unsigned: bool)

  predicate Ascending(v: seq<int>) {
    forall i, j | 0 <= i < j < |v| :: v[i] < v[j]
  }

  predicate WellFormed(s: Sw) {
    |s.v| == |s.labels| && Ascending(s.v)
  }

  /** Where a value belongs, looking at cases lo..hi only. */
  function Target(s: Sw, lo: nat, hi: nat, x: int): nat
    requires lo <= hi <= |s.v| && |s.v| == |s.labels|
    decreases hi - lo
  {
    if lo == hi then s.deflab else if s.v[lo] == x then s.labels[lo] else Target(s, lo + 1, hi, x)
  }

  lemma {:induction false} TargetFound(s: Sw, lo: nat, hi: nat, x: int, i: nat)
    requires WellFormed(s) && lo <= i < hi <= |s.v| && s.v[i] == x
    ensures Target(s, lo, hi, x) == s.labels[i]
    decreases hi - lo
  {
    if lo < i {
      TargetFound(s, lo + 1, hi, x, i);
    }
  }

  lemma {:induction false} TargetMissing(s: Sw, lo: nat, hi: nat, x: int)
    requires WellFormed(s) && lo <= hi <= |s.v| && forall i | lo <= i < hi :: s.v[i] != x
    ensures Target(s, lo, hi, x) == s.deflab
    decreases hi - lo
  {
    if lo < hi {
      TargetMissing(s, lo + 1, hi, x);
    }
  }

  lemma {:induction false} TargetSplit(s: Sw, lo: nat, mid: nat, hi: nat, x: int)
    requires WellFormed(s) && lo <= mid <= hi <= |s.v|
    ensures (forall i | lo <= i < mid :: s.v[i] != x) ==> Target(s, lo, hi, x) == Target(s, mid, hi, x)
    ensures (forall i | mid <= i < hi :: s.v[i] != x) ==> Target(s, lo, hi, x) == Target(s, lo, mid, x)
    decreases mid - lo
  {
    if lo < mid {
      TargetSplit(s, lo + 1, mid, hi, x);
    } else if forall i | mid <= i < hi :: s.v[i] != x {
      TargetMissing(s, mid, hi, x);
    }
  }

  // ----- jump tables -----

  /** The table for cases l..u: a label for every value from v[l] to v[u]. */
  function TableOf(s: Sw, l: nat, u: nat): seq<nat>
    requires l <= u < |s.v| && |s.v| == |s.labels| && s.v[l] <= s.v[u]
  {
    seq<nat>(s.v[u] - s.v[l] + 1, j requires 0 <= j => Target(s, l, u + 1, s.v[l] + j))
  }

  /** The Switch case of `emitcode`: the table is written entry by entry, gaps with the default. */
  method EmitTable(s: Sw, l: nat, u: nat) returns (out: seq<nat>)
    requires WellFormed(s) && l <= u < |s.v|
    ensures s.v[l] <= s.v[u] && out == TableOf(s, l, u)
  {
    assert l < u ==> s.v[l] < s.v[u];
    out := [s.labels[l]];
    var i := l + 1;
    while i <= u
      invariant l < i <= u + 1 && s.v[l] <= s.v[i - 1] && |out| == s.v[i - 1] - s.v[l] + 1
      invariant forall j | 0 <= j < |out| :: out[j] == Target(s, l, u + 1, s.v[l] + j)
    {
      var k := s.v[i - 1];
      k := k + 1;
      while k < s.v[i]
        invariant s.v[i - 1] < k <= s.v[i] && |out| == k - s.v[l]
        invariant forall j | 0 <= j < |out| :: out[j] == Target(s, l, u + 1, s.v[l] + j)
      {
        GapIsDefault(s, l, u, i, k);
        out := out + [s.deflab];
        k := k + 1;
      }
      TargetFound(s, l, u + 1, s.v[i], i);
      out := out + [s.labels[i]];
      i := i + 1;
    }
  }

  lemma GapIsDefault(s: Sw, l: nat, u: nat, i: nat, x: int)
    requires WellFormed(s) && l < i <= u < |s.v| && s.v[i - 1] < x < s.v[i]
    ensures Target(s, l, u + 1, x) == s.deflab
  {
    forall j | l <= j < u + 1 ensures s.v[j] != x {
      assert j < i - 1 ==> s.v[j] < s.v[i - 1];
      assert j > i ==> s.v[i] < s.v[j];
    }
    TargetMissing(s, l, u + 1, x);
  }

  // ----- buckets -----

  /** At least every second value between cases i and k is a case. */
  predicate Dense(v: seq<int>, i: nat, k: nat)
    requires i <= k < |v|
  {
    2 * (k - i + 1) >= v[k] - v[i] + 1
  }

  /** Starts of buckets, with the number of cases behind the last. */
  predicate Buckets(b: seq<nat>, m: nat) {
    |b| >= 2 && b[0] == 0 && b[|b| - 1] == m && forall i, j | 0 <= i < j < |b| :: b[i] < b[j]
  }

  predicate BucketDense(v: seq<int>, b: seq<nat>, i: nat)
    requires i + 1 < |b|
  {
    b[i] < b[i + 1] <= |v| && Dense(v, b[i], b[i + 1] - 1)
  }

  predicate AllDense(v: seq<int>, b: seq<nat>) {
    forall i: nat | i + 1 < |b| :: BucketDense(v, b, i)
  }

  /** No two neighbouring buckets together are dense. */
  predicate Settled(v: seq<int>, b: seq<nat>) {
    forall i: nat, j: nat | j == i + 2 < |b| :: Apart(v, b[i], b[j])
  }

  predicate Apart(v: seq<int>, lo: nat, hi: nat) {
    lo < hi <= |v| && !Dense(v, lo, hi - 1)
  }

  lemma SettledMore(v: seq<int>, bs: seq<nat>, k: nat)
    requires Settled(v, bs) && (|bs| >= 2 ==> Apart(v, bs[|bs| - 2], k))
    ensures Settled(v, bs + [k])
  {
  }

  lemma SettledPrefix(v: seq<int>, bs: seq<nat>, n: nat)
    requires Settled(v, bs) && n <= |bs|
    ensures Settled(v, bs[..n])
  {
  }

  /** Buckets of the first k cases, the last one open. */
  predicate Grouped(v: seq<int>, bs: seq<nat>, k: nat)
    requires k <= |v|
  {
    if k == 0 then bs == []
    else Buckets(bs + [k], k) && AllDense(v, bs + [k])
  }

  lemma OpenBucket(v: seq<int>, bs: seq<nat>, k: nat)
    requires k < |v| && Grouped(v, bs, k)
    ensures Grouped(v, bs + [k], k + 1)
  {
    var c := bs + [k] + [k + 1];
    forall i: nat | i + 1 < |c| ensures BucketDense(v, c, i) {
      if i + 1 < |c| - 1 {
        assert BucketDense(v, bs + [k], i);
      }
    }
  }

  lemma MergeLast(v: seq<int>, bs: seq<nat>, k: nat)
    requires k < |v| && |bs| >= 2 && Grouped(v, bs, k + 1) && bs[|bs| - 2] <= k && Dense(v, bs[|bs| - 2], k)
    ensures Grouped(v, bs[..|bs| - 1], k + 1)
  {
    var c, c1 := bs + [k + 1], bs[..|bs| - 1] + [k + 1];
    assert forall j | 0 <= j < |c1| - 1 :: c1[j] == c[j];
    assert c[0] == 0 && c1[0] == 0;
    forall i: nat | i + 1 < |c1| ensures BucketDense(v, c1, i) {
      if i + 1 < |c1| - 1 {
        assert BucketDense(v, c, i);
      }
    }
  }

  /** `swgen`: neighbouring buckets are merged as long as the result is dense; in the end every bucket is
      dense and no two neighbours together are. */
  method SwGen(s: Sw) returns (b: seq<nat>)
    requires WellFormed(s) && |s.v| > 0
    ensures Buckets(b, |s.v|) && AllDense(s.v, b) && Settled(s.v, b)
  {
    hide Grouped, Buckets, AllDense, Settled;
    NoneApart(s.v, [0]);
    var v := s.v;
    var buckets := new nat[|v| + 1](i => 0);
    var n, k := 0, 0;
    assert buckets[..0] + [k] == [0];
    assert buckets[..0] == [];
    NoBuckets(v);
    while k < |v|
      invariant n <= k <= |v| && (k > 0 ==> n > 0) && Grouped(v, buckets[..n], k)
      invariant Settled(v, buckets[..n] + [k])
    {
      ghost var bs := buckets[..n];
      buckets[n] := k;
      OpenBucket(v, bs, k);
      assert buckets[..n + 1] == bs + [k];
      GroupedBelow(v, buckets[..n + 1], k + 1);
      while n > 0 && Dense(v, buckets[n - 1], k)
        invariant n <= k && Grouped(v, buckets[..n + 1], k + 1) && Settled(v, buckets[..n + 1])
        invariant forall i | 0 <= i < n :: buckets[i] <= k
        decreases n
      {
        MergeLast(v, buckets[..n + 1], k);
        assert buckets[..n + 1][..n] == buckets[..n];
        SettledPrefix(v, buckets[..n + 1], n);
        n := n - 1;
      }
      SettledMore(v, buckets[..n + 1], k + 1);
      n := n + 1;
      k := k + 1;
    }
    ghost var bs := buckets[..n];
    buckets[n] := |v|;
    b := buckets[..n + 1];
    assert b == bs + [|v|];
    CloseBuckets(v, bs);
  }

  lemma NoneApart(v: seq<int>, b: seq<nat>)
    requires |b| <= 2
    ensures Settled(v, b)
  {
  }

  lemma NoBuckets(v: seq<int>)
    ensures Grouped(v, [], 0)
  {
  }

  lemma GroupedBelow(v: seq<int>, bs: seq<nat>, k: nat)
    requires k <= |v| && Grouped(v, bs, k)
    ensures forall i | 0 <= i < |bs| :: bs[i] < k
  {
    assert k > 0 ==> forall i | 0 <= i < |bs| :: (bs + [k])[i] == bs[i];
  }

  lemma CloseBuckets(v: seq<int>, bs: seq<nat>)
    requires |v| > 0 && Grouped(v, bs, |v|)
    ensures Buckets(bs + [|v|], |v|) && AllDense(v, bs + [|v|])
  {
  }

  lemma DenseTable(s: Sw, l: nat, u: nat)
    requires WellFormed(s) && l <= u < |s.v| && s.v[l] <= s.v[u]
    ensures |TableOf(s, l, u)| <= 2 * (u - l + 1) <==> Dense(s.v, l, u)
  {
  }

  // ----- the search -----

  /** `swcode` for one bucket: comparisons, or range tests and a table jump. */
  function BucketCode(s: Sw, l: nat, u: nat, hasLow: bool, hasHigh: bool, lolab: nat, hilab: nat): seq<Instr>
    requires WellFormed(s) && l <= u < |s.v|
  {
    if u - l + 1 <= 3 then
      Tests(s, l, u + 1)
      + (if hasLow then [Cmp(Gt, s.v[u], hilab)]
         else if hasHigh then [Cmp(Lt, s.v[l], lolab)]
         else [Branch(lolab)])
    else
      assert s.v[l] < s.v[u];
      (if !s.unsigned || s.v[l] != 0 then [Cmp(Lt, s.v[l], lolab)] else [])
      + [Cmp(Gt, s.v[u], hilab), Table(s.v[l], TableOf(s, l, u))]
  }

  function Tests(s: Sw, lo: nat, hi: nat): seq<Instr>
    requires lo <= hi <= |s.v| && |s.v| == |s.labels|
    decreases hi - lo
  {
    if lo == hi then [] else [Cmp(Eq, s.v[lo], s.labels[lo])] + Tests(s, lo + 1, hi)
  }

  predicate InRange(s: Sw, b: seq<nat>, lb: nat, ub: nat) {
    WellFormed(s) && Buckets(b, |s.v|) && lb <= ub < |b| - 1
  }

  lemma BucketBounds(s: Sw, b: seq<nat>, k: nat)
    requires WellFormed(s) && Buckets(b, |s.v|) && k < |b| - 1
    ensures b[k] < b[k + 1] <= |s.v|
  {
    assert k + 1 < |b| - 1 ==> b[k + 1] < b[|b| - 1];
  }

  /** The labels a turn of `swcode` makes: one for the buckets below the middle, one for those above. */
  function Middle(lb: nat, ub: nat): nat {
    (lb + ub) / 2
  }

  function LowLabel(s: Sw, lb: nat, ub: nat, next: nat): nat {
    if Middle(lb, ub) > lb then next else s.deflab
  }

  function HighLabel(s: Sw, lb: nat, ub: nat, next: nat): nat {
    if Middle(lb, ub) >= ub then s.deflab else if Middle(lb, ub) > lb then next + 1 else next
  }

  function AfterLabels(lb: nat, ub: nat, next: nat): nat {
    next + (if Middle(lb, ub) > lb then 1 else 0) + (if Middle(lb, ub) < ub then 1 else 0)
  }

  function MiddleCode(s: Sw, b: seq<nat>, lb: nat, ub: nat, next: nat): seq<Instr>
    requires InRange(s, b, lb, ub)
  {
    var k := Middle(lb, ub);
    BucketBounds(s, b, k);
    BucketCode(s, b[k], b[k + 1] - 1, k > lb, k < ub, LowLabel(s, lb, ub, next), HighLabel(s, lb, ub, next))
  }

  /** `swcode`: the code for buckets lb..ub, and the next unused label. */
  function SwCodeOf(s: Sw, b: seq<nat>, lb: nat, ub: nat, next: nat): (seq<Instr>, nat)
    requires InRange(s, b, lb, ub)
    decreases ub - lb, 2
  {
    var low := LowPart(s, b, lb, ub, next);
    var high := HighPart(s, b, lb, ub, next, low.1);
    (MiddleCode(s, b, lb, ub, next) + low.0 + high.0, high.1)
  }

  function LowPart(s: Sw, b: seq<nat>, lb: nat, ub: nat, next: nat): (seq<Instr>, nat)
    requires InRange(s, b, lb, ub)
    decreases ub - lb, 1
  {
    var k, start := Middle(lb, ub), AfterLabels(lb, ub, next);
    if k > lb then
      var (code, after) := SwCodeOf(s, b, lb, k - 1, start);
      ([Define(LowLabel(s, lb, ub, next))] + code, after)
    else ([], start)
  }

  function HighPart(s: Sw, b: seq<nat>, lb: nat, ub: nat, next: nat, start: nat): (seq<Instr>, nat)
    requires InRange(s, b, lb, ub)
    decreases ub - lb, 1
  {
    var k := Middle(lb, ub);
    if k < ub then
      var (code, after) := SwCodeOf(s, b, k + 1, ub, start);
      ([Define(HighLabel(s, lb, ub, next))] + code, after)
    else ([], start)
  }

  /** The selector reaches a table whose low test was left out, with a value below the table. */
  predicate Strays(s: Sw, b: seq<nat>, lb: nat, ub: nat, x: int)
    requires InRange(s, b, lb, ub)
    decreases ub - lb
  {
    var k := Middle(lb, ub);
    BucketBounds(s, b, k);
    var l, u := b[k], b[k + 1] - 1;
    if x < s.v[l] then
      if u - l + 1 > 3 && s.unsigned && s.v[l] == 0 then true
      else k > lb && Strays(s, b, lb, k - 1, x)
    else if x > s.v[u] then k < ub && Strays(s, b, k + 1, ub, x)
    else u - l + 1 <= 3 && x !in s.v[l..u + 1] && k == lb && k < ub && Strays(s, b, k + 1, ub, x)
  }

  lemma {:induction false} SignedNeverStrays(s: Sw, b: seq<nat>, lb: nat, ub: nat, x: int)
    requires InRange(s, b, lb, ub) && (!s.unsigned || x >= 0)
    ensures !Strays(s, b, lb, ub, x)
    decreases ub - lb
  {
    hide Strays, Buckets, Ascending;
    StraysStep(s, b, lb, ub, x);
    var k := Middle(lb, ub);
    if k > lb {
      SignedNeverStrays(s, b, lb, k - 1, x);
    }
    if k < ub {
      SignedNeverStrays(s, b, k + 1, ub, x);
    }
  }

  // ----- correctness -----

  /** Labels of cases and default are older than the labels the search makes. */
  predicate Older(s: Sw, next: nat) {
    s.deflab < next && forall i | 0 <= i < |s.labels| :: s.labels[i] < next
  }

  lemma {:induction false} RunTests(s: Sw, lo: nat, hi: nat, x: int)
    requires WellFormed(s) && lo <= hi <= |s.v|
    ensures Run(Tests(s, lo, hi), x, At) ==
            if (exists i | lo <= i < hi :: s.v[i] == x) then Going(Target(s, lo, hi, x)) else At
    decreases hi - lo
  {
    if lo < hi {
      RunTests(s, lo + 1, hi, x);
      var rest := Tests(s, lo + 1, hi);
      assert Tests(s, lo, hi)[1..] == rest;
      assert Tests(s, lo, hi)[0] == Cmp(Eq, s.v[lo], s.labels[lo]);
      if s.v[lo] == x {
        TestsDefineNone(s, lo + 1, hi);
        PassesBy(rest, x, s.labels[lo]);
      }
    }
  }

  /** Where a bucket's code sends a value. */
  function BucketFlow(s: Sw, l: nat, u: nat, hasLow: bool, hasHigh: bool, lolab: nat, hilab: nat, x: int): Flow
    requires WellFormed(s) && l <= u < |s.v|
  {
    if x in s.v[l..u + 1] then Going(Target(s, l, u + 1, x))
    else if u - l + 1 > 3 then
      if x < s.v[l] then (if s.unsigned && s.v[l] == 0 then Astray else Going(lolab))
      else if x > s.v[u] then Going(hilab)
      else Going(s.deflab)
    else if hasLow then (if x > s.v[u] then Going(hilab) else At)
    else if hasHigh then (if x < s.v[l] then Going(lolab) else At)
    else Going(lolab)
  }

  lemma InBucket(s: Sw, l: nat, u: nat, x: int)
    requires WellFormed(s) && l <= u < |s.v|
    ensures x in s.v[l..u + 1] <==> exists i | l <= i < u + 1 :: s.v[i] == x
    ensures x in s.v[l..u + 1] ==> s.v[l] <= x <= s.v[u]
    ensures x !in s.v[l..u + 1] ==> Target(s, l, u + 1, x) == s.deflab
  {
    if i :| l <= i < u + 1 && s.v[i] == x {
      assert s.v[l..u + 1][i - l] == x;
    } else {
      TargetMissing(s, l, u + 1, x);
    }
  }

  lemma {:induction false} BucketRuns(s: Sw, l: nat, u: nat, hasLow: bool, hasHigh: bool, lolab: nat, hilab: nat, x: int)
    requires WellFormed(s) && l <= u < |s.v|
    ensures Run(BucketCode(s, l, u, hasLow, hasHigh, lolab, hilab), x, At) ==
            BucketFlow(s, l, u, hasLow, hasHigh, lolab, hilab, x)
  {
    InBucket(s, l, u, x);
    if u - l + 1 <= 3 {
      RunTests(s, l, u + 1, x);
      var tail := if hasLow then [Cmp(Gt, s.v[u], hilab)] else if hasHigh then [Cmp(Lt, s.v[l], lolab)] else [Branch(lolab)];
      hide Tests, Target;
      RunAppend(Tests(s, l, u + 1), tail, x, At);
      RunOne(tail[0], x, At);
      forall f ensures Run(tail, x, f) == Exec(tail[0], x, f) {
        RunOne(tail[0], x, f);
      }
    } else {
      assert s.v[l] < s.v[u];
      TableRuns(s, l, u, lolab, hilab, x);
    }
  }

  /** The code of a bucket contains no label. */
  lemma BucketDefinesNone(s: Sw, l: nat, u: nat, hasLow: bool, hasHigh: bool, lolab: nat, hilab: nat)
    requires WellFormed(s) && l <= u < |s.v|
    ensures forall lab: nat :: !Defines(BucketCode(s, l, u, hasLow, hasHigh, lolab, hilab), lab)
  {
    if u - l + 1 <= 3 {
      TestsDefineNone(s, l, u + 1);
      var tail := if hasLow then [Cmp(Gt, s.v[u], hilab)] else if hasHigh then [Cmp(Lt, s.v[l], lolab)] else [Branch(lolab)];
      hide Tests;
      DefinesAppend(Tests(s, l, u + 1), tail);
    } else {
      assert s.v[l] < s.v[u];
      hide TableOf;
    }
  }

  lemma {:induction false} TestsDefineNone(s: Sw, lo: nat, hi: nat)
    requires lo <= hi <= |s.v| && |s.v| == |s.labels|
    ensures forall lab: nat :: !Defines(Tests(s, lo, hi), lab)
    decreases hi - lo
  {
    if lo < hi {
      TestsDefineNone(s, lo + 1, hi);
      DefinesAppend([Cmp(Eq, s.v[lo], s.labels[lo])], Tests(s, lo + 1, hi));
    }
  }

  lemma {:induction false} RunOne(i: Instr, x: int, f: Flow)
    ensures Run([i], x, f) == Exec(i, x, f)
  {
    assert [i][1..] == [];
  }

  lemma TableRuns(s: Sw, l: nat, u: nat, lolab: nat, hilab: nat, x: int)
    requires WellFormed(s) && l < u < |s.v| && s.v[l] < s.v[u]
    ensures var low := if !s.unsigned || s.v[l] != 0 then [Cmp(Lt, s.v[l], lolab)] else [];
            Run(low + [Cmp(Gt, s.v[u], hilab), Table(s.v[l], TableOf(s, l, u))], x, At) ==
            if x < s.v[l] then (if s.unsigned && s.v[l] == 0 then Astray else Going(lolab))
            else if x > s.v[u] then Going(hilab)
            else Going(Target(s, l, u + 1, x))
  {
    hide TableOf;
    var low := if !s.unsigned || s.v[l] != 0 then [Cmp(Lt, s.v[l], lolab)] else [];
    var c, t := Cmp(Gt, s.v[u], hilab), Table(s.v[l], TableOf(s, l, u));
    RunAppend(low, [c, t], x, At);
    assert [c, t] == [c] + [t];
    var f := Run(low, x, At);
    RunAppend([c], [t], x, f);
    RunOne(c, x, f);
    RunOne(t, x, Exec(c, x, f));
    if low != [] {
      RunOne(low[0], x, At);
    }
    TableAt(s, l, u, x);
  }

  lemma TableAt(s: Sw, l: nat, u: nat, x: int)
    requires WellFormed(s) && l < u < |s.v| && s.v[l] < s.v[u]
    ensures |TableOf(s, l, u)| == s.v[u] - s.v[l] + 1
    ensures s.v[l] <= x <= s.v[u] ==> TableOf(s, l, u)[x - s.v[l]] == Target(s, l, u + 1, x)
  {
  }

  /** Values beyond a range never stray in it. */
  lemma {:induction false} AboveNeverStrays(s: Sw, b: seq<nat>, lb: nat, ub: nat, x: int)
    requires InRange(s, b, lb, ub) && b[ub + 1] <= |s.v| && forall i | 0 <= i < b[ub + 1] :: s.v[i] < x
    ensures !Strays(s, b, lb, ub, x)
    decreases ub - lb
  {
    var k := Middle(lb, ub);
    BucketBounds(s, b, k);
    assert b[k + 1] <= b[ub + 1];
    assert s.v[b[k + 1] - 1] < x;
    if k < ub {
      AboveNeverStrays(s, b, k + 1, ub, x);
    }
  }

  /** The values of a range of buckets split at bucket k. */
  lemma {:induction false} TargetParts(s: Sw, b: seq<nat>, lb: nat, k: nat, ub: nat, x: int)
    requires InRange(s, b, lb, ub) && lb <= k <= ub
    ensures b[lb] <= b[k] < b[k + 1] <= b[ub + 1] <= |s.v|
    ensures x < s.v[b[k]] ==> Target(s, b[lb], b[ub + 1], x) == Target(s, b[lb], b[k], x)
    ensures x > s.v[b[k + 1] - 1] ==> Target(s, b[lb], b[ub + 1], x) == Target(s, b[k + 1], b[ub + 1], x)
    ensures s.v[b[k]] <= x <= s.v[b[k + 1] - 1] ==>
              && Target(s, b[lb], b[ub + 1], x) == Target(s, b[k], b[k + 1], x)
              && Target(s, b[lb], b[k], x) == s.deflab && Target(s, b[k + 1], b[ub + 1], x) == s.deflab
  {
    BucketBounds(s, b, k);
    BucketBounds(s, b, ub);
    assert lb < k ==> b[lb] < b[k];
    assert k < ub ==> b[k + 1] < b[ub + 1];
    var lo, l, h, hi := b[lb], b[k], b[k + 1], b[ub + 1];
    hide Target;
    if x < s.v[l] {
      assert forall i | l <= i < hi :: s.v[i] != x;
      TargetSplit(s, lo, l, hi, x);
    } else if x > s.v[h - 1] {
      assert forall i | lo <= i < h :: s.v[i] != x;
      TargetSplit(s, lo, h, hi, x);
    } else {
      assert forall i | lo <= i < l :: s.v[i] != x;
      assert forall i | h <= i < hi :: s.v[i] != x;
      TargetSplit(s, lo, l, hi, x);
      TargetSplit(s, l, h, hi, x);
      TargetMissing(s, lo, l, x);
      TargetMissing(s, h, hi, x);
    }
  }

  ghost predicate DefinesWithin(code: seq<Instr>, lo: nat, hi: nat) {
    forall lab: nat | Defines(code, lab) :: lo <= lab < hi
  }

  /** The labels defined in the code are the new ones. */
  lemma {:induction false} LabelsNew(s: Sw, b: seq<nat>, lb: nat, ub: nat, next: nat)
    requires InRange(s, b, lb, ub)
    ensures next <= SwCodeOf(s, b, lb, ub, next).1
    ensures DefinesWithin(SwCodeOf(s, b, lb, ub, next).0, next, SwCodeOf(s, b, lb, ub, next).1)
    decreases ub - lb, 2
  {
    var low := LowPart(s, b, lb, ub, next);
    var high := HighPart(s, b, lb, ub, next, low.1);
    LowNew(s, b, lb, ub, next);
    HighNew(s, b, lb, ub, next, low.1);
    MiddleDefinesNone(s, b, lb, ub, next);
    var middle := MiddleCode(s, b, lb, ub, next);
    assert SwCodeOf(s, b, lb, ub, next) == (middle + low.0 + high.0, high.1);
    hide SwCodeOf, MiddleCode, LowPart, HighPart, Defines;
    forall lab: nat | Defines(middle + low.0 + high.0, lab) ensures next <= lab < high.1 {
      DefinesIn(middle + low.0, high.0, lab);
      DefinesIn(middle, low.0, lab);
    }
  }

  lemma MiddleDefinesNone(s: Sw, b: seq<nat>, lb: nat, ub: nat, next: nat)
    requires InRange(s, b, lb, ub)
    ensures forall lab: nat :: !Defines(MiddleCode(s, b, lb, ub, next), lab)
  {
    hide BucketCode, Defines, Ascending;
    var k := Middle(lb, ub);
    BucketBounds(s, b, k);
    BucketDefinesNone(s, b[k], b[k + 1] - 1, k > lb, k < ub, LowLabel(s, lb, ub, next), HighLabel(s, lb, ub, next));
  }

  lemma {:induction false} LowNew(s: Sw, b: seq<nat>, lb: nat, ub: nat, next: nat)
    requires InRange(s, b, lb, ub)
    ensures var (code, after) := LowPart(s, b, lb, ub, next);
            && AfterLabels(lb, ub, next) <= after
            && forall lab: nat | Defines(code, lab) ::
                 lab == LowLabel(s, lb, ub, next) == next || AfterLabels(lb, ub, next) <= lab < after
    decreases ub - lb, 1
  {
    var k, start := Middle(lb, ub), AfterLabels(lb, ub, next);
    assert k <= lb ==> !exists lab :: Defines(LowPart(s, b, lb, ub, next).0, lab);
    hide SwCodeOf, Defines, DefinesWithin;
    if k > lb {
      LabelsNew(s, b, lb, k - 1, start);
      var (code, after) := SwCodeOf(s, b, lb, k - 1, start);
      HeadedBy(LowLabel(s, lb, ub, next), code, start, after);
    }
  }

  lemma {:induction false} HighNew(s: Sw, b: seq<nat>, lb: nat, ub: nat, next: nat, start: nat)
    requires InRange(s, b, lb, ub)
    ensures var (code, after) := HighPart(s, b, lb, ub, next, start);
            && start <= after
            && forall lab: nat | Defines(code, lab) ::
                 (lab == HighLabel(s, lb, ub, next) && next <= lab < AfterLabels(lb, ub, next)) || start <= lab < after
    decreases ub - lb, 1
  {
    var k := Middle(lb, ub);
    assert k >= ub ==> !exists lab :: Defines(HighPart(s, b, lb, ub, next, start).0, lab);
    hide SwCodeOf, Defines, DefinesWithin;
    if k < ub {
      LabelsNew(s, b, k + 1, ub, start);
      var (code, after) := SwCodeOf(s, b, k + 1, ub, start);
      HeadedBy(HighLabel(s, lb, ub, next), code, start, after);
    }
  }

  lemma OnlyOne(lab: nat, l: nat)
    ensures Defines([Define(lab)], l) <==> l == lab
  {
    assert [Define(lab)][0] == Define(lab);
  }

  lemma DefinesIn(a: seq<Instr>, b: seq<Instr>, lab: nat)
    ensures Defines(a + b, lab) <==> Defines(a, lab) || Defines(b, lab)
  {
    if i :| 0 <= i < |b| && b[i] == Define(lab) {
      assert (a + b)[|a| + i] == Define(lab);
    }
    if i :| 0 <= i < |a| && a[i] == Define(lab) {
      assert (a + b)[i] == Define(lab);
    }
  }

  /** A label in front of code that defines labels of a range only. */
  lemma HeadedBy(h: nat, code: seq<Instr>, lo: nat, hi: nat)
    requires DefinesWithin(code, lo, hi)
    ensures forall lab: nat | Defines([Define(h)] + code, lab) :: lab == h || lo <= lab < hi
  {
    hide Defines;
    forall lab: nat | Defines([Define(h)] + code, lab) ensures lab == h || lo <= lab < hi {
      DefinesIn([Define(h)], code, lab);
      OnlyOne(h, lab);
    }
  }

  /** Code of two parts. */
  lemma DefinesAppend(a: seq<Instr>, b: seq<Instr>)
    ensures forall lab :: Defines(a + b, lab) <==> Defines(a, lab) || Defines(b, lab)
  {
    hide Defines;
    forall lab ensures Defines(a + b, lab) <==> Defines(a, lab) || Defines(b, lab) {
      DefinesIn(a, b, lab);
    }
  }

  lemma {:induction false} TargetOlder(s: Sw, lo: nat, hi: nat, x: int, next: nat)
    requires WellFormed(s) && lo <= hi <= |s.v| && Older(s, next)
    ensures Target(s, lo, hi, x) < next
    decreases hi - lo
  {
    if lo < hi {
      TargetOlder(s, lo + 1, hi, x, next);
    }
  }

  /** The outcome a search over buckets lb..ub must have. */
  function Outcome(s: Sw, b: seq<nat>, lb: nat, ub: nat, x: int): Flow
    requires InRange(s, b, lb, ub)
  {
    BucketBounds(s, b, lb);
    BucketBounds(s, b, ub);
    assert lb < ub ==> b[lb] < b[ub];
    if Strays(s, b, lb, ub, x) then Astray else Going(Target(s, b[lb], b[ub + 1], x))
  }

  lemma {:induction false} LowIs(s: Sw, b: seq<nat>, lb: nat, ub: nat, next: nat)
    requires InRange(s, b, lb, ub) && Older(s, next)
    ensures var k, start := Middle(lb, ub), AfterLabels(lb, ub, next);
            if k > lb then
              var r := SwCodeOf(s, b, lb, k - 1, start);
              && k <= ub && InRange(s, b, lb, k - 1) && Older(s, start) && next < start && HighLabel(s, lb, ub, next) < start
              && LowPart(s, b, lb, ub, next).0 == [Define(next)] + r.0 && DefinesWithin(r.0, start, r.1)
            else LowPart(s, b, lb, ub, next).0 == []
  {
    var k, start := Middle(lb, ub), AfterLabels(lb, ub, next);
    if k > lb {
      LabelsNew(s, b, lb, k - 1, start);
      hide SwCodeOf, DefinesWithin;
    }
  }

  lemma {:induction false} LowRuns(s: Sw, b: seq<nat>, lb: nat, ub: nat, next: nat, x: int, f: Flow)
    requires InRange(s, b, lb, ub) && Older(s, next)
    ensures var r := Run(LowPart(s, b, lb, ub, next).0, x, f);
            var k := Middle(lb, ub);
            if k > lb && (f == At || f == Going(next)) then r == Outcome(s, b, lb, k - 1, x)
            else f == Astray || f == At || (f.Going? && (f.lab < next || f.lab == HighLabel(s, lb, ub, next))) ==> r == f
    decreases ub - lb, 0
  {
    hide *;
    var k, start := Middle(lb, ub), AfterLabels(lb, ub, next);
    LowIs(s, b, lb, ub, next);
    if k > lb {
      var code := SwCodeOf(s, b, lb, k - 1, start).0;
      DefineThen(next, code, x, f);
      if f == At || f == Going(next) {
        SwCodeCorrect(s, b, lb, k - 1, start, x);
      } else if f == Astray {
        StaysAstray(code, x);
      } else if f.lab < next || f.lab == HighLabel(s, lb, ub, next) {
        NotWithin(code, start, SwCodeOf(s, b, lb, k - 1, start).1, f.lab);
        PassesBy(code, x, f.lab);
      }
    } else {
      RunNothing(x, f);
    }
  }

  lemma {:induction false} HighIs(s: Sw, b: seq<nat>, lb: nat, ub: nat, next: nat, start: nat)
    requires InRange(s, b, lb, ub) && Older(s, next) && AfterLabels(lb, ub, next) <= start
    ensures var k := Middle(lb, ub);
            if k < ub then
              var h, r := HighLabel(s, lb, ub, next), SwCodeOf(s, b, k + 1, ub, start);
              && lb <= k && InRange(s, b, k + 1, ub) && Older(s, start) && next <= h && next <= start
              && HighPart(s, b, lb, ub, next, start).0 == [Define(h)] + r.0 && DefinesWithin(r.0, start, r.1)
            else HighPart(s, b, lb, ub, next, start).0 == []
  {
    var k := Middle(lb, ub);
    if k < ub {
      LabelsNew(s, b, k + 1, ub, start);
      hide SwCodeOf, DefinesWithin;
    }
  }

  lemma NotWithin(code: seq<Instr>, from: nat, to: nat, lab: nat)
    requires DefinesWithin(code, from, to) && lab < from
    ensures !Defines(code, lab)
  {
  }

  lemma {:induction false} RunNothing(x: int, f: Flow)
    ensures Run([], x, f) == f
  {
  }

  /** At a label the flow that waits for it goes on. */
  lemma {:induction false} DefineThen(h: nat, code: seq<Instr>, x: int, f: Flow)
    ensures Run([Define(h)] + code, x, f) == Run(code, x, if f == Going(h) then At else f)
  {
    assert ([Define(h)] + code)[1..] == code;
  }

  lemma {:induction false} HighRuns(s: Sw, b: seq<nat>, lb: nat, ub: nat, next: nat, start: nat, x: int, f: Flow)
    requires InRange(s, b, lb, ub) && Older(s, next) && AfterLabels(lb, ub, next) <= start
    ensures var r := Run(HighPart(s, b, lb, ub, next, start).0, x, f);
            var k := Middle(lb, ub);
            if k < ub && (f == At || f == Going(HighLabel(s, lb, ub, next))) then r == Outcome(s, b, k + 1, ub, x)
            else f == Astray || f == At || (f.Going? && f.lab < next) ==> r == f
    decreases ub - lb, 0
  {
    hide *;
    var k := Middle(lb, ub);
    HighIs(s, b, lb, ub, next, start);
    if k < ub {
      var h := HighLabel(s, lb, ub, next);
      var code := SwCodeOf(s, b, k + 1, ub, start).0;
      DefineThen(h, code, x, f);
      if f == At || f == Going(h) {
        SwCodeCorrect(s, b, k + 1, ub, start, x);
      } else if f == Astray {
        StaysAstray(code, x);
      } else if f.lab < next {
        NotWithin(code, start, SwCodeOf(s, b, k + 1, ub, start).1, f.lab);
        PassesBy(code, x, f.lab);
      }
    } else {
      RunNothing(x, f);
    }
  }

  /** Compiled switches are correct: the search ends with a jump to the label of the selector's case,
      or to the default if there is none, and never runs from one part of the search into another;
      only an unsigned selector above the signed range can leave a table that starts at 0. */
  lemma {:induction false} SwCodeCorrect(s: Sw, b: seq<nat>, lb: nat, ub: nat, next: nat, x: int)
    requires InRange(s, b, lb, ub) && Older(s, next)
    ensures Run(SwCodeOf(s, b, lb, ub, next).0, x, At) == Outcome(s, b, lb, ub, x)
    decreases ub - lb, 1
  {
    hide *;
    var mid := MiddleCode(s, b, lb, ub, next);
    var low := LowPart(s, b, lb, ub, next);
    var high := HighPart(s, b, lb, ub, next, low.1);
    CodeParts(s, b, lb, ub, next);
    MiddleRuns(s, b, lb, ub, next, x);
    LowNew(s, b, lb, ub, next);
    RunAppend(mid + low.0, high.0, x, At);
    RunAppend(mid, low.0, x, At);
    var f1 := Run(mid, x, At);
    var f2 := Run(low.0, x, f1);
    var f3 := Run(high.0, x, f2);
    LowRuns(s, b, lb, ub, next, x, f1);
    HighRuns(s, b, lb, ub, next, low.1, x, f2);
    FlowsAre(s, b, lb, ub, next, x, f1, f2, f3);
    OutcomeStep(s, b, lb, ub, next, x, f1, f2, f3);
  }

  lemma {:induction false} CodeParts(s: Sw, b: seq<nat>, lb: nat, ub: nat, next: nat)
    requires InRange(s, b, lb, ub)
    ensures var low := LowPart(s, b, lb, ub, next);
            SwCodeOf(s, b, lb, ub, next).0 == MiddleCode(s, b, lb, ub, next) + low.0 + HighPart(s, b, lb, ub, next, low.1).0
  {
  }

  lemma {:induction false} MiddleRuns(s: Sw, b: seq<nat>, lb: nat, ub: nat, next: nat, x: int)
    requires InRange(s, b, lb, ub)
    ensures Run(MiddleCode(s, b, lb, ub, next), x, At) == MiddleFlow(s, b, lb, ub, next, x)
  {
    hide Run, BucketCode, BucketFlow, Buckets, WellFormed;
    var k := Middle(lb, ub);
    MiddleBounds(lb, ub);
    BucketBounds(s, b, k);
    BucketRuns(s, b[k], b[k + 1] - 1, k > lb, k < ub, LowLabel(s, lb, ub, next), HighLabel(s, lb, ub, next), x);
  }

  lemma MiddleBounds(lb: nat, ub: nat)
    requires lb <= ub
    ensures lb <= Middle(lb, ub) <= ub
  {
  }

  lemma {:induction false} FlowsAre(s: Sw, b: seq<nat>, lb: nat, ub: nat, next: nat, x: int, f1: Flow, f2: Flow, f3: Flow)
    requires InRange(s, b, lb, ub) && f1 == MiddleFlow(s, b, lb, ub, next, x)
    requires var k := Middle(lb, ub);
             if k > lb && (f1 == At || f1 == Going(next)) then f2 == Outcome(s, b, lb, k - 1, x)
             else f1 == Astray || f1 == At || (f1.Going? && (f1.lab < next || f1.lab == HighLabel(s, lb, ub, next))) ==> f2 == f1
    requires var k := Middle(lb, ub);
             if k < ub && (f2 == At || f2 == Going(HighLabel(s, lb, ub, next))) then f3 == Outcome(s, b, k + 1, ub, x)
             else f2 == Astray || f2 == At || (f2.Going? && f2.lab < next) ==> f3 == f2
    ensures Flows(s, b, lb, ub, next, x, f1, f2, f3)
  {
    hide MiddleFlow, Outcome, InRange;
  }

  function MiddleFlow(s: Sw, b: seq<nat>, lb: nat, ub: nat, next: nat, x: int): Flow
    requires InRange(s, b, lb, ub)
  {
    var k := Middle(lb, ub);
    BucketBounds(s, b, k);
    BucketFlow(s, b[k], b[k + 1] - 1, k > lb, k < ub, LowLabel(s, lb, ub, next), HighLabel(s, lb, ub, next), x)
  }

  /** The flows before, between and behind the parts of the search. */
  ghost predicate Flows(s: Sw, b: seq<nat>, lb: nat, ub: nat, next: nat, x: int, f1: Flow, f2: Flow, f3: Flow)
    requires InRange(s, b, lb, ub)
  {
    var k := Middle(lb, ub);
    && f1 == MiddleFlow(s, b, lb, ub, next, x)
    && (if k > lb && (f1 == At || f1 == Going(next)) then f2 == Outcome(s, b, lb, k - 1, x)
        else f1 == Astray || f1 == At || (f1.Going? && (f1.lab < next || f1.lab == HighLabel(s, lb, ub, next))) ==> f2 == f1)
    && (if k < ub && (f2 == At || f2 == Going(HighLabel(s, lb, ub, next))) then f3 == Outcome(s, b, k + 1, ub, x)
        else f2 == Astray || f2 == At || (f2.Going? && f2.lab < next) ==> f3 == f2)
  }

  function Out(strays: bool, target: nat): Flow {
    if strays then Astray else Going(target)
  }

  /** The parts fit together: what is left of the argument when the values have been compared. */
  lemma Glue(hasLow: bool, hasHigh: bool, small: bool, inCase: bool, side: int, skip: bool, next: nat, deflab: nat,
             middle: nat, below: nat, above: nat, all: nat, strayLow: bool, strayHigh: bool, stray: bool,
             f1: Flow, f2: Flow, f3: Flow)
    requires middle < next && below < next && above < next && deflab < next
    requires side < 0 ==> !inCase && all == below && (!hasLow ==> below == deflab)
    requires side > 0 ==> !inCase && all == above && (!hasHigh ==> above == deflab)
    requires side == 0 ==> all == middle && below == above == deflab && (!inCase ==> middle == deflab) && (hasLow ==> !strayLow)
    requires stray <==> if side < 0 then (!small && skip) || (hasLow && strayLow)
                        else if side > 0 then hasHigh && strayHigh
                        else small && !inCase && !hasLow && hasHigh && strayHigh
    requires var lolab := if hasLow then next else deflab;
             var hilab := if !hasHigh then deflab else if hasLow then next + 1 else next;
             && f1 == (if inCase then Going(middle)
                       else if !small then
                         if side < 0 then (if skip then Astray else Going(lolab))
                         else if side > 0 then Going(hilab) else Going(deflab)
                       else if hasLow then (if side > 0 then Going(hilab) else At)
                       else if hasHigh then (if side < 0 then Going(lolab) else At)
                       else Going(lolab))
             && (if hasLow && (f1 == At || f1 == Going(next)) then f2 == Out(strayLow, below)
                 else f1 == Astray || f1 == At || (f1.Going? && (f1.lab < next || f1.lab == hilab)) ==> f2 == f1)
             && (if hasHigh && (f2 == At || f2 == Going(hilab)) then f3 == Out(strayHigh, above)
                 else f2 == Astray || f2 == At || (f2.Going? && f2.lab < next) ==> f3 == f2)
    ensures f3 == Out(stray, all)
  {
  }

  /** What is known about the values on both sides of the middle bucket. */
  lemma SideFacts(s: Sw, b: seq<nat>, lb: nat, ub: nat, next: nat, x: int, lo: nat, l: nat, u: nat, hi: nat)
    requires lo <= l <= u < hi <= |s.v| == |s.labels|
    requires InRange(s, b, lb, ub) && Older(s, next)
    requires lo == b[lb] && l == b[Middle(lb, ub)] && u + 1 == b[Middle(lb, ub) + 1] && hi == b[ub + 1]
    ensures var (middle, below, above) := (Target(s, l, u + 1, x), Target(s, lo, l, x), Target(s, u + 1, hi, x));
            var all := Target(s, lo, hi, x);
            && middle < next && below < next && above < next && s.deflab < next
            && (lo == l ==> below == s.deflab) && (hi == u + 1 ==> above == s.deflab)
            && s.v[l] <= s.v[u] && (x in s.v[l..u + 1] ==> s.v[l] <= x <= s.v[u])
            && (x !in s.v[l..u + 1] ==> middle == s.deflab)
            && (x < s.v[l] ==> all == below) && (x > s.v[u] ==> all == above)
            && (s.v[l] <= x <= s.v[u] ==> all == middle && below == above == s.deflab)
  {
    hide Strays;
    var k := Middle(lb, ub);
    TargetParts(s, b, lb, k, ub, x);
    InBucket(s, l, u, x);
    TargetOlder(s, l, u + 1, x, next);
    TargetOlder(s, lo, l, x, next);
    TargetOlder(s, u + 1, hi, x, next);
  }

  lemma InsideNeverStrays(s: Sw, b: seq<nat>, lb: nat, k: nat, x: int)
    requires k >= 1 && InRange(s, b, lb, k - 1) && b[k] < |s.v| && s.v[b[k]] <= x
    ensures !Strays(s, b, lb, k - 1, x)
  {
    assert forall i | 0 <= i < b[k] :: s.v[i] < x;
    AboveNeverStrays(s, b, lb, k - 1, x);
  }

  lemma OutcomeStep(s: Sw, b: seq<nat>, lb: nat, ub: nat, next: nat, x: int, f1: Flow, f2: Flow, f3: Flow)
    requires InRange(s, b, lb, ub) && Older(s, next) && Flows(s, b, lb, ub, next, x, f1, f2, f3)
    ensures f3 == Outcome(s, b, lb, ub, x)
  {
    hide Target, Strays, Buckets, Ascending, Older, SwCodeOf, Run;
    var k := Middle(lb, ub);
    TargetParts(s, b, lb, k, ub, x);
    var l, u := b[k], b[k + 1] - 1;
    SideFacts(s, b, lb, ub, next, x, b[lb], l, u, b[ub + 1]);
    StraysStep(s, b, lb, ub, x);
    if s.v[l] <= x <= s.v[u] && k > lb {
      InsideNeverStrays(s, b, lb, k, x);
    }
    var side := if x < s.v[l] then -1 else if x > s.v[u] then 1 else 0;
    Glue(k > lb, k < ub, u - l + 1 <= 3, x in s.v[l..u + 1], side, s.unsigned && s.v[l] == 0, next, s.deflab,
         Target(s, l, u + 1, x), Target(s, b[lb], l, x), Target(s, u + 1, b[ub + 1], x), Target(s, b[lb], b[ub + 1], x),
         k > lb && Strays(s, b, lb, k - 1, x), k < ub && Strays(s, b, k + 1, ub, x), Strays(s, b, lb, ub, x), f1, f2, f3);
  }

  lemma StraysStep(s: Sw, b: seq<nat>, lb: nat, ub: nat, x: int)
    requires InRange(s, b, lb, ub)
    ensures var k := Middle(lb, ub);
            && b[k] < b[k + 1] <= |s.v|
            && var l, u := b[k], b[k + 1] - 1;
               Strays(s, b, lb, ub, x) <==>
               if x < s.v[l] then (u - l + 1 > 3 && s.unsigned && s.v[l] == 0) || (k > lb && Strays(s, b, lb, k - 1, x))
               else if x > s.v[u] then k < ub && Strays(s, b, k + 1, ub, x)
               else u - l + 1 <= 3 && x !in s.v[l..u + 1] && k == lb && k < ub && Strays(s, b, k + 1, ub, x)
  {
    BucketBounds(s, b, Middle(lb, ub));
  }

  /** For signed selectors, and for unsigned ones in the signed range, without reservation. */
  lemma {:induction false} SwitchCorrect(s: Sw, b: seq<nat>, next: nat, x: int)
    requires WellFormed(s) && Buckets(b, |s.v|) && Older(s, next)
    ensures var code := SwCodeOf(s, b, 0, |b| - 2, next).0;
            && (Run(code, x, At) == Going(Target(s, 0, |s.v|, x)) <==> !Strays(s, b, 0, |b| - 2, x))
            && (!s.unsigned || x >= 0 ==> Run(code, x, At) == Going(Target(s, 0, |s.v|, x)))
  {
    hide SwCodeOf, Strays, Target, Run;
    SwCodeCorrect(s, b, 0, |b| - 2, next, x);
    if !s.unsigned || x >= 0 {
      SignedNeverStrays(s, b, 0, |b| - 2, x);
    }
  }

  /** Four dense cases from 0 on, an unsigned selector of 0xffff: the jump leaves the table. */
  lemma UnsignedStrays()
    ensures var s := Sw([0, 1, 2, 3], [1, 2, 3, 4], 5, true);
            Run(SwCodeOf(s, [0, 4], 0, 0, 6).0, -1, At) == Astray
  {
    var s := Sw([0, 1, 2, 3], [1, 2, 3, 4], 5, true);
    var b: seq<nat> := [0, 4];
    assert Ascending(s.v) && Buckets(b, 4);
    hide Strays, SwCodeOf, Run, Target, Ascending, Buckets;
    StraysStep(s, b, 0, 0, -1);
    SwCodeCorrect(s, b, 0, 0, 6, -1);
  }

  // ----- the compiler's own steps -----

  predicate Sorted(v: seq<int>) {
    forall i, j | 0 <= i < j < |v| :: v[i] <= v[j]
  }

  /** The place of a value: in front of all values that are not smaller. */
  function Place(v: seq<int>, val: int): (k: nat)
    ensures k <= |v| && forall i | 0 <= i < k :: v[i] < val
    ensures k < |v| ==> v[k] >= val
  {
    if v == [] || v[0] >= val then 0 else 1 + Place(v[1..], val)
  }

  function Inserted<T>(a: seq<T>, k: nat, x: T): seq<T>
    requires k <= |a|
  {
    a[..k] + [x] + a[k..]
  }

  /** Inserting new values keeps the cases ascending. */
  lemma {:induction false} InsertedAscending(v: seq<int>, val: int)
    requires Ascending(v) && val !in v
    ensures Ascending(Inserted(v, Place(v, val), val))
  {
    var k := Place(v, val);
    assert k < |v| ==> v[k] != val;
    forall i, j | 0 <= i < j < |v| + 1
      ensures Inserted(v, k, val)[i] < Inserted(v, k, val)[j]
    {
      assert k < j ==> v[k] <= v[j - 1];
    }
  }

  /** `struct swtch` while the cases are collected. */
  class Swtch {
    var size: nat
    var values: array<int>
    var labels: array<int>
    var ncases: nat

    ghost predicate Valid()
      reads this, values, labels
    {
      && 0 < size == values.Length == labels.Length && ncases <= size && values != labels
      && Sorted(values[..ncases])
    }

    constructor (n: nat)
      requires n > 0
      ensures Valid() && ncases == 0 && fresh(values) && fresh(labels)
    {
      size, ncases := n, 0;
      values := new int[n](i => 0);
      labels := new int[n](i => 0);
    }

    /** Twice the room, same cases. */
    method Grow()
      requires Valid() && ncases == size
      modifies this
      ensures Valid() && ncases == old(ncases) && size == 2 * old(size)
      ensures fresh(values) && fresh(labels)
      ensures values[..ncases] == old(values[..ncases]) && labels[..ncases] == old(labels[..ncases])
    {
      var vals, labs := values, labels;
      size := size * 2;
      values := new int[size](i => 0);
      labels := new int[size](i => 0);
      var k := 0;
      while k < ncases
        invariant k <= ncases == old(ncases) && values.Length == labels.Length == size == 2 * old(size)
        invariant fresh(values) && fresh(labels) && values != labels && values != vals && vals == old(values) && labs == old(labels)
        invariant values[..k] == old(values[..ncases])[..k] && labels[..k] == old(labels[..ncases])[..k]
        invariant vals[..] == old(vals[..]) && labs[..] == old(labs[..])
      {
        values[k] := vals[k];
        labels[k] := labs[k];
        k := k + 1;
      }
      assert k == ncases;
      assert values[..ncases] == old(values[..ncases]) && labels[..ncases] == old(labels[..ncases]);
    }

    /** The loop of `caselabel`: larger and equal cases move up by one. */
    method ShiftUp(val: int) returns (k: nat)
      requires Valid() && ncases < size
      modifies values, labels
      ensures k == Place(old(values[..ncases]), val)
      ensures forall i | 0 <= i < k :: values[i] == old(values[i]) && labels[i] == old(labels[i])
      ensures forall i | k <= i < ncases :: values[i + 1] == old(values[i]) && labels[i + 1] == old(labels[i])
      ensures k < ncases ==> values[k] == old(values[k])
    {
      hide Place, Sorted, Inserted;
      ghost var v0 := values[..ncases];
      k := ncases;
      while k > 0 && values[k - 1] >= val
        invariant k <= ncases
        invariant forall i | 0 <= i < k :: values[i] == old(values[i]) && labels[i] == old(labels[i])
        invariant forall i | k <= i < ncases :: values[i + 1] == old(values[i]) && labels[i + 1] == old(labels[i])
        invariant k < ncases ==> values[k] == old(values[k]) >= val
      {
        values[k] := values[k - 1];
        labels[k] := labels[k - 1];
        k := k - 1;
      }
      PlaceIs(v0, val, k);
    }

    /** `caselabel`: the case goes to its place; a duplicate is reported. */
    method CaseLabel(val: int, lab: int) returns (duplicate: bool)
      requires Valid()
      modifies this, values, labels
      ensures Valid() && ncases == old(ncases) + 1
      ensures var k := Place(old(values[..ncases]), val);
              && values[..ncases] == Inserted(old(values[..ncases]), k, val)
              && labels[..ncases] == Inserted(old(labels[..ncases]), k, lab)
      ensures duplicate <==> val in old(values[..ncases])
      ensures (values == old(values) || fresh(values)) && (labels == old(labels) || fresh(labels))
    {
      hide Place;
      ghost var v0, l0 := values[..ncases], labels[..ncases];
      if ncases >= size {
        Grow();
      }
      assert v0 == values[..ncases] && l0 == labels[..ncases];
      label Shifting:
      var k := ShiftUp(val);
      duplicate := k < ncases && values[k] == val;
      FoundAt(v0, val, k);
      assert forall i | 0 <= i < ncases :: v0[i] == old@Shifting(values[i]) && l0[i] == old@Shifting(labels[i]);
      Store(k, val, lab, v0, l0);
    }

    method Store(k: nat, val: int, lab: int, ghost v0: seq<int>, ghost l0: seq<int>)
      requires size == values.Length == labels.Length && ncases < size && k <= ncases == |v0| == |l0| && values != labels
      requires Sorted(v0) && k == Place(v0, val)
      requires forall i | 0 <= i < k :: values[i] == v0[i] && labels[i] == l0[i]
      requires forall i | k <= i < ncases :: values[i + 1] == v0[i] && labels[i + 1] == l0[i]
      modifies this`ncases, values, labels
      ensures Valid() && ncases == old(ncases) + 1
      ensures values[..ncases] == Inserted(v0, k, val) && labels[..ncases] == Inserted(l0, k, lab)
    {
      hide Place, Sorted;
      InsertedSorted(v0, val);
      values[k] := val;
      labels[k] := lab;
      ncases := ncases + 1;
      assert forall i | k < i < ncases :: values[i] == v0[i - 1] && labels[i] == l0[i - 1];
      assert values[..ncases] == Inserted(v0, k, val);
      assert labels[..ncases] == Inserted(l0, k, lab);
    }
  }

  lemma {:induction false} PlaceIs(v: seq<int>, val: int, k: nat)
    requires Sorted(v) && k <= |v| && (k > 0 ==> v[k - 1] < val) && (k < |v| ==> v[k] >= val)
    ensures Place(v, val) == k
  {
    SortedAbove(v, Place(v, val));
  }

  lemma SortedAbove(v: seq<int>, i: nat)
    requires Sorted(v)
    ensures i < |v| ==> forall j | i <= j < |v| :: v[i] <= v[j]
  {
  }

  lemma {:induction false} FoundAt(v: seq<int>, val: int, k: nat)
    requires Sorted(v) && k == Place(v, val)
    ensures val in v <==> k < |v| && v[k] == val
  {
    if val in v {
      var i :| 0 <= i < |v| && v[i] == val;
      assert k <= i;
    }
  }

  lemma {:induction false} InsertedSorted(v: seq<int>, val: int)
    requires Sorted(v)
    ensures Sorted(Inserted(v, Place(v, val), val))
  {
  }

  lemma {:induction false} PartsOf(s: Sw, b: seq<nat>, lb: nat, ub: nat, next: nat)
    requires InRange(s, b, lb, ub)
    ensures var (k, start) := (Middle(lb, ub), AfterLabels(lb, ub, next));
            var (mid, low) := (MiddleCode(s, b, lb, ub, next), LowPart(s, b, lb, ub, next));
            var high := HighPart(s, b, lb, ub, next, low.1);
            && SwCodeOf(s, b, lb, ub, next) == (mid + low.0 + high.0, high.1)
            && b[k] < b[k + 1] <= |s.v|
            && mid == BucketCode(s, b[k], b[k + 1] - 1, k > lb, k < ub, LowLabel(s, lb, ub, next), HighLabel(s, lb, ub, next))
            && (k > lb ==> low == ([Define(next)] + SwCodeOf(s, b, lb, k - 1, start).0, SwCodeOf(s, b, lb, k - 1, start).1))
            && (k <= lb ==> low == ([], start))
            && (k < ub ==> high == ([Define(HighLabel(s, lb, ub, next))] + SwCodeOf(s, b, k + 1, ub, low.1).0,
                                    SwCodeOf(s, b, k + 1, ub, low.1).1))
            && (k >= ub ==> high == ([], low.1))
  {
    BucketBounds(s, b, Middle(lb, ub));
    hide BucketCode, Buckets, Ascending;
  }

  /** The code list and the label counter. */
  class Emitter {
    var codelist: seq<Instr>
    var label_: nat

    method GenLabel() returns (lab: nat)
      modifies this`label_
      ensures lab == old(label_) && label_ == old(label_) + 1
    {
      lab := label_;
      label_ := label_ + 1;
    }

    method Emit(i: Instr)
      modifies this`codelist
      ensures codelist == old(codelist) + [i]
    {
      codelist := codelist + [i];
    }

    /** The part of `swcode` for the middle bucket. */
    method Bucket(s: Sw, l: nat, u: nat, hasLow: bool, hasHigh: bool, lolab: nat, hilab: nat)
      requires WellFormed(s) && l <= u < |s.v|
      modifies this`codelist
      ensures codelist == old(codelist) + BucketCode(s, l, u, hasLow, hasHigh, lolab, hilab)
    {
      if u - l + 1 <= 3 {
        var i := l;
        while i <= u
          invariant l <= i <= u + 1
          invariant codelist + Tests(s, i, u + 1) == old(codelist) + Tests(s, l, u + 1)
        {
          Assoc(codelist, [Cmp(Eq, s.v[i], s.labels[i])], Tests(s, i + 1, u + 1));
          Emit(Cmp(Eq, s.v[i], s.labels[i]));
          i := i + 1;
        }
        assert codelist == old(codelist) + Tests(s, l, u + 1);
        ghost var tests := Tests(s, l, u + 1);
        if hasLow && hasHigh {
          Emit(Cmp(Gt, s.v[u], hilab));
          Assoc(old(codelist), tests, [Cmp(Gt, s.v[u], hilab)]);
        } else if hasLow {
          Emit(Cmp(Gt, s.v[u], hilab));
          Assoc(old(codelist), tests, [Cmp(Gt, s.v[u], hilab)]);
        } else if hasHigh {
          Emit(Cmp(Lt, s.v[l], lolab));
          Assoc(old(codelist), tests, [Cmp(Lt, s.v[l], lolab)]);
        } else {
          Emit(Branch(lolab));
          Assoc(old(codelist), tests, [Branch(lolab)]);
        }
      } else {
        if !s.unsigned || s.v[l] != 0 {
          Emit(Cmp(Lt, s.v[l], lolab));
        }
        Emit(Cmp(Gt, s.v[u], hilab));
        var table := EmitTable(s, l, u);
        Emit(Table(s.v[l], table));
      }
    }

    method SwCode(s: Sw, b: seq<nat>, lb: nat, ub: nat)
      requires InRange(s, b, lb, ub)
      modifies this
      ensures codelist == old(codelist) + SwCodeOf(s, b, lb, ub, old(label_)).0
      ensures label_ == SwCodeOf(s, b, lb, ub, old(label_)).1
      decreases ub - lb
    {
      hide SwCodeOf, LowPart, HighPart, MiddleCode, BucketCode, Buckets, Ascending;
      ghost var c0, next := codelist, label_;
      var k := (lb + ub) / 2;
      BucketBounds(s, b, k);
      PartsOf(s, b, lb, ub, next);
      var lolab, hilab := s.deflab, s.deflab;
      if k > lb {
        lolab := GenLabel();
      }
      if k < ub {
        hilab := GenLabel();
      }
      Bucket(s, b[k], b[k + 1] - 1, k > lb, k < ub, lolab, hilab);
      ghost var mid := MiddleCode(s, b, lb, ub, next);
      assert codelist == c0 + mid && label_ == AfterLabels(lb, ub, next);
      ghost var low := LowPart(s, b, lb, ub, next);
      if k > lb {
        Emit(Define(lolab));
        SwCode(s, b, lb, k - 1);
        Assoc(c0 + mid, [Define(lolab)], SwCodeOf(s, b, lb, k - 1, AfterLabels(lb, ub, next)).0);
      }
      assert codelist == c0 + mid + low.0 && label_ == low.1;
      ghost var high := HighPart(s, b, lb, ub, next, low.1);
      if k < ub {
        Emit(Define(hilab));
        SwCode(s, b, k + 1, ub);
        Assoc(c0 + mid + low.0, [Define(hilab)], SwCodeOf(s, b, k + 1, ub, low.1).0);
      }
      assert codelist == c0 + mid + low.0 + high.0 && label_ == high.1;
      Assoc(c0, mid, low.0);
      Assoc(c0, mid + low.0, high.0);
    }

    /** The whole of `swgen`: buckets, then the search over all of them. */
    method Generate(s: Sw) returns (ghost b: seq<nat>)
      requires WellFormed(s) && |s.v| > 0
      modifies this
      ensures Buckets(b, |s.v|) && AllDense(s.v, b) && Settled(s.v, b)
      ensures codelist == old(codelist) + SwCodeOf(s, b, 0, |b| - 2, old(label_)).0
    {
      var buckets := SwGen(s);
      SwCode(s, buckets, 0, |buckets| - 2);
      b := buckets;
    }
  }

  lemma Assoc<T>(a: seq<T>, b: seq<T>, c: seq<T>)
    ensures a + b + c == a + (b + c)
  {
  }
}

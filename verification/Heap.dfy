/** The kernel heap (os/malloc.c): first fit over doubly linked headers that lie in front of the
    blocks in a 16-bit word memory. */
module Heap {
  import opened Words

  const HEADER: nat := 4

  /** A block with its header: where it starts, its size with the header, and whether it is free. */
  datatype Block = Block(addr: nat, size: nat, free: bool)

  // ----- well-formed heaps -----

  /** The blocks tile the memory from begin to end. */
  ghost predicate Tiles(bs: seq<Block>, begin: nat, end: nat) {
    && |bs| > 0 && bs[0].addr == begin && bs[|bs| - 1].addr + bs[|bs| - 1].size == end
    && (forall i | 0 <= i < |bs| :: bs[i].size >= HEADER)
    && (forall i, j | 0 <= i && j == i + 1 < |bs| :: bs[j].addr == bs[i].addr + bs[i].size)
  }

  /** No two neighbours are both free. */
  ghost predicate Coalesced(bs: seq<Block>) {
    forall i, j | 0 <= i && j == i + 1 < |bs| :: !(bs[i].free && bs[j].free)
  }

  function NextAddr(bs: seq<Block>, i: nat): nat {
    if i + 1 < |bs| then bs[i + 1].addr else 0
  }

  function PrevAddr(bs: seq<Block>, i: nat): nat {
    if 0 < i <= |bs| then bs[i - 1].addr else 0
  }

  /** The header of block i as it must be in memory. */
  ghost predicate HeaderAt(m: seq<Word>, bs: seq<Block>, i: nat)
    requires |m| == 0x10000 && i < |bs| && bs[i].addr + HEADER <= 0x10000
  {
    HeaderIs(m, bs[i].addr, NextAddr(bs, i), PrevAddr(bs, i), bs[i].size, bs[i].free)
  }

  ghost predicate HeaderIs(m: seq<Word>, a: nat, next: nat, prev: nat, size: nat, free: bool)
    requires |m| == 0x10000 && a + HEADER <= 0x10000
  {
    m[a] == next && m[a + 1] == prev && m[a + 2] == size && m[a + 3] == if free then 1 else 0
  }

  ghost predicate WellFormed(m: seq<Word>, bs: seq<Block>, begin: nat, end: nat) {
    && |m| == 0x10000 && 0 < begin && end <= 0xffff && Tiles(bs, begin, end) && Coalesced(bs)
    && forall i | 0 <= i < |bs| :: bs[i].addr + HEADER <= 0x10000 && HeaderAt(m, bs, i)
  }

  lemma {:induction false} Ordered(bs: seq<Block>, begin: nat, end: nat, i: nat, j: nat)
    requires Tiles(bs, begin, end) && i < j <= |bs|
    ensures begin <= bs[i].addr && bs[i].addr + bs[i].size <= (if j < |bs| then bs[j].addr else end)
    decreases j
  {
    if j == i + 1 {
      if i > 0 {
        Ordered(bs, begin, end, i - 1, i);
      }
    } else {
      Ordered(bs, begin, end, i, j - 1);
    }
  }

  /** Payloads of different blocks never overlap. */
  lemma PayloadsDisjoint(bs: seq<Block>, begin: nat, end: nat, i: nat, j: nat, a: nat)
    requires Tiles(bs, begin, end) && i < |bs| && j < |bs| && i != j
    requires bs[i].addr <= a < bs[i].addr + bs[i].size
    ensures !(bs[j].addr <= a < bs[j].addr + bs[j].size)
  {
    if i < j {
      Ordered(bs, begin, end, i, j);
    } else {
      Ordered(bs, begin, end, j, i);
    }
  }

  function Total(bs: seq<Block>): nat {
    if bs == [] then 0 else bs[|bs| - 1].size + Total(bs[..|bs| - 1])
  }

  /** The sizes always add up to the size of the heap. */
  lemma {:induction false} TotalConserved(bs: seq<Block>, begin: nat, end: nat)
    requires Tiles(bs, begin, end)
    ensures Total(bs) == end - begin
    decreases |bs|
  {
    var k := |bs| - 1;
    if k > 0 {
      assert bs[k].addr == bs[k - 1].addr + bs[k - 1].size;
      TotalConserved(bs[..k], begin, bs[k].addr);
    } else {
      assert bs[..k] == [];
    }
  }

  /** When everything has been freed there is one block again. */
  lemma AllFreeIsOne(m: seq<Word>, bs: seq<Block>, begin: nat, end: nat)
    requires WellFormed(m, bs, begin, end) && forall i | 0 <= i < |bs| :: bs[i].free
    ensures bs == [Block(begin, end - begin, true)]
  {
    if |bs| > 1 {
      NotBothFree(bs);
    }
  }

  lemma NotBothFree(bs: seq<Block>)
    requires Coalesced(bs) && |bs| > 1
    ensures !(bs[0].free && bs[1].free)
  {
  }

  // ----- what malloc and free do to the blocks -----

  function FirstFit(bs: seq<Block>, sz: nat): (i: nat)
    ensures i <= |bs| && (i < |bs| ==> bs[i].free && bs[i].size >= sz + HEADER)
    ensures forall j | 0 <= j < i :: !(bs[j].free && bs[j].size >= sz + HEADER)
  {
    if bs == [] then 0
    else if bs[0].free && bs[0].size >= sz + HEADER then 0
    else 1 + FirstFit(bs[1..], sz)
  }

  /** Block i is taken for sz words; the rest is split off when a payload is left for it. */
  function Taken(bs: seq<Block>, i: nat, sz: nat): seq<Block>
    requires i < |bs|
  {
    var b := bs[i];
    if b.size > sz + 2 * HEADER then
      bs[..i] + [Block(b.addr, sz + HEADER, false), Block(b.addr + sz + HEADER, b.size - sz - HEADER, true)] + bs[i + 1..]
    else bs[i := b.(free := false)]
  }

  /** Block i + 1 is added to block i. */
  function Merged(bs: seq<Block>, i: nat): seq<Block>
    requires i + 1 < |bs|
  {
    bs[..i] + [bs[i].(size := bs[i].size + bs[i + 1].size)] + bs[i + 2..]
  }

  function MergedForward(bs: seq<Block>, i: nat): seq<Block>
    requires i < |bs|
  {
    if i + 1 < |bs| && bs[i + 1].free then Merged(bs, i) else bs
  }

  function MergedBackward(bs: seq<Block>, i: nat): seq<Block>
    requires i < |bs|
  {
    if i > 0 && bs[i - 1].free then Merged(bs, i - 1) else bs
  }

  function Freed(bs: seq<Block>, i: nat): seq<Block>
    requires i < |bs|
  {
    MergedBackward(MergedForward(bs[i := bs[i].(free := true)], i), i)
  }

  lemma FitsInHeap(bs: seq<Block>, begin: nat, end: nat, i: nat)
    requires Tiles(bs, begin, end) && i < |bs|
    ensures begin <= bs[i].addr && bs[i].addr + bs[i].size <= end
  {
    Ordered(bs, begin, end, i, i + 1);
    if i + 1 < |bs| {
      Ordered(bs, begin, end, i + 1, |bs|);
    }
  }

  lemma TakenTiles(bs: seq<Block>, begin: nat, end: nat, i: nat, sz: nat)
    requires Tiles(bs, begin, end) && Coalesced(bs) && i < |bs| && bs[i].free && bs[i].size >= sz + HEADER
    ensures Tiles(Taken(bs, i, sz), begin, end) && Coalesced(Taken(bs, i, sz))
  {
    var b, r := bs[i], Taken(bs, i, sz);
    if b.size > sz + 2 * HEADER {
      forall j, k | 0 <= j && k == j + 1 < |r|
        ensures r[k].addr == r[j].addr + r[j].size && r[j].size >= HEADER && r[k].size >= HEADER
        ensures !(r[j].free && r[k].free)
      {
        TakenPair(bs, i, sz, j);
      }
      TakenEnds(bs, i, sz);
      hide Taken;
    }
  }

  lemma TakenEnds(bs: seq<Block>, i: nat, sz: nat)
    requires i < |bs| && bs[i].size > sz + 2 * HEADER
    ensures var r := Taken(bs, i, sz);
            && |r| == |bs| + 1 && r[0].addr == bs[0].addr
            && r[|bs|].addr + r[|bs|].size == bs[|bs| - 1].addr + bs[|bs| - 1].size
  {
  }

  lemma TakenPair(bs: seq<Block>, i: nat, sz: nat, j: nat)
    requires i < |bs| && j < |bs| && bs[i].free && bs[i].size > sz + 2 * HEADER
    requires forall x | 0 <= x < |bs| :: bs[x].size >= HEADER
    requires forall x, y | 0 <= x && y == x + 1 < |bs| :: bs[y].addr == bs[x].addr + bs[x].size && !(bs[x].free && bs[y].free)
    ensures var r := Taken(bs, i, sz);
            && |r| == |bs| + 1 && r[j + 1].addr == r[j].addr + r[j].size && r[j].size >= HEADER && r[j + 1].size >= HEADER
            && !(r[j].free && r[j + 1].free)
  {
    var r := Taken(bs, i, sz);
    if j + 1 < i {
      assert r[j] == bs[j] && r[j + 1] == bs[j + 1];
    } else if j > i + 1 {
      assert r[j] == bs[j - 1] && r[j + 1] == bs[j];
    } else if j == i + 1 {
      assert r[j + 1] == bs[j];
    }
  }

  lemma MergedTiles(bs: seq<Block>, begin: nat, end: nat, i: nat)
    requires Tiles(bs, begin, end) && i + 1 < |bs|
    ensures Tiles(Merged(bs, i), begin, end)
  {
    var r := Merged(bs, i);
    assert forall j | 0 <= j < i :: r[j] == bs[j];
    assert forall j | i < j < |r| :: r[j] == bs[j + 1];
    assert bs[i + 1].addr == bs[i].addr + bs[i].size;
  }

  /** Freeing keeps the tiling and never leaves two free neighbours. */
  lemma FreedTiles(bs: seq<Block>, begin: nat, end: nat, i: nat)
    requires Tiles(bs, begin, end) && Coalesced(bs) && i < |bs| && !bs[i].free
    ensures Tiles(Freed(bs, i), begin, end) && Coalesced(Freed(bs, i))
  {
    var b1 := bs[i := bs[i].(free := true)];
    assert Tiles(b1, begin, end);
    var b2 := MergedForward(b1, i);
    if i + 1 < |b1| && b1[i + 1].free {
      MergedTiles(b1, begin, end, i);
    }
    if i > 0 && b2[i - 1].free {
      MergedTiles(b2, begin, end, i - 1);
    }
    hide Tiles;
    FreedCoalesced(bs, i);
  }

  lemma FreedCoalesced(bs: seq<Block>, i: nat)
    requires Coalesced(bs) && i < |bs| && !bs[i].free
    ensures Coalesced(Freed(bs, i))
  {
    var b1 := bs[i := bs[i].(free := true)];
    var b2 := MergedForward(b1, i);
    assert forall j | 0 <= j < i :: b2[j] == bs[j];
    assert i + 1 < |b2| ==> !b2[i + 1].free;
    assert forall j, k | i < j && k == j + 1 < |b2| :: !(b2[j].free && b2[k].free);
    var b3 := MergedBackward(b2, i);
    if i > 0 && b2[i - 1].free {
      assert forall j | 0 <= j < i - 1 :: b3[j] == b2[j];
      assert forall j | i - 1 < j < |b3| :: b3[j] == b2[j + 1];
    }
  }

  /** Freeing what has just been allocated gives the heap back as it was. */
  lemma TakenFreed(bs: seq<Block>, i: nat, sz: nat)
    requires Coalesced(bs) && i < |bs| && bs[i].free && bs[i].size >= sz + HEADER
    ensures Freed(Taken(bs, i, sz), i) == bs
  {
    var b, r := bs[i], Taken(bs, i, sz);
    assert i > 0 ==> !bs[i - 1].free;
    assert i + 1 < |bs| ==> !bs[i + 1].free;
    if b.size > sz + 2 * HEADER {
      var r1 := r[i := r[i].(free := true)];
      assert r1[i + 1].free;
      assert Merged(r1, i) == bs;
    } else {
      assert r[i := r[i].(free := true)] == bs;
    }
  }

  /** The test `iter->size > sz + 2 * sizeof(Marker_t)` is done on 16-bit words: it accepts only
      blocks that are large enough exactly for requests below 65528 words. */
  lemma SplitTest(size: Word, sz: Word)
    requires size > W(sz + 2 * HEADER)
    ensures size > sz + 2 * HEADER <==> sz < 0x10000 - 2 * HEADER
  {
  }

  // ----- the headers in memory -----

  /** Every other block lies before or behind block i. */
  lemma AllOrdered(bs: seq<Block>, begin: nat, end: nat, i: nat)
    requires Tiles(bs, begin, end) && i < |bs|
    ensures begin <= bs[i].addr && bs[i].addr + bs[i].size <= end && |bs| > 0
    ensures forall j | 0 <= j < |bs| :: bs[j].size >= HEADER
    ensures i + 1 < |bs| ==> bs[i + 1].addr == bs[i].addr + bs[i].size
    ensures i > 0 ==> bs[i].addr == bs[i - 1].addr + bs[i - 1].size
    ensures forall j | 0 <= j < i :: begin <= bs[j].addr && bs[j].addr + bs[j].size <= bs[i].addr
    ensures forall j | i < j < |bs| :: bs[i].addr + bs[i].size <= bs[j].addr && bs[j].addr + bs[j].size <= end
  {
    FitsInHeap(bs, begin, end, i);
    forall j | 0 <= j < i ensures begin <= bs[j].addr && bs[j].addr + bs[j].size <= bs[i].addr {
      Ordered(bs, begin, end, j, i);
    }
    forall j | i < j < |bs| ensures bs[i].addr + bs[i].size <= bs[j].addr && bs[j].addr + bs[j].size <= end {
      Ordered(bs, begin, end, i, j);
      FitsInHeap(bs, begin, end, j);
    }
  }

  /** The memory after block i has been marked. */
  function MarkedMem(m: seq<Word>, a: nat, free: bool): (r: seq<Word>)
    requires |m| == 0x10000 && a + HEADER <= 0x10000
    ensures |r| == 0x10000
  {
    m[a + 3 := if free then 1 else 0]
  }

  lemma MarkedHeaders(m: seq<Word>, bs: seq<Block>, begin: nat, end: nat, i: nat, free: bool)
    requires Headers(m, bs) && 0 < begin && end <= 0xffff && Tiles(bs, begin, end) && i < |bs|
    ensures Headers(MarkedMem(m, bs[i].addr, free), bs[i := bs[i].(free := free)])
  {
    hide Tiles;
    AllOrdered(bs, begin, end, i);
    var m1, b1 := MarkedMem(m, bs[i].addr, free), bs[i := bs[i].(free := free)];
    forall j | 0 <= j < |b1| ensures b1[j].addr + HEADER <= 0x10000 && HeaderAt(m1, b1, j) {
      assert HeaderAt(m, bs, j);
      assert NextAddr(b1, j) == NextAddr(bs, j) && PrevAddr(b1, j) == PrevAddr(bs, j);
      hide NextAddr, PrevAddr;
      if j != i {
        HeaderSame(m, m1, bs[j].addr, NextAddr(bs, j), PrevAddr(bs, j), bs[j].size, bs[j].free);
      }
    }
  }

  lemma HeaderSame(m: seq<Word>, m1: seq<Word>, a: nat, next: nat, prev: nat, size: nat, free: bool)
    requires |m| == |m1| == 0x10000 && a + HEADER <= 0x10000 && HeaderIs(m, a, next, prev, size, free)
    requires m1[a] == m[a] && m1[a + 1] == m[a + 1] && m1[a + 2] == m[a + 2] && m1[a + 3] == m[a + 3]
    ensures HeaderIs(m1, a, next, prev, size, free)
  {
  }

  ghost predicate Headers(m: seq<Word>, bs: seq<Block>) {
    |m| == 0x10000 && forall i | 0 <= i < |bs| :: bs[i].addr + HEADER <= 0x10000 && HeaderAt(m, bs, i)
  }

  /** The memory after the split: a new header at n between block a and its successor. */
  function SplitMem(m: seq<Word>, a: nat, n: nat, next: nat, size: Word, rest: Word): (r: seq<Word>)
    requires |m| == 0x10000 && a + HEADER <= 0x10000 && n + HEADER <= 0x10000 && next + 1 < 0x10000
    ensures |r| == 0x10000
  {
    var m1 := m[n + 1 := a][n := next];
    var m2 := if next != 0 then m1[next + 1 := n] else m1;
    m2[n + 2 := rest][n + 3 := 1][a := n][a + 2 := size][a + 3 := 0]
  }

  lemma SplitHeaders(m: seq<Word>, bs: seq<Block>, begin: nat, end: nat, i: nat, sz: nat)
    requires Headers(m, bs) && 0 < begin && end <= 0xffff && Tiles(bs, begin, end) && i < |bs|
    requires bs[i].size > sz + 2 * HEADER
    ensures NextAddr(bs, i) + 1 < 0x10000 && bs[i].addr + sz + 2 * HEADER <= 0x10000 && bs[i].size <= 0xffff
    ensures var a := bs[i].addr;
            Headers(SplitMem(m, a, a + sz + HEADER, NextAddr(bs, i), sz + HEADER, bs[i].size - sz - HEADER), Taken(bs, i, sz))
  {
    hide Tiles, SplitMem, HeaderIs, NextAddr, PrevAddr, Taken;
    AllOrdered(bs, begin, end, i);
    NextIs(bs, begin, end, i);
    if i + 1 < |bs| {
      AllOrdered(bs, begin, end, i + 1);
    }
    TakenAt(bs, i, sz, i);
    var a, r := bs[i].addr, Taken(bs, i, sz);
    var n, next, e := a + sz + HEADER, NextAddr(bs, i), a + bs[i].size;
    var size, rest: Word := sz + HEADER, bs[i].size - sz - HEADER;
    var m1 := SplitMem(m, a, n, next, size, rest);
    assert HeaderAt(m, bs, i);
    SplitFacts(m, a, n, next, size, rest, e, PrevAddr(bs, i), bs[i].size, bs[i].free);
    forall j | 0 <= j < |r| ensures r[j].addr + HEADER <= 0x10000 && HeaderAt(m1, r, j) {
      TakenAt(bs, i, sz, j);
      if j < i {
        assert HeaderAt(m, bs, j);
        HeaderSame(m, m1, bs[j].addr, NextAddr(bs, j), PrevAddr(bs, j), bs[j].size, bs[j].free);
      } else if j > i + 1 {
        assert HeaderAt(m, bs, j - 1);
        SplitBehind(m, m1, bs, i, n, j);
      }
    }
  }

  lemma SplitFacts(m: seq<Word>, a: nat, n: nat, next: nat, size: Word, rest: Word, e: nat, prev: nat, was: nat, free: bool)
    requires |m| == 0x10000 && a + HEADER <= n && n + HEADER <= e <= 0xffff && (next == 0 || next == e) && next + 1 < 0x10000
    requires HeaderIs(m, a, next, prev, was, free)
    ensures var m1 := SplitMem(m, a, n, next, size, rest);
            && HeaderIs(m1, a, n, prev, size, false) && HeaderIs(m1, n, next, a, rest, true)
            && (forall x | 0 <= x < a :: m1[x] == m[x])
            && (forall x | e <= x < 0x10000 :: m1[x] == if next != 0 && x == e + 1 then n else m[x])
  {
  }

  /** The blocks after a split, and their neighbours. */
  lemma TakenAt(bs: seq<Block>, i: nat, sz: nat, j: nat)
    requires i < |bs| && bs[i].size > sz + 2 * HEADER && j <= |bs|
    ensures var r := Taken(bs, i, sz);
            var n := bs[i].addr + sz + HEADER;
            && |r| == |bs| + 1
            && (j < i ==> r[j] == bs[j] && NextAddr(r, j) == NextAddr(bs, j) && PrevAddr(r, j) == PrevAddr(bs, j))
            && (j == i ==> r[j] == Block(bs[i].addr, sz + HEADER, false) && NextAddr(r, j) == n && PrevAddr(r, j) == PrevAddr(bs, i))
            && (j == i + 1 ==> r[j] == Block(n, bs[i].size - sz - HEADER, true) && NextAddr(r, j) == NextAddr(bs, i)
                               && PrevAddr(r, j) == bs[i].addr)
            && (j > i + 1 ==> r[j] == bs[j - 1] && NextAddr(r, j) == NextAddr(bs, j - 1)
                              && PrevAddr(r, j) == if j == i + 2 then n else PrevAddr(bs, j - 1))
  {
    var r := Taken(bs, i, sz);
    assert j > i + 1 && j + 1 < |r| ==> r[j + 1] == bs[j];
    assert j > i + 2 ==> r[j - 1] == bs[j - 2];
  }

  lemma SplitBehind(m: seq<Word>, m1: seq<Word>, bs: seq<Block>, i: nat, n: nat, j: nat)
    requires |m| == |m1| == 0x10000 && i + 1 < j <= |bs| && bs[j - 1].addr + HEADER <= 0x10000 && HeaderAt(m, bs, j - 1)
    requires bs[i + 1].addr <= bs[j - 1].addr && (j > i + 2 ==> bs[i + 1].addr + HEADER <= bs[j - 1].addr)
    requires forall x | bs[i + 1].addr <= x < 0x10000 :: m1[x] == if x == bs[i + 1].addr + 1 then n else m[x]
    ensures HeaderIs(m1, bs[j - 1].addr, NextAddr(bs, j - 1), if j == i + 2 then n else PrevAddr(bs, j - 1), bs[j - 1].size, bs[j - 1].free)
  {
    hide NextAddr, PrevAddr;
  }

  /** The memory after block i has taken in its successor. */
  function MergeMem(m: seq<Word>, a: nat, size: Word, next: nat): (r: seq<Word>)
    requires |m| == 0x10000 && a + HEADER <= 0x10000 && next + 1 < 0x10000
    ensures |r| == 0x10000
  {
    var m1 := m[a + 2 := size][a := next];
    if next != 0 then m1[next + 1 := a] else m1
  }

  lemma MergeHeaders(m: seq<Word>, bs: seq<Block>, begin: nat, end: nat, i: nat)
    requires Headers(m, bs) && 0 < begin && end <= 0xffff && Tiles(bs, begin, end) && i + 1 < |bs|
    ensures bs[i].size + bs[i + 1].size <= 0xffff && NextAddr(bs, i + 1) + 1 < 0x10000
    ensures Headers(MergeMem(m, bs[i].addr, bs[i].size + bs[i + 1].size, NextAddr(bs, i + 1)), Merged(bs, i))
  {
    hide Tiles, MergeMem, HeaderIs, NextAddr, PrevAddr, Merged;
    AllOrdered(bs, begin, end, i);
    AllOrdered(bs, begin, end, i + 1);
    NextIs(bs, begin, end, i);
    NextIs(bs, begin, end, i + 1);
    if i + 2 < |bs| {
      AllOrdered(bs, begin, end, i + 2);
    }
    MergedAt(bs, i, i);
    var a, r, next := bs[i].addr, Merged(bs, i), NextAddr(bs, i + 1);
    var e := bs[i + 1].addr + bs[i + 1].size;
    var size: Word := bs[i].size + bs[i + 1].size;
    var m1 := MergeMem(m, a, size, next);
    assert HeaderAt(m, bs, i);
    MergeFacts(m, a, size, next, e, bs[i + 1].addr, PrevAddr(bs, i), bs[i].size, bs[i].free);
    forall j | 0 <= j < |r| ensures r[j].addr + HEADER <= 0x10000 && HeaderAt(m1, r, j) {
      MergedAt(bs, i, j);
      if j < i {
        assert HeaderAt(m, bs, j);
        HeaderSame(m, m1, bs[j].addr, NextAddr(bs, j), PrevAddr(bs, j), bs[j].size, bs[j].free);
      } else if j > i {
        assert HeaderAt(m, bs, j + 1);
        SplitBehind(m, m1, bs, i + 1, a, j + 2);
      }
    }
  }

  lemma NextIs(bs: seq<Block>, begin: nat, end: nat, i: nat)
    requires Tiles(bs, begin, end) && i < |bs| && 0 < begin && end <= 0xffff
    ensures NextAddr(bs, i) == if i + 1 < |bs| then bs[i].addr + bs[i].size else 0
    ensures i + 1 < |bs| ==> NextAddr(bs, i) == bs[i + 1].addr
    ensures NextAddr(bs, i) + 1 < 0x10000
  {
    hide Tiles;
    AllOrdered(bs, begin, end, i);
  }

  lemma MergeFacts(m: seq<Word>, a: nat, size: Word, next: nat, e: nat, was: nat, prev: nat, size0: nat, free: bool)
    requires |m| == 0x10000 && a + HEADER <= e <= 0xffff && (next == 0 || next == e) && next + 1 < 0x10000
    requires HeaderIs(m, a, was, prev, size0, free)
    ensures var m1 := MergeMem(m, a, size, next);
            && HeaderIs(m1, a, next, prev, size, free)
            && (forall x | 0 <= x < a :: m1[x] == m[x])
            && (forall x | e <= x < 0x10000 :: m1[x] == if next != 0 && x == e + 1 then a else m[x])
  {
  }

  lemma MergedAt(bs: seq<Block>, i: nat, j: nat)
    requires i + 1 < |bs| && j < |bs| - 1
    ensures var r := Merged(bs, i);
            && |r| == |bs| - 1
            && (j < i ==> r[j] == bs[j] && NextAddr(r, j) == NextAddr(bs, j) && PrevAddr(r, j) == PrevAddr(bs, j))
            && (j == i ==> r[j] == bs[i].(size := bs[i].size + bs[i + 1].size) && NextAddr(r, j) == NextAddr(bs, i + 1)
                           && PrevAddr(r, j) == PrevAddr(bs, i))
            && (j > i ==> r[j] == bs[j + 1] && NextAddr(r, j) == NextAddr(bs, j + 1)
                          && PrevAddr(r, j) == if j == i + 1 then bs[i].addr else PrevAddr(bs, j + 1))
  {
    var r := Merged(bs, i);
    assert j > i && j + 1 < |r| ==> r[j + 1] == bs[j + 2];
    assert j > i + 1 ==> r[j - 1] == bs[j];
  }

  /** Memory inside the payload of a live block. */
  predicate InPayload(b: Block, x: nat) {
    b.addr + HEADER <= x < b.addr + b.size
  }

  ghost predicate PayloadsKept(m: seq<Word>, m1: seq<Word>, bs: seq<Block>)
    requires |m| == |m1| == 0x10000
  {
    forall j, x | 0 <= j < |bs| && !bs[j].free && 0 <= x < 0x10000 && InPayload(bs[j], x) :: m1[x] == m[x]
  }

  // ----- the allocator -----

  /** Both tests of `malloc` on a block, as done on 16-bit words. */
  predicate Accepts(b: Block, sz: Word) {
    b.free && (b.size > W(sz + 2 * HEADER) || b.size >= W(sz + HEADER))
  }

  /** An answer for sz words is good: null, or a block with room for them in a memory that reads as a
      well-formed heap. */
  ghost predicate Adequate(m: seq<Word>, p: Word, sz: Word) {
    p == 0 || exists bs: seq<Block>, begin: nat, end: nat, k: nat ::
      Ok(m, bs, begin, end) && k < |bs| && p == bs[k].addr + HEADER && bs[k].size >= sz + HEADER
  }

  class Allocator {
    const mem: array<Word>
    var malloc_head: Word
    ghost var blocks: seq<Block>
    ghost var begin: nat
    ghost var end: nat

    ghost predicate Valid()
      reads this, mem
    {
      mem.Length == 0x10000 && malloc_head == begin && Ok(mem[..], blocks, begin, end)
    }

    constructor (mem: array<Word>)
      requires mem.Length == 0x10000
      ensures this.mem == mem
    {
      this.mem := mem;
      malloc_head, blocks, begin, end := 0, [], 0, 0;
    }

    /** `malloc_init`: one free block. */
    method Init(b: Word, e: Word)
      requires mem.Length == 0x10000 && 0 < b && b + HEADER <= e
      modifies this, mem
      ensures Valid() && begin == b && end == e && blocks == [Block(b, e - b, true)]
    {
      malloc_head := b;
      mem[b] := 0;
      mem[b + 1] := 0;
      mem[b + 2] := e - b;
      mem[b + 3] := 1;
      blocks, begin, end := [Block(b, e - b, true)], b, e;
    }

    /** Block i has been taken for sz words, and no payload was touched. */
    twostate predicate Gave(i: nat, sz: nat)
      reads this, mem
    {
      && Valid() && begin == old(begin) && end == old(end) && i < |old(blocks)| && mem.Length == 0x10000
      && blocks == Taken(old(blocks), i, sz) && PayloadsKept(old(mem[..]), mem[..], old(blocks))
    }

    /** `malloc`; the size tests are done on 16-bit words. */
    method Malloc(sz: Word) returns (p: Word)
      requires Valid()
      modifies this`blocks, mem
      ensures sz < 0x10000 - 2 * HEADER && FirstFit(old(blocks), sz) < |old(blocks)| ==>
                p == old(blocks)[FirstFit(old(blocks), sz)].addr + HEADER && Gave(FirstFit(old(blocks), sz), sz)
      ensures sz < 0x10000 - 2 * HEADER && FirstFit(old(blocks), sz) == |old(blocks)| ==>
                p == 0 && blocks == old(blocks) && mem[..] == old(mem[..])
      ensures p == 0 <==> forall j | 0 <= j < |old(blocks)| :: !Accepts(old(blocks)[j], sz)
      ensures Adequate(mem[..], p, sz) <==>
              sz < 0x10000 - 2 * HEADER || forall j | 0 <= j < |old(blocks)| :: !Accepts(old(blocks)[j], sz)
    {
      hide Ok, Taken, FirstFit, PayloadsKept, Adequate, Accepts, NextAddr, PrevAddr, W;
      var iter := malloc_head;
      ghost var i := 0;
      ghost var bs := blocks;
      HeadFacts(mem[..], bs, begin, end);
      while iter != 0
        invariant blocks == bs && mem[..] == old(mem[..]) && Valid()
        invariant i <= |bs| && (iter == 0 <==> i == |bs|) && (i < |bs| ==> iter == bs[i].addr)
        invariant forall j | 0 <= j < i :: !Accepts(bs[j], sz)
        decreases |bs| - i
      {
        BlockFacts(mem[..], bs, begin, end, i);
        NextFacts(bs, i);
        AcceptsIs(bs[i], sz);
        NoWrapAt(iter);
        if mem[iter + 3] != 0 {
          if mem[iter + 2] > W(sz + 2 * HEADER) {
            ChosenFit(bs, sz, i);
            Split(iter, sz, i);
            return W(iter + HEADER);
          } else if mem[iter + 2] >= W(sz + HEADER) {
            ChosenFit(bs, sz, i);
            Take(iter, sz, i);
            return W(iter + HEADER);
          }
        }
        iter := mem[iter];
        i := i + 1;
      }
      NoneFits(bs, sz);
      p := 0;
      NullAdequate(mem[..], sz);
    }

    /** The branch that splits the block; a request near 65536 words makes the new header wrap. */
    method Split(iter: Word, sz: Word, ghost i: nat)
      requires Valid() && i < |blocks| && iter == blocks[i].addr && blocks[i].free
      requires blocks[i].size > W(sz + 2 * HEADER)
      requires iter + HEADER <= 0x10000
      modifies this`blocks, mem
      ensures sz < 0x10000 - 2 * HEADER ==> Gave(i, sz)
      ensures sz >= 0x10000 - 2 * HEADER ==> mem[..] == SplitWords(old(mem[..]), iter, sz)
      ensures iter + HEADER < 0x10000 && (Adequate(mem[..], iter + HEADER, sz) <==> sz < 0x10000 - 2 * HEADER)
    {
      hide Ok, Taken, PayloadsKept, SplitWords, Adequate;
      ghost var bs, m := blocks, mem[..];
      BlockFacts(m, bs, begin, end, i);
      SplitWrites(iter, sz);
      if sz < 0x10000 - 2 * HEADER {
        blocks := Taken(bs, i, sz);
        SplitOk(m, bs, begin, end, i, sz);
        assert m[iter] == 0 || m[iter] == iter + bs[i].size by { NextAfter(m, bs, begin, end, i); }
        SplitNoWrap(m, iter, sz, bs[i].size);
        GivenAdequate(mem[..], bs, begin, end, i, sz);
      } else {
        HugeSplitInadequate(m, iter, sz);
      }
    }

    /** The assignments of the splitting branch, in order. */
    method SplitWrites(iter: Word, sz: Word)
      requires mem.Length == 0x10000 && iter + HEADER <= 0x10000
      modifies mem
      ensures mem[..] == SplitWords(old(mem[..]), iter, sz)
    {
      var newEntry := W(iter + sz + HEADER);
      hide W;
      LinkNew(iter, newEntry);
      SetWord(newEntry, 2, W(mem[iter + 2] - sz - HEADER));
      SetWord(newEntry, 3, 1);
      SetWord(iter, 0, newEntry);
      SetWord(iter, 2, W(sz + HEADER));
      SetWord(iter, 3, 0);
    }

    /** The links of the new header. */
    method LinkNew(iter: Word, newEntry: Word)
      requires mem.Length == 0x10000
      modifies mem
      ensures mem[..] == LinkWords(old(mem[..]), iter, newEntry)
    {
      SetWord(newEntry, 1, iter);
      var next := mem[iter];
      SetWord(newEntry, 0, next);
      assert W(newEntry + 0) == newEntry;
      if mem[newEntry] != 0 {
        SetWord(mem[newEntry], 1, newEntry);
      }
    }

    /** One field of a header. */
    method SetWord(p: Word, field: nat, v: Word)
      requires mem.Length == 0x10000
      modifies mem
      ensures mem[..] == old(mem[..])[W(p + field) := v]
    {
      mem[W(p + field)] := v;
    }

    /** The branch that takes the whole block. */
    method Take(iter: Word, sz: Word, ghost i: nat)
      requires Valid() && i < |blocks| && iter == blocks[i].addr && blocks[i].free
      requires W(sz + HEADER) <= blocks[i].size <= W(sz + 2 * HEADER)
      modifies this`blocks, mem
      ensures sz < 0x10000 - 2 * HEADER ==> Gave(i, sz)
      ensures iter + HEADER < 0x10000 && (Adequate(mem[..], iter + HEADER, sz) <==> sz < 0x10000 - 2 * HEADER)
    {
      hide Ok, Taken, PayloadsKept, Adequate;
      ghost var bs, m := blocks, mem[..];
      BlockFacts(m, bs, begin, end, i);
      mem[iter + 3] := 0;
      if sz < 0x10000 - 2 * HEADER {
        blocks := Taken(bs, i, sz);
        TakeOk(m, bs, begin, end, i, sz);
        assert mem[..] == MarkedMem(m, iter, false);
        GivenAdequate(mem[..], bs, begin, end, i, sz);
      } else {
        HugeTakeInadequate(mem[..], iter, sz, bs[i].size);
      }
    }

    /** `free`: the block is marked, then merged with a free successor and a free predecessor. */
    method Free(ptr: Word, ghost i: nat)
      requires Valid() && i < |blocks| && ptr == blocks[i].addr + HEADER && !blocks[i].free
      modifies this`blocks, mem
      ensures Valid() && begin == old(begin) && end == old(end)
      ensures blocks == Freed(old(blocks), i)
      ensures PayloadsKept(old(mem[..]), mem[..], old(blocks)[i := old(blocks)[i].(free := true)])
    {
      hide Ok, Linked, Tiles, Headers, Coalesced, PayloadsKept, Merged, Freed;
      ghost var bs, m := blocks, mem[..];
      BlockFacts(m, bs, begin, end, i);
      OkIsLinked(m, bs, begin, end);
      var it := W(ptr - HEADER);
      mem[it + 3] := 1;
      blocks := bs[i := bs[i].(free := true)];
      assert mem[..] == MarkedMem(m, it, true);
      MarkLinked(m, bs, begin, end, i);
      ghost var b1, m1 := blocks, mem[..];
      MergeForward(it, i);
      ghost var b2, m2 := blocks, mem[..];
      StillThere(b1, i);
      MergeBackward(it, i);
      FreedIs(bs, i);
      KeptThrice(m, m1, m2, mem[..], bs, i);
      FreedTilesToo(m, bs, begin, end, i);
      LinkedIsOk(mem[..], blocks, begin, end);
    }

    method MergeForward(it: Word, ghost i: nat)
      requires mem.Length == 0x10000 && Linked(mem[..], blocks, begin, end) && i < |blocks| && it == blocks[i].addr
      modifies this`blocks, mem
      ensures Linked(mem[..], blocks, begin, end) && blocks == MergedForward(old(blocks), i)
      ensures PayloadsKept(old(mem[..]), mem[..], old(blocks))
    {
      hide Linked, Tiles, Headers, Coalesced, PayloadsKept, Merged;
      LinkedFacts(mem[..], blocks, begin, end, i);
      KeptSame(mem[..], blocks);
      if mem[it] != 0 {
        LinkedFacts(mem[..], blocks, begin, end, i + 1);
        if mem[mem[it] + 3] != 0 {
          MergeLinked(mem[..], blocks, begin, end, i);
          MergeWrites(it, mem[it]);
          blocks := Merged(blocks, i);
        }
      }
    }

    method MergeBackward(it: Word, ghost i: nat)
      requires mem.Length == 0x10000 && Linked(mem[..], blocks, begin, end) && i < |blocks| && it == blocks[i].addr
      modifies this`blocks, mem
      ensures Linked(mem[..], blocks, begin, end) && blocks == MergedBackward(old(blocks), i)
      ensures PayloadsKept(old(mem[..]), mem[..], old(blocks))
    {
      hide Linked, Tiles, Headers, Coalesced, PayloadsKept, Merged;
      LinkedFacts(mem[..], blocks, begin, end, i);
      KeptSame(mem[..], blocks);
      if mem[it + 1] != 0 {
        LinkedFacts(mem[..], blocks, begin, end, i - 1);
        if mem[mem[it + 1] + 3] != 0 {
          MergeLinked(mem[..], blocks, begin, end, i - 1);
          MergeWrites(mem[it + 1], it);
          blocks := Merged(blocks, i - 1);
        }
      }
    }

    /** The assignments of a merge: block b disappears into block a in front of it. */
    method MergeWrites(a: Word, b: Word)
      requires mem.Length == 0x10000 && a + HEADER <= 0x10000 && b + HEADER <= 0x10000 && a + HEADER <= b
      requires mem[b] != 0xffff && mem[a + 2] as int + mem[b + 2] as int <= 0xffff
      modifies mem
      ensures mem[..] == MergeMem(old(mem[..]), a, old(mem[a + 2]) + old(mem[b + 2]), old(mem[b]))
    {
      mem[a + 2] := W(mem[a + 2] as int + mem[b + 2] as int);
      mem[a] := mem[b];
      if mem[a] != 0 {
        mem[mem[a] + 1] := a;
      }
    }
  }

  lemma NextAfter(m: seq<Word>, bs: seq<Block>, begin: nat, end: nat, i: nat)
    requires Ok(m, bs, begin, end) && i < |bs|
    ensures NextAddr(bs, i) == 0 || NextAddr(bs, i) == bs[i].addr + bs[i].size
  {
    NextIs(bs, begin, end, i);
  }

  lemma NextFacts(bs: seq<Block>, i: nat)
    requires i < |bs|
    ensures i + 1 < |bs| ==> NextAddr(bs, i) == bs[i + 1].addr
    ensures 0 < i ==> PrevAddr(bs, i) == bs[i - 1].addr
  {
  }

  lemma AcceptsIs(b: Block, sz: Word)
    ensures Accepts(b, sz) <==> b.free && (b.size > W(sz + 2 * HEADER) || b.size >= W(sz + HEADER))
  {
  }

  lemma NoWrapAt(iter: Word)
    ensures iter + HEADER < 0x10000 ==> W(iter + HEADER) == iter + HEADER
  {
  }

  lemma {:induction false} ChosenFit(bs: seq<Block>, sz: Word, i: nat)
    requires i < |bs| && Accepts(bs[i], sz) && forall j | 0 <= j < i :: !Accepts(bs[j], sz)
    ensures sz < 0x10000 - 2 * HEADER ==> FirstFit(bs, sz) == i
  {
  }

  lemma {:induction false} NoneFits(bs: seq<Block>, sz: Word)
    requires forall j | 0 <= j < |bs| :: !Accepts(bs[j], sz)
    ensures sz < 0x10000 - 2 * HEADER ==> FirstFit(bs, sz) == |bs|
  {
  }

  /** The memory after the assignments of the splitting branch, addresses taken modulo 2^16. */
  function SplitWords(m: seq<Word>, iter: Word, sz: Word): (r: seq<Word>)
    requires |m| == 0x10000 && iter + HEADER <= 0x10000
    ensures |r| == 0x10000
  {
    var n: int := W(iter + sz + HEADER);
    var m3 := LinkWords(m, iter, n);
    var m4 := m3[W(n + 2) := W(m3[iter + 2] - sz - HEADER)][W(n + 3) := 1];
    m4[W(iter + 0) := n][W(iter + 2) := W(sz + HEADER)][W(iter + 3) := 0]
  }

  function LinkWords(m: seq<Word>, iter: Word, n: Word): (r: seq<Word>)
    requires |m| == 0x10000
    ensures |r| == 0x10000
  {
    var m1 := m[W(n + 1) := iter];
    var m2 := m1[n := m1[iter]];
    if m2[n] != 0 then m2[W(m2[n] + 1) := n] else m2
  }

  /** Below 65528 words nothing wraps. */
  lemma SplitNoWrap(m: seq<Word>, iter: Word, sz: Word, size: Word)
    requires |m| == 0x10000 && iter + size <= 0xffff && size > sz + 2 * HEADER && m[iter + 2] == size
    requires m[iter] == 0 || m[iter] == iter + size
    requires m[iter] != 0xffff
    ensures SplitWords(m, iter, sz) == SplitMem(m, iter, iter + sz + HEADER, m[iter], sz + HEADER, size - sz - HEADER)
  {
    hide LinkWords;
    var n: int := iter + sz + HEADER;
    assert W(n) == n && W(n + 1) == n + 1 && W(n + 2) == n + 2 && W(n + 3) == n + 3;
    assert W(iter + 2) == iter + 2 && W(iter + 3) == iter + 3 && W(iter + 0) == iter;
    assert W(size - sz - HEADER) == size - sz - HEADER && W(sz + HEADER) == sz + HEADER;
    LinkNoWrap(m, iter, n, size);
  }

  /** From 65528 words on it does: whatever was in memory, after the split nothing that reads as a well-formed
      heap has a block where `malloc` has just put one. */
  lemma HugeSplitBreaks(m: seq<Word>, iter: Word, sz: Word, bs: seq<Block>, begin: nat, end: nat, k: nat)
    requires |m| == 0x10000 && 0 < iter && iter + HEADER <= 0xffff && sz >= 0x10000 - 2 * HEADER
    requires Ok(SplitWords(m, iter, sz), bs, begin, end) && k < |bs|
    ensures bs[k].addr != iter
  {
    hide SplitWords, Ok, W;
    var m1 := SplitWords(m, iter, sz);
    SplitHead(m, iter, sz);
    HeadOfBlock(m1, bs, begin, end, k);
    HugeWraps(iter, sz);
  }

  lemma NullAdequate(m: seq<Word>, sz: Word)
    ensures Adequate(m, 0, sz)
  {
  }

  lemma GivenAdequate(m: seq<Word>, bs: seq<Block>, begin: nat, end: nat, i: nat, sz: Word)
    requires i < |bs| && bs[i].size >= sz + HEADER && Ok(m, Taken(bs, i, sz), begin, end) && bs[i].addr + HEADER < 0x10000
    ensures Adequate(m, bs[i].addr + HEADER, sz)
  {
    hide Ok;
    var r := Taken(bs, i, sz);
    assert r[i].addr == bs[i].addr && r[i].size >= sz + HEADER;
  }

  lemma HugeSplitInadequate(m: seq<Word>, iter: Word, sz: Word)
    requires |m| == 0x10000 && 0 < iter && iter + HEADER <= 0xffff && sz >= 0x10000 - 2 * HEADER
    ensures !Adequate(SplitWords(m, iter, sz), iter + HEADER, sz)
  {
    hide SplitWords, Ok;
    forall bs: seq<Block>, begin: nat, end: nat, k: nat | Ok(SplitWords(m, iter, sz), bs, begin, end) && k < |bs| ensures bs[k].addr != iter {
      HugeSplitBreaks(m, iter, sz, bs, begin, end, k);
    }
  }

  /** A block taken whole for a huge request has at most seven words. */
  lemma HugeTakeInadequate(m: seq<Word>, iter: Word, sz: Word, size: nat)
    requires |m| == 0x10000 && 0 < iter && iter + HEADER <= 0xffff && sz >= 0x10000 - 2 * HEADER
    requires m[iter + 2] == size && HEADER <= size <= W(sz + 2 * HEADER)
    ensures !Adequate(m, iter + HEADER, sz)
  {
    hide Ok;
    assert size <= 7;
    forall bs: seq<Block>, begin: nat, end: nat, k: nat | Ok(m, bs, begin, end) && k < |bs| && bs[k].addr == iter ensures bs[k].size <= 7 {
      HeadOfBlock(m, bs, begin, end, k);
    }
  }

  lemma SplitHead(m: seq<Word>, iter: Word, sz: Word)
    requires |m| == 0x10000 && iter + HEADER <= 0xffff
    ensures SplitWords(m, iter, sz)[iter] == W(iter + sz + HEADER) && SplitWords(m, iter, sz)[iter + 2] == W(sz + HEADER)
  {
    hide LinkWords;
    assert W(iter + 0) == iter && W(iter + 2) == iter + 2 && W(iter + 3) == iter + 3;
    hide W;
  }

  /** The size in a huge block's header is too small for a header, or leads behind the memory and not to the
      header linked next. */
  lemma HugeWraps(iter: Word, sz: Word)
    requires 0 < iter && sz >= 0x10000 - 2 * HEADER
    ensures W(sz + HEADER) >= HEADER ==> iter + W(sz + HEADER) >= 0x10000 - HEADER
    ensures W(sz + HEADER) >= HEADER && W(iter + sz + HEADER) == 0 ==> iter + W(sz + HEADER) >= 0x10000
  {
  }

  lemma HeadOfBlock(m: seq<Word>, bs: seq<Block>, begin: nat, end: nat, k: nat)
    requires Ok(m, bs, begin, end) && k < |bs|
    ensures |m| == 0x10000 && bs[k].addr + 2 < 0x10000
    ensures m[bs[k].addr + 2] == bs[k].size >= HEADER && bs[k].addr + bs[k].size <= end <= 0xffff
    ensures m[bs[k].addr] == 0 || bs[k].addr + bs[k].size + HEADER <= end
  {
    FitsInHeap(bs, begin, end, k);
    assert HeaderAt(m, bs, k);
    if k + 1 < |bs| {
      FitsInHeap(bs, begin, end, k + 1);
      assert bs[k + 1].addr == bs[k].addr + bs[k].size;
    }
  }

  lemma LinkNoWrap(m: seq<Word>, iter: Word, n: Word, size: Word)
    requires |m| == 0x10000 && iter + size <= 0xffff && iter + HEADER <= n && n + HEADER < iter + size
    requires m[iter + 2] == size && (m[iter] == 0 || m[iter] == iter + size) && m[iter] != 0xffff
    ensures var m1 := m[n + 1 := iter][n := m[iter]];
            LinkWords(m, iter, n) == if m[iter] != 0 then m1[m[iter] + 1 := n] else m1
    ensures LinkWords(m, iter, n)[iter + 2] == size
  {
    var m1 := m[n + 1 := iter];
    assert W(n + 1) == n + 1 && m1[iter] == m[iter];
    if m[iter] != 0 {
      var next: int := m[iter];
      assert W(next + 1) == next + 1;
    }
  }

  ghost predicate Ok(m: seq<Word>, bs: seq<Block>, begin: nat, end: nat) {
    0 < begin && end <= 0xffff && Tiles(bs, begin, end) && Coalesced(bs) && Headers(m, bs)
  }

  lemma HeadFacts(m: seq<Word>, bs: seq<Block>, begin: nat, end: nat)
    requires Ok(m, bs, begin, end)
    ensures |bs| > 0 && bs[0].addr == begin > 0
  {
  }

  lemma BlockFacts(m: seq<Word>, bs: seq<Block>, begin: nat, end: nat, i: nat)
    requires Ok(m, bs, begin, end) && i < |bs|
    ensures var a := bs[i].addr;
            && |m| == 0x10000 && 0 < a && a + bs[i].size <= 0xffff && bs[i].size >= HEADER
            && m[a] == NextAddr(bs, i) && m[a + 1] == PrevAddr(bs, i)
            && m[a + 2] == bs[i].size && m[a + 3] == (if bs[i].free then 1 else 0)
            && (NextAddr(bs, i) == 0 <==> i + 1 == |bs|) && (PrevAddr(bs, i) == 0 <==> i == 0)
  {
    hide Tiles, Coalesced;
    AllOrdered(bs, begin, end, i);
    assert HeaderAt(m, bs, i);
  }

  lemma TakeOk(m: seq<Word>, bs: seq<Block>, begin: nat, end: nat, i: nat, sz: nat)
    requires Ok(m, bs, begin, end) && i < |bs| && bs[i].free && sz + HEADER <= bs[i].size <= sz + 2 * HEADER
    ensures bs[i].addr + HEADER <= 0x10000
    ensures Ok(MarkedMem(m, bs[i].addr, false), Taken(bs, i, sz), begin, end)
    ensures PayloadsKept(m, MarkedMem(m, bs[i].addr, false), bs)
  {
    hide Tiles, Coalesced, Headers, MarkedMem;
    BlockFacts(m, bs, begin, end, i);
    MarkedHeaders(m, bs, begin, end, i, false);
    TakenTiles(bs, begin, end, i, sz);
    HeaderOutside(bs, begin, end, i);
    MarkedPayloads(m, bs, bs[i].addr, false);
  }

  lemma MarkedPayloads(m: seq<Word>, bs: seq<Block>, a: nat, free: bool)
    requires |m| == 0x10000 && a + HEADER <= 0x10000
    requires forall j, x | 0 <= j < |bs| && a <= x < a + HEADER :: !InPayload(bs[j], x)
    ensures PayloadsKept(m, MarkedMem(m, a, free), bs)
  {
  }

  lemma SplitOk(m: seq<Word>, bs: seq<Block>, begin: nat, end: nat, i: nat, sz: nat)
    requires Ok(m, bs, begin, end) && i < |bs| && bs[i].free && bs[i].size > sz + 2 * HEADER
    ensures NextAddr(bs, i) + 1 < 0x10000 && bs[i].addr + sz + 2 * HEADER <= 0x10000 && bs[i].size <= 0xffff
    ensures var a := bs[i].addr;
            var m1 := SplitMem(m, a, a + sz + HEADER, NextAddr(bs, i), sz + HEADER, bs[i].size - sz - HEADER);
            Ok(m1, Taken(bs, i, sz), begin, end) && PayloadsKept(m, m1, bs)
  {
    hide Tiles, Coalesced, Headers, SplitMem, Taken, PayloadsKept;
    BlockFacts(m, bs, begin, end, i);
    SplitHeaders(m, bs, begin, end, i, sz);
    TakenTiles(bs, begin, end, i, sz);
    SplitPayloads(m, bs, begin, end, i, sz);
  }

  lemma SplitPayloads(m: seq<Word>, bs: seq<Block>, begin: nat, end: nat, i: nat, sz: nat)
    requires Tiles(bs, begin, end) && 0 < begin && end <= 0xffff && |m| == 0x10000
    requires i < |bs| && bs[i].free && bs[i].size > sz + 2 * HEADER
    requires NextAddr(bs, i) + 1 < 0x10000 && bs[i].addr + sz + 2 * HEADER <= 0x10000 && bs[i].size <= 0xffff
    ensures var a := bs[i].addr;
            PayloadsKept(m, SplitMem(m, a, a + sz + HEADER, NextAddr(bs, i), sz + HEADER, bs[i].size - sz - HEADER), bs)
  {
    hide Tiles;
    AllOrdered(bs, begin, end, i);
    if i + 1 < |bs| {
      HeaderOutside(bs, begin, end, i + 1);
    }
    var a := bs[i].addr;
    var m1 := SplitMem(m, a, a + sz + HEADER, NextAddr(bs, i), sz + HEADER, bs[i].size - sz - HEADER);
    forall j, x | 0 <= j < |bs| && !bs[j].free && 0 <= x < 0x10000 && InPayload(bs[j], x) ensures m1[x] == m[x] {
      assert j != i;
      assert i + 1 < |bs| ==> x != bs[i + 1].addr + 1;
    }
  }

  /** Headers lie outside all payloads. */
  lemma HeaderOutside(bs: seq<Block>, begin: nat, end: nat, i: nat)
    requires Tiles(bs, begin, end) && i < |bs|
    ensures forall j, x | 0 <= j < |bs| && bs[i].addr <= x < bs[i].addr + HEADER :: !InPayload(bs[j], x)
  {
    hide Tiles;
    AllOrdered(bs, begin, end, i);
  }

  ghost predicate Linked(m: seq<Word>, bs: seq<Block>, begin: nat, end: nat) {
    0 < begin && end <= 0xffff && Tiles(bs, begin, end) && Headers(m, bs)
  }

  lemma OkIsLinked(m: seq<Word>, bs: seq<Block>, begin: nat, end: nat)
    requires Ok(m, bs, begin, end)
    ensures Linked(m, bs, begin, end)
  {
  }

  lemma LinkedIsOk(m: seq<Word>, bs: seq<Block>, begin: nat, end: nat)
    requires Linked(m, bs, begin, end) && Coalesced(bs)
    ensures Ok(m, bs, begin, end)
  {
  }

  lemma LinkedFacts(m: seq<Word>, bs: seq<Block>, begin: nat, end: nat, i: nat)
    requires Linked(m, bs, begin, end) && i < |bs|
    ensures var a := bs[i].addr;
            && |m| == 0x10000 && 0 < a && a + bs[i].size <= 0xffff && bs[i].size >= HEADER
            && m[a] == NextAddr(bs, i) && m[a + 1] == PrevAddr(bs, i)
            && m[a + 2] == bs[i].size && m[a + 3] == (if bs[i].free then 1 else 0)
            && (NextAddr(bs, i) == 0 <==> i + 1 == |bs|) && (PrevAddr(bs, i) == 0 <==> i == 0)
  {
    hide Tiles;
    AllOrdered(bs, begin, end, i);
    assert HeaderAt(m, bs, i);
  }

  lemma KeptSame(m: seq<Word>, bs: seq<Block>)
    requires |m| == 0x10000
    ensures PayloadsKept(m, m, bs)
  {
  }

  lemma MarkLinked(m: seq<Word>, bs: seq<Block>, begin: nat, end: nat, i: nat)
    requires Linked(m, bs, begin, end) && i < |bs|
    ensures bs[i].addr + HEADER <= 0x10000
    ensures Linked(MarkedMem(m, bs[i].addr, true), bs[i := bs[i].(free := true)], begin, end)
    ensures PayloadsKept(m, MarkedMem(m, bs[i].addr, true), bs)
  {
    LinkedFacts(m, bs, begin, end, i);
    MarkedHeaders(m, bs, begin, end, i, true);
    HeaderOutside(bs, begin, end, i);
    MarkedPayloads(m, bs, bs[i].addr, true);
    MarkTiles(bs, begin, end, i, true);
    hide Tiles, Headers, PayloadsKept, MarkedMem;
  }

  lemma MarkTiles(bs: seq<Block>, begin: nat, end: nat, i: nat, free: bool)
    requires Tiles(bs, begin, end) && i < |bs|
    ensures Tiles(bs[i := bs[i].(free := free)], begin, end)
  {
  }

  lemma MergeLinked(m: seq<Word>, bs: seq<Block>, begin: nat, end: nat, i: nat)
    requires Linked(m, bs, begin, end) && i + 1 < |bs|
    ensures bs[i].addr + HEADER <= bs[i + 1].addr && bs[i + 1].addr + HEADER <= 0x10000
    ensures bs[i].size + bs[i + 1].size <= 0xffff && NextAddr(bs, i + 1) + 1 < 0x10000
    ensures NextAddr(bs, i) == bs[i + 1].addr && PrevAddr(bs, i + 1) == bs[i].addr
    ensures var m1 := MergeMem(m, bs[i].addr, bs[i].size + bs[i + 1].size, NextAddr(bs, i + 1));
            Linked(m1, Merged(bs, i), begin, end) && PayloadsKept(m, m1, bs)
  {
    hide Tiles, Headers, PayloadsKept, MergeMem, Merged;
    LinkedFacts(m, bs, begin, end, i);
    LinkedFacts(m, bs, begin, end, i + 1);
    AllOrdered(bs, begin, end, i);
    MergeHeaders(m, bs, begin, end, i);
    MergedTiles(bs, begin, end, i);
    MergePayloads(m, bs, begin, end, i);
  }

  lemma MergePayloads(m: seq<Word>, bs: seq<Block>, begin: nat, end: nat, i: nat)
    requires Tiles(bs, begin, end) && 0 < begin && end <= 0xffff && |m| == 0x10000 && i + 1 < |bs|
    requires bs[i].addr + HEADER <= 0x10000 && bs[i].size + bs[i + 1].size <= 0xffff && NextAddr(bs, i + 1) + 1 < 0x10000
    ensures PayloadsKept(m, MergeMem(m, bs[i].addr, bs[i].size + bs[i + 1].size, NextAddr(bs, i + 1)), bs)
  {
    hide Tiles;
    HeaderOutside(bs, begin, end, i);
    if i + 2 < |bs| {
      HeaderOutside(bs, begin, end, i + 2);
    }
  }

  lemma StillThere(bs: seq<Block>, i: nat)
    requires i < |bs|
    ensures i < |MergedForward(bs, i)| && MergedForward(bs, i)[i].addr == bs[i].addr
  {
  }

  lemma FreedIs(bs: seq<Block>, i: nat)
    requires i < |bs|
    ensures Freed(bs, i) == MergedBackward(MergedForward(bs[i := bs[i].(free := true)], i), i)
  {
  }

  lemma FreedTilesToo(m: seq<Word>, bs: seq<Block>, begin: nat, end: nat, i: nat)
    requires Ok(m, bs, begin, end) && i < |bs| && !bs[i].free
    ensures Coalesced(Freed(bs, i))
  {
    FreedTiles(bs, begin, end, i);
  }

  /** Marking and the two merges leave the payloads of all other live blocks alone. */
  lemma KeptThrice(m: seq<Word>, m1: seq<Word>, m2: seq<Word>, m3: seq<Word>, bs: seq<Block>, i: nat)
    requires |m| == |m1| == |m2| == |m3| == 0x10000 && i < |bs|
    requires var b1 := bs[i := bs[i].(free := true)];
             && PayloadsKept(m, m1, bs) && PayloadsKept(m1, m2, b1) && PayloadsKept(m2, m3, MergedForward(b1, i))
    ensures PayloadsKept(m, m3, bs[i := bs[i].(free := true)])
  {
    var b1 := bs[i := bs[i].(free := true)];
    var b2 := MergedForward(b1, i);
    forall j, x | 0 <= j < |b1| && !b1[j].free && 0 <= x < 0x10000 && InPayload(b1[j], x) ensures m3[x] == m[x] {
      assert bs[j] == b1[j];
      if j < i || b2 == b1 {
        assert b2[j] == b1[j];
      } else {
        assert b2[j - 1] == b1[j];
      }
    }
  }
}

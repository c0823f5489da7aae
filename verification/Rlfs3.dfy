/** The RLFS3 filesystem operations (os/rlfs3.c:115-232, 242-393), working through the block cache. */
module Rlfs3 {
  import opened Words
  import opened Bitmap
  import opened Blk
  import opened Layout

  const FS_DIR: Word := 2

  datatype Status = Ok | NoFile | NotADir | FileExists

  /** Writing buf at an offset inside a file or at its end. */
  function Spliced(old_: seq<Word>, offset: nat, buf: seq<Word>): seq<Word>
    requires offset <= |old_|
  {
    old_[..offset] + buf + (if offset + |buf| < |old_| then old_[offset + |buf|..] else [])
  }

  /** Blocks that must still be allocated before position `end` of the file has one. */
  function Needed(v: Image, node: nat, end: nat): nat {
    if end / 256 + 1 > Length(v, node) then end / 256 + 1 - Length(v, node) else 0
  }

  /** Outside the bitmap, only the file's inode and data blocks differ. */
  ghost predicate OnlyFile(v: Image, v1: Image, node: nat) {
    && (forall k: Key | k.0 != 0 :: k in v && k in v1 && v1[k] == v[k])
    && (forall n: nat | n != node && (n == 0 || n >= RESERVED) && !MapsTo(v1, node, n) :: Block(v1, n) == Block(v, n))
  }

  /** The file has a k-th block; earlier blocks, sizes and all other files are as before. */
  ghost predicate Extended(v: Image, v1: Image, node: nat, k: nat) {
    && Length(v, node) <= Length(v1, node) == (if k < Length(v, node) then Length(v, node) else k + 1)
    && Size(v1, node) == Size(v, node) && Block(v1, node)[0] == Block(v, node)[0]
    && (forall j | 0 <= j < Length(v, node) :: Index(v1, node, j) == Index(v, node, j))
    && (forall n: nat | n != node && (n == 0 || n >= RESERVED) :: Block(v1, n) == Block(v, n))
    && (forall x: Key | x.0 != 0 && x in v :: x in v1 && v1[x] == v[x])
    && |FreeBlocks(v1)| + Length(v1, node) == |FreeBlocks(v)| + Length(v, node)
  }

  lemma NothingToLink(v: Image, inodes: set<nat>, loose: set<nat>, node: nat, k: nat)
    requires Owned(v, inodes, loose) && node in inodes && k < INDICES && k <= Length(v, node) && Index(v, node, k) != 0
    ensures k < Length(v, node) && Extended(v, v, node, k)
  {
    assert InodeOk(v, inodes, loose, node);
    assert forall i | Length(v, node) <= i < INDICES :: Index(v, node, i) == 0;
  }

  lemma LinkExtends(v: Image, inodes: set<nat>, loose: set<nat>, node: nat, k: nat, b: Word)
    requires Owned(v, inodes, loose) && node in inodes && k < INDICES && k <= Length(v, node) && Index(v, node, k) == 0
    requires !UsedIn(v, b) && RESERVED <= b && b !in loose
    requires Owned(MarkedImage(v, b, true), inodes, loose + {b})
    ensures var v1 := MarkedImage(v, b, true);
            var v2 := Put(v1, node, Block(v1, node)[k + 3 := b]);
            && Owned(v2, inodes, loose) && Extended(v, v2, node, k)
            && k < Length(v2, node) && Index(v2, node, k) == b
  {
    hide Owned, Length, Index, UsedIn, FreeBlocks, Extended, MarkedImage, Put, Block;
    var v1 := MarkedImage(v, b, true);
    MarkedElsewhere(v, b, true);
    MarkedOthers(v, b);
    LinkPlace(v, inodes, loose, node, k);
    LengthSame(v, v1, node);
    LinkPlace(v1, inodes, loose + {b}, node, k);
    var d := Block(v1, node)[k + 3 := b];
    var v2 := Put(v1, node, d);
    assert loose + {b} - {b} == loose;
    BlockPut(v1, node, d);
    LinkOwned(v1, inodes, loose + {b}, node, b);
    LinkLength(v1, node, b);
    FreeTaken(v, b);
    InodeUsedSame(v1, v2, node);
    FreeSame(v1, v2);
    LinkFacts(v, v1, v2, node, k, b);
  }

  lemma LengthSame(v: Image, v1: Image, node: nat)
    requires Block(v1, node) == Block(v, node)
    ensures Length(v1, node) == Length(v, node) && Size(v1, node) == Size(v, node)
    ensures forall k | 0 <= k < INDICES :: Index(v1, node, k) == Index(v, node, k)
  {
  }

  /** An empty index next to the file's blocks is the one behind the last. */
  lemma LinkPlace(v: Image, inodes: set<nat>, loose: set<nat>, node: nat, k: nat)
    requires Owned(v, inodes, loose) && node in inodes && k < INDICES && k <= Length(v, node)
    ensures RESERVED <= node && PrefixIndices(v, node) && (Index(v, node, k) == 0 ==> k == Length(v, node))
  {
    assert InodeOk(v, inodes, loose, node);
  }

  lemma LinkFacts(v: Image, v1: Image, v2: Image, node: nat, k: nat, b: Word)
    requires k < INDICES && k == Length(v, node) && Length(v2, node) == k + 1 && RESERVED <= node
    requires v2 == Put(v1, node, Block(v1, node)[k + 3 := b]) && Block(v1, node) == Block(v, node)
    requires forall n: nat | n >= RESERVED || n == 0 :: Block(v1, n) == Block(v, n)
    requires forall x: Key | x.0 != 0 && x in v :: x in v1 && v1[x] == v[x]
    requires |FreeBlocks(v2)| == |FreeBlocks(v)| - 1
    ensures Extended(v, v2, node, k) && Index(v2, node, k) == b
  {
    BlockPut(v1, node, Block(v1, node)[k + 3 := b]);
    hide FreeBlocks, Length;
  }

  lemma MarkedOthers(v: Image, s: nat)
    ensures forall x: Key | x.0 != 0 && x in v :: x in MarkedImage(v, s, true) && MarkedImage(v, s, true)[x] == v[x]
  {
  }

  // ----- writing -----

  function Overlay(d: Data, at: nat, part: seq<Word>): Data
    requires at + |part| <= 256
  {
    d[..at] + part + d[at + |part|..]
  }

  /** Words from off to cur have been written, the rest is as before. */
  ghost predicate Cells(v0: Image, v: Image, node: nat, off: nat, buf: seq<Word>, cur: nat)
    requires off <= cur <= off + |buf| && Size(v0, node) < 256 * INDICES
  {
    forall p: nat | p < 256 * Length(v, node) ::
      if off <= p < cur then Cell(v, node, p) == buf[p - off]
      else p < Size(v0, node) ==> Cell(v, node, p) == Cell(v0, node, p)
  }

  ghost predicate KeepsIndices(v0: Image, v: Image, node: nat) {
    Length(v0, node) <= Length(v, node) && forall j | 0 <= j < Length(v0, node) :: Index(v, node, j) == Index(v0, node, j)
  }

  ghost predicate Progress(v0: Image, v: Image, node: nat, off: nat, buf: seq<Word>, cur: nat) {
    && off <= cur <= off + |buf| < 256 * INDICES
    && Covered(v0, node) && off <= Size(v0, node) == Size(v, node)
    && KeepsIndices(v0, v, node) && cur <= 256 * Length(v, node)
    && Cells(v0, v, node, off, buf, cur)
    && OnlyFile(v0, v, node)
  }

  lemma ProgressStart(v: Image, inodes: set<nat>, loose: set<nat>, node: nat, off: nat, buf: seq<Word>)
    requires Owned(v, inodes, loose) && node in inodes && Covered(v, node) && forall k: Key :: k in v
    requires off <= Size(v, node) && off + |buf| < 256 * INDICES
    ensures Progress(v, v, node, off, buf, off)
  {
  }

  lemma ProgressExtend(v0: Image, v: Image, v2: Image, inodes: set<nat>, loose: set<nat>, node: nat, off: nat, buf: seq<Word>,
                       cur: nat, k: nat)
    requires Owned(v, inodes, loose) && node in inodes && Progress(v0, v, node, off, buf, cur)
    requires Extended(v, v2, node, k)
    ensures Progress(v0, v2, node, off, buf, cur)
  {
    assert InodeOk(v, inodes, loose, node);
    hide Owned, InodeOk, FreeBlocks;
    forall j | 0 <= j < Length(v, node)
      ensures MapsTo(v, node, Index(v, node, j)) && Block(v2, Index(v2, node, j)) == Block(v, Index(v, node, j))
    {
      assert MapsTo(v, node, Index(v, node, j));
      IndexApart(v, inodes, loose, node, j);
    }
    hide Length, MapsTo;
    assert Cells(v0, v2, node, off, buf, cur) by {
      forall p: nat | p < 256 * Length(v2, node)
        ensures if off <= p < cur then Cell(v2, node, p) == buf[p - off]
                else p < Size(v0, node) ==> Cell(v2, node, p) == Cell(v0, node, p)
      {
        if p < 256 * Length(v, node) {
          assert Cell(v2, node, p) == Cell(v, node, p);
        }
      }
    }
    OnlyFileExtends(v0, v, v2, node, k);
  }

  lemma IndexApart(v: Image, inodes: set<nat>, loose: set<nat>, node: nat, j: nat)
    requires Owned(v, inodes, loose) && node in inodes && j < Length(v, node)
    ensures RESERVED <= Index(v, node, j) < BLOCKS && Index(v, node, j) !in inodes && Index(v, node, j) != node
    ensures Index(v, node, j) !in loose
    ensures forall l | 0 <= l < Length(v, node) && l != j :: Index(v, node, l) != Index(v, node, j)
  {
    assert InodeOk(v, inodes, loose, node);
    assert MapsTo(v, node, Index(v, node, j));
  }

  lemma OnlyFileExtends(v0: Image, v: Image, v2: Image, node: nat, k: nat)
    requires OnlyFile(v0, v, node) && Extended(v, v2, node, k)
    ensures OnlyFile(v0, v2, node)
  {
    forall n: nat | MapsTo(v, node, n) ensures MapsTo(v2, node, n) {
      var j :| 0 <= j < Length(v, node) && Index(v, node, j) == n;
      assert Index(v2, node, j) == n;
    }
  }

  /** The image with words part written at position cur of the file. */
  function Overlaid(v: Image, node: nat, cur: nat, part: seq<Word>): Image
    requires cur / 256 < INDICES && cur % 256 + |part| <= 256
  {
    var b := Index(v, node, cur / 256);
    Put(v, b, Overlay(Block(v, b), cur % 256, part))
  }

  lemma OverlaidOwned(v: Image, inodes: set<nat>, loose: set<nat>, node: nat, cur: nat, part: seq<Word>)
    requires Owned(v, inodes, loose) && node in inodes && cur / 256 < Length(v, node) && cur % 256 + |part| <= 256
    ensures Owned(Overlaid(v, node, cur, part), inodes, loose)
    ensures FreeBlocks(Overlaid(v, node, cur, part)) == FreeBlocks(v)
  {
    var b := Index(v, node, cur / 256);
    IndexApart(v, inodes, loose, node, cur / 256);
    DataOwned(v, inodes, loose, b, Overlay(Block(v, b), cur % 256, part));
    FreeSame(v, Overlaid(v, node, cur, part));
  }

  lemma OverlaidCells(v: Image, inodes: set<nat>, loose: set<nat>, node: nat, cur: nat, part: seq<Word>)
    requires Owned(v, inodes, loose) && node in inodes && cur / 256 < Length(v, node) && cur % 256 + |part| <= 256
    ensures var v2 := Overlaid(v, node, cur, part);
            && Block(v2, node) == Block(v, node) && Length(v2, node) == Length(v, node)
            && forall p: nat | p < 256 * Length(v, node) ::
                 Cell(v2, node, p) == if cur <= p < cur + |part| then part[p - cur] else Cell(v, node, p)
  {
    var k := cur / 256;
    var b := Index(v, node, k);
    var v2 := Overlaid(v, node, cur, part);
    IndexApart(v, inodes, loose, node, k);
    BlockPut(v, b, Overlay(Block(v, b), cur % 256, part));
    LengthSame(v, v2, node);
    hide Owned, Put, Block, Length;
    forall p: nat | p < 256 * Length(v, node)
      ensures Cell(v2, node, p) == if cur <= p < cur + |part| then part[p - cur] else Cell(v, node, p)
    {
      assert p == p / 256 * 256 + p % 256 && cur == k * 256 + cur % 256;
      assert p / 256 == k || Index(v, node, p / 256) != b;
    }
  }

  lemma ProgressWrite(v0: Image, v: Image, inodes: set<nat>, loose: set<nat>, node: nat, off: nat, buf: seq<Word>,
                      cur: nat, now: nat)
    requires Owned(v, inodes, loose) && node in inodes && Progress(v0, v, node, off, buf, cur)
    requires cur / 256 < Length(v, node) && cur % 256 + now <= 256 && cur + now <= off + |buf|
    ensures Progress(v0, Overlaid(v, node, cur, buf[cur - off..cur - off + now]), node, off, buf, cur + now)
  {
    var part := buf[cur - off..cur - off + now];
    var v2 := Overlaid(v, node, cur, part);
    OverlaidCells(v, inodes, loose, node, cur, part);
    LengthSame(v, v2, node);
    OverlaidOnly(v0, v, inodes, loose, node, cur, part);
    hide Owned, Overlaid, Cell, OnlyFile, Block, Length, Index, KeepsIndices;
    assert cur + now <= 256 * (cur / 256 + 1);
    assert KeepsIndices(v0, v2, node) by { IndicesKept(v0, v, v2, node); }
    CellsMore(v0, v, v2, node, off, buf, cur, now);
    hide Cells;
  }

  lemma IndicesKept(v0: Image, v: Image, v2: Image, node: nat)
    requires KeepsIndices(v0, v, node) && Block(v2, node) == Block(v, node)
    ensures KeepsIndices(v0, v2, node)
  {
    LengthSame(v, v2, node);
    hide Block, Length, Index;
  }

  lemma CellsMore(v0: Image, v: Image, v2: Image, node: nat, off: nat, buf: seq<Word>, cur: nat, now: nat)
    requires off <= cur <= cur + now <= off + |buf| && Size(v0, node) < 256 * INDICES
    requires Cells(v0, v, node, off, buf, cur) && Length(v2, node) == Length(v, node)
    requires forall p: nat | p < 256 * Length(v, node) ::
               Cell(v2, node, p) == if cur <= p < cur + now then buf[cur - off..cur - off + now][p - cur] else Cell(v, node, p)
    ensures Cells(v0, v2, node, off, buf, cur + now)
  {
    hide Cell, Length, Size;
  }

  lemma OverlaidOnly(v0: Image, v: Image, inodes: set<nat>, loose: set<nat>, node: nat, cur: nat, part: seq<Word>)
    requires Owned(v, inodes, loose) && node in inodes && cur / 256 < Length(v, node) && cur % 256 + |part| <= 256
    requires OnlyFile(v0, v, node)
    ensures OnlyFile(v0, Overlaid(v, node, cur, part), node)
  {
    var v2, b := Overlaid(v, node, cur, part), Index(v, node, cur / 256);
    IndexApart(v, inodes, loose, node, cur / 256);
    BlockPut(v, b, Overlay(Block(v, b), cur % 256, part));
    LengthSame(v, v2, node);
    hide Overlay, Owned;
    forall n: nat | n != node && (n == 0 || n >= RESERVED) && !MapsTo(v2, node, n) ensures Block(v2, n) == Block(v0, n) {
      assert Index(v2, node, cur / 256) == b;
      assert MapsTo(v, node, n) ==> MapsTo(v2, node, n);
    }
  }

  /** The state between two turns of the writing loop: position cur has a block. */
  ghost predicate Writing(v0: Image, v: Image, inodes: set<nat>, loose: set<nat>, node: nat, off: nat, buf: seq<Word>, cur: nat) {
    && Owned(v, inodes, loose) && node in inodes && Progress(v0, v, node, off, buf, cur)
    && off <= cur <= off + |buf| < 256 * INDICES && cur / 256 < INDICES && Size(v, node) == Size(v0, node)
    && cur / 256 < Length(v, node) == (if cur / 256 < Length(v0, node) then Length(v0, node) else cur / 256 + 1)
    && |FreeBlocks(v)| + Length(v, node) == |FreeBlocks(v0)| + Length(v0, node)
    && Block(v, node)[0] == Block(v0, node)[0]
  }

  /** What a write of buf at offset off has achieved. */
  ghost predicate WroteFile(v0: Image, v1: Image, inodes: set<nat>, loose: set<nat>, node: nat, off: nat, buf: seq<Word>) {
    && Owned(v1, inodes, loose) && Covered(v0, node) && Covered(v1, node) && off <= Size(v0, node)
    && Content(v1, node) == Spliced(Content(v0, node), off, buf)
    && OnlyFile(v0, v1, node) && KeepsIndices(v0, v1, node)
    && Block(v1, node)[0] == Block(v0, node)[0]
  }

  lemma WriteDone(v0: Image, v: Image, inodes: set<nat>, loose: set<nat>, node: nat, off: nat, buf: seq<Word>, size1: Word)
    requires Owned(v, inodes, loose) && node in inodes && Progress(v0, v, node, off, buf, off + |buf|)
    requires size1 == if off + |buf| > Size(v0, node) then off + |buf| else Size(v0, node)
    requires Block(v, node)[0] == Block(v0, node)[0]
    ensures WroteFile(v0, Put(v, node, Block(v, node)[1 := size1]), inodes, loose, node, off, buf)
    ensures FreeBlocks(Put(v, node, Block(v, node)[1 := size1])) == FreeBlocks(v)
    ensures Length(Put(v, node, Block(v, node)[1 := size1]), node) == Length(v, node)
  {
    var d := Block(v, node)[1 := size1];
    var v1 := Put(v, node, d);
    HeaderOwned(v, inodes, loose, node, d);
    FreeSame(v, v1);
    BlockPut(v, node, d);
    assert Size(v1, node) == size1;
    assert forall j | 0 <= j < INDICES :: Index(v1, node, j) == Index(v, node, j);
    WriteDoneCells(v0, v, v1, inodes, loose, node, off, buf);
    assert OnlyFile(v0, v1, node);
  }

  lemma WriteDoneCells(v0: Image, v: Image, v1: Image, inodes: set<nat>, loose: set<nat>, node: nat, off: nat, buf: seq<Word>)
    requires Owned(v, inodes, loose) && node in inodes && Progress(v0, v, node, off, buf, off + |buf|)
    requires forall j | 0 <= j < INDICES :: Index(v1, node, j) == Index(v, node, j)
    requires forall n: nat | n != node :: Block(v1, n) == Block(v, n)
    requires Length(v1, node) == Length(v, node)
    requires Size(v1, node) == if off + |buf| > Size(v0, node) then off + |buf| else Size(v0, node)
    ensures Covered(v1, node) && Content(v1, node) == Spliced(Content(v0, node), off, buf)
  {
    SameCells(v, v1, inodes, loose, node);
    var old_, new_ := Content(v0, node), Content(v1, node);
    hide Owned, Length, OnlyFile, Index, Block, KeepsIndices, Cell;
    forall p: nat | p < Size(v1, node) ensures new_[p] == Spliced(old_, off, buf)[p] {
      SplicedAt(old_, off, buf, p);
      CellDone(v0, v, node, off, buf, p);
    }
    hide Spliced;
    SplicedLength(old_, off, buf);
  }

  lemma CellDone(v0: Image, v: Image, node: nat, off: nat, buf: seq<Word>, p: nat)
    requires Progress(v0, v, node, off, buf, off + |buf|) && p < 256 * Length(v, node)
    ensures off <= p < off + |buf| ==> Cell(v, node, p) == buf[p - off]
    ensures p < Size(v0, node) && !(off <= p < off + |buf|) ==> Cell(v, node, p) == Content(v0, node)[p]
  {
    hide Length, OnlyFile, KeepsIndices, Cell;
  }

  lemma SplicedAt(old_: seq<Word>, off: nat, buf: seq<Word>, p: nat)
    requires off <= |old_| && p < |Spliced(old_, off, buf)|
    ensures Spliced(old_, off, buf)[p] == if off <= p < off + |buf| then buf[p - off] else if p < |old_| then old_[p] else 0
  {
  }

  lemma SplicedLength(old_: seq<Word>, off: nat, buf: seq<Word>)
    requires off <= |old_|
    ensures |Spliced(old_, off, buf)| == if off + |buf| > |old_| then off + |buf| else |old_|
  {
  }

  lemma SameCells(v: Image, v1: Image, inodes: set<nat>, loose: set<nat>, node: nat)
    requires Owned(v, inodes, loose) && node in inodes
    requires forall j | 0 <= j < INDICES :: Index(v1, node, j) == Index(v, node, j)
    requires forall n: nat | n != node :: Block(v1, n) == Block(v, n)
    ensures forall p: nat | p < 256 * Length(v, node) :: Cell(v1, node, p) == Cell(v, node, p)
  {
    forall p: nat | p < 256 * Length(v, node) ensures Cell(v1, node, p) == Cell(v, node, p) {
      IndexApart(v, inodes, loose, node, p / 256);
    }
  }

  /** A write leaves every other file as it was. */
  lemma OthersUntouched(v0: Image, v1: Image, inodes: set<nat>, loose: set<nat>, node: nat, i: nat)
    requires Owned(v0, inodes, loose) && Owned(v1, inodes, loose) && OnlyFile(v0, v1, node)
    requires node in inodes && i in inodes && i != node && Covered(v0, i)
    ensures Covered(v1, i) && Content(v1, i) == Content(v0, i) && Block(v1, i) == Block(v0, i)
  {
    assert InodeOk(v1, inodes, loose, i) && InodeOk(v1, inodes, loose, node);
    assert !MapsTo(v1, node, i);
    LengthSame(v0, v1, i);
    forall p: nat | p < Size(v0, i) ensures Cell(v1, i, p) == Cell(v0, i, p) {
      IndexApart(v1, inodes, loose, i, p / 256);
      var b := Index(v1, i, p / 256);
      assert forall l | 0 <= l < Length(v1, node) :: Index(v1, node, l) != b;
      assert !MapsTo(v1, node, b);
    }
  }

  /** What was written can be read back. */
  lemma ReadBack(v0: Image, v1: Image, inodes: set<nat>, loose: set<nat>, node: nat, off: nat, buf: seq<Word>)
    requires WroteFile(v0, v1, inodes, loose, node, off, buf)
    ensures off + |buf| <= Size(v1, node) && Content(v1, node)[off..off + |buf|] == buf
    ensures Content(v1, node)[..off] == Content(v0, node)[..off]
    ensures off + |buf| < Size(v0, node) ==> Content(v1, node)[off + |buf|..] == Content(v0, node)[off + |buf|..]
    ensures Size(v1, node) == if off + |buf| < Size(v0, node) then Size(v0, node) else off + |buf|
  {
    hide Owned, OnlyFile, Cell;
    assert |Content(v1, node)| == Size(v1, node) && |Content(v0, node)| == Size(v0, node);
  }

  // ----- a new file system -----

  /** The bitmap block with the first 35 blocks marked. */
  function FirstBitmap(): Data {
    Zeros()[0 := 0xffff][1 := 0xffff][2 := 7]
  }

  ghost predicate Fresh(v: Image) {
    && Block(v, 1) == FirstBitmap() && (forall n: nat | 2 <= n <= 16 :: Block(v, n) == Zeros())
    && Block(v, RESERVED) == EmptyInode(FS_DIR)
  }

  lemma {:induction false} SevenTest(k: nat)
    requires k < 16
    ensures TestBit(7, k) <==> k < 3
  {
    if k >= 3 {
      ZeroTest(k - 3);
      assert TestBit(7, k) == TestBit(3, k - 1) == TestBit(1, k - 2) == TestBit(0, k - 3);
    }
  }

  lemma FreshUsed(v: Image, s: nat)
    requires Fresh(v) && s < BLOCKS
    ensures UsedIn(v, s) <==> s <= RESERVED
  {
    SectorParts(s, s);
    var k := s % 16;
    ZeroTest(k);
    OnesTest(k);
    SevenTest(k);
    ModMod(s);
    hide TestBit;
    if s < 4096 {
      assert BitmapBlock(s) == 1 && BitmapWord(s) == s / 16;
      assert s == 16 * (s / 16) + k;
    }
  }

  lemma FreshOwned(v: Image)
    requires Fresh(v)
    ensures Owned(v, {RESERVED}, {}) && Covered(v, RESERVED) && Size(v, RESERVED) == 0 && Length(v, RESERVED) == 0
    ensures |FreeBlocks(v)| > 0 && Content(v, RESERVED) == []
  {
    assert forall k | 0 <= k < INDICES :: Index(v, RESERVED, k) == 0;
    LengthIs(v, RESERVED, 0);
    forall s: nat | s < BLOCKS ensures UsedIn(v, s) <==> s <= RESERVED {
      FreshUsed(v, s);
    }
    hide UsedIn;
    var inodes: set<nat> := {RESERVED};
    assert InodeOk(v, inodes, {}, RESERVED);
    assert forall s: nat :: !Mapped(v, inodes, s);
    assert RESERVED + 1 in FreeBlocks(v);
  }

  // ----- giving blocks back -----

  /** The first k blocks of the file have been marked free and their indices cleared. */
  ghost predicate Resetting(v0: Image, v: Image, node: nat, k: nat) {
    && k <= Length(v0, node) && Size(v, node) == 0
    && (forall j | 0 <= j < INDICES :: Index(v, node, j) == if j < k then 0 else Index(v0, node, j))
    && (forall n: nat | n != node && (n == 0 || n >= RESERVED) :: Block(v, n) == Block(v0, n))
    && (forall t: nat | t < BLOCKS :: UsedIn(v, t) <==> UsedIn(v0, t) && !AmongFirst(v0, node, k, t))
  }

  ghost predicate AmongFirst(v: Image, node: nat, k: nat, t: nat)
    requires k <= INDICES
  {
    exists j | 0 <= j < k :: Index(v, node, j) == t
  }

  lemma ResetStart(v: Image, inodes: set<nat>, loose: set<nat>, node: nat)
    requires Owned(v, inodes, loose) && node in inodes
    ensures Resetting(v, Put(v, node, Block(v, node)[1 := 0][2 := 0]), node, 0)
  {
    var v1 := Put(v, node, Block(v, node)[1 := 0][2 := 0]);
    assert InodeOk(v, inodes, loose, node);
    BlockPut(v, node, Block(v, node)[1 := 0][2 := 0]);
    InodeUsedSame(v, v1, node);
  }

  lemma ResetStep(v0: Image, v: Image, inodes: set<nat>, loose: set<nat>, node: nat, k: nat)
    requires Owned(v0, inodes, loose) && node in inodes && Resetting(v0, v, node, k)
    requires k < INDICES && Index(v, node, k) != 0
    ensures var v1 := MarkedImage(v, Index(v, node, k), false);
            && Block(v1, node) == Block(v, node)
            && Resetting(v0, Put(v1, node, Block(v1, node)[k + 3 := 0]), node, k + 1)
  {
    var s := Index(v, node, k);
    var v1 := MarkedImage(v, s, false);
    var v2 := Put(v1, node, Block(v1, node)[k + 3 := 0]);
    ResetPlace(v0, v, inodes, loose, node, k);
    MarkedElsewhere(v, s, false);
    BlockPut(v1, node, Block(v1, node)[k + 3 := 0]);
    ResetUsed(v0, v, v1, v2, node, k);
    assert forall j | 0 <= j < INDICES :: Index(v2, node, j) == if j == k then 0 else Index(v, node, j);
    assert Size(v2, node) == Size(v, node);
    hide Owned, MarkedImage, Put, Length, UsedIn, AmongFirst, TestBit, Block;
  }

  lemma ResetPlace(v0: Image, v: Image, inodes: set<nat>, loose: set<nat>, node: nat, k: nat)
    requires Owned(v0, inodes, loose) && node in inodes && Resetting(v0, v, node, k)
    requires k < INDICES && Index(v, node, k) != 0
    ensures k < Length(v0, node) && RESERVED <= node && Index(v, node, k) == Index(v0, node, k)
  {
    assert InodeOk(v0, inodes, loose, node);
  }

  lemma ResetUsed(v0: Image, v: Image, v1: Image, v2: Image, node: nat, k: nat)
    requires Resetting(v0, v, node, k) && k < Length(v0, node) && RESERVED <= node
    requires v1 == MarkedImage(v, Index(v0, node, k), false)
    requires forall n: nat | n != node :: Block(v2, n) == Block(v1, n)
    ensures forall t: nat | t < BLOCKS :: UsedIn(v2, t) <==> UsedIn(v0, t) && !AmongFirst(v0, node, k + 1, t)
  {
    InodeUsedSame(v1, v2, node);
    hide MarkedImage, UsedIn, AmongFirst, Length, Block;
    forall t: nat | t < BLOCKS ensures UsedIn(v2, t) <==> UsedIn(v0, t) && !AmongFirst(v0, node, k + 1, t) {
      MarkedImageUsed(v, Index(v0, node, k), false, t);
      AmongNext(v0, node, k, t);
    }
  }

  lemma AmongNext(v: Image, node: nat, k: nat, t: nat)
    requires k < INDICES
    ensures AmongFirst(v, node, k + 1, t) <==> AmongFirst(v, node, k, t) || t == Index(v, node, k)
  {
  }

  /** All blocks of the file are free again, and nothing else has changed. */
  lemma ResetDone(v0: Image, v: Image, inodes: set<nat>, loose: set<nat>, node: nat, k: nat)
    requires Owned(v0, inodes, loose) && node in inodes && Resetting(v0, v, node, k)
    requires k < INDICES ==> Index(v, node, k) == 0
    ensures Owned(v, inodes, loose) && Covered(v, node) && Size(v, node) == 0 && Length(v, node) == 0
    ensures FreeBlocks(v) == FreeBlocks(v0) + (set t: nat | t < BLOCKS && MapsTo(v0, node, t))
    ensures forall n: nat | n != node && (n == 0 || n >= RESERVED) :: Block(v, n) == Block(v0, n)
  {
    assert InodeOk(v0, inodes, loose, node);
    assert k == Length(v0, node);
    assert forall t: nat :: AmongFirst(v0, node, k, t) <==> MapsTo(v0, node, t);
    assert forall j | 0 <= j < INDICES :: Index(v, node, j) == 0;
    LengthIs(v, node, 0);
    assert SameBut(v0, v, inodes, node) by {
      forall i | i in inodes && i != node ensures Block(v, i) == Block(v0, i) {
        assert InodeOk(v0, inodes, loose, i);
      }
    }
    hide UsedIn, MapsTo, Length, Index, AmongFirst;
    ResetOwned(v0, v, inodes, loose, node);
    FreedBlocks(v0, v, inodes, loose, node);
  }

  lemma FreedBlocks(v0: Image, v: Image, inodes: set<nat>, loose: set<nat>, node: nat)
    requires Owned(v0, inodes, loose) && node in inodes
    requires forall t: nat | t < BLOCKS :: UsedIn(v, t) <==> UsedIn(v0, t) && !MapsTo(v0, node, t)
    ensures FreeBlocks(v) == FreeBlocks(v0) + (set t: nat | t < BLOCKS && MapsTo(v0, node, t))
  {
    hide UsedIn, MapsTo;
  }

  // ----- directories -----

  /** C strings in word buffers: equal up to a common terminator. */
  predicate SameString(a: seq<Word>, b: seq<Word>) {
    exists k | 0 <= k < |a| && k < |b| :: a[..k] == b[..k] && a[k] == 0 && b[k] == 0
  }

  predicate Terminated(name: seq<Word>) {
    |name| >= 31 && exists k | 0 <= k < 31 :: name[k] == 0
  }

  /** The n-th entry of a directory: 31 words of name, and the number of the inode. */
  function EntryName(c: seq<Word>, n: nat): seq<Word>
    requires 32 * n + 32 <= |c|
  {
    c[32 * n..32 * n + 31]
  }

  function EntryNode(c: seq<Word>, n: nat): Word
    requires 32 * n + 32 <= |c|
  {
    c[32 * n + 31]
  }

  /** The first entry with the name, or the number of entries. */
  ghost predicate FirstNamed(c: seq<Word>, name: seq<Word>, n: nat) {
    && 32 * n <= |c|
    && (forall j: nat | j < n && 32 * j + 32 <= |c| :: !SameString(EntryName(c, j), name))
    && (32 * n < |c| ==> 32 * n + 32 <= |c| && SameString(EntryName(c, n), name))
  }

  /** The inode number in the first entry with the name. */
  ghost predicate IsEntry(c: seq<Word>, name: seq<Word>, node: Word) {
    exists n: nat :: 32 * n + 32 <= |c| && FirstNamed(c, name, n) && node == EntryNode(c, n)
  }

  ghost predicate IsDirectory(v: Image, i: nat) {
    Block(v, i)[0] % 256 == FS_DIR && Covered(v, i) && Size(v, i) % 32 == 0
  }

  /** The new inode is an empty file nobody owned before, the directory has one more entry, and no
      other file has changed. */
  ghost predicate Created(v0: Image, v1: Image, inodes: set<nat>, where: nat, name: seq<Word>, flags: Word, s: Word) {
    && RESERVED <= s && s !in inodes && !UsedIn(v0, s) && |name| >= 31
    && Owned(v1, inodes + {s}, {})
    && Covered(v0, where) && Covered(v1, where) && Content(v1, where) == Content(v0, where) + name[..31] + [s]
    && Block(v1, where)[0] == Block(v0, where)[0]
    && Block(v1, s)[0] == flags && Size(v1, s) == 0 && Length(v1, s) == 0
    && (forall n: nat | n != where && n != s && (n == 0 || n >= RESERVED) && !MapsTo(v1, where, n) ::
          Block(v1, n) == Block(v0, n))
  }

  /** The image after the block has been taken looks the same to every file. */
  lemma TakenContent(v: Image, inodes: set<nat>, loose: set<nat>, s: nat, i: nat)
    requires Owned(v, inodes, loose) && i in inodes && Covered(v, i) && s < BLOCKS
    ensures var v1 := MarkedImage(v, s, true);
            && Block(v1, i) == Block(v, i) && Length(v1, i) == Length(v, i)
            && Covered(v1, i) && Content(v1, i) == Content(v, i) && Size(v1, i) == Size(v, i)
            && forall n: nat | n == 0 || n >= RESERVED :: Block(v1, n) == Block(v, n)
  {
    var v1 := MarkedImage(v, s, true);
    MarkedElsewhere(v, s, true);
    assert InodeOk(v, inodes, loose, i);
    LengthSame(v, v1, i);
    hide MarkedImage, Block, UsedIn;
    forall p: nat | p < Size(v, i) ensures Cell(v1, i, p) == Cell(v, i, p) {
      IndexApart(v, inodes, loose, i, p / 256);
    }
  }

  function EmptyInode(flags: Word): Data {
    seq(256, i => if i == 0 then flags else 0)
  }

  lemma CreatedFrom(v0: Image, v2: Image, v3: Image, inodes: set<nat>, where: nat, name: seq<Word>, flags: Word, s: Word)
    requires Owned(v0, inodes, {}) && where in inodes && Covered(v0, where) && |name| >= 31
    requires RESERVED <= s && s !in inodes && !UsedIn(v0, s)
    requires WroteFile(MarkedImage(v0, s, true), v2, inodes, {s}, where, Size(v0, where), name[..31])
    requires WroteFile(v2, v3, inodes, {s}, where, Size(v0, where) + 31, [s])
    ensures Created(v0, Put(v3, s, EmptyInode(flags)), inodes, where, name, flags, s)
  {
    hide Owned, MarkedImage, Put, Cell, UsedIn, OnlyFile, Length, WroteFile, KeepsIndices, MapsTo, Content, Block, Created;
    var v1, v4 := MarkedImage(v0, s, true), Put(v3, s, EmptyInode(flags));
    TakenContent(v0, inodes, {}, s, where);
    AppendedFacts(v1, v2, inodes, {s}, where, name[..31]);
    AppendedFacts(v2, v3, inodes, {s}, where, [s]);
    NewInode(v3, inodes, s, flags);
    CreatedContent(v3, v4, inodes, where, s);
    CreatedOthers(v1, v2, v3, v4, inodes, where, s);
    CreatedIs(v0, v4, inodes, where, name, flags, s);
  }

  lemma AppendedFacts(v: Image, v1: Image, inodes: set<nat>, loose: set<nat>, node: nat, buf: seq<Word>)
    requires Size(v, node) < 256 * INDICES && WroteFile(v, v1, inodes, loose, node, Size(v, node), buf)
    ensures Owned(v1, inodes, loose) && Covered(v1, node) && Content(v1, node) == Content(v, node) + buf
    ensures Size(v1, node) == Size(v, node) + |buf| && Size(v1, node) < 256 * INDICES
    ensures OnlyFile(v, v1, node) && KeepsIndices(v, v1, node) && Block(v1, node)[0] == Block(v, node)[0]
  {
    hide Owned, OnlyFile, Cell, KeepsIndices;
    assert |Content(v1, node)| == Size(v1, node) && |Content(v, node)| == Size(v, node);
  }

  lemma {:induction false} TitleKept(v: Image, v1: Image, inodes: set<nat>, loose: set<nat>, node: nat)
    requires Owned(v1, inodes, loose) && node in inodes && OnlyFile(v, v1, node)
    ensures Block(v1, 0) == Block(v, 0)
  {
    assert InodeOk(v1, inodes, loose, node);
  }

  lemma NewInode(v: Image, inodes: set<nat>, s: nat, flags: Word)
    requires Owned(v, inodes, {s}) && s !in inodes
    ensures var v1 := Put(v, s, EmptyInode(flags));
            && Owned(v1, inodes + {s}, {}) && Block(v1, s)[0] == flags && Size(v1, s) == 0 && Length(v1, s) == 0
            && forall n: nat | n != s :: Block(v1, n) == Block(v, n)
  {
    var d := EmptyInode(flags);
    BlockPut(v, s, d);
    assert forall k | 0 <= k < INDICES :: IndexIn(d, k) == 0;
    NewInodeOwned(v, inodes, {s}, s, d);
    assert {s} - {s} == {};
    LengthIs(Put(v, s, d), s, 0);
  }

  lemma CreatedIs(v0: Image, v4: Image, inodes: set<nat>, where: nat, name: seq<Word>, flags: Word, s: Word)
    requires RESERVED <= s && s !in inodes && !UsedIn(v0, s) && |name| >= 31 && Owned(v4, inodes + {s}, {})
    requires Covered(v0, where) && Covered(v4, where) && Content(v4, where) == Content(v0, where) + name[..31] + [s]
    requires Block(v4, where)[0] == Block(v0, where)[0]
    requires Block(v4, s)[0] == flags && Size(v4, s) == 0 && Length(v4, s) == 0
    requires forall n: nat | n != where && n != s && (n == 0 || n >= RESERVED) && !MapsTo(v4, where, n) ::
               Block(v4, n) == Block(v0, n)
    ensures Created(v0, v4, inodes, where, name, flags, s)
  {
    hide Owned, UsedIn, Covered, MapsTo, Length, Cell;
  }

  lemma CreatedContent(v3: Image, v4: Image, inodes: set<nat>, where: nat, s: nat)
    requires Owned(v3, inodes, {s}) && where in inodes && Covered(v3, where)
    requires forall n: nat | n != s :: Block(v4, n) == Block(v3, n)
    ensures Covered(v4, where) && Content(v4, where) == Content(v3, where)
    ensures where != s && Block(v4, where) == Block(v3, where)
  {
    assert InodeOk(v3, inodes, {s}, where) && where != s;
    LengthSame(v3, v4, where);
    forall p: nat | p < Size(v3, where) ensures Cell(v4, where, p) == Cell(v3, where, p) {
      IndexApart(v3, inodes, {s}, where, p / 256);
    }
  }

  lemma CreatedOthers(v1: Image, v2: Image, v3: Image, v4: Image, inodes: set<nat>, where: nat, s: nat)
    requires OnlyFile(v1, v2, where) && OnlyFile(v2, v3, where) && where != s
    requires KeepsIndices(v2, v3, where) && Block(v4, where) == Block(v3, where)
    requires forall n: nat | n != s :: Block(v4, n) == Block(v3, n)
    ensures forall n: nat | n != where && n != s && (n == 0 || n >= RESERVED) && !MapsTo(v4, where, n) ::
              Block(v4, n) == Block(v1, n)
  {
    LengthSame(v3, v4, where);
    forall t: nat | MapsTo(v2, where, t) ensures MapsTo(v3, where, t) {
      var j :| 0 <= j < Length(v2, where) && Index(v2, where, j) == t;
      assert Index(v3, where, j) == t;
    }
    assert forall t: nat | MapsTo(v3, where, t) :: MapsTo(v4, where, t);
    hide MapsTo, Length;
  }

  lemma StringsDiffer(a: seq<Word>, b: seq<Word>, k: nat)
    requires k < |a| && k < |b| && a[k] != b[k] && (forall j | 0 <= j < k :: a[j] == b[j] && a[j] != 0)
    ensures !SameString(a, b)
  {
    forall j | 0 <= j < |a| && j < |b| ensures !(a[..j] == b[..j] && a[j] == 0 && b[j] == 0) {
      assert j > k ==> a[..j][k] != b[..j][k];
    }
  }

  // ----- the file system -----

  /** The number of words `fs_read` goes for: its test for the end of the file is done on 16-bit words. */
  function CutSize(size0: Word, offset: Word, size: Word): int {
    if W(offset + size) > size0 then size0 - offset else size
  }

  /** The test cuts the range at the end of the file exactly if the sum does not wrap, or is still above the
      size when it has wrapped. */
  lemma CutIff(size0: Word, offset: Word, size: Word)
    requires offset <= size0
    ensures CutSize(size0, offset, size) == (if offset + size > size0 then size0 - offset else size) <==>
            offset + size < 0x1_0000 || W(offset + size) > size0
    ensures offset + CutSize(size0, offset, size) <= size0 <==> offset + size < 0x1_0000 || W(offset + size) > size0
  {
  }

  class FileSystem {
    const cache: Cache

    constructor (cache: Cache)
      ensures this.cache == cache
    {
      this.cache := cache;
    }

    ghost predicate Valid()
      reads cache, cache.blockCache
    {
      cache.Valid()
    }

    /** What is read from the devices when nothing is cached, as after a restart. */
    ghost function Device(): Image
      reads cache
    {
      imap k: Key :: OnDisk(cache.disk, k)
    }

    ghost function View(): Image
      reads cache, cache.blockCache
    {
      cache.View()
    }

    /** Entry e is held, and holds block n. */
    ghost predicate Holding(e: nat, n: nat)
      reads cache.blockCache
    {
      e < |cache.Handles()| && cache.Handles()[e].Handle? && cache.Handles()[e].k == (0, n)
    }

    method MarkSector(s: nat, val: bool)
      requires Valid() && cache.Pinned() < CACHE_SIZE && s < BLOCKS
      modifies cache, cache.blockCache
      ensures Valid() && cache.Handles() == old(cache.Handles())
      ensures View() == MarkedImage(old(View()), s, val)
    {
      hide Blk.Consistent, ViewMap, HandlesOf, PinsIn, PinnedIn, Marked, Bits, TestBit;
      SectorParts(s, s);
      ModMod(s);
      cache.ViewTotal();
      var cBitmap := s / 4096;
      var sect := s % 4096;
      var idx, pos := sect / 16, sect % 16;
      var e := cache.Bread(0, cBitmap + 1);
      cache.Shows(e);
      var d := cache.blockCache[e].data;
      cache.Change(e, d[idx := Marked(d[idx], pos, val)]);
      cache.Shows(e);
      cache.Bfree(e);
    }

    /** The search of one bitmap block for its first clear bit; 256 words when there is none. */
    method ScanBlock(d: Data) returns (i: nat, j: nat)
      ensures i <= 256 && j < 16
      ensures forall x, y | 0 <= x < 256 && 0 <= y < 16 && (x < i || (x == i && y < j)) :: TestBit(d[x], y)
      ensures i < 256 ==> !TestBit(d[i], j)
      ensures i == 256 ==> j == 0
    {
      hide TestBit, BitWord;
      i, j := 0, 0;
      while i < 256
        invariant i <= 256
        invariant forall x, y | 0 <= x < i && 0 <= y < 16 :: TestBit(d[x], y)
      {
        FullIff(d[i]);
        if d[i] != 0xffff {
          j := 0;
          while j < 16
            invariant j <= 16 && forall y | 0 <= y < j :: TestBit(d[i], y)
          {
            MaskedOutIff(d[i], j);
            if MaskedOut(d[i], j) {
              return;
            }
            j := j + 1;
          }
          assert false;
        }
        i := i + 1;
      }
      j := 0;
    }

    /** One turn of the search: bitmap block number c is read and scanned. */
    method ScanSectors(c: nat) returns (i: nat, j: nat)
      requires Valid() && cache.Pinned() < CACHE_SIZE && c < 32
      modifies cache, cache.blockCache
      ensures Valid() && cache.Handles() == old(cache.Handles()) && View() == old(View())
      ensures i <= 256 && j < 16 && (i == 256 ==> j == 0)
      ensures forall t: nat | 4096 * c <= t < 4096 * c + 16 * i + j && t < 4096 * (c + 1) :: UsedIn(View(), t)
      ensures i < 256 ==> 4096 * c + 16 * i + j < 4096 * (c + 1) && !UsedIn(View(), 4096 * c + 16 * i + j)
    {
      hide Blk.Consistent, ViewMap, HandlesOf, PinsIn, PinnedIn, TestBit, BitmapBlock, BitmapWord, UsedIn;
      cache.ViewTotal();
      ghost var hs := cache.Handles();
      var e := cache.Bread(0, c + 1);
      cache.Shows(e);
      var d := cache.blockCache[e].data;
      i, j := ScanBlock(d);
      cache.Bfree(e);
      HandBack(hs, e, (0, c + 1));
      ScannedBlock(old(View()), c, d, i, j);
    }

    /** `fs_findFreeSector`: block numbers have 16 bits, so only the first 16 of the 32 bitmap blocks
        can yield a block that is really free; the lowest of those is found. */
    method FindFreeSector() returns (s: Word)
      requires Valid() && cache.Pinned() < CACHE_SIZE
      modifies cache, cache.blockCache
      ensures Valid() && cache.Handles() == old(cache.Handles()) && View() == old(View())
      ensures (exists t: nat :: t < BLOCKS && !UsedIn(View(), t)) ==>
                !UsedIn(View(), s) && forall t: nat | t < s :: UsedIn(View(), t)
    {
      hide Blk.Consistent, ViewMap, HandlesOf, PinsIn, PinnedIn, UsedIn;
      var cBitmap := 0;
      while cBitmap < 32
        invariant cBitmap <= 32
        invariant Valid() && cache.Handles() == old(cache.Handles()) && View() == old(View())
        invariant forall t: nat | t < 4096 * cBitmap :: UsedIn(old(View()), t)
      {
        var i, j := ScanSectors(cBitmap);
        if i < 256 {
          s := W(4096 * cBitmap + 16 * i + j);
          return;
        }
        cBitmap := cBitmap + 1;
      }
      s := 0;
    }

    method AllocBlock(ghost inodes: set<nat>, ghost loose: set<nat>) returns (s: Word)
      requires Valid() && cache.Pinned() < CACHE_SIZE
      requires Owned(View(), inodes, loose) && |FreeBlocks(View())| > 0
      modifies cache, cache.blockCache
      ensures Valid() && cache.Handles() == old(cache.Handles())
      ensures View() == MarkedImage(old(View()), s, true) && !UsedIn(old(View()), s)
      ensures Owned(View(), inodes, loose + {s})
      ensures RESERVED <= s && s !in inodes && s !in loose && !Mapped(old(View()), inodes, s)
      ensures |FreeBlocks(View())| == |FreeBlocks(old(View()))| - 1
    {
      hide Blk.Consistent, ViewMap, HandlesOf, PinnedIn, Owned, UsedIn, MarkedImage;
      ghost var v := View();
      SomeFree(v);
      s := FindFreeSector();
      MarkSector(s, true);
      TakeOwned(v, inodes, loose, s);
      FreeTaken(v, s);
    }

    /** The file's k-th block, allocated and linked when the index is still empty. */
    method BlockFor(e: nat, node: nat, k: nat, ghost inodes: set<nat>, ghost loose: set<nat>) returns (b: Word)
      requires Valid() && cache.Pinned() < CACHE_SIZE && Holding(e, node)
      requires Owned(View(), inodes, loose) && node in inodes && k < INDICES && k <= Length(View(), node)
      requires k == Length(View(), node) ==> |FreeBlocks(View())| > 0
      modifies cache, cache.blockCache
      ensures Valid() && cache.Handles() == old(cache.Handles()) && Owned(View(), inodes, loose)
      ensures Extended(old(View()), View(), node, k)
      ensures k < Length(View(), node) && b == Index(View(), node, k)
    {
      hide Blk.Consistent, ViewMap, HandlesOf, PinsIn, PinnedIn, Owned, UsedIn, MarkedImage, FreeBlocks, Length;
      ghost var v := View();
      cache.ViewTotal();
      cache.Shows(e);
      b := cache.blockCache[e].data[k + 3];
      if b == 0 {
        LinkPlace(v, inodes, loose, node, k);
        b := AllocBlock(inodes, loose);
        cache.ViewTotal();
        cache.Shows(e);
        cache.Change(e, cache.blockCache[e].data[k + 3 := b]);
        LinkExtends(v, inodes, loose, node, k, b);
      } else {
        NothingToLink(v, inodes, loose, node, k);
      }
    }

    /** One turn of the writing loop: a part of the buffer, then the block of the next position. */
    method WriteChunk(e: nat, node: nat, b: Word, cur: nat, buf: seq<Word>, off: nat, now: nat, ghost v0: Image,
                      ghost inodes: set<nat>, ghost loose: set<nat>)
      returns (next: Word)
      requires Valid() && cache.Pinned() <= CACHE_SIZE - 2 && Holding(e, node)
      requires Writing(v0, View(), inodes, loose, node, off, buf, cur) && b == Index(View(), node, cur / 256)
      requires cur % 256 + now <= 256 && cur + now <= off + |buf| && now > 0
      requires Needed(v0, node, off + |buf|) <= |FreeBlocks(v0)|
      modifies cache, cache.blockCache
      ensures Valid() && cache.Handles() == old(cache.Handles())
      ensures Writing(v0, View(), inodes, loose, node, off, buf, cur + now)
      ensures next == Index(View(), node, (cur + now) / 256)
    {
      hide Blk.Consistent, ViewMap, HandlesOf, PinsIn, PinnedIn, Owned, UsedIn, FreeBlocks, Length, Progress, Extended,
        Overlay, Overlaid;
      ghost var v := View();
      cache.ViewTotal();
      ghost var hs := cache.Handles();
      var c := cache.Bread(0, b);
      cache.Shows(c);
      PinnedUpdate(hs, c, cache.Handles()[c]);
      StillHolding(hs, cache.Handles(), e, c, node);
      cache.Change(c, Overlay(cache.blockCache[c].data, cur % 256, buf[cur - off..cur - off + now]));
      ChunkWritten(v0, v, inodes, loose, node, off, buf, cur, now);
      ghost var v1 := View();
      assert v1 == Overlaid(v, node, cur, buf[cur - off..cur - off + now]) by { OverlaidIs(v, node, cur, buf[cur - off..cur - off + now]); }
      NextPlace(v0, v1, inodes, loose, node, off, buf, cur, now);
      next := BlockFor(e, node, (cur + now) / 256, inodes, loose);
      ProgressExtend(v0, v1, View(), inodes, loose, node, off, buf, cur + now, (cur + now) / 256);
      ExtendedFacts(v1, View(), node, (cur + now) / 256);
      cache.Shows(c);
      cache.Bfree(c);
    }

    /** The part of `fs_write` after the test of the offset. */
    method WriteAll(e: nat, node: nat, size0: Word, offset: Word, buf: seq<Word>, ghost inodes: set<nat>, ghost loose: set<nat>)
      returns (written: nat)
      requires Valid() && cache.Pinned() <= CACHE_SIZE - 2 && Holding(e, node)
      requires Owned(View(), inodes, loose) && node in inodes && Covered(View(), node) && size0 == Size(View(), node)
      requires offset <= size0 && offset + |buf| < 256 * INDICES
      requires Needed(View(), node, offset + |buf|) <= |FreeBlocks(View())|
      modifies cache, cache.blockCache
      ensures Valid() && cache.Handles() == old(cache.Handles())[e := Less(old(cache.Handles())[e])]
      ensures written == |buf|
      ensures WroteFile(old(View()), View(), inodes, loose, node, offset, buf)
      ensures |FreeBlocks(View())| + Needed(old(View()), node, offset + |buf|) == |FreeBlocks(old(View()))|
      ensures Length(View(), node) == Length(old(View()), node) + Needed(old(View()), node, offset + |buf|)
    {
      hide Blk.Consistent, ViewMap, HandlesOf, PinsIn, PinnedIn, Owned, UsedIn, FreeBlocks, Length, Covered, Progress,
        Extended, WroteFile;
      ghost var v0 := View();
      cache.ViewTotal();
      written := 0;
      var cur: nat := offset;
      var left := |buf|;
      ProgressStart(v0, inodes, loose, node, offset, buf);
      FirstPlace(v0, node, offset, buf);
      var b := BlockFor(e, node, cur / 256, inodes, loose);
      ProgressExtend(v0, v0, View(), inodes, loose, node, offset, buf, offset, cur / 256);
      ExtendedFacts(v0, View(), node, cur / 256);
      while left > 0
        invariant left + written == |buf| && cur == offset + written
        invariant Valid() && cache.Handles() == old(cache.Handles())
        invariant Writing(v0, View(), inodes, loose, node, offset, buf, cur) && b == Index(View(), node, cur / 256)
      {
        var now := 256 - cur % 256;
        if left < now {
          now := left;
        }
        b := WriteChunk(e, node, b, cur, buf, offset, now, v0, inodes, loose);
        cur := cur + now;
        written := written + now;
        left := left - now;
      }
      cache.Shows(e);
      ghost var v := View();
      cache.ViewTotal();
      if cur > size0 {
        cache.Change(e, cache.blockCache[e].data[1 := cur]);
      } else {
        assert cache.blockCache[e].data == cache.blockCache[e].data[1 := size0];
        cache.Change(e, cache.blockCache[e].data);
      }
      SizeWritten(v0, v, inodes, loose, node, offset, buf, View(), if cur > size0 then cur else size0);
      cache.Shows(e);
      cache.Bfree(e);
    }

    /** `fs_write`: beyond the end of the file nothing is written, and the inode stays held. */
    method Write(node: nat, offset: Word, size: Word, buf: seq<Word>, ghost inodes: set<nat>, ghost loose: set<nat>)
      returns (written: nat)
      requires Valid() && cache.Pinned() <= CACHE_SIZE - 3
      requires Owned(View(), inodes, loose) && node in inodes && Covered(View(), node)
      requires size <= |buf|
      requires offset <= Size(View(), node) ==> offset + size < 256 * INDICES && Needed(View(), node, offset + size) <= |FreeBlocks(View())|
      modifies cache, cache.blockCache
      ensures Valid()
      ensures offset > Size(old(View()), node) ==>
                && written == 0 && View() == old(View())
                && PinsIn(cache.Handles(), (0, node)) == PinsIn(old(cache.Handles()), (0, node)) + 1
      ensures offset <= Size(old(View()), node) ==>
                && written == size && cache.Handles() == old(cache.Handles())
                && WroteFile(old(View()), View(), inodes, loose, node, offset, buf[..size])
                && |FreeBlocks(View())| + Needed(old(View()), node, offset + size) == |FreeBlocks(old(View()))|
                && Length(View(), node) == Length(old(View()), node) + Needed(old(View()), node, offset + size)
    {
      hide Blk.Consistent, ViewMap, HandlesOf, PinsIn, PinnedIn, Owned, UsedIn, FreeBlocks, Length, Covered, WroteFile;
      cache.ViewTotal();
      ghost var hs := cache.Handles();
      var e := cache.Bread(0, node);
      cache.Shows(e);
      PinnedUpdate(hs, e, cache.Handles()[e]);
      var size0 := cache.blockCache[e].data[1];
      if offset > size0 {
        return 0;
      }
      written := WriteAll(e, node, size0, offset, buf[..size], inodes, loose);
      HandBack(hs, e, (0, node));
    }

    /** `fs_read`: the words between offset and the end of the file, at most size many, whenever the 16-bit test
        for the end cuts as it should (`CutIff`). */
    method Read(node: nat, offset: Word, size: Word, ghost inodes: set<nat>, ghost loose: set<nat>)
      returns (done: nat, out: seq<Word>)
      requires Valid() && cache.Pinned() <= CACHE_SIZE - 2
      requires Owned(View(), inodes, loose) && node in inodes && Covered(View(), node)
      requires offset <= Size(View(), node) ==> offset + size < BLOCKS || W(offset + size) > Size(View(), node)
      modifies cache, cache.blockCache
      ensures Valid() && View() == old(View()) && done == |out|
      ensures offset > Size(View(), node) ==>
                out == [] && PinsIn(cache.Handles(), (0, node)) == PinsIn(old(cache.Handles()), (0, node)) + 1
      ensures offset <= Size(View(), node) ==>
                && cache.Handles() == old(cache.Handles())
                && out == Content(View(), node)[offset..if offset + size > Size(View(), node) then Size(View(), node) else offset + size]
    {
      hide Blk.Consistent, ViewMap, HandlesOf, PinsIn, PinnedIn, Owned, Length;
      cache.ViewTotal();
      ghost var hs := cache.Handles();
      var e := cache.Bread(0, node);
      cache.Shows(e);
      PinnedUpdate(hs, e, cache.Handles()[e]);
      var size0: nat := cache.blockCache[e].data[1];
      out := [];
      done := 0;
      if offset > size0 {
        return;
      }
      CutIff(size0, offset, size);
      done, out := ReadAll(e, node, offset, CutSize(size0, offset, size));
      cache.Shows(e);
      cache.Bfree(e);
      HandBack(hs, e, (0, node));
    }

    /** The loop of `fs_read`. */
    method ReadAll(e: nat, node: nat, offset: nat, size: nat) returns (done: nat, out: seq<Word>)
      requires Valid() && cache.Pinned() < CACHE_SIZE && Holding(e, node)
      requires Covered(View(), node) && offset + size <= Size(View(), node)
      modifies cache, cache.blockCache
      ensures Valid() && View() == old(View()) && cache.Handles() == old(cache.Handles())
      ensures done == |out| && out == Content(View(), node)[offset..offset + size]
    {
      hide Blk.Consistent, ViewMap, HandlesOf, PinsIn, PinnedIn, Length, Cell;
      ghost var c := Content(View(), node);
      cache.ViewTotal();
      cache.Shows(e);
      out := [];
      done := 0;
      var left, cur := size, offset;
      var b := cache.blockCache[e].data[cur / 256 + 3];
      while left > 0
        invariant 0 <= left && left + done == size && cur == offset + done && done == |out|
        invariant Valid() && cache.Handles() == old(cache.Handles()) && View() == old(View())
        invariant b == Index(View(), node, cur / 256) && out == c[offset..cur]
      {
        var now := 256 - cur % 256;
        if left < now {
          now := left;
        }
        SliceOfBlock(View(), node, cur, now);
        var part := ReadChunk(b, cur % 256, now);
        JoinContent(c, offset, cur, now);
        out := out + part;
        cur := cur + now;
        done := done + now;
        left := left - now;
        cache.Shows(e);
        b := cache.blockCache[e].data[cur / 256 + 3];
      }
    }

    /** The copy out of one block. */
    method ReadChunk(b: Word, at: nat, now: nat) returns (part: seq<Word>)
      requires Valid() && cache.Pinned() < CACHE_SIZE && at + now <= 256
      modifies cache, cache.blockCache
      ensures Valid() && View() == old(View()) && cache.Handles() == old(cache.Handles())
      ensures part == Block(View(), b)[at..at + now]
    {
      hide Blk.Consistent, ViewMap, HandlesOf, PinsIn, PinnedIn;
      cache.ViewTotal();
      ghost var hs := cache.Handles();
      var c := cache.Bread(0, b);
      cache.Shows(c);
      part := cache.blockCache[c].data[at..at + now];
      cache.Bfree(c);
      HandBack(hs, c, (0, b));
    }

    /** `fs_reset`. */
    method Reset(node: nat, ghost inodes: set<nat>, ghost loose: set<nat>)
      requires Valid() && cache.Pinned() <= CACHE_SIZE - 2
      requires Owned(View(), inodes, loose) && node in inodes
      modifies cache, cache.blockCache
      ensures Valid() && cache.Handles() == old(cache.Handles())
      ensures Owned(View(), inodes, loose) && Covered(View(), node) && Content(View(), node) == []
      ensures FreeBlocks(View()) == FreeBlocks(old(View())) + (set t: nat | t < BLOCKS && MapsTo(old(View()), node, t))
      ensures forall n: nat | n != node && (n == 0 || n >= RESERVED) :: Block(View(), n) == Block(old(View()), n)
    {
      hide Blk.Consistent, ViewMap, HandlesOf, PinsIn, PinnedIn, Owned, Length, UsedIn, Resetting, Covered, FreeBlocks,
        MarkedImage, MapsTo;
      ghost var v0 := View();
      cache.ViewTotal();
      ghost var hs := cache.Handles();
      var e := cache.Bread(0, node);
      cache.Shows(e);
      PinnedUpdate(hs, e, cache.Handles()[e]);
      cache.Change(e, cache.blockCache[e].data[1 := 0][2 := 0]);
      ResetStart(v0, inodes, loose, node);
      var i := 3;
      cache.Shows(e);
      while i < 256 && cache.blockCache[e].data[i] != 0
        invariant 3 <= i <= 256
        invariant Valid() && cache.Handles() == hs[e := Handle((0, node), PinsIn(hs, (0, node)) + 1)]
        invariant cache.blockCache[e].data == Block(View(), node)
        invariant Resetting(v0, View(), node, i - 3)
      {
        ghost var v := View();
        ResetStep(v0, v, inodes, loose, node, i - 3);
        MarkSector(cache.blockCache[e].data[i], false);
        cache.ViewTotal();
        cache.Shows(e);
        cache.Change(e, cache.blockCache[e].data[i := 0]);
        cache.ViewTotal();
        cache.Shows(e);
        i := i + 1;
      }
      ResetDone(v0, View(), inodes, loose, node, i - 3);
      cache.Shows(e);
      cache.Bfree(e);
      HandBack(hs, e, (0, node));
    }

    /** `fs_stat`: flags and size. */
    method Stat(node: nat) returns (flags: Word, size: Word)
      requires Valid() && cache.Pinned() < CACHE_SIZE
      modifies cache, cache.blockCache
      ensures Valid() && View() == old(View()) && cache.Handles() == old(cache.Handles())
      ensures flags == Block(View(), node)[0] && size == Block(View(), node)[1]
    {
      hide Blk.Consistent, ViewMap, HandlesOf, PinsIn, PinnedIn;
      cache.ViewTotal();
      ghost var hs := cache.Handles();
      var e := cache.Bread(0, node);
      cache.Shows(e);
      flags, size := cache.blockCache[e].data[0], cache.blockCache[e].data[1];
      cache.Bfree(e);
      HandBack(hs, e, (0, node));
    }

    /** `strcmp`, where the second string is terminated. */
    method StringsEqual(a: seq<Word>, b: seq<Word>) returns (same: bool)
      requires |a| == 31 && Terminated(b)
      ensures same == SameString(a, b)
    {
      var k := 0;
      while k < 31
        invariant k <= 31 && forall j | 0 <= j < k :: a[j] == b[j] && a[j] != 0
      {
        if a[k] != b[k] {
          StringsDiffer(a, b, k);
          return false;
        }
        if a[k] == 0 {
          assert a[..k] == b[..k];
          return true;
        }
        k := k + 1;
      }
      same := false;
    }

    /** `fs_finddir`. */
    method FindDir(where: nat, what: seq<Word>, ghost inodes: set<nat>, ghost loose: set<nat>)
      returns (rv: Status, res: Word)
      requires Valid() && cache.Pinned() <= CACHE_SIZE - 2 && Terminated(what)
      requires Owned(View(), inodes, loose) && where in inodes && Covered(View(), where) && Size(View(), where) % 32 == 0
      modifies cache, cache.blockCache
      ensures Valid() && View() == old(View()) && cache.Handles() == old(cache.Handles())
      ensures rv == Ok || rv == NoFile
      ensures rv == NoFile ==> FirstNamed(Content(View(), where), what, Size(View(), where) / 32)
      ensures rv == Ok ==> IsEntry(Content(View(), where), what, res)
    {
      hide Blk.Consistent, ViewMap, HandlesOf, PinsIn, PinnedIn, Owned, Length, Cell;
      var flags, size := Stat(where);
      ghost var c := Content(View(), where);
      var i: nat, n: nat := 0, 0;
      res := 0;
      while i < size
        invariant i == 32 * n <= size
        invariant Valid() && View() == old(View()) && cache.Handles() == old(cache.Handles())
        invariant forall j: nat | j < n && 32 * j + 32 <= |c| :: !SameString(EntryName(c, j), what)
      {
        assert i + 32 <= size;
        var done, dEnt := Read(where, i, 32, inodes, loose);
        assert dEnt == c[i..i + 32];
        assert dEnt[..31] == EntryName(c, n) && dEnt[31] == EntryNode(c, n);
        var same := StringsEqual(dEnt[..31], what);
        if same {
          assert FirstNamed(c, what, n) && IsEntry(c, what, dEnt[31]);
          return Ok, dEnt[31];
        }
        i := i + 32;
        n := n + 1;
      }
      rv := NoFile;
      assert n == size / 32;
    }

    /** `fs_create`: a block for the inode, an entry at the end of the directory, an empty file. */
    method Create(where: nat, name: seq<Word>, flags: Word, ghost inodes: set<nat>)
      returns (rv: Status, res: Word)
      requires Valid() && cache.Pinned() <= CACHE_SIZE - 3 && Terminated(name)
      requires Owned(View(), inodes, {}) && where in inodes
      requires Block(View(), where)[0] % 256 == FS_DIR ==>
                 && IsDirectory(View(), where) && Size(View(), where) + 32 < 256 * INDICES
                 && 1 + Needed(View(), where, Size(View(), where) + 32) <= |FreeBlocks(View())|
      modifies cache, cache.blockCache
      ensures Valid() && cache.Handles() == old(cache.Handles())
      ensures rv == NotADir <==> Block(old(View()), where)[0] % 256 != FS_DIR
      ensures rv == NotADir ==> View() == old(View())
      ensures rv == FileExists ==> View() == old(View()) && IsEntry(Content(View(), where), name, res)
      ensures rv == Ok ==>
                && FirstNamed(Content(old(View()), where), name, Size(old(View()), where) / 32)
                && Created(old(View()), View(), inodes, where, name, flags, res)
      ensures rv != NoFile
    {
      hide Blk.Consistent, ViewMap, HandlesOf, PinsIn, PinnedIn, Owned, Length, Cell, FreeBlocks, UsedIn, Covered, FirstNamed;
      var f, size := Stat(where);
      if f % 256 != FS_DIR {
        return NotADir, 0;
      }
      assert IsDirectory(View(), where);
      rv, res := FindDir(where, name, inodes, {});
      if rv == Ok {
        return FileExists, res;
      }
      res := AddEntry(where, size, name, flags, inodes);
      rv := Ok;
    }
    /** The part of `fs_create` for a new name. */
    method AddEntry(where: nat, size: Word, name: seq<Word>, flags: Word, ghost inodes: set<nat>) returns (s: Word)
      requires Valid() && cache.Pinned() <= CACHE_SIZE - 3 && |name| >= 31
      requires Owned(View(), inodes, {}) && where in inodes && Covered(View(), where) && size == Size(View(), where)
      requires size + 32 < 256 * INDICES
      requires 1 + Needed(View(), where, size + 32) <= |FreeBlocks(View())|
      modifies cache, cache.blockCache
      ensures Valid() && cache.Handles() == old(cache.Handles())
      ensures Created(old(View()), View(), inodes, where, name, flags, s)
    {
      hide Blk.Consistent, ViewMap, HandlesOf, PinsIn, PinnedIn, Owned, Length, Cell, FreeBlocks, UsedIn, Covered,
        MarkedImage, WroteFile;
      ghost var v0 := View();
      s := AllocBlock(inodes, {});
      ghost var v1 := View();
      TakenContent(v0, inodes, {}, s, where);
      assert {} + {s} == {s};
      var n1 := Write(where, size, 31, name, inodes, {s});
      ghost var v2 := View();
      FirstPart(v1, v2, inodes, {s}, where, size, name[..31]);
      var n2 := Write(where, size + 31, 1, [s], inodes, {s});
      ghost var v3 := View();
      assert [s][..1] == [s];
      var n3 := PutBlock(s, EmptyInode(flags));
      CreatedFrom(v0, v2, v3, inodes, where, name, flags, s);
    }

    /** A whole block is filled and marked modified. */
    method PutBlock(n: nat, d: Data) returns (e: nat)
      requires Valid() && cache.Pinned() < CACHE_SIZE
      modifies cache, cache.blockCache
      ensures Valid() && cache.Handles() == old(cache.Handles()) && View() == Put(old(View()), n, d)
    {
      hide Blk.Consistent, ViewMap, HandlesOf, PinsIn, PinnedIn;
      cache.ViewTotal();
      ghost var hs := cache.Handles();
      e := cache.Bread(0, n);
      cache.Shows(e);
      cache.Change(e, d);
      cache.Shows(e);
      cache.Bfree(e);
      HandBack(hs, e, (0, n));
    }

    /** `fs_mkfs`: whatever the device held before, the new file system has the root directory only. */
    method Mkfs(title: seq<Word>, dot: seq<Word>, dotdot: seq<Word>)
      requires Valid() && cache.Pinned() <= CACHE_SIZE - 3
      requires |title| == 16 && |dot| >= 31 && |dotdot| >= 31
      modifies cache, cache.blockCache
      ensures Valid() && cache.Handles() == old(cache.Handles())
      ensures Owned(View(), {RESERVED}, {}) && IsDirectory(View(), RESERVED)
      ensures Content(View(), RESERVED) == dot[..31] + [RESERVED] + dotdot[..31] + [RESERVED]
      ensures Block(View(), 0) == title + Block(old(View()), 0)[16..]
      ensures forall k: Key | PinsIn(old(cache.Handles()), k) == 0 :: Device()[k] == View()[k]
      ensures (forall n: nat :: PinsIn(old(cache.Handles()), (0, n)) == 0) ==>
                && Owned(Device(), {RESERVED}, {}) && IsDirectory(Device(), RESERVED)
                && Content(Device(), RESERVED) == dot[..31] + [RESERVED] + dotdot[..31] + [RESERVED]
                && Block(Device(), 0)[..16] == title
    {
      hide Blk.Consistent, ViewMap, HandlesOf, PinsIn, PinnedIn, Owned, Length, Cell, FreeBlocks, UsedIn, MapsTo,
        Content, WroteFile, OnlyFile, KeepsIndices;
      Format(title);
      FreshOwned(View());
      Append(RESERVED, 0, dot[..31], {RESERVED}, {});
      Append(RESERVED, 31, [RESERVED], {RESERVED}, {});
      Append(RESERVED, 32, dotdot[..31], {RESERVED}, {});
      Append(RESERVED, 63, [RESERVED], {RESERVED}, {});
      cache.Sync();
      if forall n: nat :: PinsIn(old(cache.Handles()), (0, n)) == 0 {
        cache.ViewTotal();
        assert forall n: nat :: Block(Device(), n) == Block(View(), n);
        SameBlocks(View(), Device(), {RESERVED}, {});
      }
    }

    /** A write at the end of a file. */
    method Append(node: nat, size: Word, part: seq<Word>, ghost inodes: set<nat>, ghost loose: set<nat>)
      requires Valid() && cache.Pinned() <= CACHE_SIZE - 3
      requires Owned(View(), inodes, loose) && node in inodes && Covered(View(), node) && size == Size(View(), node)
      requires |part| <= 256 && size + |part| < 256 * INDICES
      requires Needed(View(), node, size + |part|) <= |FreeBlocks(View())|
      modifies cache, cache.blockCache
      ensures Valid() && cache.Handles() == old(cache.Handles())
      ensures Owned(View(), inodes, loose) && Covered(View(), node)
      ensures Size(View(), node) == size + |part| && Content(View(), node) == Content(old(View()), node) + part
      ensures Block(View(), node)[0] == Block(old(View()), node)[0] && Block(View(), 0) == Block(old(View()), 0)
      ensures Length(View(), node) == Length(old(View()), node) + Needed(old(View()), node, size + |part|)
    {
      hide Blk.Consistent, ViewMap, HandlesOf, PinsIn, PinnedIn, Owned, Length, Cell, FreeBlocks, UsedIn, MapsTo,
        Content, WroteFile, OnlyFile, KeepsIndices;
      ghost var v0 := View();
      var n := Write(node, size, |part|, part, inodes, loose);
      assert part[..|part|] == part;
      AppendedFacts(v0, View(), inodes, loose, node, part);
      TitleKept(v0, View(), inodes, loose, node);
    }

    /** The blocks `fs_mkfs` fills directly. */
    method Format(title: seq<Word>)
      requires Valid() && cache.Pinned() < CACHE_SIZE && |title| == 16
      modifies cache, cache.blockCache
      ensures Valid() && cache.Handles() == old(cache.Handles())
      ensures Fresh(View()) && Block(View(), 0) == title + Block(old(View()), 0)[16..]
    {
      hide Blk.Consistent, ViewMap, HandlesOf, PinsIn, PinnedIn;
      cache.ViewTotal();
      ghost var v0, hs := View(), cache.Handles();
      var e := cache.Bread(0, 0);
      cache.Shows(e);
      cache.Change(e, title + cache.blockCache[e].data[16..]);
      cache.Shows(e);
      cache.Bfree(e);
      HandBack(hs, e, (0, 0));
      ghost var first := Block(View(), 0);
      var i := 1;
      while i < 35
        invariant 1 <= i <= 35 && Valid() && cache.Handles() == hs
        invariant Block(View(), 0) == first && forall n: nat | 1 <= n < i :: Block(View(), n) == Zeros()
      {
        BlockPut(View(), i, Zeros());
        e := PutBlock(i, Zeros());
        i := i + 1;
      }
      MarkReserved();
      BlockPut(View(), RESERVED, EmptyInode(FS_DIR));
      e := PutBlock(RESERVED, EmptyInode(FS_DIR));
    }

    /** The first bitmap block of a new file system: three words are set. */
    method MarkReserved()
      requires Valid() && cache.Pinned() < CACHE_SIZE && Block(View(), 1) == Zeros()
      modifies cache, cache.blockCache
      ensures Valid() && cache.Handles() == old(cache.Handles())
      ensures Block(View(), 1) == FirstBitmap() && forall n: nat | n != 1 :: Block(View(), n) == Block(old(View()), n)
    {
      hide Blk.Consistent, ViewMap, HandlesOf, PinsIn, PinnedIn;
      cache.ViewTotal();
      ghost var hs := cache.Handles();
      var e := cache.Bread(0, 1);
      cache.Shows(e);
      cache.Change(e, cache.blockCache[e].data[0 := 0xffff][1 := 0xffff][2 := 7]);
      cache.Shows(e);
      cache.Bfree(e);
      HandBack(hs, e, (0, 1));
    }

    lemma SomeFree(v: Image)
      requires |FreeBlocks(v)| > 0
      ensures exists t: nat :: t < BLOCKS && !UsedIn(v, t)
    {
      var t :| t in FreeBlocks(v);
    }
  }

  /** Holding a block once more and letting it go changes nothing. */
  lemma {:induction false} HandBack(hs: seq<Handle>, i: nat, k: Key)
    requires i < |hs| && hs[i] == if PinsIn(hs, k) == 0 then NoHandle else Handle(k, PinsIn(hs, k))
    ensures hs[i := Less(Handle(k, PinsIn(hs, k) + 1))] == hs
  {
  }

  lemma SliceOfBlock(v: Image, node: nat, cur: nat, now: nat)
    requires Size(v, node) < 256 * INDICES && cur + now <= Size(v, node) && cur % 256 + now <= 256
    ensures cur / 256 < INDICES
    ensures Content(v, node)[cur..cur + now] == Block(v, Index(v, node, cur / 256))[cur % 256..cur % 256 + now]
  {
    forall p: nat | cur <= p < cur + now
      ensures Content(v, node)[p] == Block(v, Index(v, node, cur / 256))[cur % 256 + (p - cur)]
    {
      SameBlock(cur, p - cur);
    }
  }

  lemma SameBlock(cur: nat, j: nat)
    requires cur % 256 + j < 256
    ensures (cur + j) / 256 == cur / 256 && (cur + j) % 256 == cur % 256 + j
  {
    assert cur + j == cur / 256 * 256 + (cur % 256 + j);
  }

  lemma JoinContent(c: seq<Word>, off: nat, cur: nat, now: nat)
    requires off <= cur <= cur + now <= |c|
    ensures c[off..cur] + c[cur..cur + now] == c[off..cur + now]
  {
  }

  lemma FirstPart(v1: Image, v2: Image, inodes: set<nat>, loose: set<nat>, where: nat, size: Word, buf: seq<Word>)
    requires WroteFile(v1, v2, inodes, loose, where, size, buf) && size == Size(v1, where)
    requires Length(v2, where) == Length(v1, where) + Needed(v1, where, size + |buf|)
    requires |FreeBlocks(v2)| + Needed(v1, where, size + |buf|) == |FreeBlocks(v1)|
    requires Needed(v1, where, size + |buf| + 1) <= |FreeBlocks(v1)|
    ensures Owned(v2, inodes, loose) && Covered(v2, where) && Size(v2, where) == size + |buf|
    ensures Needed(v2, where, size + |buf| + 1) <= |FreeBlocks(v2)|
  {
    hide Owned, Length, FreeBlocks, Cell, OnlyFile;
    assert |Content(v2, where)| == Size(v2, where) && |Content(v1, where)| == Size(v1, where);
  }

  lemma StillHolding(hs: seq<Handle>, hs1: seq<Handle>, e: nat, c: nat, node: nat)
    requires e < |hs| && hs[e].Handle? && hs[e].k == (0, node) && c < |hs|
    requires |hs1| == |hs| && hs1 == hs[c := hs1[c]]
    requires hs1[c].Handle? && (hs[c] == NoHandle || (hs[c].Handle? && hs[c].k == hs1[c].k))
    ensures hs1[e].Handle? && hs1[e].k == (0, node)
  {
  }

  lemma ChunkWritten(v0: Image, v: Image, inodes: set<nat>, loose: set<nat>, node: nat, off: nat, buf: seq<Word>, cur: nat, now: nat)
    requires Writing(v0, v, inodes, loose, node, off, buf, cur)
    requires cur % 256 + now <= 256 && cur + now <= off + |buf|
    ensures var v1 := Overlaid(v, node, cur, buf[cur - off..cur - off + now]);
            && Owned(v1, inodes, loose) && Progress(v0, v1, node, off, buf, cur + now)
            && Size(v1, node) == Size(v0, node) && Length(v1, node) == Length(v, node) && |FreeBlocks(v1)| == |FreeBlocks(v)|
            && Block(v1, node)[0] == Block(v0, node)[0]
  {
    hide Owned, Progress, Length, Overlaid, FreeBlocks;
    OverlaidOwned(v, inodes, loose, node, cur, buf[cur - off..cur - off + now]);
    OverlaidCells(v, inodes, loose, node, cur, buf[cur - off..cur - off + now]);
    ProgressWrite(v0, v, inodes, loose, node, off, buf, cur, now);
  }

  lemma OverlaidIs(v: Image, node: nat, cur: nat, part: seq<Word>)
    requires cur / 256 < INDICES && cur % 256 + |part| <= 256 && (0, Index(v, node, cur / 256) as nat) in v
    ensures var b := Index(v, node, cur / 256);
            Overlaid(v, node, cur, part) == v[(0, b) := Overlay(v[(0, b)], cur % 256, part)]
  {
  }

  /** The next position is in a block of the file or right behind them, and a block is left for it. */
  lemma NextPlace(v0: Image, v1: Image, inodes: set<nat>, loose: set<nat>, node: nat, off: nat, buf: seq<Word>, cur: nat, now: nat)
    requires Progress(v0, v1, node, off, buf, cur + now)
    requires |FreeBlocks(v1)| + Length(v1, node) == |FreeBlocks(v0)| + Length(v0, node)
    requires Needed(v0, node, off + |buf|) <= |FreeBlocks(v0)|
    ensures (cur + now) / 256 < INDICES && (cur + now) / 256 <= Length(v1, node)
    ensures (cur + now) / 256 == Length(v1, node) ==> |FreeBlocks(v1)| > 0
  {
  }

  lemma FirstPlace(v0: Image, node: nat, off: nat, buf: seq<Word>)
    requires Covered(v0, node) && off <= Size(v0, node) && off + |buf| < 256 * INDICES
    requires Needed(v0, node, off + |buf|) <= |FreeBlocks(v0)|
    ensures off / 256 < INDICES && off / 256 <= Length(v0, node)
    ensures off / 256 == Length(v0, node) ==> |FreeBlocks(v0)| > 0
  {
  }

  lemma ExtendedFacts(v: Image, v1: Image, node: nat, k: nat)
    requires Extended(v, v1, node, k)
    ensures Length(v1, node) == (if k < Length(v, node) then Length(v, node) else k + 1)
    ensures |FreeBlocks(v1)| + Length(v1, node) == |FreeBlocks(v)| + Length(v, node)
    ensures Block(v1, node)[0] == Block(v, node)[0] && Size(v1, node) == Size(v, node)
  {
  }

  lemma SizeWritten(v0: Image, v: Image, inodes: set<nat>, loose: set<nat>, node: nat, off: nat, buf: seq<Word>, v1: Image, size1: nat)
    requires Writing(v0, v, inodes, loose, node, off, buf, off + |buf|) && (0, node) in v
    requires size1 == if off + |buf| > Size(v0, node) then off + |buf| else Size(v0, node)
    requires size1 < BLOCKS && v1 == v[(0, node) := v[(0, node)][1 := size1]]
    ensures WroteFile(v0, v1, inodes, loose, node, off, buf)
    ensures |FreeBlocks(v1)| + Needed(v0, node, off + |buf|) == |FreeBlocks(v0)|
    ensures Length(v1, node) == Length(v0, node) + Needed(v0, node, off + |buf|)
  {
    WriteDone(v0, v, inodes, loose, node, off, buf, size1);
    assert v1 == Put(v, node, Block(v, node)[1 := size1]);
  }

  lemma {:induction false} ScannedBlock(v: Image, c: nat, d: Data, i: nat, j: nat)
    requires c < 32 && d == Block(v, c + 1) && i <= 256 && j < 16
    requires forall x, y | 0 <= x < 256 && 0 <= y < 16 && (x < i || (x == i && y < j)) :: TestBit(d[x], y)
    requires i < 256 ==> !TestBit(d[i], j)
    ensures forall t: nat | 4096 * c <= t < 4096 * c + 16 * i + j && t < 4096 * (c + 1) :: UsedIn(v, t)
    ensures i < 256 ==> 4096 * c + 16 * i + j < 4096 * (c + 1) && !UsedIn(v, 4096 * c + 16 * i + j)
  {
    hide TestBit, BitmapBlock, BitmapWord;
    if i < 256 {
      SectorAt(c, i, j);
    }
    forall t: nat | 4096 * c <= t < 4096 * c + 16 * i + j && t < 4096 * (c + 1) ensures UsedIn(v, t) {
      var x, y := (t - 4096 * c) / 16, (t - 4096 * c) % 16;
      SectorAt(c, x, y);
    }
  }

  lemma SectorAt(c: nat, x: nat, y: nat)
    requires x < 256 && y < 16
    ensures var t := 4096 * c + 16 * x + y;
            t < 4096 * (c + 1) && BitmapBlock(t) == c + 1 && BitmapWord(t) == x && t % 16 == y
  {
    var r := 16 * x + y;
    Parts4096(4096 * c + r, c, r);
    Parts16(r, x, y);
    Parts16(4096 * c + r, 256 * c + x, y);
  }

  lemma Parts4096(t: nat, q: nat, r: nat)
    requires t == 4096 * q + r && r < 4096
    ensures t / 4096 == q && t % 4096 == r
  {
  }

  lemma Parts16(t: nat, q: nat, r: nat)
    requires t == 16 * q + r && r < 16
    ensures t / 16 == q && t % 16 == r
  {
  }
}

/** The layout of the RLFS3 filesystem on a device (os/rlfs3.c): the bitmap of used blocks, inodes
    with up to 253 direct indices, and who owns which block. */
module Layout {
  import opened Words
  import opened Bitmap
  import opened Blk

  type Image = imap<Key, Data>

  /** Indices per inode, behind flags and two size words. */
  const INDICES: nat := 253

  /** Bytes of the bitmap that a 16-bit block number can reach describe this many blocks. */
  const BLOCKS: nat := 0x10000

  /** Superblock and bitmap. */
  const RESERVED: nat := 34

  function Block(v: Image, n: nat): Data {
    if (0, n) in v then v[(0, n)] else Zeros()
  }

  function Put(v: Image, n: nat, d: Data): Image {
    v[(0, n) := d]
  }

  lemma BlockPut(v: Image, n: nat, d: Data)
    ensures forall m: nat :: Block(Put(v, n, d), m) == if m == n then d else Block(v, m)
  {
  }

  // ----- the bitmap -----

  function BitmapBlock(s: nat): nat {
    s / 4096 + 1
  }

  function BitmapWord(s: nat): nat {
    s % 4096 / 16
  }

  predicate UsedIn(v: Image, s: nat) {
    TestBit(Block(v, BitmapBlock(s))[BitmapWord(s)], s % 16)
  }

  /** `fs_markSector`: one bit of one word of one bitmap block. */
  function MarkedImage(v: Image, s: nat, val: bool): Image {
    var d := Block(v, BitmapBlock(s));
    Put(v, BitmapBlock(s), d[BitmapWord(s) := Marked(d[BitmapWord(s)], s % 16, val)])
  }

  lemma SectorParts(s: nat, t: nat)
    ensures s == t <==> BitmapBlock(s) == BitmapBlock(t) && BitmapWord(s) == BitmapWord(t) && s % 16 == t % 16
    ensures BitmapWord(s) < 256
    ensures s < BLOCKS ==> 1 <= BitmapBlock(s) <= 16
  {
    assert s == s / 4096 * 4096 + s % 4096 && t == t / 4096 * 4096 + t % 4096;
    assert s % 4096 == s % 4096 / 16 * 16 + s % 4096 % 16;
    assert t % 4096 == t % 4096 / 16 * 16 + t % 4096 % 16;
    ModMod(s);
    ModMod(t);
  }

  lemma ModMod(s: nat)
    ensures s % 4096 % 16 == s % 16
  {
    assert s == 16 * (s / 4096 * 256 + s % 4096 / 16) + s % 4096 % 16;
  }

  lemma MarkedImageUsed(v: Image, s: nat, val: bool, t: nat)
    ensures UsedIn(MarkedImage(v, s, val), t) == if t == s then val else UsedIn(v, t)
  {
    SectorParts(s, t);
    hide TestBit, Marked, BitmapBlock, BitmapWord, Put, Block;
    var d := Block(v, BitmapBlock(s));
    BlockPut(v, BitmapBlock(s), d[BitmapWord(s) := Marked(d[BitmapWord(s)], s % 16, val)]);
    SectorParts(t, t);
    if BitmapBlock(t) == BitmapBlock(s) && BitmapWord(t) == BitmapWord(s) {
      MarkedTest(d[BitmapWord(s)], s % 16, val, t % 16);
    }
  }

  // ----- inodes -----

  function IndexIn(d: Data, k: nat): Word
    requires k < INDICES
  {
    d[k + 3]
  }

  function Index(v: Image, i: nat, k: nat): Word
    requires k < INDICES
  {
    IndexIn(Block(v, i), k)
  }

  function FirstZero(d: Data, k: nat): (n: nat)
    requires k <= INDICES
    ensures k <= n <= INDICES
    ensures forall j | k <= j < n :: IndexIn(d, j) != 0
    ensures n < INDICES ==> IndexIn(d, n) == 0
    decreases INDICES - k
  {
    if k == INDICES || IndexIn(d, k) == 0 then k else FirstZero(d, k + 1)
  }

  /** The number of data blocks of a file. */
  function Length(v: Image, i: nat): (n: nat)
    ensures n <= INDICES
  {
    FirstZero(Block(v, i), 0)
  }

  function Size(v: Image, i: nat): Word {
    Block(v, i)[1]
  }

  ghost predicate PrefixIndices(v: Image, i: nat) {
    forall k | Length(v, i) <= k < INDICES :: Index(v, i, k) == 0
  }

  lemma LengthIs(v: Image, i: nat, n: nat)
    requires n <= INDICES && (forall k | 0 <= k < n :: Index(v, i, k) != 0) && (n < INDICES ==> Index(v, i, n) == 0)
    ensures Length(v, i) == n
  {
    assert Length(v, i) < INDICES ==> Index(v, i, Length(v, i)) == 0;
    assert n < INDICES ==> Index(v, i, n) == IndexIn(Block(v, i), n);
  }

  ghost predicate MapsTo(v: Image, i: nat, s: nat) {
    exists k | 0 <= k < Length(v, i) :: Index(v, i, k) == s
  }

  ghost predicate Mapped(v: Image, inodes: set<nat>, s: nat) {
    exists i | i in inodes :: MapsTo(v, i, s)
  }

  // ----- ownership -----

  ghost predicate InodeOk(v: Image, inodes: set<nat>, loose: set<nat>, i: nat) {
    && RESERVED <= i < BLOCKS && i !in loose && PrefixIndices(v, i)
    && forall s: nat | MapsTo(v, i, s) :: RESERVED <= s < BLOCKS && s !in inodes && s !in loose
  }

  /** No two indices anywhere name the same block. */
  ghost predicate Apart(v: Image, inodes: set<nat>) {
    forall i, j, k, l | i in inodes && j in inodes && 0 <= k < Length(v, i) && 0 <= l < Length(v, j) &&
                        Index(v, i, k) == Index(v, j, l) :: i == j && k == l
  }

  ghost predicate Accounted(v: Image, inodes: set<nat>, loose: set<nat>) {
    forall s: nat | s < BLOCKS ::
      UsedIn(v, s) <==> s < RESERVED || s in inodes || s in loose || Mapped(v, inodes, s)
  }

  /** The bitmap's used blocks are exactly the reserved ones, the inodes, the data blocks, and those
      just allocated (`loose`), and no block has two owners. */
  ghost predicate Owned(v: Image, inodes: set<nat>, loose: set<nat>) {
    && (forall i | i in inodes :: InodeOk(v, inodes, loose, i))
    && (forall b | b in loose :: RESERVED <= b < BLOCKS)
    && Apart(v, inodes)
    && Accounted(v, inodes, loose)
  }

  ghost predicate SameIndices(d: Data, d1: Data) {
    forall k | 0 <= k < INDICES :: IndexIn(d1, k) == IndexIn(d, k)
  }

  lemma {:induction false} SameFirstZero(d: Data, d1: Data, k: nat)
    requires SameIndices(d, d1) && k <= INDICES
    ensures FirstZero(d1, k) == FirstZero(d, k)
    decreases INDICES - k
  {
    if k < INDICES && IndexIn(d, k) != 0 {
      SameFirstZero(d, d1, k + 1);
    }
  }

  /** Inode blocks with the indices they had. */
  ghost predicate SameInodes(v: Image, v1: Image, inodes: set<nat>) {
    forall i | i in inodes :: SameIndices(Block(v, i), Block(v1, i))
  }

  lemma SameOwners(v: Image, v1: Image, inodes: set<nat>)
    requires SameInodes(v, v1, inodes)
    ensures forall i, s | i in inodes :: MapsTo(v1, i, s) == MapsTo(v, i, s)
    ensures forall i | i in inodes :: Length(v1, i) == Length(v, i)
    ensures forall i | i in inodes :: PrefixIndices(v, i) ==> PrefixIndices(v1, i)
    ensures forall s :: Mapped(v1, inodes, s) == Mapped(v, inodes, s)
    ensures Apart(v, inodes) ==> Apart(v1, inodes)
  {
    forall i | i in inodes
      ensures Length(v1, i) == Length(v, i)
      ensures forall k | 0 <= k < INDICES :: Index(v1, i, k) == Index(v, i, k)
    {
      assert SameIndices(Block(v, i), Block(v1, i));
      SameFirstZero(Block(v, i), Block(v1, i), 0);
    }
    hide Index, Length, SameInodes;
    forall s ensures Mapped(v1, inodes, s) == Mapped(v, inodes, s) {
      if i :| i in inodes && MapsTo(v1, i, s) {
        assert MapsTo(v, i, s);
      }
      if i :| i in inodes && MapsTo(v, i, s) {
        assert MapsTo(v1, i, s);
      }
    }
  }

  /** Writing a block that is neither bitmap nor inode keeps ownership. */
  lemma DataOwned(v: Image, inodes: set<nat>, loose: set<nat>, b: nat, d: Data)
    requires Owned(v, inodes, loose) && RESERVED <= b && b !in inodes
    ensures Owned(Put(v, b, d), inodes, loose)
    ensures forall s: nat | s < BLOCKS :: UsedIn(Put(v, b, d), s) == UsedIn(v, s)
  {
    var v1 := Put(v, b, d);
    BlockPut(v, b, d);
    assert SameInodes(v, v1, inodes);
    SameOwners(v, v1, inodes);
    hide TestBit, MapsTo, PrefixIndices, Mapped, Apart, Length, Put, Block;
    forall i | i in inodes ensures InodeOk(v1, inodes, loose, i) {
      assert InodeOk(v, inodes, loose, i);
    }
    forall s: nat | s < BLOCKS
      ensures UsedIn(v1, s) <==> s < RESERVED || s in inodes || s in loose || Mapped(v1, inodes, s)
    {
      assert UsedIn(v1, s) == UsedIn(v, s);
      assert Mapped(v1, inodes, s) == Mapped(v, inodes, s);
    }
  }

  /** Taking a free block out of the bitmap. */
  lemma TakeOwned(v: Image, inodes: set<nat>, loose: set<nat>, s: nat)
    requires Owned(v, inodes, loose) && s < BLOCKS && !UsedIn(v, s)
    ensures Owned(MarkedImage(v, s, true), inodes, loose + {s})
    ensures RESERVED <= s && s !in inodes && s !in loose && !Mapped(v, inodes, s)
  {
    var v1 := MarkedImage(v, s, true);
    forall t: nat ensures UsedIn(v1, t) == if t == s then true else UsedIn(v, t) {
      MarkedImageUsed(v, s, true, t);
    }
    assert SameInodes(v, v1, inodes) by {
      MarkedElsewhere(v, s, true);
      forall i | i in inodes ensures Block(v1, i) == Block(v, i) {
        assert InodeOk(v, inodes, loose, i);
      }
    }
    SameOwners(v, v1, inodes);
    hide TestBit, PrefixIndices, Apart, Length, MarkedImage, UsedIn, MapsTo;
    forall i | i in inodes ensures InodeOk(v1, inodes, loose + {s}, i) {
      assert InodeOk(v, inodes, loose, i);
      forall t: nat | MapsTo(v1, i, t) ensures RESERVED <= t < BLOCKS && t !in inodes && t !in loose + {s} {
        assert MapsTo(v, i, t);
        assert Mapped(v, inodes, t);
      }
    }
  }

  /** Marking touches bitmap blocks only. */
  lemma MarkedElsewhere(v: Image, s: nat, val: bool)
    requires s < BLOCKS
    ensures forall n: nat | n >= RESERVED || n == 0 :: Block(MarkedImage(v, s, val), n) == Block(v, n)
  {
    SectorParts(s, s);
    hide BitmapBlock, BitmapWord, TestBit;
    var d := Block(v, BitmapBlock(s));
    BlockPut(v, BitmapBlock(s), d[BitmapWord(s) := Marked(d[BitmapWord(s)], s % 16, val)]);
  }

  // ----- changing one inode -----

  ghost predicate SameBut(v: Image, v1: Image, inodes: set<nat>, node: nat) {
    forall i | i in inodes && i != node :: Block(v1, i) == Block(v, i)
  }

  lemma OthersSame(v: Image, v1: Image, inodes: set<nat>, node: nat)
    requires SameBut(v, v1, inodes, node)
    ensures forall i | i in inodes && i != node :: Length(v1, i) == Length(v, i)
    ensures forall i, k | i in inodes && i != node && 0 <= k < INDICES :: Index(v1, i, k) == Index(v, i, k)
    ensures forall i, s | i in inodes && i != node :: MapsTo(v1, i, s) == MapsTo(v, i, s)
    ensures forall i | i in inodes && i != node && PrefixIndices(v, i) :: PrefixIndices(v1, i)
  {
    SameOwners(v, v1, inodes - {node});
    forall i, k | i in inodes && i != node && 0 <= k < INDICES ensures Index(v1, i, k) == Index(v, i, k) {
      assert Block(v1, i) == Block(v, i);
    }
    forall i | i in inodes && i != node
      ensures Length(v1, i) == Length(v, i) && (PrefixIndices(v, i) ==> PrefixIndices(v1, i))
      ensures forall s :: MapsTo(v1, i, s) == MapsTo(v, i, s)
    {
      assert i in inodes - {node};
    }
  }

  lemma LinkLength(v: Image, node: nat, s: nat)
    requires PrefixIndices(v, node) && Length(v, node) < INDICES && 0 < s < BLOCKS
    ensures var n := Length(v, node);
            var v1 := Put(v, node, Block(v, node)[n + 3 := s]);
            && Length(v1, node) == n + 1 && PrefixIndices(v1, node)
            && Index(v1, node, n) == s && (forall k | 0 <= k < n :: Index(v1, node, k) == Index(v, node, k))
            && (forall t :: MapsTo(v1, node, t) <==> MapsTo(v, node, t) || t == s)
  {
    var n := Length(v, node);
    var v1 := Put(v, node, Block(v, node)[n + 3 := s]);
    BlockPut(v, node, Block(v, node)[n + 3 := s]);
    assert forall k | 0 <= k < n :: Index(v1, node, k) == Index(v, node, k) != 0;
    assert forall k | n < k < INDICES :: Index(v1, node, k) == Index(v, node, k) == 0;
    assert Index(v1, node, n) == s;
    LengthIs(v1, node, n + 1);
    forall t ensures MapsTo(v1, node, t) <==> MapsTo(v, node, t) || t == s {
      if MapsTo(v, node, t) {
        var k :| 0 <= k < n && Index(v, node, k) == t;
        assert Index(v1, node, k) == t;
      }
    }
  }

  /** Linking a block that was just taken as the file's next block. */
  lemma LinkOwned(v: Image, inodes: set<nat>, loose: set<nat>, node: nat, s: nat)
    requires Owned(v, inodes, loose) && node in inodes && s in loose && Length(v, node) < INDICES
    ensures var n := Length(v, node);
            Owned(Put(v, node, Block(v, node)[n + 3 := s]), inodes, loose - {s})
  {
    assert InodeOk(v, inodes, loose, node);
    LinkLength(v, node, s);
    var n := Length(v, node);
    var v1 := Put(v, node, Block(v, node)[n + 3 := s]);
    BlockPut(v, node, Block(v, node)[n + 3 := s]);
    assert SameBut(v, v1, inodes, node);
    OthersSame(v, v1, inodes, node);
    hide Put, Block;
    LinkApart(v, v1, inodes, loose, node, s);
    hide Apart, Length, Index, PrefixIndices, TestBit;
    assert UsedSame(v, v1) by { InodeUsedSame(v, v1, node); }
    forall i | i in inodes ensures InodeOk(v1, inodes, loose - {s}, i) {
      assert InodeOk(v, inodes, loose, i);
    }
    LinkAccounted(v, v1, inodes, loose, node, s);
  }

  ghost predicate UsedSame(v: Image, v1: Image) {
    forall t: nat | t < BLOCKS :: UsedIn(v1, t) == UsedIn(v, t)
  }

  lemma InodeUsedSame(v: Image, v1: Image, node: nat)
    requires node >= RESERVED && forall m: nat | m != node :: Block(v1, m) == Block(v, m)
    ensures UsedSame(v, v1)
  {
    forall t: nat | t < BLOCKS ensures UsedIn(v1, t) == UsedIn(v, t) {
      SectorParts(t, t);
    }
  }

  lemma LinkApart(v: Image, v1: Image, inodes: set<nat>, loose: set<nat>, node: nat, s: nat)
    requires Owned(v, inodes, loose) && node in inodes && s in loose
    requires Length(v, node) < INDICES && Length(v1, node) == Length(v, node) + 1
    requires Index(v1, node, Length(v, node)) == s
    requires forall k | 0 <= k < Length(v, node) :: Index(v1, node, k) == Index(v, node, k)
    requires forall i | i in inodes && i != node :: Length(v1, i) == Length(v, i)
    requires forall i, k | i in inodes && i != node && 0 <= k < INDICES :: Index(v1, i, k) == Index(v, i, k)
    ensures Apart(v1, inodes)
  {
    hide UsedIn;
    forall i, k | i in inodes && 0 <= k < Length(v, i) ensures Index(v, i, k) != s {
      assert InodeOk(v, inodes, loose, i);
      assert MapsTo(v, i, Index(v, i, k));
    }
    hide Index, Length, Accounted;
    forall i, k | i in inodes && 0 <= k < Length(v1, i)
      ensures (i == node && k == Length(v, node)) || (k < Length(v, i) && Index(v1, i, k) == Index(v, i, k) != s)
    {
    }
    ApartWithOne(v, v1, inodes, node, Length(v, node), s);
  }

  /** One place more, with a block that no other place has. */
  lemma ApartWithOne(v: Image, v1: Image, inodes: set<nat>, node: nat, n: nat, s: nat)
    requires Apart(v, inodes) && (n < INDICES && node in inodes && n < Length(v1, node) ==> Index(v1, node, n) == s)
    requires forall i, k | i in inodes && 0 <= k < Length(v1, i) ::
               (i == node && k == n) || (k < Length(v, i) && Index(v1, i, k) == Index(v, i, k) != s)
    ensures Apart(v1, inodes)
  {
    hide Index, Length;
    forall i, j, k, l | i in inodes && j in inodes && 0 <= k < Length(v1, i) && 0 <= l < Length(v1, j) && Index(v1, i, k) == Index(v1, j, l)
      ensures i == j && k == l
    {
      assert (i == node && k == n) || Index(v1, i, k) == Index(v, i, k) != s;
      assert (j == node && l == n) || Index(v1, j, l) == Index(v, j, l) != s;
    }
  }

  lemma LinkAccounted(v: Image, v1: Image, inodes: set<nat>, loose: set<nat>, node: nat, s: nat)
    requires Accounted(v, inodes, loose) && node in inodes && s in loose && UsedSame(v, v1)
    requires forall i, t | i in inodes && i != node :: MapsTo(v1, i, t) == MapsTo(v, i, t)
    requires forall t :: MapsTo(v1, node, t) <==> MapsTo(v, node, t) || t == s
    ensures Accounted(v1, inodes, loose - {s})
  {
    hide UsedIn, MapsTo;
    forall t ensures Mapped(v1, inodes, t) <==> Mapped(v, inodes, t) || t == s {
      if i :| i in inodes && MapsTo(v, i, t) {
        assert MapsTo(v1, i, t);
      }
      assert t == s ==> MapsTo(v1, node, t);
    }
  }

  /** Changing flags or size of an inode. */
  lemma HeaderOwned(v: Image, inodes: set<nat>, loose: set<nat>, node: nat, d: Data)
    requires Owned(v, inodes, loose) && node in inodes && SameIndices(Block(v, node), d)
    ensures Owned(Put(v, node, d), inodes, loose) && UsedSame(v, Put(v, node, d))
    ensures Length(Put(v, node, d), node) == Length(v, node)
  {
    var v1 := Put(v, node, d);
    BlockPut(v, node, d);
    assert InodeOk(v, inodes, loose, node);
    SameFirstZero(Block(v, node), d, 0);
    assert Length(v1, node) == Length(v, node);
    assert SameInodes(v, v1, inodes);
    SameOwners(v, v1, inodes);
    InodeUsedSame(v, v1, node);
    hide MapsTo, PrefixIndices, Mapped, Apart, Length, Put, Block, UsedIn, SameInodes;
    forall i | i in inodes ensures InodeOk(v1, inodes, loose, i) {
      assert InodeOk(v, inodes, loose, i);
    }
    SameAccounts(v, v1, inodes, loose);
  }

  lemma SameAccounts(v: Image, v1: Image, inodes: set<nat>, loose: set<nat>)
    requires Accounted(v, inodes, loose) && UsedSame(v, v1) && forall s :: Mapped(v1, inodes, s) == Mapped(v, inodes, s)
    ensures Accounted(v1, inodes, loose)
  {
    hide UsedIn, Mapped;
    forall s: nat | s < BLOCKS
      ensures UsedIn(v1, s) <==> s < RESERVED || s in inodes || s in loose || Mapped(v1, inodes, s)
    {
      assert UsedIn(v1, s) == UsedIn(v, s);
    }
  }

  /** A block just taken becomes an inode without data blocks. */
  lemma NewInodeOwned(v: Image, inodes: set<nat>, loose: set<nat>, s: nat, d: Data)
    requires Owned(v, inodes, loose) && s in loose && s !in inodes
    requires forall k | 0 <= k < INDICES :: IndexIn(d, k) == 0
    ensures Owned(Put(v, s, d), inodes + {s}, loose - {s})
  {
    var v1 := Put(v, s, d);
    BlockPut(v, s, d);
    assert SameBut(v, v1, inodes, s);
    OthersSame(v, v1, inodes, s);
    assert Length(v1, s) == 0 by { LengthIs(v1, s, 0); }
    assert PrefixIndices(v1, s) && forall t :: !MapsTo(v1, s, t);
    InodeUsedSame(v, v1, s);
    hide Put, Block, Length, Index, PrefixIndices, UsedIn;
    forall i | i in inodes + {s} ensures InodeOk(v1, inodes + {s}, loose - {s}, i) {
      if i in inodes {
        assert InodeOk(v, inodes, loose, i);
      }
    }
    ApartWithNone(v, v1, inodes, s);
    hide MapsTo, Apart;
    forall t ensures Mapped(v1, inodes + {s}, t) <==> Mapped(v, inodes, t) {
      if i :| i in inodes && MapsTo(v, i, t) {
        assert MapsTo(v1, i, t);
      }
    }
  }

  lemma ApartWithNone(v: Image, v1: Image, inodes: set<nat>, s: nat)
    requires Apart(v, inodes) && Length(v1, s) == 0
    requires forall i | i in inodes && i != s :: Length(v1, i) == Length(v, i)
    requires forall i, k | i in inodes && i != s && 0 <= k < INDICES :: Index(v1, i, k) == Index(v, i, k)
    ensures Apart(v1, inodes + {s})
  {
    hide Index, Length;
  }

  /** An inode whose data blocks have been given back. */
  lemma ResetOwned(v: Image, v1: Image, inodes: set<nat>, loose: set<nat>, node: nat)
    requires Owned(v, inodes, loose) && node in inodes && SameBut(v, v1, inodes, node)
    requires forall k | 0 <= k < INDICES :: Index(v1, node, k) == 0
    requires forall t: nat | t < BLOCKS :: UsedIn(v1, t) <==> UsedIn(v, t) && !MapsTo(v, node, t)
    ensures Owned(v1, inodes, loose)
  {
    OthersSame(v, v1, inodes, node);
    assert Length(v1, node) == 0 by { LengthIs(v1, node, 0); }
    assert PrefixIndices(v1, node) && forall t :: !MapsTo(v1, node, t);
    hide Length, Index, PrefixIndices, UsedIn, Block;
    forall i | i in inodes ensures InodeOk(v1, inodes, loose, i) {
      assert InodeOk(v, inodes, loose, i);
    }
    assert Apart(v1, inodes);
    forall t: nat | t < BLOCKS
      ensures UsedIn(v1, t) <==> t < RESERVED || t in inodes || t in loose || Mapped(v1, inodes, t)
    {
      ResetAccounted(v, v1, inodes, loose, node, t);
    }
  }

  lemma OneOwner(v: Image, inodes: set<nat>, i: nat, j: nat, t: nat)
    requires Apart(v, inodes) && i in inodes && j in inodes && i != j && MapsTo(v, i, t)
    ensures !MapsTo(v, j, t)
  {
    hide Index, Length;
  }

  lemma ResetAccounted(v: Image, v1: Image, inodes: set<nat>, loose: set<nat>, node: nat, t: nat)
    requires Owned(v, inodes, loose) && node in inodes && t < BLOCKS
    requires UsedIn(v1, t) <==> UsedIn(v, t) && !MapsTo(v, node, t)
    requires forall i, s | i in inodes && i != node :: MapsTo(v1, i, s) == MapsTo(v, i, s)
    requires !MapsTo(v1, node, t)
    ensures UsedIn(v1, t) <==> t < RESERVED || t in inodes || t in loose || Mapped(v1, inodes, t)
  {
    if MapsTo(v, node, t) {
      assert InodeOk(v, inodes, loose, node);
      forall i | i in inodes ensures !MapsTo(v1, i, t) {
        if i != node {
          OneOwner(v, inodes, node, i, t);
        }
      }
    } else {
      assert Mapped(v1, inodes, t) <==> Mapped(v, inodes, t) by {
        if i :| i in inodes && MapsTo(v, i, t) {
          assert MapsTo(v1, i, t);
        }
        if i :| i in inodes && MapsTo(v1, i, t) {
          assert MapsTo(v, i, t);
        }
      }
    }
  }

  // ----- free blocks -----

  ghost function FreeBlocks(v: Image): set<nat> {
    set s: nat | s < BLOCKS && !UsedIn(v, s)
  }

  lemma FreeSame(v: Image, v1: Image)
    requires UsedSame(v, v1)
    ensures FreeBlocks(v1) == FreeBlocks(v)
  {
  }

  lemma FreeTaken(v: Image, s: nat)
    requires s < BLOCKS && !UsedIn(v, s)
    ensures FreeBlocks(MarkedImage(v, s, true)) == FreeBlocks(v) - {s}
    ensures |FreeBlocks(MarkedImage(v, s, true))| == |FreeBlocks(v)| - 1
  {
    forall t: nat ensures UsedIn(MarkedImage(v, s, true), t) == if t == s then true else UsedIn(v, t) {
      MarkedImageUsed(v, s, true, t);
    }
    hide UsedIn, MarkedImage;
    assert s in FreeBlocks(v);
  }

  // ----- contents of files -----

  /** The p-th word of a file. */
  function Cell(v: Image, i: nat, p: nat): Word
    requires p / 256 < INDICES
  {
    Block(v, Index(v, i, p / 256))[p % 256]
  }

  /** Ownership and files depend on the blocks of the device alone. */
  lemma SameBlocks(v: Image, v1: Image, inodes: set<nat>, loose: set<nat>)
    requires Owned(v, inodes, loose) && forall n: nat :: Block(v1, n) == Block(v, n)
    ensures Owned(v1, inodes, loose)
    ensures forall i: nat :: Covered(v1, i) == Covered(v, i) && Size(v1, i) == Size(v, i)
    ensures forall i: nat | Size(v, i) < 256 * INDICES :: Content(v1, i) == Content(v, i)
  {
    assert SameInodes(v, v1, inodes);
    SameOwners(v, v1, inodes);
    assert forall s: nat :: UsedIn(v1, s) == UsedIn(v, s);
    hide UsedIn, Mapped, Length;
    forall i | i in inodes ensures InodeOk(v1, inodes, loose, i) {
      assert InodeOk(v, inodes, loose, i);
    }
  }

  /** The file's size is covered by its blocks. */
  ghost predicate Covered(v: Image, i: nat) {
    Size(v, i) <= 256 * Length(v, i) && Size(v, i) < 256 * INDICES
  }

  function Content(v: Image, i: nat): seq<Word>
    requires Size(v, i) < 256 * INDICES
  {
    seq(Size(v, i), p requires 0 <= p < Size(v, i) => Cell(v, i, p))
  }
}

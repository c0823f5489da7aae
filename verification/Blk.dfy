/** The write-back block cache of the kernel (rl_os/kernel/blk.c, os/blk.c): sixteen entries, each
    holding one block of one device while it is in use. */
module Blk {
  import opened Words

  const CACHE_SIZE: nat := 16

  type Data = d: seq<Word> | |d| == 256 witness seq(256, i => 0)

  function Zeros(): Data {
    seq(256, i => 0)
  }

  /** Device and block number. */
  type Key = (nat, nat)

  datatype Flags = Free | Used | Modified

  datatype Entry = Entry(flags: Flags, device: nat, n: nat, cnt: nat, data: Data)

  type Disk = map<Key, Data>

  function OnDisk(disk: Disk, k: Key): Data {
    if k in disk then disk[k] else Zeros()
  }

  predicate Holds(e: Entry, k: Key) {
    e.flags != Free && (e.device, e.n) == k
  }

  /** The first entry holding a block, or the number of entries. */
  function EntryOf(es: seq<Entry>, k: Key): (i: nat)
    ensures i <= |es| && (i < |es| ==> Holds(es[i], k))
    ensures forall j | 0 <= j < i :: !Holds(es[j], k)
  {
    if es == [] then 0 else if Holds(es[0], k) then 0 else 1 + EntryOf(es[1..], k)
  }

  /** What a reader of the block sees: the cached contents over the disk. */
  function ViewOf(es: seq<Entry>, disk: Disk, k: Key): Data {
    var i := EntryOf(es, k);
    if i < |es| then es[i].data else OnDisk(disk, k)
  }

  ghost function ViewMap(es: seq<Entry>, disk: Disk): imap<Key, Data> {
    imap k: Key :: ViewOf(es, disk, k)
  }

  /** Who holds an entry: nobody, or cnt holders of one block. */
  datatype Handle = NoHandle | Handle(k: Key, cnt: nat)

  function HandleOf(e: Entry): Handle {
    if e.cnt > 0 then Handle((e.device, e.n), e.cnt) else NoHandle
  }

  function HandlesOf(es: seq<Entry>): seq<Handle> {
    seq(|es|, i requires 0 <= i < |es| => HandleOf(es[i]))
  }

  /** How often a block is held, and how many entries are. */
  function PinsIn(hs: seq<Handle>, k: Key): nat {
    if hs == [] then 0 else if hs[0].Handle? && hs[0].k == k then hs[0].cnt else PinsIn(hs[1..], k)
  }

  function PinnedIn(hs: seq<Handle>): nat {
    if hs == [] then 0 else (if hs[|hs| - 1].Handle? then 1 else 0) + PinnedIn(hs[..|hs| - 1])
  }

  function Less(h: Handle): Handle
    requires h.Handle? && h.cnt > 0
  {
    if h.cnt == 1 then NoHandle else Handle(h.k, h.cnt - 1)
  }

  /** At most one entry for a block; unmodified entries agree with the disk; free entries have no
      holders. */
  ghost predicate Consistent(es: seq<Entry>, disk: Disk) {
    && (forall i, j | 0 <= i < j < |es| && es[i].flags != Free && es[j].flags != Free ::
          (es[i].device, es[i].n) != (es[j].device, es[j].n))
    && (forall i | 0 <= i < |es| && es[i].flags == Used :: es[i].data == OnDisk(disk, (es[i].device, es[i].n)))
    && (forall i | 0 <= i < |es| && es[i].flags == Free :: es[i].cnt == 0)
  }

  lemma {:induction false} EntryIs(es: seq<Entry>, disk: Disk, i: nat)
    requires Consistent(es, disk) && i < |es| && es[i].flags != Free
    ensures EntryOf(es, (es[i].device, es[i].n)) == i
  {
  }

  lemma {:induction false} PinnedUpdate(hs: seq<Handle>, i: nat, h: Handle)
    requires i < |hs|
    ensures PinnedIn(hs[i := h]) + (if hs[i].Handle? then 1 else 0) == PinnedIn(hs) + (if h.Handle? then 1 else 0)
    decreases |hs|
  {
    var k := |hs| - 1;
    if i < k {
      PinnedUpdate(hs[..k], i, h);
      assert hs[i := h][..k] == hs[..k][i := h];
    } else {
      assert hs[i := h][..k] == hs[..k];
    }
  }

  lemma {:induction false} PinnedAll(hs: seq<Handle>)
    ensures PinnedIn(hs) <= |hs|
    ensures PinnedIn(hs) == |hs| <==> forall i | 0 <= i < |hs| :: hs[i].Handle?
    decreases |hs|
  {
    if hs != [] {
      var k := |hs| - 1;
      PinnedAll(hs[..k]);
      assert forall i | 0 <= i < k :: hs[..k][i] == hs[i];
    }
  }

  lemma {:induction false} PinsAt(hs: seq<Handle>, k: Key, i: nat)
    requires i < |hs| && forall j | 0 <= j < |hs| && j != i && hs[j].Handle? :: hs[j].k != k
    ensures PinsIn(hs, k) == if hs[i].Handle? && hs[i].k == k then hs[i].cnt else 0
  {
    if i == 0 {
      if !(hs[0].Handle? && hs[0].k == k) {
        PinsNone(hs[1..], k);
      }
    } else {
      assert forall j | 0 <= j < |hs| - 1 :: hs[1..][j] == hs[j + 1];
      PinsAt(hs[1..], k, i - 1);
    }
  }

  lemma {:induction false} PinsNone(hs: seq<Handle>, k: Key)
    requires forall j | 0 <= j < |hs| && hs[j].Handle? :: hs[j].k != k
    ensures PinsIn(hs, k) == 0
  {
    if hs != [] {
      assert forall j | 0 <= j < |hs| - 1 :: hs[1..][j] == hs[j + 1];
      PinsNone(hs[1..], k);
    }
  }

  // ----- what `block_sync` does -----

  function SyncEntry(e: Entry): Entry {
    if e.cnt == 0 then e.(flags := Free) else e
  }

  function SyncDisk(e: Entry, disk: Disk): Disk {
    if e.cnt == 0 && e.flags == Modified then disk[(e.device, e.n) := e.data] else disk
  }

  function Synced(es: seq<Entry>): seq<Entry> {
    seq(|es|, i requires 0 <= i < |es| => SyncEntry(es[i]))
  }

  function Written(es: seq<Entry>, disk: Disk, m: nat): Disk
    requires m <= |es|
  {
    if m == 0 then disk else SyncDisk(es[m - 1], Written(es, disk, m - 1))
  }

  /** Releasing one entry, written back first if it is modified, is invisible to readers. */
  lemma SyncStep(es: seq<Entry>, disk: Disk, i: nat)
    requires Consistent(es, disk) && i < |es|
    ensures var es1 := es[i := SyncEntry(es[i])];
            var disk1 := SyncDisk(es[i], disk);
            && Consistent(es1, disk1) && HandlesOf(es1) == HandlesOf(es)
            && ViewMap(es1, disk1) == ViewMap(es, disk)
  {
    var es1, disk1 := es[i := SyncEntry(es[i])], SyncDisk(es[i], disk);
    SyncStepConsistent(es, disk, i);
    hide Consistent, ViewOf, SyncDisk;
    forall k: Key ensures ViewOf(es1, disk1, k) == ViewOf(es, disk, k) {
      SyncStepAt(es, disk, i, k);
    }
  }

  lemma SyncStepConsistent(es: seq<Entry>, disk: Disk, i: nat)
    requires Consistent(es, disk) && i < |es|
    ensures Consistent(es[i := SyncEntry(es[i])], SyncDisk(es[i], disk))
  {
  }

  lemma SyncStepAt(es: seq<Entry>, disk: Disk, i: nat, k: Key)
    requires Consistent(es, disk) && i < |es|
    ensures var es1 := es[i := SyncEntry(es[i])];
            var disk1 := SyncDisk(es[i], disk);
            ViewOf(es1, disk1, k) == ViewOf(es, disk, k)
  {
    var es1 := es[i := SyncEntry(es[i])];
    var a := EntryOf(es, k);
    if a == i && es[i].cnt == 0 {
      assert forall j | 0 <= j < |es1| :: !Holds(es1[j], k);
      assert EntryOf(es1, k) == |es1|;
    } else if a == |es| {
      assert forall j | 0 <= j < |es1| :: !Holds(es[j], k);
      assert forall j | 0 <= j < |es1| :: !Holds(es1[j], k);
      assert EntryOf(es1, k) == |es1|;
    } else {
      SameIndex(es, es1, k, a);
    }
  }

  lemma {:induction false} SameIndex(es: seq<Entry>, es1: seq<Entry>, k: Key, a: nat)
    requires |es1| == |es| && a < |es| && EntryOf(es, k) == a && Holds(es1[a], k)
    requires forall j | 0 <= j < a :: !Holds(es1[j], k)
    ensures EntryOf(es1, k) == a
  {
  }

  // ----- when `bread` returns -----

  /** One turn of the endless loop of `bread`: the entry it returns, or none. */
  function Turn(es: seq<Entry>, k: Key): (i: nat)
    ensures i <= |es|
  {
    var a := EntryOf(es, k);
    if a < |es| then a else FirstFree(es)
  }

  function FirstFree(es: seq<Entry>): (i: nat)
    ensures i <= |es| && (i < |es| ==> es[i].flags == Free)
    ensures forall j | 0 <= j < i :: es[j].flags != Free
  {
    if es == [] then 0 else if es[0].flags == Free then 0 else 1 + FirstFree(es[1..])
  }

  /** Some turn among the first `turns`, with a `block_sync` between turns, returns an entry. */
  predicate ReturnsWithin(es: seq<Entry>, k: Key, turns: nat)
    decreases turns
  {
    turns > 0 && (Turn(es, k) < |es| || ReturnsWithin(Synced(es), k, turns - 1))
  }

  lemma SyncedPinned(es: seq<Entry>)
    requires forall i | 0 <= i < |es| :: es[i].cnt > 0
    ensures Synced(es) == es
  {
  }

  lemma {:induction false} StuckForever(es: seq<Entry>, k: Key, turns: nat)
    requires Turn(es, k) == |es| && forall i | 0 <= i < |es| :: es[i].cnt > 0
    ensures !ReturnsWithin(es, k, turns)
    decreases turns
  {
    if turns > 0 {
      SyncedPinned(es);
      StuckForever(es, k, turns - 1);
    }
  }

  /** An entry that holds the block, is free, or has no holder. */
  predicate Available(e: Entry, k: Key) {
    Holds(e, k) || e.flags == Free || e.cnt == 0
  }

  /** `bread` comes to an end exactly when the block is cached, an entry is free, or an entry has no
      holder; and then at the latest in the second turn. */
  lemma {:induction false} ReturnsIff(es: seq<Entry>, k: Key)
    ensures Returns(es, k) <==> SomeAvailable(es, k)
    ensures SomeAvailable(es, k) ==> forall turns | turns >= 2 :: ReturnsWithin(es, k, turns)
  {
    if SomeAvailable(es, k) {
      forall turns: nat | turns >= 2 ensures ReturnsWithin(es, k, turns) {
        ReturnsInTwo(es, k, turns);
      }
      var t: nat :| t >= 2;
      assert ReturnsWithin(es, k, t);
    } else {
      NothingAvailable(es, k);
      forall turns: nat ensures !ReturnsWithin(es, k, turns) {
        assert forall i | 0 <= i < |es| :: !Available(es[i], k);
        StuckForever(es, k, turns);
      }
    }
  }

  ghost predicate Returns(es: seq<Entry>, k: Key) {
    exists turns: nat :: ReturnsWithin(es, k, turns)
  }

  predicate SomeAvailable(es: seq<Entry>, k: Key) {
    exists i | 0 <= i < |es| :: Available(es[i], k)
  }

  lemma NothingAvailable(es: seq<Entry>, k: Key)
    requires !SomeAvailable(es, k)
    ensures Turn(es, k) == |es|
  {
    if Turn(es, k) < |es| {
      assert Available(es[Turn(es, k)], k);
    }
  }

  lemma {:induction false} ReturnsInTwo(es: seq<Entry>, k: Key, turns: nat)
    requires SomeAvailable(es, k) && turns >= 2
    ensures ReturnsWithin(es, k, turns)
  {
    if Turn(es, k) == |es| {
      var i :| 0 <= i < |es| && Available(es[i], k);
      assert EntryOf(es, k) == |es| && !Holds(es[i], k);
      assert Synced(es)[i].flags == Free;
      assert FirstFree(Synced(es)) <= i;
      assert Turn(Synced(es), k) < |es|;
      assert ReturnsWithin(Synced(es), k, turns - 1);
    }
  }

  /** The entries after the first m turns of `block_sync`. */
  function Partly(es: seq<Entry>, m: nat): seq<Entry>
    requires m <= |es|
  {
    Synced(es)[..m] + es[m..]
  }

  lemma {:induction false} WrittenNone(es: seq<Entry>, disk: Disk)
    ensures Written(es, disk, 0) == disk && Partly(es, 0) == es && Partly(es, |es|) == Synced(es)
  {
  }

  lemma SyncOne(es: seq<Entry>, disk: Disk, i: nat)
    requires i < |es|
    ensures Written(es, disk, i + 1) == SyncDisk(es[i], Written(es, disk, i))
    ensures forall d :: SyncDisk(es[i], d) ==
              if es[i].cnt == 0 && es[i].flags == Modified then d[(es[i].device, es[i].n) := es[i].data] else d
    ensures SyncEntry(es[i]) == if es[i].cnt == 0 then es[i].(flags := Free) else es[i]
    ensures |Partly(es, i)| == |es| && Partly(es, i)[i] == es[i]
    ensures Partly(es, i)[i := SyncEntry(es[i])] == Partly(es, i + 1)
  {
  }

  /** After a sync only blocks that somebody holds are cached; all others are read from the disk. */
  lemma OnlyHeldCached(es0: seq<Entry>, es: seq<Entry>, disk: Disk)
    requires es == Synced(es0) && Consistent(es, disk)
    ensures forall k: Key | PinsIn(HandlesOf(es), k) == 0 :: OnDisk(disk, k) == ViewMap(es, disk)[k]
  {
    forall k: Key | PinsIn(HandlesOf(es), k) == 0 ensures OnDisk(disk, k) == ViewMap(es, disk)[k] {
      UnheldOnDisk(es0, es, disk, k);
    }
  }

  lemma {:induction false} UnheldOnDisk(es0: seq<Entry>, es: seq<Entry>, disk: Disk, k: Key)
    requires es == Synced(es0) && Consistent(es, disk) && PinsIn(HandlesOf(es), k) == 0
    ensures ViewOf(es, disk, k) == OnDisk(disk, k)
  {
    var i := EntryOf(es, k);
    if i < |es| {
      assert es[i] == SyncEntry(es0[i]) && es[i].cnt > 0;
      HandleApart(es, disk, i);
    }
  }

  // ----- the cache -----

  class Cache {
    const blockCache: array<Entry>
    var disk: Disk

    ghost predicate Valid()
      reads this, blockCache
    {
      blockCache.Length == CACHE_SIZE && Consistent(blockCache[..], disk)
    }

    ghost function View(): imap<Key, Data>
      reads this, blockCache
    {
      ViewMap(blockCache[..], disk)
    }

    ghost function Handles(): seq<Handle>
      reads blockCache
    {
      HandlesOf(blockCache[..])
    }

    ghost function Pinned(): nat
      reads blockCache
    {
      PinnedIn(Handles())
    }

    constructor (disk: Disk)
      ensures Valid() && fresh(blockCache) && this.disk == disk
      ensures forall k :: View()[k] == OnDisk(disk, k)
      ensures Handles() == seq(CACHE_SIZE, i => NoHandle)
    {
      this.disk := disk;
      blockCache := new Entry[CACHE_SIZE](i => Entry(Free, 0, 0, 0, Zeros()));
    }

    /** `block_sync`. */
    method Sync()
      requires Valid()
      modifies this, blockCache
      ensures Valid() && blockCache[..] == Synced(old(blockCache[..]))
      ensures disk == Written(old(blockCache[..]), old(disk), CACHE_SIZE)
      ensures View() == old(View()) && Handles() == old(Handles())
      ensures forall k: Key | PinsIn(Handles(), k) == 0 :: OnDisk(disk, k) == View()[k]
    {
      hide Consistent, ViewMap, HandlesOf, Written, SyncDisk, SyncEntry, Partly, Synced;
      ghost var es0, disk0 := blockCache[..], disk;
      WrittenNone(es0, disk0);
      var i := 0;
      while i < CACHE_SIZE
        invariant i <= CACHE_SIZE && Valid()
        invariant blockCache[..] == Partly(es0, i)
        invariant disk == Written(es0, disk0, i)
        invariant View() == ViewMap(es0, disk0) && Handles() == HandlesOf(es0)
      {
        ghost var es, d := blockCache[..], disk;
        SyncOne(es0, disk0, i);
        SyncStep(es, d, i);
        if blockCache[i].cnt == 0 {
          if blockCache[i].flags == Modified {
            disk := disk[(blockCache[i].device, blockCache[i].n) := blockCache[i].data];
          }
          blockCache[i] := blockCache[i].(flags := Free);
        }
        assert blockCache[..] == es[i := SyncEntry(es[i])];
        i := i + 1;
      }
      OnlyHeldCached(es0, blockCache[..], disk);
    }

    method FindCached(k: Key) returns (i: nat)
      requires Valid()
      ensures i == EntryOf(blockCache[..], k)
    {
      i := 0;
      while i < CACHE_SIZE
        invariant i <= CACHE_SIZE && forall j | 0 <= j < i :: !Holds(blockCache[..][j], k)
      {
        if blockCache[i].flags != Free {
          if blockCache[i].device == k.0 && blockCache[i].n == k.1 {
            return;
          }
        }
        i := i + 1;
      }
    }

    method FindFree() returns (i: nat)
      requires Valid()
      ensures i == FirstFree(blockCache[..])
    {
      i := 0;
      while i < CACHE_SIZE
        invariant i <= CACHE_SIZE && forall j | 0 <= j < i :: blockCache[..][j].flags != Free
      {
        if blockCache[i].flags == Free {
          return;
        }
        i := i + 1;
      }
    }

    /** `bread`: the entry returned is held once more and shows what readers saw before. */
    method Bread(device: nat, n: nat) returns (i: nat)
      requires Valid()
      requires PinsIn(Handles(), (device, n)) > 0 || Pinned() < CACHE_SIZE
      modifies this, blockCache
      ensures Valid() && i < CACHE_SIZE
      ensures blockCache[i].data == old(View())[(device, n)]
      ensures View() == old(View())
      ensures var hs, k := old(Handles()), (device, n);
              && |hs| == CACHE_SIZE && Handles() == hs[i := Handle(k, PinsIn(hs, k) + 1)]
              && hs[i] == if PinsIn(hs, k) == 0 then NoHandle else Handle(k, PinsIn(hs, k))
    {
      hide Consistent, ViewMap, HandlesOf, EntryOf, FirstFree, PinsIn, PinnedIn;
      var k := (device, n);
      var synced := false;
      while true
        invariant Valid() && View() == old(View()) && Handles() == old(Handles())
        invariant synced ==> FirstFree(blockCache[..]) < CACHE_SIZE
        decreases !synced
      {
        i := FindCached(k);
        ghost var es := blockCache[..];
        EntryFacts(es, disk, k);
        if i < CACHE_SIZE {
          HoldMore(es, disk, i, k);
          blockCache[i] := blockCache[i].(cnt := blockCache[i].cnt + 1);
          assert blockCache[..] == es[i := es[i].(cnt := es[i].cnt + 1)];
          return;
        }
        i := FindFree();
        if i < CACHE_SIZE {
          var data := if k in disk then disk[k] else Zeros();
          Fill(es, disk, i, k);
          blockCache[i] := Entry(Used, device, n, 1, data);
          assert blockCache[..] == es[i := Entry(Used, device, n, 1, data)];
          return;
        }
        SomeUnheld(es, disk, k);
        SomeFree(es);
        Sync();
        synced := true;
      }
    }

    /** `bfree`, by a holder. */
    method Bfree(i: nat)
      requires Valid() && i < CACHE_SIZE && blockCache[i].cnt > 0
      modifies blockCache
      ensures Valid() && View() == old(View())
      ensures |old(Handles())| == CACHE_SIZE && old(Handles())[i].Handle? && old(Handles())[i].cnt > 0
      ensures Handles() == old(Handles())[i := Less(old(Handles())[i])]
    {
      hide Consistent, ViewMap, HandlesOf;
      ghost var es := blockCache[..];
      HoldLess(es, disk, i);
      blockCache[i] := blockCache[i].(cnt := blockCache[i].cnt - 1);
      assert blockCache[..] == es[i := es[i].(cnt := es[i].cnt - 1)];
    }

    /** A holder changes the data and marks the entry modified. */
    method Change(i: nat, data: Data)
      requires Valid() && i < CACHE_SIZE && blockCache[i].cnt > 0
      modifies blockCache
      ensures Valid() && Handles() == old(Handles())
      ensures View() == old(View())[(old(blockCache[i].device), old(blockCache[i].n)) := data]
      ensures blockCache[i] == old(blockCache[i]).(data := data, flags := Modified)
    {
      hide Consistent, ViewMap, HandlesOf;
      ghost var es := blockCache[..];
      Changed(es, disk, i, data);
      blockCache[i] := blockCache[i].(data := data, flags := Modified);
      assert blockCache[..] == es[i := es[i].(data := data, flags := Modified)];
    }

    /** What a holder sees of its entry. */
    lemma Shows(i: nat)
      requires Valid() && i < |Handles()| && Handles()[i].Handle?
      ensures |Handles()| == CACHE_SIZE && blockCache[i].cnt == Handles()[i].cnt > 0
      ensures blockCache[i].data == View()[Handles()[i].k]
      ensures (blockCache[i].device, blockCache[i].n) == Handles()[i].k
      ensures PinsIn(Handles(), Handles()[i].k) == Handles()[i].cnt
    {
      EntryIs(blockCache[..], disk, i);
      HandleApart(blockCache[..], disk, i);
    }

    lemma ViewTotal()
      ensures forall k: Key :: k in View()
    {
    }
  }

  lemma HandleApart(es: seq<Entry>, disk: Disk, i: nat)
    requires Consistent(es, disk) && i < |es| && es[i].cnt > 0
    ensures PinsIn(HandlesOf(es), (es[i].device, es[i].n)) == es[i].cnt
  {
    var hs := HandlesOf(es);
    forall j | 0 <= j < |hs| && j != i && hs[j].Handle? ensures hs[j].k != (es[i].device, es[i].n) {
      assert es[j].flags != Free && es[i].flags != Free;
    }
    PinsAt(hs, (es[i].device, es[i].n), i);
  }

  lemma {:induction false} EntryFacts(es: seq<Entry>, disk: Disk, k: Key)
    requires Consistent(es, disk)
    ensures var i := EntryOf(es, k);
            && i <= |es| && (i < |es| ==> Holds(es[i], k))
            && ViewMap(es, disk)[k] == (if i < |es| then es[i].data else OnDisk(disk, k))
            && PinsIn(HandlesOf(es), k) == (if i < |es| then es[i].cnt else 0)
            && |HandlesOf(es)| == |es| && forall j | 0 <= j < |es| :: HandlesOf(es)[j] == HandleOf(es[j])
  {
    var i := EntryOf(es, k);
    var hs := HandlesOf(es);
    if i < |es| {
      forall j | 0 <= j < |hs| && j != i && hs[j].Handle? ensures hs[j].k != k {
        assert es[j].flags != Free;
      }
      PinsAt(hs, k, i);
    } else {
      forall j | 0 <= j < |hs| && hs[j].Handle? ensures hs[j].k != k {
        assert es[j].flags != Free && !Holds(es[j], k);
      }
      PinsNone(hs, k);
    }
  }

  lemma {:induction false} SomeUnheld(es: seq<Entry>, disk: Disk, k: Key)
    requires Consistent(es, disk) && EntryOf(es, k) == |es|
    requires PinsIn(HandlesOf(es), k) > 0 || PinnedIn(HandlesOf(es)) < |es|
    ensures exists i | 0 <= i < |es| :: es[i].cnt == 0
  {
    EntryFacts(es, disk, k);
    PinnedAll(HandlesOf(es));
    assert |HandlesOf(es)| == |es|;
    var i :| 0 <= i < |es| && !HandlesOf(es)[i].Handle?;
    assert es[i].cnt == 0;
  }

  lemma SomeFree(es: seq<Entry>)
    requires exists i | 0 <= i < |es| :: es[i].cnt == 0
    ensures FirstFree(Synced(es)) < |es|
  {
    var i :| 0 <= i < |es| && es[i].cnt == 0;
    assert Synced(es)[i].flags == Free;
  }

  lemma {:induction false} HoldMore(es: seq<Entry>, disk: Disk, i: nat, k: Key)
    requires Consistent(es, disk) && i < |es| && i == EntryOf(es, k)
    ensures var e := es[i].(cnt := es[i].cnt + 1);
            && Consistent(es[i := e], disk) && ViewMap(es[i := e], disk) == ViewMap(es, disk)
            && HandlesOf(es[i := e]) == HandlesOf(es)[i := Handle(k, es[i].cnt + 1)]
  {
    var e := es[i].(cnt := es[i].cnt + 1);
    EntryChanged(es, disk, i, e);
    HandleUpdate(es, i, e);
  }

  lemma HoldLess(es: seq<Entry>, disk: Disk, i: nat)
    requires Consistent(es, disk) && i < |es| && es[i].cnt > 0
    ensures var e := es[i].(cnt := es[i].cnt - 1);
            && |HandlesOf(es)| == |es| && HandlesOf(es)[i] == Handle((es[i].device, es[i].n), es[i].cnt)
            && Consistent(es[i := e], disk) && ViewMap(es[i := e], disk) == ViewMap(es, disk)
            && HandlesOf(es[i := e]) == HandlesOf(es)[i := Less(HandlesOf(es)[i])]
  {
    var e := es[i].(cnt := es[i].cnt - 1);
    EntryChanged(es, disk, i, e);
    HandleUpdate(es, i, e);
  }

  lemma Changed(es: seq<Entry>, disk: Disk, i: nat, data: Data)
    requires Consistent(es, disk) && i < |es| && es[i].cnt > 0
    ensures var e := es[i].(data := data, flags := Modified);
            && Consistent(es[i := e], disk)
            && ViewMap(es[i := e], disk) == ViewMap(es, disk)[(es[i].device, es[i].n) := data]
            && HandlesOf(es[i := e]) == HandlesOf(es)
  {
    var e := es[i].(data := data, flags := Modified);
    EntryChanged(es, disk, i, e);
    HandleUpdate(es, i, e);
  }

  lemma HandleUpdate(es: seq<Entry>, i: nat, e: Entry)
    requires i < |es|
    ensures HandlesOf(es[i := e]) == HandlesOf(es)[i := HandleOf(e)]
    ensures HandleOf(e) == HandleOf(es[i]) ==> HandlesOf(es[i := e]) == HandlesOf(es)
  {
  }

  /** An entry whose block stays the same changes the view of that block only. */
  lemma EntryChanged(es: seq<Entry>, disk: Disk, i: nat, e: Entry)
    requires Consistent(es, disk) && i < |es| && es[i].flags != Free && e.flags != Free
    requires e.device == es[i].device && e.n == es[i].n
    requires e.flags == Used ==> es[i].flags == Used && e.data == es[i].data
    ensures Consistent(es[i := e], disk)
    ensures ViewMap(es[i := e], disk) == ViewMap(es, disk)[(es[i].device, es[i].n) := e.data]
    ensures e.data == es[i].data ==> ViewMap(es[i := e], disk) == ViewMap(es, disk)
  {
    var k := (es[i].device, es[i].n);
    StillConsistent(es, disk, i, e);
    EntryIs(es, disk, i);
    hide Consistent, ViewOf, EntryOf;
    var es1 := es[i := e];
    EntryAt(es, disk, i, e, k, k);
    forall x: Key ensures ViewOf(es1, disk, x) == if x == k then e.data else ViewOf(es, disk, x) {
      EntryAt(es, disk, i, e, k, x);
    }
    ViewChanged(es, es1, disk, k, e.data);
  }

  lemma ViewChanged(es: seq<Entry>, es1: seq<Entry>, disk: Disk, k: Key, d: Data)
    requires forall x: Key :: ViewOf(es1, disk, x) == if x == k then d else ViewOf(es, disk, x)
    ensures ViewMap(es1, disk) == ViewMap(es, disk)[k := d]
    ensures ViewOf(es, disk, k) == d ==> ViewMap(es1, disk) == ViewMap(es, disk)
  {
    hide ViewOf;
  }

  lemma StillConsistent(es: seq<Entry>, disk: Disk, i: nat, e: Entry)
    requires Consistent(es, disk) && i < |es| && es[i].flags != Free && e.flags != Free
    requires e.device == es[i].device && e.n == es[i].n
    requires e.flags == Used ==> es[i].flags == Used && e.data == es[i].data
    ensures Consistent(es[i := e], disk)
  {
  }

  lemma EntryAt(es: seq<Entry>, disk: Disk, i: nat, e: Entry, k: Key, x: Key)
    requires i < |es| && EntryOf(es, k) == i && Holds(e, k)
    ensures ViewOf(es[i := e], disk, x) == if x == k then e.data else ViewOf(es, disk, x)
    ensures x == k ==> ViewOf(es, disk, x) == es[i].data
  {
    assert Holds(es[i], k);
    assert forall j | 0 <= j < |es| :: Holds(es[i := e][j], x) == Holds(es[j], x);
    assert EntryOf(es[i := e], x) == EntryOf(es, x);
  }

  lemma Fill(es: seq<Entry>, disk: Disk, i: nat, k: Key)
    requires Consistent(es, disk) && i < |es| && i == FirstFree(es) && EntryOf(es, k) == |es|
    ensures var e := Entry(Used, k.0, k.1, 1, OnDisk(disk, k));
            && Consistent(es[i := e], disk) && es[i].cnt == 0
            && ViewMap(es[i := e], disk) == ViewMap(es, disk)
            && HandlesOf(es[i := e]) == HandlesOf(es)[i := Handle(k, 1)]
  {
    var e := Entry(Used, k.0, k.1, 1, OnDisk(disk, k));
    FillConsistent(es, disk, i, k, e);
    HandleUpdate(es, i, e);
    hide Consistent, ViewOf, EntryOf, HandlesOf, FirstFree;
    forall x: Key ensures ViewOf(es[i := e], disk, x) == ViewOf(es, disk, x) {
      FillAt(es, disk, i, k, e, x);
    }
  }

  lemma FillConsistent(es: seq<Entry>, disk: Disk, i: nat, k: Key, e: Entry)
    requires Consistent(es, disk) && i < |es| && es[i].flags == Free && EntryOf(es, k) == |es|
    requires e == Entry(Used, k.0, k.1, 1, OnDisk(disk, k))
    ensures Consistent(es[i := e], disk) && es[i].cnt == 0
  {
    assert forall j | 0 <= j < |es| :: !Holds(es[j], k);
  }

  lemma FillAt(es: seq<Entry>, disk: Disk, i: nat, k: Key, e: Entry, x: Key)
    requires i < |es| && es[i].flags == Free && EntryOf(es, k) == |es|
    requires e == Entry(Used, k.0, k.1, 1, OnDisk(disk, k))
    ensures ViewOf(es[i := e], disk, x) == ViewOf(es, disk, x)
  {
    var es1 := es[i := e];
    assert forall j | 0 <= j < |es| && j != i :: Holds(es1[j], x) == Holds(es[j], x);
    assert Holds(es1[i], x) <==> x == k;
    assert !Holds(es[i], x);
    assert EntryOf(es1, x) == if x == k then i else EntryOf(es, x);
  }
}

/** The inode cache is coherent with the inode table and is an exact LRU cache. */
module CacheLaws {
  import opened Geometry
  import opened Codec
  import opened FreeList
  import opened BlockMap
  import opened Ownership
  import opened Inodes
  import opened InodeCache
  import opened ReleaseLaws
  import opened FileSystem

  // ----- keys and entries ------------------------------------------------

  function Members(line: Line): set<word> {
    if line.Nobody? then {} else Members(line.older) + {line.id}
  }

  predicate Distinct(line: Line) {
    line.Line? ==> line.id !in Members(line.older) && Distinct(line.older)
  }

  /** The keys in insertion order are the keys of the entries, each once. */
  ghost predicate CacheInv(c: Cache) {
    Distinct(c.order) && Members(c.order) == c.at.Keys
  }

  lemma {:induction false} WithoutLaws(line: Line, id: word)
    requires Distinct(line)
    ensures Distinct(Without(line, id)) && Members(Without(line, id)) == Members(line) - {id}
    ensures Length(Without(line, id)) == Length(line) - if id in Members(line) then 1 else 0
  {
    if line.Line? {
      WithoutLaws(line.older, id);
    }
  }

  /** Moving a key to the end, or adding it there. */
  function Touch(line: Line, id: word): Line {
    Line(Without(line, id), id)
  }

  /** The n newest keys. */
  function Newest(line: Line, n: nat): Line {
    if n == 0 || line.Nobody? then Nobody else Line(Newest(line.older, n - 1), line.id)
  }

  lemma {:induction false} OldestIsMember(line: Line)
    requires line.Line?
    ensures Oldest(line) in Members(line)
  {
    if line.older.Line? {
      OldestIsMember(line.older);
    }
  }

  /** Dropping the oldest key keeps the newest ones. */
  lemma {:induction false} DropOldest(line: Line)
    requires line.Line? && Distinct(line)
    ensures Without(line, Oldest(line)) == Newest(line, Length(line) - 1)
  {
    if line.older.Line? {
      OldestIsMember(line.older);
      DropOldest(line.older);
    }
  }

  lemma {:induction false} NewestAll(line: Line, n: nat)
    requires n >= Length(line)
    ensures Newest(line, n) == line
  {
    if line.Line? {
      NewestAll(line.older, n - 1);
    }
  }

  /** What a put does: the key becomes the newest one, and the cache keeps the newest
      MAX_CACHE_SIZE - 1 keys; the one just inserted is never dropped. */
  lemma PutCacheLaws(c: Cache, ino: Inode)
    requires CacheInv(c) && Length(c.order) < MAX_CACHE_SIZE
    ensures var c' := PutInCache(c, ino);
      && CacheInv(c') && Length(c'.order) < MAX_CACHE_SIZE
      && c'.order == Newest(Touch(c.order, ino.id), MAX_CACHE_SIZE - 1)
      && ino.id in c'.at && c'.at[ino.id] == ino
      && forall x :: x in c'.at && x != ino.id ==> x in c.at && c'.at[x] == c.at[x]
  {
    var t := Touch(c.order, ino.id);
    WithoutLaws(c.order, ino.id);
    if Length(t) >= MAX_CACHE_SIZE {
      DropOldest(t);
      WithoutLaws(t, Oldest(t));
      OldestIsMember(t.older);
      OldestIsMember(t);
    } else {
      NewestAll(t, MAX_CACHE_SIZE - 1);
    }
  }

  lemma HitLaws(c: Cache, id: word)
    requires CacheInv(c) && id in c.at
    ensures var c' := GetFromCache(c, id).cache;
      CacheInv(c') && c'.order == Touch(c.order, id) && c'.at == c.at && Length(c'.order) == Length(c.order)
  {
    WithoutLaws(c.order, id);
  }

  // ----- runs ------------------------------------------------------------

  datatype CacheOp = Get(id: int) | Put(ino: Inode) | New(stale: Inode)

  /** The inodes that are put have numbers of the table. */
  predicate Numbered(op: CacheOp) {
    op.Put? ==> IsInode(op.ino.id)
  }

  predicate AllNumbered(ops: seq<CacheOp>)
    decreases |ops|
  {
    ops == [] || (Numbered(ops[0]) && AllNumbered(ops[1..]))
  }

  function Apply(s: Sys, op: CacheOp): Sys
    requires Numbered(op)
  {
    match op
    case Get(id) => Sys(GetInode(s.cache, s.vol.disk, id).cache, s.vol)
    case Put(ino) => var r := PutInode(s.cache, s.vol, ino); Sys(r.cache, r.vol)
    case New(stale) => Sys(s.cache, Ialloc(s.vol, stale).vol)
  }

  function RunOps(s: Sys, ops: seq<CacheOp>): Sys
    requires AllNumbered(ops)
    decreases |ops|
  {
    if ops == [] then s else RunOps(Apply(s, ops[0]), ops[1..])
  }

  // ----- free inodes -----------------------------------------------------

  /** What the table promises: slots know their number, and free slots have no links. */
  ghost predicate TableInv(d: Disk) {
    && NUM_INODES <= ALL_SLOTS
    && forall n :: IsInode(n) ==> SlotOf(d, n).id == n && (SlotOf(d, n).kind == TYPE_FREE ==> SlotOf(d, n).links == 0)
  }

  /** Some inode is free. */
  ghost predicate SomeFree(d: Disk)
    requires NUM_INODES <= ALL_SLOTS
  {
    exists n :: IsInode(n) && SlotOf(d, n).kind == TYPE_FREE
  }

  /** The scan of ialloc, which does not stop at the last inode: the lowest free inode, or
      what it finds behind the last one. */
  lemma {:induction false} NextFreeIsLowest(d: Disk, n: nat)
    requires TableInv(d) && 1 <= n <= NUM_INODES + 1
    ensures (forall m :: n <= m <= NUM_INODES ==> SlotOf(d, m).kind != TYPE_FREE) ==>
      NextFree(d, n) == NextFree(d, NUM_INODES + 1)
    ensures (exists m :: n <= m <= NUM_INODES && SlotOf(d, m).kind == TYPE_FREE) ==>
      && n <= NextFree(d, n) <= NUM_INODES && SlotOf(d, NextFree(d, n)).kind == TYPE_FREE
      && forall m :: n <= m < NextFree(d, n) ==> SlotOf(d, m).kind != TYPE_FREE
    decreases NUM_INODES + 1 - n
  {
    if n <= NUM_INODES && SlotOf(d, n).kind != TYPE_FREE {
      NextFreeIsLowest(d, n + 1);
    }
  }

  /** Slot m is the first one from n on that looks free. */
  ghost predicate FirstLooksFree(d: Disk, n: nat, m: nat)
    requires 1 <= n
  {
    n <= m <= ALL_SLOTS && SlotOf(d, m).kind == TYPE_FREE && forall k :: n <= k < m ==> SlotOf(d, k).kind != TYPE_FREE
  }

  /** No slot behind the last inode looks free, or the first one that does carries -1. */
  ghost predicate NoStraySlots(d: Disk) {
    forall m :: FirstLooksFree(d, NUM_INODES + 1, m) ==> NumberOf(SlotOf(d, m)) == -1
  }

  /** What the scan finds behind the last inode. */
  lemma {:induction false} ScanBehind(d: Disk, n: nat)
    requires 1 <= n
    ensures NextFree(d, n) == -1 <==> forall m :: FirstLooksFree(d, n, m) ==> NumberOf(SlotOf(d, m)) == -1
    decreases ALL_SLOTS + 1 - n
  {
    if n <= ALL_SLOTS {
      if SlotOf(d, n).kind == TYPE_FREE {
        assert FirstLooksFree(d, n, n);
      } else {
        ScanBehind(d, n + 1);
        forall m ensures FirstLooksFree(d, n, m) <==> FirstLooksFree(d, n + 1, m) {
          assert n <= m ==> n == m || n + 1 <= m;
        }
      }
    }
  }

  /** ialloc hands out a free inode or fails, changing nothing. */
  ghost predicate TakesFree(v: Vol, r: TableResult)
    requires NUM_INODES <= ALL_SLOTS
  {
    if r.ok then IsInode(r.ino.id) && SlotOf(v.disk, r.ino.id).kind == TYPE_FREE else r.vol == v
  }

  /** It does so exactly when some inode is free, or no slot behind the last inode is
      mistaken for one; otherwise it counts down num_free_inodes all the same, and writes
      an inode in use or, when iget has failed, an inode it has never read. */
  lemma IallocTakesFree(v: Vol, stale: Inode)
    requires TableInv(v.disk)
    ensures TakesFree(v, Ialloc(v, stale)) <==> SomeFree(v.disk) || NoStraySlots(v.disk)
    ensures !TakesFree(v, Ialloc(v, stale)) ==>
      var r, n := Ialloc(v, stale), NextFree(v.disk, NUM_INODES + 1);
      && r.vol.freeInodes == Decrement(v.freeInodes)
      && r.ino == (if IsInode(n) then SlotOf(v.disk, n) else stale).(links := 1, kind := TYPE_ORDINARY)
      && (r.ok <==> Placed(NumberOf(r.ino)))
      && r.vol.disk == (if r.ok then WithSlot(v.disk, NumberOf(r.ino), r.ino) else v.disk)[0 := r.vol.disk[0]]
      && Committed(r.vol)
  {
    hide SlotOf, WithSlot, SuperImage;
    NextFreeIsLowest(v.disk, 1);
    ScanBehind(v.disk, NUM_INODES + 1);
    var r := Ialloc(v, stale);
    if r.ok {
      CommitSlot(v.disk, r.vol.disk[0], NumberOf(r.ino), r.ino);
    }
  }

  /** With a free inode ialloc succeeds.  Without one it fails, changing nothing, unless a
      slot behind the last inode is mistaken for a free one. */
  lemma IallocFails(v: Vol, stale: Inode)
    requires TableInv(v.disk)
    ensures SomeFree(v.disk) ==> Ialloc(v, stale).ok
    ensures !SomeFree(v.disk) ==>
      (Ialloc(v, stale) == TableResult(v, false, stale) <==> NoStraySlots(v.disk))
  {
    NextFreeIsLowest(v.disk, 1);
    ScanBehind(v.disk, NUM_INODES + 1);
  }

  /** An inode in use that has nothing yet. */
  function UsedInode(n: word): Inode {
    FreshInode(n).(links := 1, kind := TYPE_ORDINARY)
  }

  /** The first n inodes are in use. */
  function UsedUp(d: Disk, n: nat): Disk
    requires n <= NUM_INODES
  {
    TableHoldsInodes();
    if n == 0 then d else WithSlot(UsedUp(d, n - 1), n, UsedInode(n))
  }

  lemma {:induction false} UsedUpSlots(d: Disk, n: nat, m: nat)
    requires n <= NUM_INODES && 1 <= m <= ALL_SLOTS
    ensures SlotOf(UsedUp(d, n), m) == if m <= n then UsedInode(m) else SlotOf(d, m)
  {
    hide SlotOf, WithSlot, UsedInode;
    TableHoldsInodes();
    if n > 0 {
      UsedUpSlots(d, n - 1, m);
      WriteReadSlot(UsedUp(d, n - 1), n, UsedInode(n), m);
    }
  }

  /** A disk with every inode in use and, behind the last one, a slot as a larger volume
      would have written it. */
  function StrayDisk(d: Disk): Disk
    requires NUM_INODES < ALL_SLOTS
  {
    WithSlot(UsedUp(d, NUM_INODES), NUM_INODES + 1, FreshInode(NUM_INODES + 1))
  }

  lemma StraySlot(d: Disk, m: nat)
    requires NUM_INODES < ALL_SLOTS && 1 <= m <= NUM_INODES + 1
    ensures SlotOf(StrayDisk(d), m) == if m <= NUM_INODES then UsedInode(m) else FreshInode(m)
  {
    hide SlotOf, WithSlot, UsedInode, UsedUp;
    UsedUpSlots(d, NUM_INODES, m);
    WriteReadSlot(UsedUp(d, NUM_INODES), NUM_INODES + 1, FreshInode(NUM_INODES + 1), m);
  }

  /** For instance: no inode is free, iget fails, and ialloc succeeds with whatever was in
      the inode it was given, if only the number in there names a slot on the disk; a
      count of 0 free inodes wraps around. */
  lemma StrayTaken(d: Disk, blocks: word, stale: Inode)
    requires NUM_INODES < ALL_SLOTS
    ensures var v := Vol(StrayDisk(d), blocks, 0);
      && TableInv(v.disk) && !SomeFree(v.disk) && !NoStraySlots(v.disk)
      && NextFree(v.disk, 1) == ToInt(NUM_INODES + 1) && !Iget(v.disk, NextFree(v.disk, 1)).ok
      && Ialloc(v, stale).ino == stale.(links := 1, kind := TYPE_ORDINARY)
      && (Ialloc(v, stale).ok <==> Placed(NumberOf(stale)))
      && Ialloc(v, stale).vol.freeInodes == ID_LIMIT - 1
  {
    hide SlotOf, WithSlot, StrayDisk, Ialloc;
    var e := StrayDisk(d);
    forall m | 1 <= m <= NUM_INODES + 1
      ensures SlotOf(e, m) == if m <= NUM_INODES then UsedInode(m) else FreshInode(m)
    {
      StraySlot(d, m);
    }
    assert FirstLooksFree(e, NUM_INODES + 1, NUM_INODES + 1);
    NextFreeIsLowest(e, 1);
    IallocTakesFree(Vol(e, blocks, 0), stale);
  }

  /** With a free inode, ialloc takes the lowest free slot, marks it used with one link,
      and leaves the other slots and all data blocks alone; the superblock is committed. */
  lemma IallocLowest(v: Vol, stale: Inode)
    requires TableInv(v.disk) && SomeFree(v.disk)
    ensures var r := Ialloc(v, stale);
      && r.ok && IsInode(r.ino.id) && SlotOf(v.disk, r.ino.id).kind == TYPE_FREE
      && (forall m :: 1 <= m < r.ino.id ==> SlotOf(v.disk, m).kind != TYPE_FREE)
      && r.ino == SlotOf(v.disk, r.ino.id).(links := 1, kind := TYPE_ORDINARY)
      && r.vol.freeBlocks == v.freeBlocks && r.vol.freeInodes == Decrement(v.freeInodes)
      && (forall n :: 1 <= n <= ALL_SLOTS ==>
            SlotOf(r.vol.disk, n) == if n == r.ino.id then r.ino else SlotOf(v.disk, n))
      && Committed(r.vol) && forall x :: HEAD <= x < NUM_BLOCKS ==> r.vol.disk[x] == v.disk[x]
  {
    hide SlotOf, WithSlot;
    NextFreeIsLowest(v.disk, 1);
    var ino := Ialloc(v, stale).ino;
    var d := Ialloc(v, stale).vol.disk;
    CommitSlot(v.disk, d[0], ino.id, ino);
    assert d == WithSlot(v.disk, ino.id, ino)[0 := d[0]];
    WriteSlotFrame(v.disk, ino.id, ino);
    forall n | 1 <= n <= ALL_SLOTS ensures SlotOf(d, n) == if n == ino.id then ino else SlotOf(v.disk, n) {
      WriteReadSlot(v.disk, ino.id, ino, n);
      SlotFrame(WithSlot(v.disk, ino.id, ino), d, n);
    }
  }

  // ----- coherence -------------------------------------------------------

  /** Cached inodes are inodes of the table, and those with links equal their slots. */
  ghost predicate Coherent(s: Sys) {
    && CacheInv(s.cache) && Length(s.cache.order) < MAX_CACHE_SIZE
    && TableInv(s.vol.disk)
    && forall x :: x in s.cache.at ==>
         IsInode(x) && s.cache.at[x].id == x && (s.cache.at[x].links != 0 ==> s.cache.at[x] == SlotOf(s.vol.disk, x))
  }

  /** The inode is one of a file system whose blocks have at most one owner each. */
  ghost predicate OfSoundWorld(v: Vol, w: World, ino: Inode) {
    w.disk == v.disk && Sound(w) && ino.id in w.files && w.files[ino.id] == ino
  }

  /** What callers may do: they put inodes of the table that are not marked free; an inode
      put for release is one of a sound world; and a new inode is asked for while there is
      a free one, or no slot behind the last inode is mistaken for one. */
  ghost predicate Legal(s: Sys, op: CacheOp) {
    match op
    case Get(_) => true
    case Put(ino) =>
      IsInode(ino.id) && ino.kind != TYPE_FREE && (ino.links == 0 ==> exists w :: OfSoundWorld(s.vol, w, ino))
    case New(_) => NUM_INODES <= ALL_SLOTS && (SomeFree(s.vol.disk) || NoStraySlots(s.vol.disk))
  }

  /** Every operation is legal when its turn comes. */
  ghost predicate LegalRun(s: Sys, ops: seq<CacheOp>)
    requires AllNumbered(ops)
    decreases |ops|
  {
    ops == [] || (Legal(s, ops[0]) && LegalRun(Apply(s, ops[0]), ops[1..]))
  }

  /** Releasing an inode of a sound world touches no inode block. */
  lemma ReleaseSparesTable(v: Vol, w: World, ino: Inode)
    requires OfSoundWorld(v, w, ino)
    ensures SameTable(v.disk, ReleaseFrom(v, ino, 0).0.disk)
  {
    var s := LoopReleases(w, ino.id, 0, v, ino, w.free, ReleaseFrom(v, ino, 0));
  }

  /** iput writes one slot: the inode itself, or a free one when the inode has no links. */
  lemma IputSlots(s: Sys, ino: Inode, n: nat)
    requires Legal(s, Put(ino)) && 1 <= n <= ALL_SLOTS
    ensures SlotOf(Iput(s.vol, ino).vol.disk, n) ==
      if n != ino.id then SlotOf(s.vol.disk, n) else if ino.links == 0 then FreshInode(ino.id) else ino
  {
    TableHoldsInodes();
    if ino.links == 0 {
      var w :| OfSoundWorld(s.vol, w, ino);
      ReleaseSparesTable(s.vol, w, ino);
      var r := ReleaseFrom(s.vol, ino, 0).0;
      IfreeBlanks(r, ino.id);
      SlotFrame(s.vol.disk, r.disk, n);
    } else {
      WriteReadSlot(s.vol.disk, ino.id, ino, n);
    }
  }

  lemma {:induction false} ReleaseKeepsId(v: Vol, ino: Inode, i: nat)
    ensures ReleaseFrom(v, ino, i).1.id == ino.id && ReleaseFrom(v, ino, i).1.links == ino.links
    ensures ReleaseFrom(v, ino, i).1.kind == ino.kind
    decreases ino.numBlocks - i
  {
    if i < ino.numBlocks {
      var id := GetBlockId(v.disk, ino, i);
      if id == 0 {
        ReleaseKeepsId(v, ino, i + 1);
      } else {
        ReleaseKeepsId(Free(v, id).vol, ino.(numAllocated := Decrement(ino.numAllocated)), i + 1);
      }
    }
  }

  lemma IputKeepsId(v: Vol, ino: Inode)
    requires IsInode(ino.id)
    ensures var r := Iput(v, ino);
      r.ok && r.ino.id == ino.id && r.ino.links == ino.links && (ino.links != 0 ==> r.ino == ino)
  {
    ReleaseKeepsId(v, ino, 0);
  }

  /** Every operation keeps the cache coherent. */
  lemma StepCoherent(s: Sys, op: CacheOp)
    requires Coherent(s) && Legal(s, op)
    ensures Coherent(Apply(s, op))
  {
    match op {
      case Get(id) => GetCoherent(s, id);
      case Put(ino) => PutCoherent(s, ino);
      case New(stale) => IallocCoherent(s, stale);
    }
  }

  lemma GetCoherent(s: Sys, id: int)
    requires Coherent(s)
    ensures Coherent(Apply(s, Get(id)))
  {
    if id in s.cache.at {
      HitLaws(s.cache, id);
    } else if IsInode(id) {
      PutCacheLaws(s.cache, SlotOf(s.vol.disk, id));
    }
  }

  lemma PutCoherent(s: Sys, ino: Inode)
    requires Coherent(s) && Legal(s, Put(ino))
    ensures Coherent(Apply(s, Put(ino)))
  {
    hide Iput, SlotOf, PutInCache, OfSoundWorld;
    var r := Iput(s.vol, ino);
    IputKeepsId(s.vol, ino);
    PutCacheLaws(s.cache, r.ino);
    forall n | 1 <= n <= ALL_SLOTS ensures SlotOf(r.vol.disk, n) ==
        if n != ino.id then SlotOf(s.vol.disk, n) else if ino.links == 0 then FreshInode(ino.id) else ino {
      IputSlots(s, ino, n);
    }
  }

  lemma IallocCoherent(s: Sys, stale: Inode)
    requires Coherent(s) && Legal(s, New(stale))
    ensures Coherent(Apply(s, New(stale)))
  {
    hide Ialloc, SlotOf;
    IallocFails(s.vol, stale);
    if SomeFree(s.vol.disk) {
      IallocLowest(s.vol, stale);
    }
  }

  lemma {:induction false} RunCoherent(s: Sys, ops: seq<CacheOp>)
    requires Coherent(s) && AllNumbered(ops) && LegalRun(s, ops)
    ensures Coherent(RunOps(s, ops))
    decreases |ops|
  {
    if ops != [] {
      StepCoherent(s, ops[0]);
      RunCoherent(Apply(s, ops[0]), ops[1..]);
    }
  }

  /** What put_inode leaves in the cache is what it leaves in the table exactly when the
      inode has links: a released inode stays cached as it was. */
  lemma StaleAfterPut(s: Sys, x: Inode)
    requires Coherent(s) && Legal(s, Put(x))
    ensures var t := Apply(s, Put(x));
      && NUM_INODES <= ALL_SLOTS && x.id in t.cache.at
      && (t.cache.at[x.id] == SlotOf(t.vol.disk, x.id) <==> x.links != 0)
  {
    ReleaseKeepsId(s.vol, x, 0);
    PutCacheLaws(s.cache, Iput(s.vol, x).ino);
    IputSlots(s, x, x.id);
  }

  /** get_inode of a live inode returns its slot, unless a freed copy is still cached. */
  lemma GetReturnsSlot(s: Sys, n: word)
    requires Coherent(s) && IsInode(n)
    ensures var g := GetInode(s.cache, s.vol.disk, n);
      g.ok && ((n in s.cache.at ==> s.cache.at[n].links != 0) ==> g.ino == SlotOf(s.vol.disk, n))
  {}

  ghost predicate Stays(s: Sys, x: Inode) {
    && NUM_INODES <= ALL_SLOTS
    && IsInode(x.id) && SlotOf(s.vol.disk, x.id) == x
    && (x.id in s.cache.at ==> s.cache.at[x.id] == x)
  }

  lemma StepStays(s: Sys, op: CacheOp, x: Inode)
    requires Coherent(s) && Legal(s, op) && x.kind != TYPE_FREE && Stays(s, x)
    requires op.Put? ==> op.ino.id != x.id
    ensures Stays(Apply(s, op), x)
  {
    match op {
      case Get(id) =>
        if id in s.cache.at {
          HitLaws(s.cache, id);
        } else if IsInode(id) {
          PutCacheLaws(s.cache, SlotOf(s.vol.disk, id));
        }
      case Put(ino) =>
        ReleaseKeepsId(s.vol, ino, 0);
        PutCacheLaws(s.cache, Iput(s.vol, ino).ino);
        IputSlots(s, ino, x.id);
      case New(stale) =>
        IallocFails(s.vol, stale);
        if SomeFree(s.vol.disk) {
          IallocLowest(s.vol, stale);
        }
    }
  }

  lemma {:induction false} RunStays(s: Sys, ops: seq<CacheOp>, x: Inode)
    requires Coherent(s) && AllNumbered(ops) && LegalRun(s, ops) && x.kind != TYPE_FREE && Stays(s, x)
    requires forall i :: 0 <= i < |ops| && ops[i].Put? ==> ops[i].ino.id != x.id
    ensures Stays(RunOps(s, ops), x)
    decreases |ops|
  {
    if ops != [] {
      StepStays(s, ops[0], x);
      StepCoherent(s, ops[0]);
      RunStays(Apply(s, ops[0]), ops[1..], x);
    }
  }

  /** After put_inode of a live inode, get_inode returns it, whatever is evicted and
      whatever happens to other inodes in between, until it is put again. */
  lemma PutThenGet(s: Sys, x: Inode, ops: seq<CacheOp>)
    requires Coherent(s) && IsInode(x.id) && x.links != 0 && x.kind != TYPE_FREE
    requires AllNumbered(ops) && LegalRun(Apply(s, Put(x)), ops)
    requires forall i :: 0 <= i < |ops| && ops[i].Put? ==> ops[i].ino.id != x.id
    ensures var t := RunOps(Apply(s, Put(x)), ops);
      GetInode(t.cache, t.vol.disk, x.id).ok && GetInode(t.cache, t.vol.disk, x.id).ino == x
  {
    var s1 := Apply(s, Put(x));
    StepCoherent(s, Put(x));
    PutCacheLaws(s.cache, x);
    IputSlots(s, x, x.id);
    RunStays(s1, ops, x);
    RunCoherent(s1, ops);
    GetReturnsSlot(RunOps(s1, ops), x.id);
  }

  // ----- exact LRU -------------------------------------------------------

  /** The inodes used by a run, in order of last use, the most recent one on top. */
  function Recency(s: Sys, used: Line, ops: seq<CacheOp>): Line
    requires AllNumbered(ops)
    decreases |ops|
  {
    if ops == [] then used else Recency(Apply(s, ops[0]), Use(s, used, ops[0]), ops[1..])
  }

  /** The inode get_inode delivers; in a table whose slots know their number, inode id. */
  function Delivers(s: Sys, id: int): word
    requires IsInode(id)
  {
    TableHoldsInodes();
    if id in s.cache.at then id else SlotOf(s.vol.disk, id).id
  }

  function Use(s: Sys, used: Line, op: CacheOp): Line {
    match op
    case Get(id) =>
      if 0 <= id < ID_LIMIT && id in s.cache.at then Touch(used, id)
      else if IsInode(id) then Touch(used, Delivers(s, id))
      else used
    case Put(ino) => Touch(used, ino.id)
    case New(_) => used
  }

  lemma {:induction false} NewestTwice(line: Line, n: nat)
    ensures Newest(Newest(line, n), n) == Newest(line, n)
  {
    if line.Line? && n > 0 {
      NewestTwice(line.older, n - 1);
    }
  }

  lemma {:induction false} NewestWithout(line: Line, id: word, n: nat)
    ensures Newest(Without(Newest(line, n + 1), id), n) == Newest(Without(line, id), n)
  {
    if line.Line? {
      if line.id == id {
        NewestTwice(line.older, n);
      } else if n > 0 {
        NewestWithout(line.older, id, n - 1);
      }
    }
  }

  /** Touching the full history and then forgetting all but the n newest keys is touching
      the n newest keys and forgetting again. */
  lemma NewestTouch(line: Line, id: word, n: nat)
    requires n > 0
    ensures Newest(Touch(line, id), n) == Newest(Touch(Newest(line, n), id), n)
  {
    NewestWithout(line, id, n - 1);
  }

  lemma LruPut(c: Cache, used: Line, ino: Inode)
    requires CacheInv(c) && Length(c.order) < MAX_CACHE_SIZE && c.order == Newest(used, MAX_CACHE_SIZE - 1)
    ensures PutInCache(c, ino).order == Newest(Touch(used, ino.id), MAX_CACHE_SIZE - 1)
  {
    NewestTouch(used, ino.id, MAX_CACHE_SIZE - 1);
    PutCacheLaws(c, ino);
  }

  lemma LruHit(c: Cache, used: Line, id: word)
    requires CacheInv(c) && Length(c.order) < MAX_CACHE_SIZE && c.order == Newest(used, MAX_CACHE_SIZE - 1)
    requires id in c.at
    ensures GetFromCache(c, id).cache.order == Newest(Touch(used, id), MAX_CACHE_SIZE - 1)
  {
    NewestTouch(used, id, MAX_CACHE_SIZE - 1);
    HitLaws(c, id);
    NewestAll(Touch(c.order, id), MAX_CACHE_SIZE - 1);
  }

  lemma LruStep(s: Sys, used: Line, op: CacheOp)
    requires CacheInv(s.cache) && Length(s.cache.order) < MAX_CACHE_SIZE && Numbered(op)
    requires s.cache.order == Newest(used, MAX_CACHE_SIZE - 1)
    ensures var c := Apply(s, op).cache;
      && CacheInv(c) && Length(c.order) < MAX_CACHE_SIZE
      && c.order == Newest(Use(s, used, op), MAX_CACHE_SIZE - 1)
  {
    match op {
      case Get(id) =>
        if 0 <= id < ID_LIMIT && id in s.cache.at {
          LruHit(s.cache, used, id);
          HitLaws(s.cache, id);
        } else if IsInode(id) {
          TableHoldsInodes();
          LruPut(s.cache, used, SlotOf(s.vol.disk, id));
          PutCacheLaws(s.cache, SlotOf(s.vol.disk, id));
        }
      case Put(ino) =>
        ReleaseKeepsId(s.vol, ino, 0);
        LruPut(s.cache, used, Iput(s.vol, ino).ino);
        PutCacheLaws(s.cache, Iput(s.vol, ino).ino);
      case New(_) =>
    }
  }

  /** The cache holds exactly the MAX_CACHE_SIZE - 1 most recently used inodes, in order
      of last use. */
  lemma {:induction false} CacheIsLru(s: Sys, used: Line, ops: seq<CacheOp>)
    requires CacheInv(s.cache) && Length(s.cache.order) < MAX_CACHE_SIZE && AllNumbered(ops)
    requires s.cache.order == Newest(used, MAX_CACHE_SIZE - 1)
    ensures RunOps(s, ops).cache.order == Newest(Recency(s, used, ops), MAX_CACHE_SIZE - 1)
    decreases |ops|
  {
    if ops != [] {
      LruStep(s, used, ops[0]);
      CacheIsLru(Apply(s, ops[0]), Use(s, used, ops[0]), ops[1..]);
    }
  }
}

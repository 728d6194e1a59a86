/** The invariant of the whole file system, and how its parts are kept. */
module SystemInv {
  import opened Geometry
  import opened FreeList
  import opened FreeRuns
  import opened BlockMap
  import opened Ownership
  import opened Leaves
  import opened FileIO
  import opened WriteLaws
  import opened Inodes
  import opened InodeCache
  import opened CacheLaws
  import opened DirLaws
  import opened FileSystem

  // ----- the parts -------------------------------------------------------

  /** What a file of either type promises; a directory uses neither the fill of its last
      block nor num_allocated_blocks. */
  ghost predicate Well(d: Disk, ino: Inode) {
    || (ino.kind == TYPE_ORDINARY && FileInv(d, ino))
    || (ino.kind == TYPE_DIRECTORY && DirInv(d, ino) && ino.used == 0 && ino.numAllocated == 0)
  }

  /** Inode f as a live file has it, with its one link. */
  predicate LiveInode(f: nat, ino: Inode) {
    IsInode(f) && ino.id == f && ino.kind != TYPE_FREE && ino.links == 1
  }

  /** The inode table holds the live files; all other slots are free and blank. */
  ghost predicate Slots(d: Disk, files: map<nat, Inode>) {
    && NUM_INODES <= ALL_SLOTS
    && (forall f :: f in files ==> LiveInode(f, files[f]))
    && (forall n :: IsInode(n) ==> SlotOf(d, n) == if n in files then files[n] else FreshInode(n))
  }

  /** The cache is small, and its copies of live files are current; other copies are of
      released inodes. */
  ghost predicate CacheOk(c: Cache, files: map<nat, Inode>) {
    && CacheInv(c) && Length(c.order) < MAX_CACHE_SIZE
    && forall x :: x in c.at ==>
         IsInode(x) && c.at[x].id == x && (if x in files then c.at[x] == files[x] else c.at[x].links == 0)
  }

  /** num_free_inodes counts the numbers without a file, which are the free slots (see
      FreeInodesCount). */
  ghost predicate Counted(v: Vol, files: map<nat, Inode>) {
    v.freeInodes + |files.Keys| == NUM_INODES
  }

  /** The files in `hurt`, ordinary ones to which a write has failed, promise nothing about
      their contents; all other files keep their promises. */
  ghost predicate AllWell(w: World, hurt: set<nat>) {
    && (forall f :: f in hurt ==> f in w.files)
    && forall f :: f in w.files ==> Kept(w.disk, w.files[f], f in hurt)
  }

  ghost predicate Kept(d: Disk, ino: Inode, hurt: bool) {
    if hurt then ino.kind == TYPE_ORDINARY else Well(d, ino)
  }

  /** Every data block has exactly one owner; the table, the cache and the counter agree
      with the live files; block 0 holds the superblock; and every file keeps its promises,
      unless a write to it has failed. */
  ghost predicate SysInv(s: Sys, w: World, hurt: set<nat>) {
    && w.disk == s.vol.disk && Sound(w) && Covered(w, {})
    && Slots(w.disk, w.files) && CacheOk(s.cache, w.files) && Counted(s.vol, w.files) && Committed(s.vol)
    && AllWell(w, hurt)
  }

  /** A block is owned by the free list, is lost, or is held by exactly one cell of one
      file, and never two of these; only data blocks behind the list head have owners. */
  lemma OneOwner(s: Sys, w: World, hurt: set<nat>, x: word)
    requires SysInv(s, w, hurt) && x != 0
    ensures IsData(x) <==> x in Ids(w.free) || x in w.lost || Uses(w, x)
    ensures !(x in Ids(w.free) && x in w.lost) && !(x in Ids(w.free) && Uses(w, x)) && !(x in w.lost && Uses(w, x))
    ensures forall a, b :: IsCell(w.files, a) && IsCell(w.files, b) && Id(w, a) == x == Id(w, b) ==> a == b
  {
    IdsAreData(w.free);
  }

  // ----- the table and the cache -----------------------------------------

  lemma SlotsTable(d: Disk, files: map<nat, Inode>)
    requires Slots(d, files)
    ensures TableInv(d)
  {}

  lemma SlotsSame(d: Disk, d': Disk, files: map<nat, Inode>)
    requires Slots(d, files) && forall x :: 1 <= x < HEAD ==> d'[x] == d[x]
    ensures Slots(d', files)
  {
    forall n | 1 <= n <= ALL_SLOTS ensures SlotOf(d', n) == SlotOf(d, n) {
      SlotFrame(d, d', n);
    }
  }

  /** Slot n was written. */
  ghost predicate SlotWritten(d: Disk, d': Disk, n: nat, ino: Inode) {
    && NUM_INODES <= ALL_SLOTS
    && forall m :: 1 <= m <= ALL_SLOTS ==> SlotOf(d', m) == if m == n then ino else SlotOf(d, m)
  }

  lemma WithSlotWrites(d: Disk, n: nat, ino: Inode)
    requires 1 <= n <= NUM_INODES <= ALL_SLOTS
    ensures SlotWritten(d, WithSlot(d, n, ino), n, ino)
  {
    forall m | 1 <= m <= ALL_SLOTS ensures SlotOf(WithSlot(d, n, ino), m) == if m == n then ino else SlotOf(d, m) {
      WriteReadSlot(d, n, ino, m);
    }
  }

  lemma WrittenBehind(d: Disk, d': Disk, n: nat, ino: Inode)
    requires SlotWritten(d, d', n, ino) && IsInode(n)
    ensures SameBehind(d, d')
  {}

  lemma SameBehindTrans(d: Disk, d1: Disk, d2: Disk)
    requires SameBehind(d, d1) && SameBehind(d1, d2)
    ensures SameBehind(d, d2)
  {}

  lemma SlotWrittenTwice(d: Disk, d1: Disk, d2: Disk, n: nat, first: Inode, ino: Inode)
    requires SlotWritten(d, d1, n, first) && SlotWritten(d1, d2, n, ino)
    ensures SlotWritten(d, d2, n, ino)
  {}

  /** The slots behind the last inode are as they were. */
  ghost predicate SameBehind(d: Disk, d': Disk) {
    forall m :: NUM_INODES < m <= ALL_SLOTS ==> SlotOf(d', m) == SlotOf(d, m)
  }

  lemma InodeBlocksSame(d: Disk, d': Disk)
    requires forall x :: 1 <= x < HEAD ==> d'[x] == d[x]
    ensures SameBehind(d, d')
  {
    forall m | NUM_INODES < m <= ALL_SLOTS ensures SlotOf(d', m) == SlotOf(d, m) {
      SlotFrame(d, d', m);
    }
  }

  lemma BehindKeepsStrays(d: Disk, d': Disk)
    requires SameBehind(d, d')
    ensures NoStraySlots(d') <==> NoStraySlots(d)
  {}

  /** Writing the slot of a live file, old or new. */
  lemma SlotsPut(d: Disk, d': Disk, files: map<nat, Inode>, f: nat, ino: Inode)
    requires Slots(d, files) && LiveInode(f, ino) && SlotWritten(d, d', f, ino)
    ensures Slots(d', files[f := ino])
  {}

  /** put_inode of a live inode writes its slot and caches it. */
  lemma PutBackLive(c: Cache, v: Vol, ino: Inode) returns (d: Disk)
    requires LiveInode(ino.id, ino)
    ensures PutBack(c, v, ino) == SysResult(Sys(PutInCache(c, ino), Vol(d, v.freeBlocks, v.freeInodes)), true)
    ensures SlotWritten(v.disk, d, ino.id, ino) && SameData(v.disk, d) && d[0] == v.disk[0]
  {
    TableHoldsInodes();
    d := WithSlot(v.disk, ino.id, ino);
    WithSlotWrites(v.disk, ino.id, ino);
    WriteSlotFrame(v.disk, ino.id, ino);
  }

  /** The disks differ in the superblock and the inode blocks only. */
  ghost predicate SameData(d: Disk, d': Disk) {
    forall x :: HEAD <= x < NUM_BLOCKS ==> d'[x] == d[x]
  }

  lemma CachePut(c: Cache, files: map<nat, Inode>, f: nat, ino: Inode)
    requires CacheOk(c, files) && LiveInode(f, ino)
    ensures CacheOk(PutInCache(c, ino), files[f := ino])
  {
    PutCacheLaws(c, ino);
  }

  /** get_inode of a live file delivers its inode. */
  lemma GetLive(c: Cache, d: Disk, files: map<nat, Inode>, n: nat)
    requires CacheOk(c, files) && Slots(d, files) && n in files
    ensures var got := GetInode(c, d, n); got.ok && got.ino == files[n] && CacheOk(got.cache, files)
  {
    if n in c.at {
      HitLaws(c, n);
    } else {
      PutCacheLaws(c, files[n]);
    }
  }

  // ----- blocks ----------------------------------------------------------

  /** A change of inode blocks only. */
  lemma TableOnly(w: World, d: Disk) returns (w': World)
    requires Sound(w) && SameData(w.disk, d)
    ensures w' == w.(disk := d)
    ensures Sound(w') && forall extra :: Covered(w, extra) ==> Covered(w', extra)
    ensures SameCells(w, w')
    ensures forall g, j :: g in w.files && 0 <= j < MAX_INDEX ==> SameLeaf(w, w', g, j)
  {
    w' := w.(disk := d);
    IdsAreData(w.free);
    FreeKept(w.disk, d, w.free);
    KeepsIndexKeepsCells(w, w');
    SameOwners(w, w');
    forall g, j | g in w.files && 0 <= j < MAX_INDEX ensures SameLeaf(w, w', g, j) {
      BlkIsCell(w, g, j);
      BlkIsCell(w', g, j);
      if Blk(w, g, j) != 0 {
        LeafFacts(w, g, j);
      }
    }
  }

  /** File g has the same inode and the same data blocks in both worlds. */
  ghost predicate SameFile(w: World, w': World, g: nat) {
    && g in w.files && g in w'.files && w'.files[g] == w.files[g]
    && forall j :: 0 <= j < MAX_INDEX ==> SameLeaf(w, w', g, j)
  }

  // ----- what a file is --------------------------------------------------

  /** What a user may rely on about a file; after a failed write, nothing. */
  datatype Node = FileNode(bytes: seq<byte>) | DirNode(entries: map<seq<byte>, int>) | Damaged

  function NodeOf(d: Disk, ino: Inode): Node {
    if ino.kind == TYPE_DIRECTORY then DirNode(Dir(d, ino)) else FileNode(Content(d, ino))
  }

  function View(w: World, hurt: set<nat>): map<nat, Node> {
    map f | f in w.files :: if f in hurt then Damaged else NodeOf(w.disk, w.files[f])
  }

  lemma SameBlk(w: World, w': World, g: nat, j: nat)
    requires SameFile(w, w', g)
    ensures Blk(w', g, j) == Blk(w, g, j)
    ensures 0 < Blk(w, g, j) < NUM_BLOCKS ==> w'.disk[Blk(w, g, j)] == w.disk[Blk(w, g, j)]
  {
    if j < MAX_INDEX {
      assert SameLeaf(w, w', g, j);
    }
  }

  lemma SameByte(w: World, w': World, g: nat, p: nat)
    requires SameFile(w, w', g)
    ensures Byte(w', g, p) == Byte(w, g, p)
  {
    SameBlk(w, w', g, BlockOf(p));
  }

  lemma SamePage(w: World, w': World, g: nat, j: nat)
    requires SameFile(w, w', g) && Blk(w, g, j) != 0
    ensures PageAt(w'.disk, w'.files[g], j) == PageAt(w.disk, w.files[g], j)
  {
    SameBlk(w, w', g, j);
  }

  lemma SameContent(w: World, w': World, g: nat)
    requires SameFile(w, w', g)
    ensures Content(w'.disk, w'.files[g]) == Content(w.disk, w.files[g])
  {
    var c, c' := Content(w.disk, w.files[g]), Content(w'.disk, w'.files[g]);
    forall p | 0 <= p < |c| ensures c'[p] == c[p] {
      SameByte(w, w', g, p);
    }
  }

  lemma SameFileInv(w: World, w': World, g: nat)
    requires SameFile(w, w', g) && FileInv(w.disk, w.files[g])
    ensures FileInv(w'.disk, w'.files[g])
  {
    var ino := w.files[g];
    forall j | 0 <= j < MAX_INDEX ensures GetBlockId(w'.disk, ino, j) == GetBlockId(w.disk, ino, j) {
      SameBlk(w, w', g, j);
    }
    assert Mapped(w'.disk, ino) == Mapped(w.disk, ino);
    forall p | p >= FileSize(ino) ensures ByteAt(w'.disk, ino, p) == 0 {
      SameByte(w, w', g, p);
    }
  }

  lemma SameDirInv(w: World, w': World, g: nat)
    requires SameFile(w, w', g) && DirInv(w.disk, w.files[g])
    ensures DirInv(w'.disk, w'.files[g]) && Dir(w'.disk, w'.files[g]) == Dir(w.disk, w.files[g])
  {
    var ino := w.files[g];
    forall j | 0 <= j < MAX_INDEX ensures GetBlockId(w'.disk, ino, j) == GetBlockId(w.disk, ino, j) {
      SameBlk(w, w', g, j);
    }
    forall j | 0 <= j < ino.numBlocks ensures Pages(w'.disk, ino)[j] == Pages(w.disk, ino)[j] {
      assert 0 < GetBlockId(w.disk, ino, j);
      SamePage(w, w', g, j);
    }
    assert Pages(w'.disk, ino) == Pages(w.disk, ino);
  }

  /** An untouched file keeps its promises and looks the same. */
  lemma SameFileLaws(w: World, w': World, g: nat)
    requires SameFile(w, w', g) && Well(w.disk, w.files[g])
    ensures Well(w'.disk, w'.files[g]) && NodeOf(w'.disk, w'.files[g]) == NodeOf(w.disk, w.files[g])
  {
    SameContent(w, w', g);
    if w.files[g].kind == TYPE_DIRECTORY {
      SameDirInv(w, w', g);
    } else {
      SameFileInv(w, w', g);
    }
  }

  // ----- numbers of inodes -----------------------------------------------

  /** The numbers of the free inodes. */
  function FreeSlots(d: Disk): set<int>
    requires NUM_INODES <= ALL_SLOTS
  {
    set n | 1 <= n <= NUM_INODES && SlotOf(d, n).kind == TYPE_FREE
  }

  /** The free inodes are the numbers without a file. */
  lemma FreeIffNoFile(d: Disk, files: map<nat, Inode>, n: nat)
    requires Slots(d, files) && IsInode(n)
    ensures n in FreeSlots(d) <==> n !in files
  {
    if n in files {
      assert LiveInode(n, files[n]);
    }
  }

  /** The numbers without a file, counted. */
  lemma FreeNumbers(d: Disk, files: map<nat, Inode>)
    requires Slots(d, files)
    ensures |FreeSlots(d)| + |files.Keys| == NUM_INODES
    ensures |files.Keys| < NUM_INODES <==> SomeFree(d)
  {
    forall n | IsInode(n) ensures n in FreeSlots(d) <==> n !in files {
      FreeIffNoFile(d, files, n);
    }
    CountNumbers(FreeSlots(d), files.Keys);
    if FreeSlots(d) != {} {
      var n :| n in FreeSlots(d);
      assert IsInode(n) && SlotOf(d, n).kind == TYPE_FREE;
    }
    if SomeFree(d) {
      var n :| IsInode(n) && SlotOf(d, n).kind == TYPE_FREE;
      assert n in FreeSlots(d);
    }
  }

  lemma CountNumbers(free: set<int>, used: set<nat>)
    requires forall n :: IsInode(n) ==> (n in free <==> n !in used)
    requires (forall n :: n in free ==> IsInode(n)) && (forall n :: n in used ==> IsInode(n))
    ensures |free| + |used| == NUM_INODES
  {
    RangeCard(NUM_INODES + 1);
    var taken: set<int> := used;
    forall n ensures n in Range(NUM_INODES + 1) <==> n in free + taken + {0} {
      assert IsInode(n) || n <= 0 || n > NUM_INODES;
    }
    assert Range(NUM_INODES + 1) == free + taken + {0} && free !! taken;
    assert |free + taken| == |free| + |taken|;
  }

  /** num_free_inodes counts the free slots of the table. */
  lemma FreeInodesCount(s: Sys, w: World, hurt: set<nat>)
    requires SysInv(s, w, hurt)
    ensures NUM_INODES <= ALL_SLOTS
    ensures s.vol.freeInodes == |FreeSlots(s.vol.disk)|
  {
    FreeNumbers(w.disk, w.files);
  }

  // ----- the cache and the superblock ------------------------------------

  /** In every state with the invariant the inode cache is coherent with the table. */
  lemma SysCoherent(s: Sys, w: World, hurt: set<nat>)
    requires SysInv(s, w, hurt)
    ensures Coherent(s)
  {}

  /** Releasing a file of the system is what the laws of the cache call legal. */
  lemma LegalRelease(s: Sys, w: World, hurt: set<nat>, n: nat)
    requires SysInv(s, w, hurt) && n in w.files
    ensures Legal(s, Put(w.files[n].(links := 0)))
  {
    var ino := w.files[n].(links := 0);
    var w0 := w.(files := w.files[n := ino]);
    Relabel(w, w0, n, 0);
    assert OfSoundWorld(s.vol, w0, ino);
  }

  /** init_superblock on the disk, with an empty cache, finds the same files in the same
      state. */
  lemma InitKeeps(s: Sys, w: World, hurt: set<nat>)
    requires SysInv(s, w, hurt)
    ensures SysInv(Sys(EMPTY_CACHE, InitSuperblock(s.vol.disk)), w, hurt)
  {
    InitReadsCommitted(s.vol);
  }
}

/** Releasing a file: iput of an inode without links returns exactly its data blocks to
    the free list; its index blocks are lost. */
module ReleaseLaws {
  import opened Arithmetic
  import opened Geometry
  import opened FreeList
  import opened FreeRuns
  import opened BlockMap
  import opened Ownership
  import opened Leaves
  import opened WriteLaws
  import opened Inodes

  /** The data blocks of file f at indices below n. */
  function LeafSet(w: World, f: nat, n: nat): set<word>
    requires f in w.files
  {
    if n == 0 then {}
    else LeafSet(w, f, n - 1) + if n - 1 < MAX_INDEX && Blk(w, f, n - 1) != 0 then {Blk(w, f, n - 1)} else {}
  }

  lemma {:induction false} LeafSetMember(w: World, f: nat, n: nat, x: word)
    requires f in w.files
    ensures x in LeafSet(w, f, n) <==> x != 0 && exists j :: 0 <= j < n && j < MAX_INDEX && Blk(w, f, j) == x
  {
    if n > 0 {
      LeafSetMember(w, f, n - 1, x);
    }
  }

  /** Block x is an index block of file f. */
  ghost predicate IsIndexOf(w: World, f: nat, x: word) {
    exists c :: IsCell(w.files, c) && FileOf(c) == f && !IsLeaf(c) && Id(w, c) == x
  }

  /** The index blocks of file f. */
  ghost function IndexSet(w: World, f: nat): set<word> {
    set x: word | 0 < x < NUM_BLOCKS && IsIndexOf(w, f, x)
  }

  /** The data blocks of file f behind num_blocks; a file that keeps its promises has none. */
  function Stranded(w: World, f: nat): set<word>
    requires f in w.files
  {
    LeafSet(w, f, MAX_INDEX) - LeafSet(w, f, w.files[f].numBlocks)
  }

  lemma NoneStranded(w: World, f: nat)
    requires f in w.files && NothingBeyond(w.disk, w.files[f])
    ensures Stranded(w, f) == {}
  {
    var n := w.files[f].numBlocks;
    forall x | x in LeafSet(w, f, MAX_INDEX) ensures x in LeafSet(w, f, n) {
      LeafSetMember(w, f, MAX_INDEX, x);
      var j :| 0 <= j < MAX_INDEX && Blk(w, f, j) == x;
      assert j < n;
      LeafSetMember(w, f, n, x);
    }
  }

  /** No index block hangs off the inode. */
  predicate NoIndex(ino: Inode) {
    ino.single == 0 && ino.double == 0 && ino.triple == 0
  }

  lemma {:induction false} BareCell(w: World, f: nat, c: Cell)
    requires f in w.files && NoIndex(w.files[f]) && IsCell(w.files, c) && FileOf(c) == f && RootOf(c) >= NUM_DIRECT
    ensures Id(w, c) == 0
  {
    if c.Slot? {
      BareCell(w, f, c.list);
    }
  }

  /** A file has no index blocks exactly when its three indirect fields are 0. */
  lemma IndexSetEmpty(w: World, f: nat)
    requires Sound(w) && f in w.files
    ensures IndexSet(w, f) == {} <==> NoIndex(w.files[f])
  {
    var ino := w.files[f];
    if NoIndex(ino) {
      forall x: word | 0 < x < NUM_BLOCKS ensures !IsIndexOf(w, f, x) {
        forall c | IsCell(w.files, c) && FileOf(c) == f && !IsLeaf(c) ensures Id(w, c) != x {
          BareCell(w, f, c);
        }
      }
    } else {
      var r := if ino.single != 0 then NUM_DIRECT else if ino.double != 0 then NUM_DIRECT + 1 else NUM_DIRECT + 2;
      var c := Field(f, r);
      assert IsCell(w.files, c) && !IsLeaf(c) && Id(w, c) != 0;
      assert Id(w, c) in IndexSet(w, f);
    }
  }

  // ----- the loop --------------------------------------------------------

  /** Half-way through: the blocks below index i are free, and cleared unless the free list
      uses them as list blocks; all else is as in w. */
  ghost predicate HalfReleased(w: World, f: nat, i: nat, d: Disk, s: Stack)
    requires f in w.files
  {
    && FreeInv(d, s)
    && Ids(s) == Ids(w.free) + LeafSet(w, f, i)
    && (forall x :: HEAD < x < NUM_BLOCKS && x !in Ids(s) ==> d[x] == w.disk[x])
    && forall x :: x in LeafSet(w, f, i) && x < NUM_BLOCKS && x !in Links(s) ==> d[x] == ZERO
  }

  /** The inode blocks are as before. */
  ghost predicate SameTable(d: Disk, d': Disk) {
    forall x :: 1 <= x < HEAD ==> d'[x] == d[x]
  }

  /** The counters after a release, or a part of it, that found the head full `spills` times. */
  ghost predicate Credited(v: Vol, s: Stack, v': Vol, s': Stack, spills: nat) {
    && (forall n: nat :: Counts(v, s, n) ==> Counts(v', s', n + spills))
    && v'.freeInodes == v.freeInodes
    && (Committed(v) ==> Committed(v'))
  }

  lemma CreditedTrans(a: Vol, s: Stack, b: Vol, t: Stack, c: Vol, u: Stack, k: nat, l: nat)
    requires Credited(a, s, b, t, k) && Credited(b, t, c, u, l)
    ensures Credited(a, s, c, u, k + l)
  {
    forall n: nat | Counts(a, s, n) ensures Counts(c, u, n + (k + l)) {
      assert Counts(b, t, n + k) && Counts(c, u, (n + k) + l);
    }
  }

  /** The tree can still be read although some of its data blocks were rewritten. */
  lemma LookupStable(w: World, f: nat, i: nat, d: Disk, s: Stack, g: nat, j: nat)
    requires Sound(w) && f in w.files && HalfReleased(w, f, i, d, s) && g in w.files
    ensures GetBlockId(d, w.files[g], j) == Blk(w, g, j)
  {
    if j < MAX_INDEX {
      var w' := w.(disk := d);
      forall c | IsCell(w.files, c) && !IsLeaf(c) && 0 < Id(w, c) < NUM_BLOCKS ensures d[Id(w, c)] == w.disk[Id(w, c)] {
        IndexUntouched(w, f, i, s, c);
      }
      KeepsIndexKeepsCells(w, w');
      BlkIsCell(w, g, j);
      BlkIsCell(w', g, j);
    }
  }

  lemma IndexUntouched(w: World, f: nat, i: nat, s: Stack, c: Cell)
    requires Sound(w) && f in w.files && Ids(s) == Ids(w.free) + LeafSet(w, f, i)
    requires IsCell(w.files, c) && !IsLeaf(c) && Id(w, c) != 0
    ensures IsData(Id(w, c)) && Id(w, c) !in Ids(s)
  {
    LeafSetMember(w, f, i, Id(w, c));
    if Id(w, c) in LeafSet(w, f, i) {
      var j :| 0 <= j < i && j < MAX_INDEX && Blk(w, f, j) == Id(w, c);
      BlkIsCell(w, f, j);
    }
  }

  lemma PushLinks(s: Stack, k: nat, id: word, full: bool)
    requires k <= Size(s) && Proper(s) && IsData(id) && id !in Ids(s)
    ensures Links(Push(s, k, id, full)) == Links(s) + if full then {id} else {}
  {
    if !full {
      InsertLaws(s, k, id);
    }
  }

  /** A free clears one more block, or makes it a list block. */
  lemma StillCleared(w: World, f: nat, i: nat, v: Vol, s: Stack, k: nat, id: word)
    requires f in w.files && i < MAX_INDEX && HalfReleased(w, f, i, v.disk, s) && id == Blk(w, f, i)
    requires IsData(id) && id !in Ids(s) && k <= Size(s)
    ensures forall x :: x in LeafSet(w, f, i + 1) && x < NUM_BLOCKS && x !in Links(Push(s, k, id, HeadFull(v.disk))) ==>
      Free(v, id).vol.disk[x] == ZERO
  {
    hide Reads, Push, Free, HeadFull;
    FreeFrame(v, id);
    PushLinks(s, k, id, HeadFull(v.disk));
    IdsAreData(s);
  }

  /** One block of the file is freed: it was not free before. */
  lemma ReleaseOne(w: World, f: nat, i: nat, v: Vol, s: Stack) returns (s': Stack)
    requires Sound(w) && f in w.files && i < MAX_INDEX && HalfReleased(w, f, i, v.disk, s) && Blk(w, f, i) != 0
    ensures HalfReleased(w, f, i + 1, Free(v, Blk(w, f, i)).vol.disk, s')
    ensures Credited(v, s, Free(v, Blk(w, f, i)).vol, s', if HeadFull(v.disk) then 1 else 0)
    ensures SameTable(v.disk, Free(v, Blk(w, f, i)).vol.disk)
  {
    hide Reads, Free, HeadFull;
    var id := Blk(w, f, i);
    LeafFacts(w, f, i);
    LeafSetMember(w, f, i, id);
    if id in LeafSet(w, f, i) {
      var j :| 0 <= j < i && j < MAX_INDEX && Blk(w, f, j) == id;
      LeafDistinct(w, f, i, f, j);
    }
    var k := FreeInserts(v, s, id);
    FreeFrame(v, id);
    s' := Push(s, k, id, HeadFull(v.disk));
    StillCleared(w, f, i, v, s, k, id);
    forall n: nat | Counts(v, s, n) ensures Counts(Free(v, id).vol, s', n + if HeadFull(v.disk) then 1 else 0) {
      FreeCounts(v, s, id, k, n);
    }
  }

  /** How often the loop decrements num_allocated_blocks. */
  function MappedFrom(d: Disk, ino: Inode, i: nat): nat
    decreases ino.numBlocks - i
  {
    if i >= ino.numBlocks then 0
    else (if GetBlockId(d, ino, i) == 0 then 0 else 1) + MappedFrom(d, ino, i + 1)
  }

  /** The inodes differ in num_allocated_blocks only. */
  predicate SameButCount(a: Inode, b: Inode) {
    b == a.(numAllocated := b.numAllocated)
  }

  lemma LookupIgnoresCount(d: Disk, a: Inode, b: Inode, i: nat)
    requires SameButCount(a, b)
    ensures GetBlockId(d, a, i) == GetBlockId(d, b, i)
  {}

  /** One iteration of the release loop. */
  lemma ReleaseNext(w: World, f: nat, i: nat, v: Vol, ino: Inode, s: Stack)
    returns (v1: Vol, ino1: Inode, s1: Stack, spills: nat)
    requires Sound(w) && f in w.files && SameButCount(w.files[f], ino)
    requires HalfReleased(w, f, i, v.disk, s) && i < ino.numBlocks
    ensures HalfReleased(w, f, i + 1, v1.disk, s1) && SameTable(v.disk, v1.disk) && Credited(v, s, v1, s1, spills)
    ensures SameButCount(ino, ino1)
    ensures ReleaseFrom(v, ino, i) == ReleaseFrom(v1, ino1, i + 1)
    ensures SpillsFrom(v, ino, i) == spills + SpillsFrom(v1, ino1, i + 1)
    ensures v1 == if Blk(w, f, i) == 0 then v else Free(v, Blk(w, f, i)).vol
    ensures var here := MappedFrom(w.disk, w.files[f], i) - MappedFrom(w.disk, w.files[f], i + 1);
      0 <= here && (ino.numAllocated >= here ==> ino1.numAllocated == ino.numAllocated - here)
  {
    LookupStable(w, f, i, v.disk, s, f, i);
    LookupIgnoresCount(v.disk, w.files[f], ino, i);
    var id := GetBlockId(v.disk, ino, i);
    if id == 0 {
      v1, ino1, s1, spills := v, ino, s, 0;
    } else {
      s1 := ReleaseOne(w, f, i, v, s);
      v1, ino1, spills := Free(v, id).vol, ino.(numAllocated := Decrement(ino.numAllocated)),
                          if HeadFull(v.disk) then 1 else 0;
    }
  }

  /** The release loop frees the blocks from index i on; it ends in r. */
  lemma {:induction false} LoopReleases(w: World, f: nat, i: nat, v: Vol, ino: Inode, s: Stack, r: (Vol, Inode))
    returns (s': Stack)
    requires Sound(w) && f in w.files && SameButCount(w.files[f], ino) && r == ReleaseFrom(v, ino, i)
    requires HalfReleased(w, f, i, v.disk, s) && i <= ino.numBlocks
    ensures HalfReleased(w, f, ino.numBlocks, r.0.disk, s') && Credited(v, s, r.0, s', SpillsFrom(v, ino, i))
    ensures SameTable(v.disk, r.0.disk) && SameButCount(ino, r.1)
    ensures var count := MappedFrom(w.disk, w.files[f], i);
      ino.numAllocated >= count ==> r.1.numAllocated == ino.numAllocated - count
    decreases ino.numBlocks - i
  {
    hide Free, GetBlockId, HalfReleased;
    if i == ino.numBlocks {
      s' := s;
    } else {
      var v1, ino1, s1, spills := ReleaseNext(w, f, i, v, ino, s);
      s' := LoopReleases(w, f, i + 1, v1, ino1, s1, r);
      CreditedTrans(v, s, v1, s1, r.0, s', spills, SpillsFrom(v1, ino1, i + 1));
    }
  }

  // ----- the order of the freed blocks -----------------------------------

  /** The blocks at indices i, i+1, .. below num_blocks, the last one first. */
  function LastFirst(d: Disk, ino: Inode, i: nat): seq<word>
    decreases ino.numBlocks - i
  {
    if i >= ino.numBlocks then []
    else LastFirst(d, ino, i + 1) + if GetBlockId(d, ino, i) == 0 then [] else [GetBlockId(d, ino, i)]
  }

  /** One iteration of the release loop on a packed chain. */
  lemma NextPushes(w: World, f: nat, i: nat, v: Vol, ino: Inode, s: Stack)
    returns (v1: Vol, ino1: Inode, s1: Stack)
    requires Sound(w) && f in w.files && SameButCount(w.files[f], ino)
    requires HalfReleased(w, f, i, v.disk, s) && PackedInv(v.disk, s) && i < ino.numBlocks
    ensures HalfReleased(w, f, i + 1, v1.disk, s1) && PackedInv(v1.disk, s1) && SameButCount(ino, ino1)
    ensures ReleaseFrom(v, ino, i) == ReleaseFrom(v1, ino1, i + 1)
    ensures Order(s1) == (if Blk(w, f, i) == 0 then [] else [Blk(w, f, i)]) + Order(s)
  {
    hide Free, GetBlockId, LeafSet, PackedInv;
    var spills;
    v1, ino1, s1, spills := ReleaseNext(w, f, i, v, ino, s);
    if Blk(w, f, i) != 0 {
      NotYetFree(w, f, i, v.disk, s);
    }
    PushOrStay(v, Blk(w, f, i), s, v1, s1);
  }

  /** A block is freed, or nothing happens. */
  lemma PushOrStay(v: Vol, id: word, s: Stack, v1: Vol, s1: Stack)
    requires PackedInv(v.disk, s) && FreeInv(v1.disk, s1) && (id != 0 ==> IsData(id) && id !in Ids(s))
    requires v1 == if id == 0 then v else Free(v, id).vol
    ensures PackedInv(v1.disk, s1) && Order(s1) == (if id == 0 then [] else [id]) + Order(s)
  {
    hide Free, Reads, PackedChain;
    if id == 0 {
      ReadsUnique(v.disk, HEAD, K - 1, s, s1);
    } else {
      FreeIsPush(v, s, id);
      ReadsUnique(v1.disk, HEAD, K - 1, Push(s, 0, id, HeadFull(v.disk)), s1);
    }
  }

  /** The next block to free is a data block and not free yet. */
  lemma NotYetFree(w: World, f: nat, i: nat, d: Disk, s: Stack)
    requires Sound(w) && f in w.files && HalfReleased(w, f, i, d, s) && Blk(w, f, i) != 0
    ensures i < MAX_INDEX && IsData(Blk(w, f, i)) && Blk(w, f, i) !in Ids(s)
  {
    var id := Blk(w, f, i);
    LeafFacts(w, f, i);
    LeafSetMember(w, f, i, id);
    if id in LeafSet(w, f, i) {
      var j :| 0 <= j < i && j < MAX_INDEX && Blk(w, f, j) == id;
      LeafDistinct(w, f, i, f, j);
    }
  }

  /** On a packed chain the release loop pushes the blocks of the file one after the other. */
  lemma {:induction false} LoopPushes(w: World, f: nat, i: nat, v: Vol, ino: Inode, s: Stack) returns (s': Stack)
    requires Sound(w) && f in w.files && SameButCount(w.files[f], ino)
    requires HalfReleased(w, f, i, v.disk, s) && PackedInv(v.disk, s) && i <= ino.numBlocks
    ensures PackedInv(ReleaseFrom(v, ino, i).0.disk, s')
    ensures Order(s') == LastFirst(w.disk, w.files[f], i) + Order(s)
    decreases ino.numBlocks - i
  {
    hide Free, GetBlockId, HalfReleased, PackedInv;
    if i == ino.numBlocks {
      s' := s;
    } else {
      var v1, ino1, s1 := NextPushes(w, f, i, v, ino, s);
      s' := LoopPushes(w, f, i + 1, v1, ino1, s1);
      assert LastFirst(w.disk, w.files[f], i)
          == LastFirst(w.disk, w.files[f], i + 1) + if Blk(w, f, i) == 0 then [] else [Blk(w, f, i)];
    }
  }

  // ----- every data block of a file has an index -------------------------

  /** The slots on the way to a cell exist. */
  predicate SlotsExist(c: Cell) {
    c.Slot? ==> c.index < K && SlotsExist(c.list)
  }

  lemma {:induction false} NamedSlotsExist(w: World, c: Cell)
    requires IsCell(w.files, c) && Id(w, c) != 0
    ensures SlotsExist(c)
  {
    if c.Slot? {
      NamedSlotsExist(w, c.list);
    }
  }

  /** The index of a leaf: the inverse of LeafCell. */
  lemma LeafHasIndex(files: map<nat, Inode>, c: Cell) returns (index: nat)
    requires IsCell(files, c) && IsLeaf(c) && SlotsExist(c)
    ensures index < MAX_INDEX && LeafCell(FileOf(c), index) == c
  {
    CellFile(files, c);
    if RootOf(c) < NUM_DIRECT {
      index := c.root;
    } else if RootOf(c) == NUM_DIRECT {
      index := NUM_DIRECT + c.index;
    } else if RootOf(c) == NUM_DIRECT + 1 {
      var a := c.list;
      assert Level(a) == 1 && FileOf(a) == FileOf(c) && RootOf(a) == RootOf(c);
      assert Level(a.list) == 0 && FileOf(a.list) == FileOf(a) && RootOf(a.list) == RootOf(a);
      assert a.list == Field(FileOf(c), NUM_DIRECT + 1);
      var i := DoubleHasIndex(c);
      index := NUM_DIRECT + K + i;
    } else {
      var a, b := c.list, c.list.list;
      assert Level(a) == 2 && Level(b) == 1 && FileOf(a) == FileOf(b) == FileOf(c);
      assert RootOf(a) == RootOf(b) == RootOf(c);
      assert Level(b.list) == 0 && FileOf(b.list) == FileOf(b) && RootOf(b.list) == RootOf(b);
      assert b.list == Field(FileOf(c), NUM_DIRECT + 2);
      var i := TripleHasIndex(c);
      index := NUM_DIRECT + K + K2 + i;
    }
  }

  lemma TripleHasIndex(c: Cell) returns (i: nat)
    requires c.Slot? && c.list.Slot? && c.list.list.Slot? && SlotsExist(c)
    ensures i < K3 && TripleCell(c.list.list.list, i) == c
  {
    assert SlotsExist(c.list) && SlotsExist(c.list.list);
    var r := DoubleHasIndex(c);
    var q := c.list.list.index;
    i := Times(q, K2) + r;
    TimesIsMul(q, K2);
    MulStrict(q, K, K2);
    QuotRemUnique(i, K2, q, r);
  }

  lemma DoubleHasIndex(c: Cell) returns (i: nat)
    requires c.Slot? && c.list.Slot? && c.index < K && c.list.index < K
    ensures i < K2 && DoubleCell(c.list.list, i) == c
  {
    var q := c.list.index;
    i := Times(q, K) + c.index;
    TimesIsMul(q, K);
    MulStrict(q, K, K);
    QuotRemUnique(i, K, q, c.index);
  }

  // ----- the world after a release ---------------------------------------

  /** Cells of the other files are as before. */
  lemma {:induction false} OtherCell(w: World, w': World, f: nat, c: Cell)
    requires w'.files == w.files - {f}
    ensures IsCell(w'.files, c) <==> IsCell(w.files, c) && FileOf(c) != f
  {
    if c.Slot? {
      OtherCell(w, w', f, c.list);
    }
  }

  lemma {:induction false} OtherId(w: World, w': World, f: nat, i: nat, s: Stack, c: Cell)
    requires Sound(w) && f in w.files && HalfReleased(w, f, i, w'.disk, s) && w'.files == w.files - {f}
    requires IsCell(w.files, c) && IsCell(w'.files, c)
    ensures Id(w', c) == Id(w, c)
  {
    if c.Slot? {
      OtherId(w, w', f, i, s, c.list);
      CellFile(w.files, c);
      if Id(w, c.list) != 0 {
        IndexUntouched(w, f, i, s, c.list);
      }
    }
  }

  lemma ReleasedCells(w: World, w': World, f: nat, i: nat)
    requires Sound(w) && f in w.files && HalfReleased(w, f, i, w'.disk, w'.free) && w'.files == w.files - {f}
    ensures forall c :: IsCell(w'.files, c) <==> IsCell(w.files, c) && FileOf(c) != f
    ensures forall c :: IsCell(w'.files, c) ==> Id(w', c) == Id(w, c)
  {
    forall c ensures IsCell(w'.files, c) <==> IsCell(w.files, c) && FileOf(c) != f {
      OtherCell(w, w', f, c);
    }
    forall c | IsCell(w'.files, c) ensures Id(w', c) == Id(w, c) {
      OtherId(w, w', f, i, w'.free, c);
    }
  }

  /** A data block of f belongs to no other file and is no index block. */
  lemma LeafSetOwned(w: World, f: nat, i: nat, x: word)
    requires Sound(w) && f in w.files && x in LeafSet(w, f, i)
    ensures IsData(x) && x !in Ids(w.free) && x !in w.lost && !IsIndexOf(w, f, x)
    ensures forall c :: IsCell(w.files, c) && Id(w, c) == x ==> FileOf(c) == f
  {
    LeafSetMember(w, f, i, x);
    var j :| 0 <= j < i && j < MAX_INDEX && Blk(w, f, j) == x;
    BlkIsCell(w, f, j);
  }

  lemma IndexSetOwned(w: World, f: nat, x: word)
    requires Sound(w) && x in IndexSet(w, f)
    ensures IsData(x) && x !in Ids(w.free) && x !in w.lost
    ensures forall c :: IsCell(w.files, c) && Id(w, c) == x ==> FileOf(c) == f
  {
    var c :| IsCell(w.files, c) && FileOf(c) == f && !IsLeaf(c) && Id(w, c) == x;
  }

  lemma ReleasedSound(w: World, w': World, f: nat, i: nat)
    requires Sound(w) && f in w.files && HalfReleased(w, f, i, w'.disk, w'.free)
    requires w'.files == w.files - {f} && w'.lost == w.lost + IndexSet(w, f) + Stranded(w, f)
    requires i == w.files[f].numBlocks
    ensures Sound(w')
  {
    ReleasedCells(w, w', f, i);
    forall x | x in w'.lost ensures IsData(x) && x !in Ids(w'.free) {
      if x in IndexSet(w, f) {
        IndexSetOwned(w, f, x);
      }
      if x in LeafSet(w, f, i) {
        LeafSetOwned(w, f, i, x);
      }
      if x in Stranded(w, f) {
        LeafSetOwned(w, f, MAX_INDEX, x);
      }
    }
    forall c | IsCell(w'.files, c) && Id(w', c) != 0
      ensures IsData(Id(w', c)) && Id(w', c) !in Ids(w'.free) && Id(w', c) !in w'.lost {
      if Id(w', c) in IndexSet(w, f) {
        IndexSetOwned(w, f, Id(w', c));
      }
      if Id(w', c) in LeafSet(w, f, i) {
        LeafSetOwned(w, f, i, Id(w', c));
      }
      if Id(w', c) in Stranded(w, f) {
        LeafSetOwned(w, f, MAX_INDEX, Id(w', c));
      }
    }
  }

  /** The blocks of a released file are free or lost, none is left over. */
  lemma ReleasedCovers(w: World, w': World, f: nat, extra: set<word>)
    requires Sound(w) && f in w.files && HalfReleased(w, f, w.files[f].numBlocks, w'.disk, w'.free)
    requires w'.files == w.files - {f} && w'.lost == w.lost + IndexSet(w, f) + Stranded(w, f)
    requires Covered(w, extra)
    ensures Covered(w', extra)
  {
    var n := w.files[f].numBlocks;
    ReleasedCells(w, w', f, n);
    forall y: word | IsData(y) && y !in Ids(w'.free) && y !in w'.lost && y !in extra ensures Uses(w', y) {
      var c :| IsCell(w.files, c) && Id(w, c) == y;
      if FileOf(c) == f {
        OwnCellReleased(w, f, c);
      } else {
        assert IsCell(w'.files, c) && Id(w', c) == y;
      }
    }
  }

  /** A block of f is a data block below num_blocks, or behind it, or an index block. */
  lemma OwnCellReleased(w: World, f: nat, c: Cell)
    requires Sound(w) && f in w.files
    requires IsCell(w.files, c) && FileOf(c) == f && Id(w, c) != 0
    ensures Id(w, c) in LeafSet(w, f, w.files[f].numBlocks) + Stranded(w, f) + IndexSet(w, f)
  {
    if IsLeaf(c) {
      NamedSlotsExist(w, c);
      var j := LeafHasIndex(w.files, c);
      BlkIsCell(w, f, j);
      LeafSetMember(w, f, MAX_INDEX, Id(w, c));
    } else {
      assert IsIndexOf(w, f, Id(w, c));
    }
  }

  // ----- the count -------------------------------------------------------

  lemma {:induction false} MappedFromCounts(d: Disk, ino: Inode, i: nat)
    requires NothingBeyond(d, ino) && i <= ino.numBlocks
    ensures MappedFrom(d, ino, i) == |set j | j in Mapped(d, ino) && j >= i|
    decreases ino.numBlocks - i
  {
    var here := set j | j in Mapped(d, ino) && j >= i;
    if i == ino.numBlocks {
      assert here == {};
    } else {
      MappedFromCounts(d, ino, i + 1);
      var next := set j | j in Mapped(d, ino) && j >= i + 1;
      if GetBlockId(d, ino, i) == 0 {
        assert here == next;
      } else {
        assert here == next + {i};
      }
    }
  }

  // ----- the theorem -----------------------------------------------------

  /** iput of an inode without links frees exactly the data blocks below num_blocks, each
      once, clears its slot and leaves every other slot and every other file alone.
      Exactly the other blocks of the file are lost: its index blocks and what lies behind
      num_blocks.  The freed blocks are cleared, but for those the free list uses as list
      blocks.  So a file with nothing there loses no block if and only if it has no
      indirect field.  A num_allocated_blocks that counted the blocks ends at 0. */
  lemma IputReleases(v: Vol, w: World, f: nat) returns (w': World)
    requires v.disk == w.disk && Sound(w) && f in w.files && IsInode(f)
    requires w.files[f].id == f && w.files[f].links == 0
    ensures var r := Iput(v, w.files[f]);
      && r.ok && r.vol.disk == w'.disk && SameButCount(w.files[f], r.ino)
      && r.vol.freeInodes == Increment(v.freeInodes) && Committed(r.vol)
      && (forall n: nat :: Counts(v, w.free, n) ==> Counts(r.vol, w'.free, n + SpillsFrom(v, w.files[f], 0)))
      && (NothingBeyond(w.disk, w.files[f]) && w.files[f].numAllocated == |Mapped(w.disk, w.files[f])| ==>
            r.ino.numAllocated == 0)
    ensures w'.files == w.files - {f} && w'.lost == w.lost + IndexSet(w, f) + Stranded(w, f)
    ensures NothingBeyond(w.disk, w.files[f]) ==> (w'.lost == w.lost <==> NoIndex(w.files[f]))
    ensures Ids(w'.free) == Ids(w.free) + LeafSet(w, f, w.files[f].numBlocks)
    ensures forall x :: x in LeafSet(w, f, w.files[f].numBlocks) && x < NUM_BLOCKS && x !in Links(w'.free) ==>
      w'.disk[x] == ZERO
    ensures Sound(w') && forall extra :: Covered(w, extra) ==> Covered(w', extra)
    ensures forall g, j :: g in w'.files && 0 <= j < MAX_INDEX ==> SameLeaf(w, w', g, j)
    ensures NUM_INODES <= ALL_SLOTS
    ensures forall n :: 1 <= n <= ALL_SLOTS ==>
      SlotOf(w'.disk, n) == if n == f then FreshInode(f) else SlotOf(w.disk, n)
  {
    var ino := w.files[f];
    if NothingBeyond(w.disk, ino) {
      MappedFromCounts(w.disk, ino, 0);
      assert (set j | j in Mapped(w.disk, ino) && j >= 0) == Mapped(w.disk, ino);
    }
    var s := LoopReleases(w, f, 0, v, ino, w.free, ReleaseFrom(v, ino, 0));
    w' := ReleasedWorld(w, f, ReleaseFrom(v, ino, 0).0, s);
    LossIffIndex(w, w', f);
  }

  /** On a packed volume a release leaves the blocks of the file on top of the free stack, the
      last one first to be handed out again. */
  lemma ReleaseIsPush(v: Vol, w: World, f: nat) returns (s': Stack)
    requires v.disk == w.disk && Sound(w) && f in w.files && IsInode(f) && PackedInv(w.disk, w.free)
    requires w.files[f].id == f && w.files[f].links == 0
    ensures FreeInv(Iput(v, w.files[f]).vol.disk, s')
    ensures Order(s') == LastFirst(w.disk, w.files[f], 0) + Order(w.free)
  {
    hide ReleaseFrom, LastFirst;
    s' := LoopPushes(w, f, 0, v, w.files[f], w.free);
    var r := ReleaseFrom(v, w.files[f], 0).0;
    IfreeBlanks(r, f);
    IdsAreData(s');
    FreeKept(r.disk, Ifree(r, f).disk, s');
  }

  lemma LossIffIndex(w: World, w': World, f: nat)
    requires Sound(w) && f in w.files && w'.lost == w.lost + IndexSet(w, f) + Stranded(w, f)
    ensures NothingBeyond(w.disk, w.files[f]) ==> (w'.lost == w.lost <==> NoIndex(w.files[f]))
  {
    IndexSetEmpty(w, f);
    if NothingBeyond(w.disk, w.files[f]) {
      NoneStranded(w, f);
      forall x | x in IndexSet(w, f) ensures x !in w.lost {
        IndexSetOwned(w, f, x);
      }
    }
  }

  /** The world after the release loop, which ended in v, and ifree. */
  lemma ReleasedWorld(w: World, f: nat, v: Vol, s: Stack) returns (w': World)
    requires Sound(w) && f in w.files && IsInode(f)
    requires HalfReleased(w, f, w.files[f].numBlocks, v.disk, s) && SameTable(w.disk, v.disk)
    ensures w' == World(Ifree(v, f).disk, w.files - {f}, s, w.lost + IndexSet(w, f) + Stranded(w, f))
    ensures Ifree(v, f).freeInodes == Increment(v.freeInodes) && Committed(Ifree(v, f))
    ensures forall n :: Counts(v, s, n) ==> Counts(Ifree(v, f), s, n)
    ensures Sound(w') && forall extra :: Covered(w, extra) ==> Covered(w', extra)
    ensures forall g, j :: g in w'.files && 0 <= j < MAX_INDEX ==> SameLeaf(w, w', g, j)
    ensures NUM_INODES <= ALL_SLOTS
    ensures forall n :: 1 <= n <= ALL_SLOTS ==>
      SlotOf(w'.disk, n) == if n == f then FreshInode(f) else SlotOf(w.disk, n)
    ensures HalfReleased(w, f, w.files[f].numBlocks, w'.disk, w'.free)
  {
    w' := World(Ifree(v, f).disk, w.files - {f}, s, w.lost + IndexSet(w, f) + Stranded(w, f));
    IfreeBlanks(v, f);
    IdsAreData(s);
    FreeKept(v.disk, w'.disk, s);
    forall x | x in LeafSet(w, f, w.files[f].numBlocks) && x < NUM_BLOCKS && x !in Links(s) ensures w'.disk[x] == ZERO {
      LeafSetOwned(w, f, w.files[f].numBlocks, x);
    }
    ReleasedSound(w, w', f, w.files[f].numBlocks);
    forall extra | Covered(w, extra) ensures Covered(w', extra) {
      ReleasedCovers(w, w', f, extra);
    }
    ReleasedLeaves(w, w', f, w.files[f].numBlocks);
    forall n | 1 <= n <= ALL_SLOTS ensures SlotOf(v.disk, n) == SlotOf(w.disk, n) {
      SlotFrame(w.disk, v.disk, n);
    }
  }

  lemma ReleasedLeaves(w: World, w': World, f: nat, i: nat)
    requires Sound(w) && f in w.files && HalfReleased(w, f, i, w'.disk, w'.free) && w'.files == w.files - {f}
    ensures forall g, j :: g in w'.files && 0 <= j < MAX_INDEX ==> SameLeaf(w, w', g, j)
  {
    forall g, j | g in w'.files && 0 <= j < MAX_INDEX ensures SameLeaf(w, w', g, j) {
      LookupStable(w, f, i, w'.disk, w'.free, g, j);
      if Blk(w, g, j) != 0 {
        LeafFacts(w, g, j);
        LeafSetMember(w, f, i, Blk(w, g, j));
        if Blk(w, g, j) in LeafSet(w, f, i) {
          var k :| 0 <= k < i && k < MAX_INDEX && Blk(w, f, k) == Blk(w, g, j);
          LeafDistinct(w, f, k, g, j);
        }
      }
    }
  }
}

/** Every run of the file system refines a map from inode numbers to byte sequences and
    directories. */
module SystemLaws {
  import opened Geometry
  import opened FreeList
  import opened BlockMap
  import opened Ownership
  import opened Leaves
  import opened FileIO
  import opened WriteLaws
  import opened Inodes
  import opened InodeCache
  import opened CacheLaws
  import opened DirBlock
  import opened DirPages
  import opened Directory
  import opened DirLaws
  import opened FileSystem
  import opened SystemInv
  import opened ReleaseLaws

  // ----- the last step of a call -----------------------------------------

  /** File g keeps its promises, if it has any, and looks the same. */
  ghost predicate Unharmed(w: World, w1: World, hurt: set<nat>, g: nat) {
    && g in w.files && g in w1.files
    && Kept(w1.disk, w1.files[g], g in hurt)
    && (g !in hurt ==> NodeOf(w1.disk, w1.files[g]) == NodeOf(w.disk, w.files[g]))
  }

  lemma SameUnharmed(w: World, w1: World, hurt: set<nat>, g: nat)
    requires AllWell(w, hurt) && SameFile(w, w1, g)
    ensures Unharmed(w, w1, hurt, g)
  {
    assert Kept(w.disk, w.files[g], g in hurt);
    if g !in hurt {
      SameFileLaws(w, w1, g);
    }
  }

  /** Apart from file n nothing changed for anybody, so the view changes at n only. */
  lemma OneChanged(w: World, w1: World, n: nat, hurt: set<nat>, hurt1: set<nat>)
    requires AllWell(w, hurt) && n in w1.files && w1.files == w.files[n := w1.files[n]]
    requires hurt1 - {n} == hurt - {n} && Kept(w1.disk, w1.files[n], n in hurt1)
    requires forall g, j :: g in w.files && 0 <= j < MAX_INDEX && g != n ==> SameLeaf(w, w1, g, j)
    ensures AllWell(w1, hurt1)
    ensures View(w1, hurt1) == View(w, hurt)[n := if n in hurt1 then Damaged else NodeOf(w1.disk, w1.files[n])]
  {
    forall g | g in w.files && g != n ensures Unharmed(w, w1, hurt, g) && (g in hurt1 <==> g in hurt) {
      assert SameFile(w, w1, g);
      SameUnharmed(w, w1, hurt, g);
      assert g in hurt1 - {n} <==> g in hurt - {n};
    }
    ViewChanged(w, w1, n, hurt, hurt1);
  }

  lemma ViewChanged(w: World, w1: World, n: nat, hurt: set<nat>, hurt1: set<nat>)
    requires AllWell(w, hurt) && n in w1.files && w1.files.Keys == w.files.Keys + {n}
    requires hurt1 - {n} == hurt - {n} && Kept(w1.disk, w1.files[n], n in hurt1)
    requires forall g :: g in w.files && g != n ==> Unharmed(w, w1, hurt, g) && (g in hurt1 <==> g in hurt)
    ensures AllWell(w1, hurt1)
    ensures View(w1, hurt1) == View(w, hurt)[n := if n in hurt1 then Damaged else NodeOf(w1.disk, w1.files[n])]
  {
    forall f | f in hurt1 ensures f in w1.files {
      assert f == n || f in hurt - {n};
    }
    forall f | f in w1.files ensures Kept(w1.disk, w1.files[f], f in hurt1) {
      assert f == n || Unharmed(w, w1, hurt, f);
    }
  }

  /** A change of the superblock and of inode blocks changes no view. */
  lemma TableView(w: World, d: Disk, hurt: set<nat>) returns (w': World)
    requires Sound(w) && AllWell(w, hurt) && SameData(w.disk, d)
    ensures w' == w.(disk := d)
    ensures Sound(w') && AllWell(w', hurt) && View(w', hurt) == View(w, hurt)
    ensures forall extra :: Covered(w, extra) ==> Covered(w', extra)
  {
    w' := TableOnly(w, d);
    forall g | g in w.files ensures Unharmed(w, w', hurt, g) {
      assert SameFile(w, w', g);
      SameUnharmed(w, w', hurt, g);
    }
  }

  /** put_inode of a live file completes a call: w holds the files before it, w1 after. */
  lemma Complete(c: Cache, v: Vol, w: World, w1: World, n: nat, hurt: set<nat>) returns (w': World)
    requires w1.disk == v.disk && n in w1.files && w1.files == w.files[n := w1.files[n]] && LiveInode(n, w1.files[n])
    requires Sound(w1) && Covered(w1, {}) && AllWell(w1, hurt)
    requires Slots(w1.disk, w.files) && CacheOk(c, w.files) && Counted(v, w1.files) && Committed(v)
    ensures var r := PutBack(c, v, w1.files[n]);
      && r.ok && SysInv(r.sys, w', hurt) && KeepsCount(v, w1.free, r.sys.vol, w'.free)
      && SameBehind(v.disk, r.sys.vol.disk)
    ensures View(w', hurt) == View(w1, hurt) && w'.lost == w1.lost
  {
    hide PutBack, PutInCache, Sound, Kept, SlotOf;
    var d := PutBackLive(c, v, w1.files[n]);
    w' := TableView(w1, d, hurt);
    SlotsPut(w1.disk, d, w.files, n, w1.files[n]);
    CachePut(c, w.files, n, w1.files[n]);
  }

  /** num_free_blocks moved with the listed numbers and with the frees that found the head
      of the chain full. */
  ghost predicate CountsOn(v: Vol, s: Stack, v': Vol, s': Stack, spills: nat) {
    forall n: nat :: Counts(v, s, n) ==> Counts(v', s', n + spills)
  }

  /** What the lemmas about the calls show: from volume v and world w the call ends in a
      state that keeps the invariant; the view and the lost blocks are as stated, `spills`
      frees found the head of the chain full, and no slot behind the last inode changed. */
  ghost predicate Reaches(v: Vol, w: World, r: SysResult, w': World, view: map<nat, Node>, lost: set<word>,
                          spills: nat, hurt: set<nat>)
  {
    && SysInv(r.sys, w', hurt) && View(w', hurt) == view && w'.lost == lost
    && CountsOn(v, w.free, r.sys.vol, w'.free, spills) && SameBehind(v.disk, r.sys.vol.disk)
  }

  /** One file was changed and is put. */
  lemma CompleteChange(c: Cache, v0: Vol, v: Vol, w: World, w1: World, n: nat, k: nat, hurt: set<nat>, hurt1: set<nat>)
    returns (w': World)
    requires w.disk == v0.disk && w1.disk == v.disk && Spared(w, w1, n) && LiveInode(n, w1.files[n])
    requires Sound(w1) && Covered(w1, {}) && AllWell(w, hurt)
    requires hurt1 - {n} == hurt - {n} && Kept(w1.disk, w1.files[n], n in hurt1)
    requires Slots(w.disk, w.files) && CacheOk(c, w.files)
    requires Counted(v0, w.files) && Committed(v0) && Tallied(v0, w.free, v, w1.free, k)
    ensures PutBack(c, v, w1.files[n]).ok
    ensures Reaches(v0, w, PutBack(c, v, w1.files[n]), w',
                    View(w, hurt)[n := if n in hurt1 then Damaged else NodeOf(w1.disk, w1.files[n])], w1.lost, 0, hurt1)
  {
    hide PutBack, SysInv, Sound, Covered, SlotOf, CacheOk, Kept;
    OneChanged(w, w1, n, hurt, hurt1);
    SlotsSame(w.disk, w1.disk, w.files);
    InodeBlocksSame(w.disk, w1.disk);
    assert w1.files.Keys == w.files.Keys;
    w' := Complete(c, v, w, w1, n, hurt1);
    CountsThrough(v0, w.free, v, w1.free, PutBack(c, v, w1.files[n]).sys.vol, w'.free);
  }

  lemma CountsThrough(a: Vol, s: Stack, b: Vol, t: Stack, c: Vol, u: Stack)
    requires KeepsCount(a, s, b, t) && KeepsCount(b, t, c, u)
    ensures CountsOn(a, s, c, u, 0)
  {}

  /** put_inode of an inode of the table cannot fail. */
  lemma PutBackSucceeds(c: Cache, v: Vol, ino: Inode)
    requires IsInode(ino.id)
    ensures PutBack(c, v, ino).ok
  {}

  // ----- write -----------------------------------------------------------

  lemma WriteKeeps(s: Sys, w: World, n: nat, offset: nat, data: Buffer, hurt: set<nat>) returns (w': World)
    requires SysInv(s, w, hurt) && n in w.files && n !in hurt && w.files[n].kind == TYPE_ORDINARY
    requires offset + |data| < ID_LIMIT - 1
    requires WriteFile(s, n, offset, data).ok
    ensures View(w, hurt)[n].FileNode?
    ensures Reaches(s.vol, w, WriteFile(s, n, offset, data), w',
                    View(w, hurt)[n := FileNode(Overlay(View(w, hurt)[n].bytes, offset, data))], w.lost, 0, hurt)
  {
    GetLive(s.cache, s.vol.disk, w.files, n);
    var r := Pwrite(s.vol, w.files[n], offset, data);
    w' := WriteCompletes(GetInode(s.cache, s.vol.disk, n).cache, s.vol, w, n, offset, data, r, hurt);
  }

  lemma WriteCompletes(c: Cache, v: Vol, w: World, n: nat, offset: nat, data: Buffer, r: WriteState, hurt: set<nat>)
    returns (w': World)
    requires v.disk == w.disk && Sound(w) && Covered(w, {}) && AllWell(w, hurt)
    requires Slots(w.disk, w.files) && CacheOk(c, w.files) && Counted(v, w.files) && Committed(v)
    requires n in w.files && n !in hurt && w.files[n].kind == TYPE_ORDINARY && offset + |data| < ID_LIMIT - 1
    requires r == Pwrite(v, w.files[n], offset, data) && r.status == Done
    ensures View(w, hurt)[n].FileNode?
    ensures Reaches(v, w, PutBack(c, r.vol, r.ino), w',
                    View(w, hurt)[n := FileNode(Overlay(View(w, hurt)[n].bytes, offset, data))], w.lost, 0, hurt)
  {
    hide Pwrite, Reaches, Sound;
    assert Kept(w.disk, w.files[n], false);
    var w1 := PwriteRefines(v, w, n, offset, data);
    w' := CompleteChange(c, v, r.vol, w, w1, n, 4 * Chunks(offset, |data|), hurt, hurt);
  }

  // ----- directories -----------------------------------------------------

  lemma DirIsWell(w: World, n: nat, hurt: set<nat>)
    requires AllWell(w, hurt) && n in w.files && w.files[n].kind == TYPE_DIRECTORY
    ensures n !in hurt && DirInv(w.disk, w.files[n])
    ensures View(w, hurt)[n] == DirNode(Dir(w.disk, w.files[n]))
  {
    assert Kept(w.disk, w.files[n], n in hurt);
  }

  lemma EnterKeeps(s: Sys, w: World, n: nat, id: nat, name: seq<byte>, hurt: set<nat>) returns (w': World)
    requires SysInv(s, w, hurt) && n in w.files && w.files[n].kind == TYPE_DIRECTORY
    requires 0 < id < 0x8000_0000 && IsName(name) && name != [] && name !in Dir(w.disk, w.files[n])
    requires Enter(s, n, id, name).ok
    ensures View(w, hurt)[n].DirNode?
    ensures Reaches(s.vol, w, Enter(s, n, id, name), w',
                    View(w, hurt)[n := DirNode(View(w, hurt)[n].entries[name := id])], w.lost, 0, hurt)
  {
    GetLive(s.cache, s.vol.disk, w.files, n);
    var r := DirAdd(s.vol, w.files[n], id, name);
    w' := EnterCompletes(GetInode(s.cache, s.vol.disk, n).cache, s.vol, w, n, id, name, r, hurt);
  }

  lemma EnterCompletes(c: Cache, v: Vol, w: World, n: nat, id: nat, name: seq<byte>, r: DirResult, hurt: set<nat>)
    returns (w': World)
    requires v.disk == w.disk && Sound(w) && Covered(w, {}) && AllWell(w, hurt)
    requires Slots(w.disk, w.files) && CacheOk(c, w.files) && Counted(v, w.files) && Committed(v)
    requires n in w.files && w.files[n].kind == TYPE_DIRECTORY
    requires 0 < id < 0x8000_0000 && IsName(name) && name != [] && name !in Dir(w.disk, w.files[n])
    requires r == DirAdd(v, w.files[n], id, name) && r.ok
    ensures View(w, hurt)[n].DirNode?
    ensures Reaches(v, w, PutBack(c, r.vol, r.ino), w',
                    View(w, hurt)[n := DirNode(View(w, hurt)[n].entries[name := id])], w.lost, 0, hurt)
  {
    DirIsWell(w, n, hurt);
    var w1 := DirAddRefines(v, w, n, id, name);
    w' := CompleteChange(c, v, r.vol, w, w1, n, 4, hurt, hurt);
  }

  lemma LeaveKeeps(s: Sys, w: World, n: nat, id: nat, name: seq<byte>, hurt: set<nat>) returns (w': World)
    requires SysInv(s, w, hurt) && n in w.files && w.files[n].kind == TYPE_DIRECTORY && id > 0
    requires NamedOnce(Dir(w.disk, w.files[n]), id, name)
    ensures View(w, hurt)[n].DirNode?
    ensures Leave(s, n, id).ok
    ensures Reaches(s.vol, w, Leave(s, n, id), w', View(w, hurt)[n := DirNode(View(w, hurt)[n].entries - {name})],
                    w.lost, 0, hurt)
  {
    DirIsWell(w, n, hurt);
    GetLive(s.cache, s.vol.disk, w.files, n);
    var w1 := DirRemoveOnce(s.vol, w, n, id, name);
    var r := DirRemove(s.vol, w.files[n], 0, id);
    w' := CompleteChange(GetInode(s.cache, s.vol.disk, n).cache, s.vol, r.vol, w, w1, n, 0, hurt, hurt);
  }

  // ----- release ---------------------------------------------------------

  /** How often releasing inode n finds the head of the free chain full. */
  function ReleaseSpills(s: Sys, n: nat): nat {
    SpillsFrom(s.vol, GetInode(s.cache, s.vol.disk, n).ino.(links := 0), 0)
  }

  lemma ReleaseKeeps(s: Sys, w: World, n: nat, hurt: set<nat>) returns (w': World)
    requires SysInv(s, w, hurt) && n in w.files
    ensures Release(s, n).ok
    ensures Reaches(s.vol, w, Release(s, n), w', View(w, hurt) - {n}, w.lost + IndexSet(w, n) + Stranded(w, n),
                    ReleaseSpills(s, n), hurt - {n})
    ensures n !in hurt ==> (w'.lost == w.lost <==> NoIndex(w.files[n]))
  {
    GetLive(s.cache, s.vol.disk, w.files, n);
    var c, r := GetInode(s.cache, s.vol.disk, n).cache, Iput(s.vol, w.files[n].(links := 0));
    w' := ReleaseBlocks(s.vol, w, n, r, hurt);
    CacheDrop(c, w.files, n, r.ino);
    ReleasedTable(s.vol, r.vol, w, w', n);
  }

  lemma CacheDrop(c: Cache, files: map<nat, Inode>, n: nat, ino: Inode)
    requires CacheOk(c, files) && IsInode(n) && ino.id == n && ino.links == 0
    ensures CacheOk(PutInCache(c, ino), files - {n})
  {
    PutCacheLaws(c, ino);
  }

  /** What a release does to the blocks; the index blocks of the file join the lost ones. */
  lemma ReleaseBlocks(v: Vol, w: World, n: nat, r: TableResult, hurt: set<nat>) returns (w': World)
    requires v.disk == w.disk && Sound(w) && Covered(w, {}) && AllWell(w, hurt)
    requires n in w.files && IsInode(n) && w.files[n].id == n && r == Iput(v, w.files[n].(links := 0))
    ensures r.ok && r.ino.id == n && r.ino.links == 0 && r.vol.disk == w'.disk
    ensures r.vol.freeInodes == Increment(v.freeInodes) && Committed(r.vol)
    ensures CountsOn(v, w.free, r.vol, w'.free, SpillsFrom(v, w.files[n].(links := 0), 0))
    ensures w'.files == w.files - {n} && Sound(w') && Covered(w', {})
    ensures w'.lost == w.lost + IndexSet(w, n) + Stranded(w, n)
    ensures n !in hurt ==> (w'.lost == w.lost <==> NoIndex(w.files[n]))
    ensures AllWell(w', hurt - {n}) && View(w', hurt - {n}) == View(w, hurt) - {n}
    ensures SlotWritten(w.disk, w'.disk, n, FreshInode(n))
  {
    hide Iput, Sound, FileInv, DirInv, IndexSet, Stranded;
    var ino := w.files[n].(links := 0);
    var w0 := w.(files := w.files[n := ino]);
    Relabel(w, w0, n, MAX_INDEX);
    SameLookups(w.disk, w.files[n], ino);
    NothingStranded(w, n, hurt);
    w' := IputReleases(v, w0, n);
    SameStranded(w, w0, n);
    assert w0.files - {n} == w.files - {n};
    SameIndexSet(w, w0, n);
    ReleasedView(w, w0, w', n, hurt);
  }

  lemma NothingStranded(w: World, n: nat, hurt: set<nat>)
    requires AllWell(w, hurt) && n in w.files
    ensures n !in hurt ==> NothingBeyond(w.disk, w.files[n])
  {
    assert Kept(w.disk, w.files[n], n in hurt);
  }

  lemma SameIndexSet(w: World, w0: World, n: nat)
    requires n in w.files && w0 == w.(files := w.files[n := w.files[n].(links := 0)])
    ensures IndexSet(w0, n) == IndexSet(w, n)
  {
    KeepsIndexKeepsCells(w, w0);
    forall x: word ensures IsIndexOf(w0, n, x) <==> IsIndexOf(w, n, x) {
      if IsIndexOf(w, n, x) {
        var c :| IsCell(w.files, c) && FileOf(c) == n && !IsLeaf(c) && Id(w, c) == x;
        assert IsCell(w0.files, c) && Id(w0, c) == x;
      }
      if IsIndexOf(w0, n, x) {
        var c :| IsCell(w0.files, c) && FileOf(c) == n && !IsLeaf(c) && Id(w0, c) == x;
        assert IsCell(w.files, c) && Id(w, c) == x;
      }
    }
  }

  lemma SameStranded(w: World, w0: World, n: nat)
    requires n in w.files && w0 == w.(files := w.files[n := w.files[n].(links := 0)])
    ensures Stranded(w0, n) == Stranded(w, n)
  {
    SameLeafSet(w, w0, n, MAX_INDEX);
    SameLeafSet(w, w0, n, w.files[n].numBlocks);
  }

  lemma {:induction false} SameLeafSet(w: World, w0: World, n: nat, i: nat)
    requires n in w.files && w0 == w.(files := w.files[n := w.files[n].(links := 0)])
    ensures LeafSet(w0, n, i) == LeafSet(w, n, i)
  {
    if i > 0 {
      SameLeafSet(w, w0, n, i - 1);
      assert Blk(w0, n, i - 1) == Blk(w, n, i - 1);
    }
  }

  lemma SameLookups(d: Disk, a: Inode, b: Inode)
    requires b == a.(links := b.links)
    ensures NothingBeyond(d, a) <==> NothingBeyond(d, b)
  {
    forall j | 0 <= j < MAX_INDEX ensures GetBlockId(d, a, j) == GetBlockId(d, b, j) {}
  }

  lemma ReleasedView(w: World, w0: World, w': World, n: nat, hurt: set<nat>)
    requires AllWell(w, hurt) && n in w.files && n in w0.files && w0.files == w.files[n := w0.files[n]]
    requires OthersKept(w, w0, n, MAX_INDEX)
    requires w'.files == w.files - {n} && forall g, j :: g in w'.files && 0 <= j < MAX_INDEX ==> SameLeaf(w0, w', g, j)
    ensures AllWell(w', hurt - {n}) && View(w', hurt - {n}) == View(w, hurt) - {n}
  {
    forall g | g in w'.files ensures Unharmed(w, w', hurt, g) {
      forall j | 0 <= j < MAX_INDEX ensures SameLeaf(w, w', g, j) {
        assert SameLeaf(w, w0, g, j) && SameLeaf(w0, w', g, j);
      }
      assert SameFile(w, w', g);
      SameUnharmed(w, w', hurt, g);
    }
  }

  lemma ReleasedTable(v: Vol, v': Vol, w: World, w': World, n: nat)
    requires Slots(w.disk, w.files) && Counted(v, w.files) && n in w.files && w'.files == w.files - {n}
    requires v'.freeInodes == Increment(v.freeInodes)
    requires SlotWritten(w.disk, w'.disk, n, FreshInode(n))
    ensures Slots(w'.disk, w'.files) && Counted(v', w'.files)
  {
    hide SlotOf;
    assert w'.files.Keys == w.files.Keys - {n};
  }

  // ----- new files -------------------------------------------------------

  /** No block hangs off the inode. */
  predicate Blank(ino: Inode) {
    forall r :: 0 <= r < NUM_DIRECT + 3 ==> RootWord(ino, r) == 0
  }

  lemma {:induction false} BlankCell(w: World, w': World, n: nat, c: Cell)
    requires n !in w.files && n in w'.files && w' == w.(files := w.files[n := w'.files[n]]) && Blank(w'.files[n])
    requires IsCell(w'.files, c)
    ensures FileOf(c) == n ==> Id(w', c) == 0
    ensures FileOf(c) != n ==> IsCell(w.files, c) && Id(w', c) == Id(w, c)
  {
    if c.Slot? {
      BlankCell(w, w', n, c.list);
      CellFile(w'.files, c);
    }
  }

  lemma {:induction false} OldCell(w: World, w': World, n: nat, c: Cell)
    requires n !in w.files && n in w'.files && w' == w.(files := w.files[n := w'.files[n]])
    requires IsCell(w.files, c)
    ensures IsCell(w'.files, c) && Id(w', c) == Id(w, c) && FileOf(c) != n
  {
    if c.Slot? {
      OldCell(w, w', n, c.list);
    }
  }

  /** A new file without blocks. */
  lemma AddBlank(w: World, n: nat, ino: Inode) returns (w': World)
    requires Sound(w) && n !in w.files && Blank(ino)
    ensures w' == w.(files := w.files[n := ino])
    ensures Sound(w') && forall extra :: Covered(w, extra) ==> Covered(w', extra)
    ensures forall x: word :: x != 0 && !Uses(w, x) ==> !Uses(w', x)
    ensures forall j: nat :: Blk(w', n, j) == 0
  {
    w' := w.(files := w.files[n := ino]);
    forall c | IsCell(w'.files, c) ensures Id(w', c) == 0 || (IsCell(w.files, c) && Id(w', c) == Id(w, c)) {
      BlankCell(w, w', n, c);
    }
    forall extra | Covered(w, extra) ensures Covered(w', extra) {
      forall y: word | IsData(y) && y !in Ids(w.free) && y !in w.lost && y !in extra ensures Uses(w', y) {
        var c :| IsCell(w.files, c) && Id(w, c) == y;
        OldCell(w, w', n, c);
      }
    }
    forall j: nat ensures Blk(w', n, j) == 0 {
      BlankLookup(w'.disk, ino, j);
    }
  }

  lemma BlankLookup(d: Disk, ino: Inode, j: nat)
    requires Blank(ino)
    ensures GetBlockId(d, ino, j) == 0
  {
    assert ino.single == RootWord(ino, NUM_DIRECT) && ino.double == RootWord(ino, NUM_DIRECT + 1);
    assert ino.triple == RootWord(ino, NUM_DIRECT + 2);
    if j < NUM_DIRECT {
      assert ino.direct[j] == RootWord(ino, j);
    }
  }

  /** An inode that ialloc has just handed out. */
  predicate NewInode(ino: Inode, n: word) {
    && ino.id == n && ino.kind == TYPE_ORDINARY && ino.links == 1
    && ino.numBlocks == 0 && ino.used == 0 && ino.numAllocated == 0 && Blank(ino)
  }

  lemma FreshIsNew(n: word)
    ensures NewInode(FreshInode(n).(links := 1, kind := TYPE_ORDINARY), n)
  {}

  lemma BlankKind(ino: Inode, kind: word)
    requires Blank(ino)
    ensures Blank(ino.(kind := kind))
  {
    forall r | 0 <= r < NUM_DIRECT + 3 ensures RootWord(ino.(kind := kind), r) == 0 {
      assert RootWord(ino, r) == 0;
    }
  }

  /** The lowest number that is not taken. */
  function FirstFree<T>(taken: map<nat, T>, n: nat): (r: nat)
    ensures r >= n && forall k :: n <= k < r ==> k in taken
    decreases NUM_INODES - n, taken
  {
    if n in taken && n < NUM_INODES then FirstFree(taken, n + 1) else n
  }

  /** ialloc hands out the lowest number without a file. */
  lemma IallocNew(v: Vol, files: map<nat, Inode>, stale: Inode) returns (n: word)
    requires Slots(v.disk, files) && Counted(v, files) && |files.Keys| < NUM_INODES
    ensures var r := Ialloc(v, stale);
      && r.ok && Committed(r.vol) && IsInode(n) && n !in files && n == FirstFree(files, 1) && NewInode(r.ino, n)
      && SameData(v.disk, r.vol.disk) && SlotWritten(v.disk, r.vol.disk, n, r.ino)
      && r.vol.freeBlocks == v.freeBlocks && r.vol.freeInodes + 1 == v.freeInodes
  {
    SlotsTable(v.disk, files);
    FreeNumbers(v.disk, files);
    IallocLowest(v, stale);
    n := Ialloc(v, stale).ino.id;
    FreshIsNew(n);
    LowestFree(v.disk, files, n);
  }

  lemma LowestFree(d: Disk, files: map<nat, Inode>, n: nat)
    requires Slots(d, files) && IsInode(n) && n !in files
    requires forall m :: 1 <= m < n ==> SlotOf(d, m).kind != TYPE_FREE
    ensures n == FirstFree(files, 1)
  {
    var r := FirstFree(files, 1);
    forall m | 1 <= m < n ensures m in files {
      assert SlotOf(d, m).kind != TYPE_FREE;
    }
    FirstFreeAt(files, 1, n);
  }

  lemma {:induction false} FirstFreeAt<T>(taken: map<nat, T>, from: nat, n: nat)
    requires from <= n <= NUM_INODES && n !in taken && forall m :: from <= m < n ==> m in taken
    ensures FirstFree(taken, from) == n
    decreases n - from
  {
    if from < n {
      FirstFreeAt(taken, from + 1, n);
    }
  }

  lemma AddView(w: World, w1: World, n: nat, hurt: set<nat>)
    requires AllWell(w, hurt) && n !in w.files && n in w1.files && w1.files == w.files[n := w1.files[n]]
    requires Well(w1.disk, w1.files[n])
    requires forall g, j :: g in w.files && 0 <= j < MAX_INDEX ==> SameLeaf(w, w1, g, j)
    ensures AllWell(w1, hurt) && View(w1, hurt) == View(w, hurt)[n := NodeOf(w1.disk, w1.files[n])]
  {
    forall g | g in w.files ensures Unharmed(w, w1, hurt, g) {
      assert SameFile(w, w1, g);
      SameUnharmed(w, w1, hurt, g);
    }
    ViewChanged(w, w1, n, hurt, hurt);
  }

  /** A blank ordinary inode is an empty file. */
  lemma BlankFile(d: Disk, ino: Inode)
    requires Blank(ino) && ino.numBlocks == 0 && ino.numAllocated == 0 && ino.kind == TYPE_ORDINARY
    ensures Well(d, ino) && NodeOf(d, ino) == FileNode([])
  {
    forall j: nat ensures GetBlockId(d, ino, j) == 0 {
      BlankLookup(d, ino, j);
    }
    assert Mapped(d, ino) == {};
  }

  lemma MakeFileKeeps(s: Sys, w: World, stale: Inode, hurt: set<nat>) returns (w': World)
    requires SysInv(s, w, hurt) && |w.files.Keys| < NUM_INODES
    ensures FirstFree(View(w, hurt), 1) !in View(w, hurt)
    ensures MakeFile(s, stale).ok
    ensures Reaches(s.vol, w, MakeFile(s, stale), w', View(w, hurt)[FirstFree(View(w, hurt), 1) := FileNode([])],
                    w.lost, 0, hurt)
  {
    var r := Ialloc(s.vol, stale);
    var n := IallocNew(s.vol, w.files, stale);
    FirstInView(w, n, hurt);
    var w1 := TableOnly(w, r.vol.disk);
    var w2 := AddBlank(w1, n, r.ino);
    BlankFile(w2.disk, r.ino);
    KeepsOld(w, w1, w2, n);
    AddView(w, w2, n, hurt);
    w' := CompleteNew(s, r.vol, w, w2, n, r.ino, hurt);
  }

  lemma {:induction false} SameFirst<S, T>(a: map<nat, S>, b: map<nat, T>, n: nat)
    requires a.Keys == b.Keys
    ensures FirstFree(a, n) == FirstFree(b, n)
    decreases NUM_INODES - n
  {
    if n in a && n < NUM_INODES {
      SameFirst(a, b, n + 1);
    }
  }

  /** Adding a file changes no other file. */
  lemma KeepsOld(w: World, w1: World, w2: World, n: nat)
    requires n in w2.files && n !in w.files && w1.files == w.files && w2 == w1.(files := w.files[n := w2.files[n]])
    requires forall g, j :: g in w.files && 0 <= j < MAX_INDEX ==> SameLeaf(w, w1, g, j)
    ensures forall g, j :: g in w.files && 0 <= j < MAX_INDEX ==> SameLeaf(w, w2, g, j)
  {
    forall g, j | g in w.files && 0 <= j < MAX_INDEX ensures SameLeaf(w, w2, g, j) {
      assert SameLeaf(w, w1, g, j);
    }
  }

  /** put_inode of a new file completes a call. */
  lemma CompleteNew(s: Sys, v: Vol, w: World, w1: World, n: nat, first: Inode, hurt: set<nat>) returns (w': World)
    requires Slots(w.disk, w.files) && CacheOk(s.cache, w.files) && Counted(s.vol, w.files)
    requires n !in w.files && w1.disk == v.disk && s.vol.disk == w.disk
    requires n in w1.files && w1.files == w.files[n := w1.files[n]] && LiveInode(n, w1.files[n])
    requires Sound(w1) && Covered(w1, {}) && AllWell(w1, hurt) && v.freeInodes + 1 == s.vol.freeInodes && Committed(v)
    requires KeepsCount(s.vol, w.free, v, w1.free)
    requires SlotWritten(w.disk, v.disk, n, first)
    ensures PutBack(s.cache, v, w1.files[n]).ok
    ensures Reaches(s.vol, w, PutBack(s.cache, v, w1.files[n]), w', View(w1, hurt), w1.lost, 0, hurt)
  {
    hide PutBack, SysInv, SlotWritten, SameBehind, View, Slots, CacheOk, Sound, Covered, AllWell, SameData, Committed;
    var d := PutBackLive(s.cache, v, w1.files[n]);
    WrittenBehind(w.disk, v.disk, n, first);
    WrittenBehind(v.disk, d, n, w1.files[n]);
    SameBehindTrans(w.disk, v.disk, d);
    w' := CompleteDisk(s, v, w, w1, n, first, d, hurt);
  }

  lemma CompleteDisk(s: Sys, v: Vol, w: World, w1: World, n: nat, first: Inode, d: Disk, hurt: set<nat>)
    returns (w': World)
    requires Slots(w.disk, w.files) && CacheOk(s.cache, w.files) && Counted(s.vol, w.files)
    requires n !in w.files && w1.disk == v.disk && s.vol.disk == w.disk
    requires n in w1.files && w1.files == w.files[n := w1.files[n]] && LiveInode(n, w1.files[n])
    requires Sound(w1) && Covered(w1, {}) && AllWell(w1, hurt) && v.freeInodes + 1 == s.vol.freeInodes && Committed(v)
    requires KeepsCount(s.vol, w.free, v, w1.free)
    requires SlotWritten(w.disk, v.disk, n, first) && SlotWritten(v.disk, d, n, w1.files[n])
    requires SameData(v.disk, d) && d[0] == v.disk[0]
    ensures KeepsCount(s.vol, w.free, Vol(d, v.freeBlocks, v.freeInodes), w'.free)
    ensures SysInv(Sys(PutInCache(s.cache, w1.files[n]), Vol(d, v.freeBlocks, v.freeInodes)), w', hurt)
    ensures View(w', hurt) == View(w1, hurt) && w'.lost == w1.lost
  {
    hide Sound, Kept, PutInCache;
    var ino := w1.files[n];
    w' := TableView(w1, d, hurt);
    NewSlots(w.disk, v.disk, d, w.files, n, first, ino);
    NewCount(s.vol, v, w.files, n, ino);
    CachePut(s.cache, w.files, n, ino);
  }

  lemma NewSlots(d: Disk, d1: Disk, d2: Disk, files: map<nat, Inode>, n: nat, first: Inode, ino: Inode)
    requires Slots(d, files) && LiveInode(n, ino) && SlotWritten(d, d1, n, first) && SlotWritten(d1, d2, n, ino)
    ensures Slots(d2, files[n := ino])
  {
    SlotWrittenTwice(d, d1, d2, n, first, ino);
    SlotsPut(d, d2, files, n, ino);
  }

  lemma NewCount(v: Vol, v': Vol, files: map<nat, Inode>, n: nat, ino: Inode)
    requires Counted(v, files) && n !in files && v'.freeInodes + 1 == v.freeInodes
    ensures Counted(v', files[n := ino])
  {
    assert files[n := ino].Keys == files.Keys + {n};
  }

  // ----- new directories -------------------------------------------------

  /** An allocation takes a block nobody uses and changes no file. */
  lemma AllocLeaves(v: Vol, w: World) returns (w': World)
    requires v.disk == w.disk && Sound(w) && Covered(w, {}) && Alloc(v).ok
    ensures var a := Alloc(v);
      && w' == World(a.vol.disk, w.files, w'.free, w.lost) && Tallied(v, w.free, a.vol, w'.free, 1)
      && Sound(w') && Fresh(w', a.id) && Covered(w', {a.id})
    ensures forall g, j :: g in w.files && 0 <= j < MAX_INDEX ==> SameLeaf(w, w', g, j)
    ensures forall x :: 1 <= x < HEAD ==> w'.disk[x] == w.disk[x]
  {
    AllocPops(v, w.free);
    IdsAreData(w.free);
    w' := AllocKeeps(v, w);
    forall g, j | g in w.files && 0 <= j < MAX_INDEX ensures SameLeaf(w, w', g, j) {
      BlkIsCell(w, g, j);
      BlkIsCell(w', g, j);
      if Blk(w, g, j) != 0 {
        LeafFacts(w, g, j);
      }
    }
    forall y: word | IsData(y) && y !in Ids(w'.free) && y !in w.lost && y !in {Alloc(v).id} ensures Uses(w', y) {
      var c :| IsCell(w.files, c) && Id(w, c) == y;
      assert IsCell(w'.files, c) && Id(w', c) == y;
    }
  }

  /** The inode of a directory with one block. */
  function OneBlock(ino: Inode, x: word): Inode {
    ino.(direct := ino.direct[0 := x], numBlocks := 1)
  }

  /** A new file with one block, which nobody used. */
  lemma AddOneBlock(w: World, n: nat, ino: Inode, x: word) returns (w': World)
    requires Sound(w) && n !in w.files && Blank(ino) && Fresh(w, x) && Covered(w, {x})
    ensures w' == w.(files := w.files[n := OneBlock(ino, x)])
    ensures Sound(w') && Covered(w', {})
    ensures Blk(w', n, 0) == x && forall j: nat :: j > 0 ==> Blk(w', n, j) == 0
    ensures forall g, j :: g in w.files && 0 <= j < MAX_INDEX ==> SameLeaf(w, w', g, j)
  {
    var w1 := AddBlank(w, n, ino);
    var t := Field(n, 0);
    w' := LinkField(w1, n, 0, OneBlock(ino, x), x);
    UpdateSound(w1, w', t, x);
    UpdateCovers(w1, w', t, x, {});
    forall j: nat | j > 0 ensures Blk(w', n, j) == 0 {
      assert Blk(w1, n, j) == 0;
      OneBlockLookup(w.disk, ino, x, j);
    }
  }

  lemma OneBlockLookup(d: Disk, ino: Inode, x: word, j: nat)
    requires j > 0
    ensures GetBlockId(d, OneBlock(ino, x), j) == GetBlockId(d, ino, j)
  {}

  /** A directory block that holds "." and ".." and nothing else. */
  ghost predicate DotsOnly(b: Block, self: nat, parent: nat) {
    Tidy([Entries(b)]) && Listing([Entries(b)]) == map[DOT := self, DOT_DOT := parent]
  }

  /** The new directory holds "." and "..". */
  lemma NewDirWell(d: Disk, ino: Inode, x: word, self: nat, parent: nat)
    requires ino.kind == TYPE_DIRECTORY && ino.numBlocks == 1 && ino.used == 0 && ino.numAllocated == 0
    requires 0 < x < NUM_BLOCKS
    requires DotsOnly(d[x], self, parent)
    requires GetBlockId(d, ino, 0) == x && forall j: nat :: j > 0 ==> GetBlockId(d, ino, j) == 0
    ensures Well(d, ino) && NodeOf(d, ino) == DirNode(map[DOT := self, DOT_DOT := parent])
  {
    assert Pages(d, ino) == [Entries(d[x])];
  }

  /** The directory exists in the block world, before its inode is put. */
  lemma MakeDirWorld(s: Sys, w: World, n: nat, parent: nat, b: Block, d: Disk, first: Inode, hurt: set<nat>)
    returns (w': World)
    requires s.vol.disk == w.disk && Sound(w) && Covered(w, {}) && AllWell(w, hurt) && Alloc(s.vol).ok
    requires n !in w.files && DotsOnly(b, n, parent)
    requires SameData(Alloc(s.vol).vol.disk, d)
    requires Blank(first) && first.kind == TYPE_DIRECTORY && first.used == 0 && first.numAllocated == 0
    requires Alloc(s.vol).id < NUM_BLOCKS
    ensures var x := Alloc(s.vol).id;
      && w'.disk == d[x := b] && w'.files == w.files[n := OneBlock(first, x)]
      && Tallied(s.vol, w.free, Alloc(s.vol).vol, w'.free, 1)
    ensures Sound(w') && Covered(w', {}) && AllWell(w', hurt) && w'.lost == w.lost
    ensures View(w', hurt) == View(w, hurt)[n := DirNode(map[DOT := n, DOT_DOT := parent])]
  {
    var x := Alloc(s.vol).id;
    var w0 := AllocLeaves(s.vol, w);
    var w1 := TableOnly(w0, d);
    var w2 := AddOneBlock(w1, n, first, x);
    w' := WriteLeaf(w2, n, 0, b);
    LeavesThrough(w, w0, w1, w2, w', n);
    OnlyFirst(w2, w', n);
    NewDirWell(w'.disk, w'.files[n], x, n, parent);
    AddView(w, w', n, hurt);
  }

  lemma OnlyFirst(w: World, w': World, n: nat)
    requires OthersKept(w, w', n, 0) && forall j: nat :: j > 0 ==> Blk(w, n, j) == 0
    ensures forall j: nat :: j > 0 ==> GetBlockId(w'.disk, w'.files[n], j) == 0
  {
    forall j: nat | j > 0 ensures GetBlockId(w'.disk, w'.files[n], j) == 0 {
      assert Blk(w, n, j) == 0;
      if j < MAX_INDEX {
        assert SameLeaf(w, w', n, j);
      }
    }
  }

  lemma LeavesThrough(w: World, w0: World, w1: World, w2: World, w3: World, n: nat)
    requires n !in w.files && w0.files == w.files && w1.files == w.files
    requires w2.files.Keys == w.files.Keys + {n} == w3.files.Keys
    requires forall g, j :: g in w.files && 0 <= j < MAX_INDEX ==> SameLeaf(w, w0, g, j) && SameLeaf(w0, w1, g, j)
    requires forall g, j :: g in w.files && 0 <= j < MAX_INDEX ==> SameLeaf(w1, w2, g, j)
    requires OthersKept(w2, w3, n, 0)
    ensures forall g, j :: g in w.files && 0 <= j < MAX_INDEX ==> SameLeaf(w, w3, g, j)
  {
    forall g, j | g in w.files && 0 <= j < MAX_INDEX ensures SameLeaf(w, w3, g, j) {
      assert SameLeaf(w, w0, g, j) && SameLeaf(w0, w1, g, j) && SameLeaf(w1, w2, g, j) && SameLeaf(w2, w3, g, j);
    }
  }

  lemma MakeDirKeeps(s: Sys, w: World, parent: nat, scratch: Block, stale: Inode, hurt: set<nat>) returns (w': World)
    requires SysInv(s, w, hurt) && 0 < parent < 0x8000_0000 && !w.free.Empty? && |w.files.Keys| < NUM_INODES
    ensures FirstFree(View(w, hurt), 1) !in View(w, hurt)
    ensures MakeDir(s, parent, scratch, stale).ok
    ensures var n := FirstFree(View(w, hurt), 1);
      Reaches(s.vol, w, MakeDir(s, parent, scratch, stale), w',
              View(w, hurt)[n := DirNode(map[DOT := n, DOT_DOT := parent])], w.lost, 0, hurt)
  {
    var r, n, b, v, ino := MakeDirParts(s, w, parent, scratch, stale);
    FirstInView(w, n, hurt);
    w' := MakeDirCompletes(s, w, parent, b, n, r, v, ino, hurt);
  }

  lemma FirstInView(w: World, n: nat, hurt: set<nat>)
    requires n !in w.files && n == FirstFree(w.files, 1)
    ensures n !in View(w, hurt) && n == FirstFree(View(w, hurt), 1)
  {
    SameFirst(w.files, View(w, hurt), 1);
  }

  /** What a successful mkdir puts: the inode, on which volume. */
  lemma MakeDirParts(s: Sys, w: World, parent: nat, scratch: Block, stale: Inode)
    returns (r: TableResult, n: word, b: Block, v: Vol, ino: Inode)
    requires s.vol.disk == w.disk && Sound(w) && Slots(w.disk, w.files) && Counted(s.vol, w.files)
    requires 0 < parent < 0x8000_0000 && !w.free.Empty? && |w.files.Keys| < NUM_INODES
    ensures Alloc(s.vol).ok && HEAD < Alloc(s.vol).id < NUM_BLOCKS
    ensures IsInode(n) && n < 0x8000_0000 && n !in w.files && n == FirstFree(w.files, 1)
    ensures NewInode(r.ino, n) && r.vol.freeInodes + 1 == s.vol.freeInodes && Committed(r.vol)
    ensures r.vol.freeBlocks == Alloc(s.vol).vol.freeBlocks
    ensures SameData(Alloc(s.vol).vol.disk, r.vol.disk) && SlotWritten(w.disk, r.vol.disk, n, r.ino)
    ensures DotsOnly(b, n, parent)
    ensures v == Vol(r.vol.disk[Alloc(s.vol).id := b], r.vol.freeBlocks, r.vol.freeInodes)
    ensures ino == OneBlock(r.ino.(kind := TYPE_DIRECTORY), Alloc(s.vol).id)
    ensures MakeDir(s, parent, scratch, stale) == SysResult(PutBack(s.cache, v, ino).sys, true)
  {
    AllocPops(s.vol, w.free);
    r := Ialloc(Alloc(s.vol).vol, stale);
    n := NewNumber(s.vol, w, stale, r);
    b, v, ino := MakeDirUnfolds(s, parent, scratch, stale, n, r);
  }

  lemma MakeDirCompletes(s: Sys, w: World, parent: nat, b: Block, n: word, r: TableResult, v: Vol, ino: Inode,
                         hurt: set<nat>)
    returns (w': World)
    requires SysInv(s, w, hurt) && DotsOnly(b, n, parent)
    requires Alloc(s.vol).ok && HEAD < Alloc(s.vol).id < NUM_BLOCKS
    requires IsInode(n) && n !in w.files
    requires NewInode(r.ino, n) && r.vol.freeInodes + 1 == s.vol.freeInodes && Committed(r.vol)
    requires r.vol.freeBlocks == Alloc(s.vol).vol.freeBlocks
    requires SameData(Alloc(s.vol).vol.disk, r.vol.disk) && SlotWritten(w.disk, r.vol.disk, n, r.ino)
    requires v == Vol(r.vol.disk[Alloc(s.vol).id := b], r.vol.freeBlocks, r.vol.freeInodes)
    requires ino == OneBlock(r.ino.(kind := TYPE_DIRECTORY), Alloc(s.vol).id)
    ensures PutBack(s.cache, v, ino).ok
    ensures Reaches(s.vol, w, PutBack(s.cache, v, ino), w',
                    View(w, hurt)[n := DirNode(map[DOT := n, DOT_DOT := parent])], w.lost, 0, hurt)
  {
    BlankKind(r.ino, TYPE_DIRECTORY);
    var w1 := MakeDirWorld(s, w, n, parent, b, r.vol.disk, r.ino.(kind := TYPE_DIRECTORY), hurt);
    w' := CompleteFrom(s, v, w, w1, n, r, Alloc(s.vol).id, hurt);
  }

  lemma CompleteFrom(s: Sys, v: Vol, w: World, w1: World, n: nat, r: TableResult, x: nat, hurt: set<nat>)
    returns (w': World)
    requires Slots(w.disk, w.files) && CacheOk(s.cache, w.files) && Counted(s.vol, w.files)
    requires n !in w.files && w1.disk == v.disk && s.vol.disk == w.disk
    requires n in w1.files && w1.files == w.files[n := w1.files[n]] && LiveInode(n, w1.files[n])
    requires Sound(w1) && Covered(w1, {}) && AllWell(w1, hurt) && v.freeInodes + 1 == s.vol.freeInodes && Committed(v)
    requires KeepsCount(s.vol, w.free, v, w1.free)
    requires SlotWritten(w.disk, r.vol.disk, n, r.ino) && HEAD < x < NUM_BLOCKS && v.disk == r.vol.disk[x := v.disk[x]]
    ensures PutBack(s.cache, v, w1.files[n]).ok
    ensures Reaches(s.vol, w, PutBack(s.cache, v, w1.files[n]), w', View(w1, hurt), w1.lost, 0, hurt)
  {
    SlotsAround(w.disk, r.vol.disk, w1.disk, n, r.ino);
    w' := CompleteNew(s, v, w, w1, n, r.ino, hurt);
  }

  /** ialloc after data_block_alloc. */
  lemma NewNumber(v: Vol, w: World, stale: Inode, r: TableResult) returns (n: word)
    requires v.disk == w.disk && Sound(w) && Slots(w.disk, w.files) && Counted(v, w.files)
    requires Alloc(v).ok && r == Ialloc(Alloc(v).vol, stale) && |w.files.Keys| < NUM_INODES
    ensures r.ok && Committed(r.vol) && r.vol.freeBlocks == Alloc(v).vol.freeBlocks
    ensures IsInode(n) && n !in w.files && n == FirstFree(w.files, 1) && NewInode(r.ino, n)
    ensures IsData(Alloc(v).id)
    ensures SameData(Alloc(v).vol.disk, r.vol.disk) && SlotWritten(w.disk, r.vol.disk, n, r.ino)
    ensures r.vol.freeInodes + 1 == v.freeInodes
  {
    var d := Alloc(v).vol.disk;
    AllocPops(v, w.free);
    IdsAreData(w.free);
    SlotsSame(w.disk, d, w.files);
    n := IallocNew(Alloc(v).vol, w.files, stale);
    SlotsThrough(w.disk, d, r.vol.disk, n, r.ino);
  }

  /** set_block_id of the first direct number. */
  lemma SetFirst(v: Vol, ino: Inode, id: word)
    ensures SetBlockId(v, ino, 0, id) == InodeResult(v, ino.(direct := ino.direct[0 := id]), true)
  {}

  /** What mkdir does when nothing runs out. */
  lemma MakeDirUnfolds(s: Sys, parent: nat, scratch: Block, stale: Inode, n: word, r: TableResult)
    returns (b: Block, v: Vol, ino: Inode)
    requires 0 < parent < 0x8000_0000 && IsInode(n) && Alloc(s.vol).ok && Alloc(s.vol).id < NUM_BLOCKS
    requires r == Ialloc(Alloc(s.vol).vol, stale) && r.ok && NewInode(r.ino, n)
    ensures n < 0x8000_0000
    ensures DotsOnly(b, n, parent)
    ensures v == Vol(r.vol.disk[Alloc(s.vol).id := b], r.vol.freeBlocks, r.vol.freeInodes)
    ensures ino == OneBlock(r.ino.(kind := TYPE_DIRECTORY), Alloc(s.vol).id)
    ensures MakeDir(s, parent, scratch, stale) == SysResult(PutBack(s.cache, v, ino).sys, true)
  {
    hide Alloc, Ialloc, SetBlockId, PutBack;
    var id := Alloc(s.vol).id;
    SetFirst(Vol(r.vol.disk[id := InitDirBlock(scratch, n, parent)], r.vol.freeBlocks, r.vol.freeInodes),
             r.ino.(kind := TYPE_DIRECTORY), id);
    b := InitDirBlock(scratch, n, parent);
    FormattedPage(scratch, n, parent);
    v := Vol(r.vol.disk[id := b], r.vol.freeBlocks, r.vol.freeInodes);
    ino := OneBlock(r.ino.(kind := TYPE_DIRECTORY), id);
  }

  lemma SlotsThrough(d: Disk, d0: Disk, d1: Disk, n: nat, first: Inode)
    requires (forall x :: 1 <= x < HEAD ==> d0[x] == d[x]) && SlotWritten(d0, d1, n, first)
    ensures SlotWritten(d, d1, n, first)
  {
    forall m | 1 <= m <= ALL_SLOTS ensures SlotOf(d0, m) == SlotOf(d, m) {
      SlotFrame(d, d0, m);
    }
  }

  lemma SlotsAround(d: Disk, d1: Disk, d2: Disk, n: nat, first: Inode)
    requires SlotWritten(d, d1, n, first) && forall x :: 1 <= x < HEAD ==> d2[x] == d1[x]
    ensures SlotWritten(d, d2, n, first)
  {
    forall m | 1 <= m <= ALL_SLOTS ensures SlotOf(d2, m) == SlotOf(d1, m) {
      SlotFrame(d1, d2, m);
    }
  }
}

/** Calls that fail half-way: what they wrote stays on disk, but the inode is not put, so
    the file keeps its old inode.  Blocks that only the new inode could reach are lost. */
module AbortLaws {
  import opened Geometry
  import opened FreeList
  import opened BlockMap
  import opened Ownership
  import opened Leaves
  import opened FileIO
  import opened WriteLaws
  import opened Inodes
  import opened InodeCache
  import opened CacheLaws
  import opened DirBlock
  import opened Directory
  import opened DirLaws
  import opened FileSystem
  import opened SystemInv
  import opened SystemLaws

  // ----- back to the old inode -------------------------------------------

  /** World w' is w1 with the inode that f had in w. */
  ghost predicate Reverted(w: World, w1: World, w': World, f: nat) {
    && f in w.files && f in w1.files && w1.files == w.files[f := w1.files[f]] && Persists(w, w1)
    && w'.disk == w1.disk && w'.files == w.files
  }

  /** A cell names what it named under the new inode, or nothing; what it named at first is
      still there. */
  lemma {:induction false} RevertAt(w: World, w1: World, w': World, f: nat, c: Cell)
    requires Reverted(w, w1, w', f) && IsCell(w.files, c)
    ensures IsCell(w1.files, c) && (Id(w', c) == Id(w1, c) || (Id(w', c) == 0 && FileOf(c) == f))
    ensures Id(w, c) != 0 ==> Id(w', c) == Id(w, c)
  {
    CellsDependOnKeys(w.files, w1.files, c);
    if c.Slot? {
      RevertAt(w, w1, w', f, c.list);
    }
  }

  /** The blocks only the new inode reaches. */
  ghost function Dropped(w1: World, w': World): set<word> {
    set x: word | 0 < x < NUM_BLOCKS && Uses(w1, x) && !Uses(w', x)
  }

  /** Falling back to the old inode keeps all owners; what the new inode alone could reach
      is lost. */
  lemma Revert(w: World, w1: World, f: nat) returns (w': World)
    requires Sound(w) && Contained(w, w1, f)
    ensures w'.disk == w1.disk && w'.files == w.files && w'.free == w1.free && w1.lost <= w'.lost
    ensures Sound(w') && Persists(w, w') && forall extra :: Covered(w, extra) ==> Covered(w', extra)
    ensures Reverted(w, w1, w', f)
    ensures forall g, j :: g in w.files && 0 <= j < MAX_INDEX && g != f ==> SameLeaf(w, w', g, j)
  {
    var bare := World(w1.disk, w.files, w1.free, w1.lost);
    w' := bare.(lost := w1.lost + Dropped(w1, bare));
    SameCellsAs(bare, w');
    RevertCells(w, w1, w', f);
    forall x | x in w'.lost ensures IsData(x) && x !in Ids(w'.free) {
      assert x in Dropped(w1, bare) ==> Uses(w1, x);
    }
    forall c | IsCell(w'.files, c) && Id(w', c) != 0 ensures Id(w', c) !in w'.lost {
      assert Uses(bare, Id(w', c));
    }
    forall extra | Covered(w, extra) ensures Covered(w', extra) {
      RevertCovers(w1, bare, w', extra);
    }
    forall g, j | g in w.files && 0 <= j < MAX_INDEX && g != f ensures SameLeaf(w, w', g, j) {
      BlkIsCell(w1, g, j);
      BlkIsCell(w', g, j);
      assert SameLeaf(w, w1, g, j);
    }
  }

  lemma SameCellsAs(a: World, b: World)
    requires a.disk == b.disk && a.files == b.files
    ensures SameCells(a, b)
  {
    KeepsIndexKeepsCells(a, b);
  }

  lemma RevertCells(w: World, w1: World, w': World, f: nat)
    requires Reverted(w, w1, w', f)
    ensures forall c :: IsCell(w.files, c) ==>
      IsCell(w1.files, c) && (Id(w', c) == Id(w1, c) || (Id(w', c) == 0 && FileOf(c) == f))
    ensures Persists(w, w')
  {
    forall c | IsCell(w.files, c)
      ensures IsCell(w1.files, c) && (Id(w', c) == Id(w1, c) || (Id(w', c) == 0 && FileOf(c) == f))
      ensures Id(w, c) != 0 ==> Id(w', c) == Id(w, c)
    {
      RevertAt(w, w1, w', f, c);
    }
  }

  lemma RevertCovers(w1: World, bare: World, w': World, extra: set<word>)
    requires Covered(w1, extra) && w' == bare.(lost := w1.lost + Dropped(w1, bare)) && w'.free == w1.free
    requires SameCells(bare, w')
    ensures Covered(w', extra)
  {
    forall y: word | IsData(y) && y !in Ids(w'.free) && y !in w'.lost && y !in extra ensures Uses(w', y) {
      assert Uses(w1, y) && Uses(bare, y);
      var c :| IsCell(bare.files, c) && Id(bare, c) == y;
      assert IsCell(w'.files, c) && Id(w', c) == y;
    }
  }

  /** The inode field through which a block is reached: the block's own, or an indirect one. */
  function RootIndex(index: nat): nat {
    if index < NUM_DIRECT then index
    else if index - NUM_DIRECT < K then NUM_DIRECT
    else if index - NUM_DIRECT - K < K2 then NUM_DIRECT + 1
    else NUM_DIRECT + 2
  }

  /** That field is set in the inode. */
  predicate Rooted(ino: Inode, index: nat) {
    RootWord(ino, RootIndex(index)) != 0
  }

  /** Under the old inode a cell names what it named under the new one, if the field on the
      way to it was set before, and nothing otherwise. */
  lemma {:induction false} RevertRooted(w: World, w1: World, w': World, f: nat, c: Cell)
    requires Reverted(w, w1, w', f) && IsCell(w.files, c) && FileOf(c) == f
    ensures IsCell(w1.files, c) && RootOf(c) < NUM_DIRECT + 3
    ensures Id(w', c) == if RootWord(w.files[f], RootOf(c)) != 0 then Id(w1, c) else 0
  {
    CellsDependOnKeys(w.files, w1.files, c);
    if c.Slot? {
      RevertRooted(w, w1, w', f, c.list);
    } else {
      assert Id(w, c) == RootWord(w.files[f], c.root);
    }
  }

  lemma LeafRoot(f: nat, index: nat)
    ensures RootOf(LeafCell(f, index)) == RootIndex(index)
  {
    var c := LeafCell(f, index);
    if index - NUM_DIRECT >= K {
      var double, triple := Field(f, NUM_DIRECT + 1), Field(f, NUM_DIRECT + 2);
      if index - NUM_DIRECT - K < K2 {
        assert c.list.list == double && RootOf(c) == RootOf(c.list) == RootOf(double);
      } else {
        assert c.list.list.list == triple && RootOf(c) == RootOf(c.list) == RootOf(c.list.list) == RootOf(triple);
      }
    }
  }

  /** A byte is as under the new inode, if its block is reached through a field that was set
      before, and otherwise as it was. */
  lemma RevertByte(w: World, w1: World, w': World, f: nat, p: nat)
    requires Reverted(w, w1, w', f)
    ensures Byte(w', f, p) == if Rooted(w.files[f], BlockOf(p)) then Byte(w1, f, p) else Byte(w, f, p)
  {
    var j := BlockOf(p);
    if j < MAX_INDEX {
      BlkIsCell(w, f, j);
      BlkIsCell(w1, f, j);
      BlkIsCell(w', f, j);
      LeafRoot(f, j);
      RevertRooted(w, w1, w', f, LeafCell(f, j));
      UnrootedHole(w, f, LeafCell(f, j));
    }
  }

  lemma {:induction false} UnrootedHole(w: World, f: nat, c: Cell)
    requires IsCell(w.files, c) && FileOf(c) == f && f in w.files && RootOf(c) < NUM_DIRECT + 3
    ensures RootWord(w.files[f], RootOf(c)) == 0 ==> Id(w, c) == 0
  {
    if c.Slot? {
      UnrootedHole(w, f, c.list);
    }
  }

  /** Exactly the first `done` bytes of the data have landed in file f, as far as their
      blocks are reached through inode fields that were set before. */
  ghost predicate Landed(w: World, w': World, f: nat, at: nat, data: seq<byte>, done: nat)
    requires f in w.files && f in w'.files && done <= |data|
  {
    forall p :: p >= 0 ==>
      Byte(w', f, p)
      == if at <= p < at + done && Rooted(w.files[f], BlockOf(p)) then data[p - at] else Byte(w, f, p)
  }

  lemma RevertLanded(w: World, w1: World, w': World, f: nat, at: nat, data: seq<byte>, done: nat)
    requires Reverted(w, w1, w', f) && done <= |data| && Overlaid(w, w1, f, at, data[..done])
    ensures Landed(w, w', f, at, data, done)
  {
    forall p | p >= 0
      ensures Byte(w', f, p)
           == if at <= p < at + done && Rooted(w.files[f], BlockOf(p)) then data[p - at] else Byte(w, f, p)
    {
      RevertByte(w, w1, w', f, p);
      assert Byte(w1, f, p) == OverlayAt(Byte(w, f, p), at, data[..done], p);
    }
  }

  // ----- a call that fails in a file -------------------------------------

  /** A call on file n fails half-way: the inode is not put. */
  lemma AbortChange(c: Cache, v0: Vol, v: Vol, w: World, w1: World, n: nat, k: nat, hurt: set<nat>)
    returns (w': World)
    requires w.disk == v0.disk && w1.disk == v.disk && Contained(w, w1, n)
    requires Sound(w) && Covered(w, {}) && AllWell(w, hurt)
    requires Slots(w.disk, w.files) && CacheOk(c, w.files)
    requires Counted(v0, w.files) && Committed(v0) && Tallied(v0, w.free, v, w1.free, k)
    requires w.files[n].kind == TYPE_ORDINARY
    ensures Reaches(v0, w, SysResult(Sys(c, v), false), w', View(w, hurt)[n := Damaged], w'.lost, 0, hurt + {n})
    ensures w.lost <= w'.lost && w'.free == w1.free && Reverted(w, w1, w', n)
  {
    w' := Revert(w, w1, n);
    OneChanged(w, w', n, hurt, hurt + {n});
    SlotsSame(w.disk, w'.disk, w.files);
    InodeBlocksSame(w.disk, w'.disk);
  }

  /** A write refused as too big changes nothing. */
  lemma WriteTooBig(s: Sys, w: World, n: nat, offset: nat, data: Buffer, hurt: set<nat>)
    requires SysInv(s, w, hurt) && n in w.files && offset + |data| < ID_LIMIT - 1
    requires offset >= GetSizeOfFile(w.files[n]) && BlockOf(offset) >= MAX_INDEX
    ensures !WriteFile(s, n, offset, data).ok
    ensures Reaches(s.vol, w, WriteFile(s, n, offset, data), w, View(w, hurt), w.lost, 0, hurt)
  {
    GetLive(s.cache, s.vol.disk, w.files, n);
  }

  /** How a write fails: as too big, with nothing written, or at the first block that could
      not be had. */
  ghost predicate Stopped(w: World, n: nat, offset: nat, data: seq<byte>, done: nat, free: Stack)
    requires n in w.files
  {
    if offset >= GetSizeOfFile(w.files[n]) && BlockOf(offset) >= MAX_INDEX then done == 0
    else StopsAt(w, n, offset, data, done, free)
  }

  /** So a byte to write has landed if its block and all earlier blocks of the write were
      mapped before. */
  lemma MappedLands(w: World, w': World, n: nat, offset: nat, data: seq<byte>, done: nat, free: Stack, p: nat)
    requires n in w.files && n in w'.files && StopsAt(w, n, offset, data, done, free)
    requires Landed(w, w', n, offset, data, done) && offset <= p < offset + |data|
    requires forall j :: BlockOf(offset) <= j <= BlockOf(p) ==> Blk(w, n, j) != 0
    ensures Byte(w', n, p) == data[p - offset]
  {
    var j := BlockOf(p);
    BlockOfMono(offset, p);
    BlockOfMono(offset, offset + done);
    if p >= offset + done {
      BlockOfMono(offset + done, p);
      assert false;
    }
    assert Blk(w, n, j) != 0 && j < MAX_INDEX;
    BlkIsCell(w, n, j);
    LeafRoot(n, j);
    UnrootedHole(w, n, LeafCell(n, j));
  }

  /** A write damages at most its file.  When it fails, the file keeps its inode, so its
      size, and exactly the bytes before the block that could not be had have landed, as
      far as the old inode reaches them. */
  lemma WriteDamages(s: Sys, w: World, n: nat, offset: nat, data: Buffer, hurt: set<nat>)
    returns (w': World, done: nat)
    requires SysInv(s, w, hurt) && n in w.files && w.files[n].kind == TYPE_ORDINARY && offset + |data| < ID_LIMIT - 1
    ensures Reaches(s.vol, w, WriteFile(s, n, offset, data), w', View(w, hurt)[n := Damaged], w'.lost, 0, hurt + {n})
    ensures w.lost <= w'.lost && (WriteFile(s, n, offset, data).ok ==> w'.lost == w.lost)
    ensures !WriteFile(s, n, offset, data).ok ==>
      && w'.files == w.files && done <= |data| && Stopped(w, n, offset, data, done, w'.free)
      && Landed(w, w', n, offset, data, done)
  {
    hide WriteFile, Pwrite, Landed, Stopped, Reaches;
    GetLive(s.cache, s.vol.disk, w.files, n);
    var c, r := GetInode(s.cache, s.vol.disk, n).cache, Pwrite(s.vol, w.files[n], offset, data);
    WriteFileIs(s, n, offset, data, w.files[n]);
    if r.status == Done {
      w' := DamagedWrite(c, s.vol, w, n, offset, data, r, hurt);
      done := 0;
    } else {
      w', done := AbortedWrite(c, s.vol, w, n, offset, data, r, hurt);
    }
  }

  /** So when a write fails for want of a block, each of its bytes has landed whose block and
      all earlier blocks of the write were mapped before. */
  lemma FailedWrite(s: Sys, w: World, n: nat, offset: nat, data: Buffer, hurt: set<nat>, p: nat) returns (w': World)
    requires SysInv(s, w, hurt) && n in w.files && w.files[n].kind == TYPE_ORDINARY && offset + |data| < ID_LIMIT - 1
    requires !WriteFile(s, n, offset, data).ok && offset <= p < offset + |data|
    requires offset < GetSizeOfFile(w.files[n]) || BlockOf(offset) < MAX_INDEX
    requires forall j :: BlockOf(offset) <= j <= BlockOf(p) ==> Blk(w, n, j) != 0
    ensures SysInv(WriteFile(s, n, offset, data).sys, w', hurt + {n}) && w'.files == w.files
    ensures Byte(w', n, p) == data[p - offset]
  {
    hide WriteFile, SysInv, Landed, StopsAt, Byte, Blk;
    var done;
    w', done := WriteDamages(s, w, n, offset, data, hurt);
    MappedLands(w, w', n, offset, data, done, w'.free, p);
  }

  lemma WriteFileIs(s: Sys, n: nat, offset: nat, data: Buffer, ino: Inode)
    requires offset + |data| < ID_LIMIT - 1 && GetInode(s.cache, s.vol.disk, n).ino == ino
    ensures var c, r := GetInode(s.cache, s.vol.disk, n).cache, Pwrite(s.vol, ino, offset, data);
      WriteFile(s, n, offset, data)
      == if r.status == Done then PutBack(c, r.vol, r.ino) else SysResult(Sys(c, r.vol), false)
  {}

  lemma AbortedWrite(c: Cache, v: Vol, w: World, n: nat, offset: nat, data: Buffer, r: WriteState, hurt: set<nat>)
    returns (w': World, done: nat)
    requires v.disk == w.disk && Sound(w) && Covered(w, {}) && AllWell(w, hurt)
    requires Slots(w.disk, w.files) && CacheOk(c, w.files) && Counted(v, w.files) && Committed(v)
    requires n in w.files && w.files[n].kind == TYPE_ORDINARY && offset + |data| < ID_LIMIT - 1
    requires r == Pwrite(v, w.files[n], offset, data) && r.status != Done
    ensures Reaches(v, w, SysResult(Sys(c, r.vol), false), w', View(w, hurt)[n := Damaged], w'.lost, 0, hurt + {n})
    ensures w.lost <= w'.lost && w'.files == w.files && done <= |data|
    ensures Stopped(w, n, offset, data, done, w'.free) && Landed(w, w', n, offset, data, done)
  {
    hide Pwrite, PwriteLoop, Landed, Stopped, Reaches, Contained, Overlaid;
    var w1, k;
    w1, done, k := AbortedWorld(v, w, n, offset, data, r);
    w' := AbortChange(c, v, r.vol, w, w1, n, k, hurt);
    RevertLanded(w, w1, w', n, offset, data, done);
  }

  /** The blocks behind a write that fails, as the new inode has them. */
  lemma AbortedWorld(v: Vol, w: World, n: nat, offset: nat, data: Buffer, r: WriteState)
    returns (w1: World, done: nat, k: nat)
    requires v.disk == w.disk && Sound(w) && n in w.files && offset + |data| < ID_LIMIT - 1
    requires r == Pwrite(v, w.files[n], offset, data) && r.status != Done
    ensures w1.disk == r.vol.disk && Contained(w, w1, n) && Tallied(v, w.free, r.vol, w1.free, k)
    ensures done <= |data| && Stopped(w, n, offset, data, done, w1.free) && Overlaid(w, w1, n, offset, data[..done])
  {
    hide PwriteLoop, Contained, Overlaid, StopsAt, Sound;
    if offset >= GetSizeOfFile(w.files[n]) && BlockOf(offset) >= MAX_INDEX {
      w1, done, k := w, 0, 0;
      ContainedSelf(w, n);
      NothingLaid(w, w, n, offset);
      assert data[..0] == [];
    } else {
      w1, done := LoopEnds(v, w, n, offset, data, PwriteLoop(v, w.files[n], offset, data));
      k := MostTaken(offset, |data|, r.status);
    }
  }

  lemma DamagedWrite(c: Cache, v: Vol, w: World, n: nat, offset: nat, data: Buffer, r: WriteState, hurt: set<nat>)
    returns (w': World)
    requires v.disk == w.disk && Sound(w) && Covered(w, {}) && AllWell(w, hurt)
    requires Slots(w.disk, w.files) && CacheOk(c, w.files) && Counted(v, w.files) && Committed(v)
    requires n in w.files && w.files[n].kind == TYPE_ORDINARY && offset + |data| < ID_LIMIT - 1
    requires r == Pwrite(v, w.files[n], offset, data) && r.status == Done
    ensures PutBack(c, r.vol, r.ino).ok
    ensures Reaches(v, w, PutBack(c, r.vol, r.ino), w', View(w, hurt)[n := Damaged], w'.lost, 0, hurt + {n})
    ensures w'.lost == w.lost
  {
    hide Pwrite, Sound, MostTaken, SysInv, SameBehind, CountsOn, View, PutBack, CacheOk;
    var w1 := WrittenWorld(v, w, n, offset, data, r);
    w' := CompleteChange(c, v, r.vol, w, w1, n, MostTaken(offset, |data|, Done), hurt, hurt + {n});
  }

  /** The blocks behind a write that succeeds, whatever the file promised before. */
  lemma WrittenWorld(v: Vol, w: World, n: nat, offset: nat, data: Buffer, r: WriteState) returns (w': World)
    requires v.disk == w.disk && Sound(w) && Covered(w, {}) && n in w.files && offset + |data| < ID_LIMIT - 1
    requires r == Pwrite(v, w.files[n], offset, data) && r.status == Done
    ensures w'.disk == r.vol.disk && w'.files == w.files[n := r.ino] && w'.lost == w.lost
    ensures r.ino.id == w.files[n].id && r.ino.kind == w.files[n].kind && r.ino.links == w.files[n].links
    ensures Sound(w') && Covered(w', {}) && Spared(w, w', n)
    ensures Tallied(v, w.free, r.vol, w'.free, MostTaken(offset, |data|, Done))
  {
    hide PwriteLoop, Sound, Persists, MostTaken, Overlaid;
    var w1, done := LoopEnds(v, w, n, offset, data, PwriteLoop(v, w.files[n], offset, data));
    w' := w1.(files := w1.files[n := r.ino]);
    Relabel(w1, w', n, 0);
    OthersAreSpared(w1, w', n, 0);
    SparedTrans(w, w1, w', n);
  }

  // ----- a directory entry that cannot be added --------------------------

  /** How add_entry_to_parent fails: nothing happened, or a new block could not be mapped. */
  lemma AddFails(v: Vol, w: World, f: nat, id: nat, name: seq<byte>) returns (w1: World)
    requires v.disk == w.disk && Sound(w) && f in w.files && DirInv(w.disk, w.files[f])
    requires id < 0x8000_0000 && IsName(name) && !DirAdd(v, w.files[f], id, name).ok
    ensures w1.disk == DirAdd(v, w.files[f], id, name).vol.disk && Contained(w, w1, f)
    ensures Tallied(v, w.free, DirAdd(v, w.files[f], id, name).vol, w1.free, 3)
    ensures forall g, j :: g in w.files && 0 <= j < MAX_INDEX ==> SameLeaf(w, w1, g, j)
    ensures w1.free == Empty || w.files[f].numBlocks >= MAX_INDEX
  {
    var n := w.files[f].numBlocks;
    assert n > 0 ==> 0 < GetBlockId(w.disk, w.files[f], n - 1) < NUM_BLOCKS;
    AllocPops(v, w.free);
    if w.free.Empty? {
      w1 := w;
      ContainedSelf(w, f);
    } else {
      IdsAreData(w.free);
      w1 := MapFails(v, w, f, n);
      assert w1.files == w.files[f := w1.files[f]];
    }
  }

  /** When a name can be added: it fails only when no inode maps another block or the free
      list runs out; four free blocks are enough. */
  lemma AddEnds(v: Vol, w: World, f: nat, id: nat, name: seq<byte>)
    requires v.disk == w.disk && Sound(w) && f in w.files && DirInv(w.disk, w.files[f])
    requires id < 0x8000_0000 && IsName(name)
    ensures var r := DirAdd(v, w.files[f], id, name);
      && (!r.ok ==> FreeInv(r.vol.disk, Empty) || w.files[f].numBlocks >= MAX_INDEX)
      && (w.files[f].numBlocks < MAX_INDEX && |Ids(w.free)| >= 4 ==> r.ok)
  {
    hide DirAdd;
    ListedOrLink(w.free);
    if !DirAdd(v, w.files[f], id, name).ok {
      var w1 := AddFails(v, w, f, id, name);
    }
  }

  /** A failed add changes no view, not even that of the directory. */
  lemma EnterFails(s: Sys, w: World, n: nat, id: nat, name: seq<byte>, hurt: set<nat>) returns (w': World)
    requires SysInv(s, w, hurt) && n in w.files && w.files[n].kind == TYPE_DIRECTORY
    requires id < 0x8000_0000 && IsName(name) && !Enter(s, n, id, name).ok
    ensures Reaches(s.vol, w, Enter(s, n, id, name), w', View(w, hurt), w'.lost, 0, hurt) && w.lost <= w'.lost
  {
    hide Enter, DirAdd, Reaches;
    GetLive(s.cache, s.vol.disk, w.files, n);
    var c, r := GetInode(s.cache, s.vol.disk, n).cache, DirAdd(s.vol, w.files[n], id, name);
    DirAddKeepsNumber(s.vol, w, n, id, name);
    EnterIs(s, n, id, name, w.files[n]);
    w' := AbortedEnter(c, s.vol, w, n, id, name, r, hurt);
  }

  lemma EnterIs(s: Sys, n: nat, id: nat, name: seq<byte>, ino: Inode)
    requires id < 0x8000_0000 && IsName(name) && GetInode(s.cache, s.vol.disk, n).ino == ino
    requires IsInode(DirAdd(s.vol, ino, id, name).ino.id) && !Enter(s, n, id, name).ok
    ensures var c, r := GetInode(s.cache, s.vol.disk, n).cache, DirAdd(s.vol, ino, id, name);
      !r.ok && Enter(s, n, id, name) == SysResult(Sys(c, r.vol), false)
  {
    hide DirAdd;
  }

  lemma AbortedEnter(c: Cache, v: Vol, w: World, n: nat, id: nat, name: seq<byte>, r: DirResult, hurt: set<nat>)
    returns (w': World)
    requires v.disk == w.disk && Sound(w) && Covered(w, {}) && AllWell(w, hurt)
    requires Slots(w.disk, w.files) && CacheOk(c, w.files) && Counted(v, w.files) && Committed(v)
    requires n in w.files && w.files[n].kind == TYPE_DIRECTORY && id < 0x8000_0000 && IsName(name)
    requires r == DirAdd(v, w.files[n], id, name) && !r.ok
    ensures Reaches(v, w, SysResult(Sys(c, r.vol), false), w', View(w, hurt), w'.lost, 0, hurt) && w.lost <= w'.lost
  {
    hide DirAdd, Sound, Persists, Kept;
    DirIsWell(w, n, hurt);
    var w1 := AddFails(v, w, n, id, name);
    w' := Revert(w, w1, n);
    RevertedFiles(w, w1, w', n, hurt);
    SlotsSame(w.disk, w'.disk, w.files);
    InodeBlocksSame(w.disk, w'.disk);
  }

  /** When no leaf changed, falling back to the old inode changes no view. */
  lemma RevertedFiles(w: World, w1: World, w': World, n: nat, hurt: set<nat>)
    requires AllWell(w, hurt) && Reverted(w, w1, w', n)
    requires forall g, j :: g in w.files && 0 <= j < MAX_INDEX ==> SameLeaf(w, w1, g, j)
    requires forall g, j :: g in w.files && 0 <= j < MAX_INDEX && g != n ==> SameLeaf(w, w', g, j)
    ensures AllWell(w', hurt) && View(w', hurt) == View(w, hurt)
  {
    forall g | g in w.files ensures Unharmed(w, w', hurt, g) {
      forall j | 0 <= j < MAX_INDEX ensures SameLeaf(w, w', g, j) {
        RevertedLeaf(w, w1, w', n, j);
      }
      assert SameFile(w, w', g);
      SameUnharmed(w, w', hurt, g);
    }
  }

  lemma RevertedLeaf(w: World, w1: World, w': World, n: nat, j: nat)
    requires Reverted(w, w1, w', n) && j < MAX_INDEX && SameLeaf(w, w1, n, j)
    ensures SameLeaf(w, w', n, j)
  {
    BlkIsCell(w, n, j);
    BlkIsCell(w1, n, j);
    BlkIsCell(w', n, j);
    RevertAt(w, w1, w', n, LeafCell(n, j));
  }

  /** A successful add leaves the inode its number, so put_inode cannot fail. */
  lemma DirAddKeepsNumber(v: Vol, w: World, f: nat, id: nat, name: seq<byte>)
    requires v.disk == w.disk && f in w.files && LiveInode(f, w.files[f]) && id < 0x8000_0000 && IsName(name)
    ensures DirAdd(v, w.files[f], id, name).ino.id == f
  {
    hide AddToBlock, GetBlockId, Alloc;
  }

  // ----- new files when every inode is in use ----------------------------

  lemma IallocFull(v: Vol, files: map<nat, Inode>, stale: Inode)
    requires Slots(v.disk, files) && |files.Keys| == NUM_INODES
    ensures NUM_INODES <= ALL_SLOTS && (TakesFree(v, Ialloc(v, stale)) <==> NoStraySlots(v.disk))
    ensures NoStraySlots(v.disk) ==> Ialloc(v, stale) == TableResult(v, false, stale)
    ensures !NoStraySlots(v.disk) ==> Ialloc(v, stale).ok || Ialloc(v, stale).vol != v
  {
    SlotsTable(v.disk, files);
    FreeNumbers(v.disk, files);
    IallocFails(v, stale);
    IallocTakesFree(v, stale);
  }

  /** When every inode is in use, making a file fails and changes nothing if and only if no
      slot behind the last inode is mistaken for a free one; in that case making a
      directory fails too, but loses the block it has allocated before it notices. */
  lemma MakeFull(s: Sys, w: World, parent: nat, scratch: Block, stale: Inode, hurt: set<nat>) returns (w': World)
    requires SysInv(s, w, hurt) && |w.files.Keys| == NUM_INODES && parent < 0x8000_0000
    ensures MakeFile(s, stale) == SysResult(s, false) <==> NoStraySlots(s.vol.disk)
    ensures NoStraySlots(s.vol.disk) ==>
      && !MakeDir(s, parent, scratch, stale).ok
      && Reaches(s.vol, w, MakeDir(s, parent, scratch, stale), w', View(w, hurt),
                 w.lost + if w.free.Empty? then {} else {w.free.id}, 0, hurt)
  {
    hide MakeDir, Reaches, Alloc, Ialloc, PutBack;
    IallocFull(s.vol, w.files, stale);
    AllocPops(s.vol, w.free);
    w' := w;
    if NoStraySlots(s.vol.disk) {
      if w.free.Empty? {
        MakeDirStops(s, parent, scratch, stale);
        assert w.lost + {} == w.lost;
        ReachesSelf(s, w, hurt);
      } else {
        w' := FullLoses(s, w, stale, hurt);
        MakeDirStops(s, parent, scratch, stale);
      }
    }
  }

  lemma ReachesSelf(s: Sys, w: World, hurt: set<nat>)
    requires SysInv(s, w, hurt)
    ensures Reaches(s.vol, w, SysResult(s, false), w, View(w, hurt), w.lost, 0, hurt)
  {}

  lemma MakeDirStops(s: Sys, parent: nat, scratch: Block, stale: Inode)
    requires parent < 0x8000_0000
    ensures var a := Alloc(s.vol); !a.ok || (!Ialloc(a.vol, stale).ok && Ialloc(a.vol, stale).vol == a.vol) ==>
      MakeDir(s, parent, scratch, stale) == SysResult(Sys(s.cache, a.vol), false)
  {
    hide Alloc, Ialloc, SetBlockId, PutBack;
  }

  lemma FullLoses(s: Sys, w: World, stale: Inode, hurt: set<nat>) returns (w': World)
    requires SysInv(s, w, hurt) && |w.files.Keys| == NUM_INODES && NoStraySlots(s.vol.disk) && !w.free.Empty?
    ensures Alloc(s.vol).ok && Ialloc(Alloc(s.vol).vol, stale) == TableResult(Alloc(s.vol).vol, false, stale)
    ensures Reaches(s.vol, w, SysResult(Sys(s.cache, Alloc(s.vol).vol), false), w', View(w, hurt),
                    w.lost + {w.free.id}, 0, hurt)
  {
    hide Alloc, Ialloc;
    AllocPops(s.vol, w.free);
    var w1 := AllocLeaves(s.vol, w);
    StillFull(Alloc(s.vol).vol, w, w1, stale);
    w' := LoseBlock(w1, w.free.id);
    LostView(w, w1, w', hurt);
  }

  lemma StillFull(v: Vol, w: World, w1: World, stale: Inode)
    requires Slots(w.disk, w.files) && |w.files.Keys| == NUM_INODES && NoStraySlots(w.disk)
    requires v.disk == w1.disk && forall x :: 1 <= x < HEAD ==> w1.disk[x] == w.disk[x]
    ensures Ialloc(v, stale) == TableResult(v, false, stale) && Slots(w1.disk, w.files) && SameBehind(w.disk, v.disk)
  {
    SlotsSame(w.disk, v.disk, w.files);
    InodeBlocksSame(w.disk, v.disk);
    BehindKeepsStrays(w.disk, v.disk);
    IallocFull(v, w.files, stale);
  }

  /** A fresh block is given up. */
  lemma LoseBlock(w: World, x: word) returns (w': World)
    requires Sound(w) && Fresh(w, x) && Covered(w, {x})
    ensures w' == w.(lost := w.lost + {x}) && Sound(w') && Covered(w', {})
  {
    w' := w.(lost := w.lost + {x});
    SameCellsAs(w, w');
    assert forall c :: IsCell(w.files, c) && Id(w, c) == x ==> Uses(w, x);
    forall y: word | IsData(y) && y !in Ids(w'.free) && y !in w'.lost ensures Uses(w', y) {
      var c :| IsCell(w.files, c) && Id(w, c) == y;
      assert IsCell(w'.files, c) && Id(w', c) == y;
    }
  }

  lemma LostView(w: World, w1: World, w': World, hurt: set<nat>)
    requires AllWell(w, hurt) && w1.files == w.files && w'.disk == w1.disk && w'.files == w1.files
    requires forall g, j :: g in w.files && 0 <= j < MAX_INDEX ==> SameLeaf(w, w1, g, j)
    ensures AllWell(w', hurt) && View(w', hurt) == View(w, hurt)
  {
    forall g | g in w.files ensures Unharmed(w, w', hurt, g) {
      forall j | 0 <= j < MAX_INDEX ensures SameLeaf(w, w', g, j) {
        assert SameLeaf(w, w1, g, j);
      }
      assert SameFile(w, w', g);
      SameUnharmed(w, w', hurt, g);
    }
  }
}

/** mkfs, writing a volume in place. */
module MkfsCalls {
  import opened Arithmetic
  import opened Geometry
  import opened Codec
  import opened BlockMap
  import opened Inodes
  import opened InodeCache
  import opened Mkfs
  import opened FileSystem
  import opened SystemRuns
  import opened Volumes
  import opened BlockCalls
  import opened InodeCalls
  import opened DirCalls

  /** create_superblock */
  method CreateSuperblock(vol: Volume)
    requires vol.Valid()
    modifies vol, vol.data
    ensures vol.State() == FreshSuper(old(vol.State()).disk)
  {
    SizingLaws();
    vol.freeBlocks := (NUM_BLOCKS - NUM_INODE_BLOCKS - 1) * (K - 1) / K;
    vol.freeInodes := NUM_INODES;
    var ok := vol.CommitSuperblock();
  }

  /** create_inodes */
  method CreateInodes(vol: Volume)
    requires vol.Valid()
    modifies vol, vol.data
    ensures vol.State() == old(vol.State()).(disk := WriteInodes(old(vol.State()).disk, 1))
  {
    ghost var v := vol.State();
    var i: nat := 0;
    while i < NUM_INODES
      invariant i <= NUM_INODES && vol.State() == v.(disk := vol.State().disk)
      invariant WriteInodes(vol.State().disk, i + 1) == WriteInodes(v.disk, 1)
    {
      TableHoldsInodes();
      WriteInode(vol, i + 1, FreshInode(i + 1));
      i := i + 1;
    }
  }

  /** The inner loop of create_free_blocks: fills the slots of a list from the last one
      down; `free` is the next block to list. */
  method FillList(b: Block, free: nat) returns (r: Block, free': nat)
    ensures r == FillSlots(b, K - 1, free)
    ensures free <= NUM_BLOCKS ==> free' == NextFirst(free)
  {
    r, free' := b, free;
    var j: nat := K - 1;
    while j > 0
      invariant j < K && FillSlots(r, j, free') == FillSlots(b, K - 1, free)
      invariant free <= NUM_BLOCKS ==> free' == Min(free + (K - 1 - j), NUM_BLOCKS)
      decreases j
    {
      if free' < NUM_BLOCKS {
        r := SetWord(r, j, free');
        free' := free' + 1;
      } else {
        r := SetWord(r, j, 0);
      }
      j := j - 1;
    }
  }

  /** One list of create_free_blocks. */
  method MakeList(b: Block, lists: nat, i: nat, free: nat) returns (r: Block, free': nat)
    requires HEAD + lists <= NUM_BLOCKS && i < lists && free <= NUM_BLOCKS
    ensures r == ListBlock(b, lists, i, free) && free' == NextFirst(free)
  {
    var block := 1 + NUM_INODE_BLOCKS + i;
    var next := if i < lists - 1 then block + 1 else 0;
    r, free' := FillList(SetWord(b, 0, next), free);
  }

  /** One list of create_free_blocks is filled and written. */
  method WriteList(vol: Volume, b: Block, lists: nat, i: nat, free: nat) returns (r: Block, free': nat)
    requires vol.Valid() && HEAD + lists <= NUM_BLOCKS && i < lists && free <= NUM_BLOCKS
    modifies vol, vol.data
    ensures vol.State() == old(vol.State()).(disk := vol.State().disk) && free' <= NUM_BLOCKS
    ensures MakeLists(vol.State().disk, r, lists, i + 1, free') == MakeLists(old(vol.State()).disk, b, lists, i, free)
  {
    r, free' := MakeList(b, lists, i, free);
    var written := vol.WriteBlock(1 + NUM_INODE_BLOCKS + i, r);
  }

  /** The outer loop of create_free_blocks; `buffer` is what the block buffer holds at first. */
  method WriteLists(vol: Volume, buffer: Block, lists: nat, first: nat)
    requires vol.Valid() && HEAD + lists <= NUM_BLOCKS && first <= NUM_BLOCKS
    modifies vol, vol.data
    ensures vol.State() == old(vol.State()).(disk := MakeLists(old(vol.State()).disk, buffer, lists, 0, first))
  {
    ghost var v := vol.State();
    var b, free: nat, i: nat := buffer, first, 0;
    while i < lists
      invariant i <= lists && free <= NUM_BLOCKS && vol.State() == v.(disk := vol.State().disk)
      invariant MakeLists(vol.State().disk, b, lists, i, free) == MakeLists(v.disk, buffer, lists, 0, first)
    {
      b, free := WriteList(vol, b, lists, i, free);
      i := i + 1;
    }
  }

  /** create_free_blocks */
  method CreateFreeBlocks(vol: Volume, buffer: Block)
    requires vol.Valid() && vol.freeBlocks == LISTED_BLOCKS
    modifies vol, vol.data
    ensures vol.State() == old(vol.State()).(disk := MakeLists(old(vol.State()).disk, buffer, LISTS, 0, FIRST_LISTED))
  {
    var lists: nat := NUM_BLOCKS - (1 + NUM_INODE_BLOCKS + vol.freeBlocks);
    WriteLists(vol, buffer, lists, 1 + NUM_INODE_BLOCKS + lists);
  }

  /** create_fs up to the root directory. */
  method CreateEmpty(vol: Volume, buffer: Block)
    requires vol.Valid()
    modifies vol, vol.data
    ensures vol.State() == Format(old(vol.State()).disk, buffer)
  {
    CreateSuperblock(vol);
    CreateInodes(vol);
    CreateFreeBlocks(vol, buffer);
  }

  /** create_root_dir, which is also the inode part of mkdir; `scratch` and `stale` are what
      the block and inode buffers hold at first. */
  method CreateDir(vol: Volume, table: InodeTable, parent: nat, scratch: Block, stale: Inode) returns (ok: bool)
    requires vol.Valid() && parent < 0x8000_0000
    modifies vol, vol.data, table
    ensures SysResult(Sys(table.Entries(), vol.State()), ok)
         == MakeDir(old(Sys(table.Entries(), vol.State())), parent, scratch, stale)
  {
    hide SetBlockId, PutBack;
    var block;
    ok, block := vol.DataBlockAlloc();
    if !ok {
      return false;
    }
    var ino;
    ok, ino := IallocFrom(vol, stale);
    if !ok || ino.id >= 0x8000_0000 || block >= NUM_BLOCKS {
      return false;
    }
    ino := ino.(kind := TYPE_DIRECTORY);
    var page := FormatBlock(scratch, ino.id, parent);
    var written := vol.WriteBlock(block, page);
    ok, ino := SetBlockIdOf(vol, ino, 0, block);
    if !ok {
      return false;
    }
    ino := ino.(numBlocks := Increment(ino.numBlocks));
    ok := PutBackIn(vol, table, ino);
    return true;
  }

  /** The inode part of mknod. */
  method CreateFile(vol: Volume, table: InodeTable, stale: Inode) returns (ok: bool)
    requires vol.Valid()
    modifies vol, vol.data, table
    ensures SysResult(Sys(table.Entries(), vol.State()), ok)
         == MakeFile(old(Sys(table.Entries(), vol.State())), stale)
  {
    hide PutBack;
    var ino;
    ok, ino := IallocFrom(vol, stale);
    if !ok {
      return false;
    }
    ok := PutBackIn(vol, table, ino.(kind := TYPE_ORDINARY));
    return true;
  }

  /** put_inode at the end of a call. */
  method PutBackIn(vol: Volume, table: InodeTable, ino: Inode) returns (ok: bool)
    requires vol.Valid()
    modifies vol, vol.data, table
    ensures SysResult(Sys(table.Entries(), vol.State()), ok) == PutBack(old(table.Entries()), old(vol.State()), ino)
  {
    if ino.links == 0 && (ino.id < 1 || ino.id > NUM_INODES) {
      return false;
    }
    ok := table.Put(vol, ino);
  }

  /** create_fs, with an empty inode cache. */
  method CreateFs(vol: Volume, table: InodeTable, left: Leftovers) returns (ok: bool)
    requires vol.Valid() && table.Entries() == EMPTY_CACHE
    modifies vol, vol.data, table
    ensures SysResult(Sys(table.Entries(), vol.State()), ok) == Boot(old(vol.State()).disk, left)
    ensures ok <==> NUM_BLOCKS > HEAD + 1
  {
    ghost var d := vol.State().disk;
    CreateEmpty(vol, left.list);
    ok := CreateDir(vol, table, 1, left.page, left.inode);
    ghost var w := BootMakesRoot(d, left);
  }

  /** main, up to the first call. */
  method StartFs(vol: Volume, table: InodeTable, left: Leftovers) returns (ok: bool)
    requires vol.Valid() && table.Entries() == EMPTY_CACHE
    modifies vol, vol.data, table
    ensures SysResult(Sys(table.Entries(), vol.State()), ok) == Start(old(vol.State()).disk, left)
  {
    hide Boot;
    ok := CreateFs(vol, table, left);
    if ok {
      ok := vol.ReadSuperblock();
    }
  }
}

/** The inode handler and the inode cache, working in place. */
module InodeCalls {
  import opened Arithmetic
  import opened Geometry
  import opened BlockMap
  import opened Inodes
  import opened InodeCache
  import opened Volumes

  /** iget */
  method IgetFrom(vol: Volume, n: int) returns (ok: bool, ino: Inode)
    requires vol.Valid()
    ensures Fetched(ok, ino) == Iget(vol.State().disk, n)
  {
    if n < 1 || n > NUM_INODES {
      return false, FreshInode(0);
    }
    TableHoldsInodes();
    SlotInTable(n);
    SlotIsStored(vol.State().disk, n);
    var read, b := vol.ReadBlock(InodeBlock(n));
    return true, GetSlot(b, InodeSlot(n));
  }

  /** Writes the slot with number n: its block is read, patched and written back. */
  method WriteInode(vol: Volume, n: nat, ino: Inode)
    requires vol.Valid() && Placed(n)
    modifies vol, vol.data
    ensures vol.State() == old(vol.State()).(disk := WithSlot(old(vol.State()).disk, n, ino))
  {
    PlacedBlock(n);
    var read, b := vol.ReadBlock(InodeBlock(n));
    var written := vol.WriteBlock(InodeBlock(n), PutSlot(b, InodeSlot(n), ino));
  }

  /** The number of slots is the number of inode blocks times the slots of a block. */
  lemma AllSlotsIs()
    ensures ALL_SLOTS == Times(NUM_INODE_BLOCKS, SLOTS)
  {
    var all := Below(NUM_INODE_BLOCKS, SLOTS);
    assert Quot(ALL_SLOTS, SLOTS) < NUM_INODE_BLOCKS <==> ALL_SLOTS < all;
    assert Quot(all, SLOTS) < NUM_INODE_BLOCKS <==> all < ALL_SLOTS;
    TimesIsMul(NUM_INODE_BLOCKS, SLOTS);
  }

  /** Inode n sits in slot j of block i. */
  lemma PlaceOf(n: nat, i: nat, j: nat)
    requires i >= 1 && j < SLOTS && n == Times(i - 1, SLOTS) + j + 1
    ensures InodeBlock(n) == i && InodeSlot(n) == j
  {
    TimesIsMul(i - 1, SLOTS);
    QuotRemUnique(n - 1, SLOTS, i - 1, j);
  }

  /** The inner loop of next_free_inode_number: the slots of block i, whose first inode has
      number n. */
  method FreeInBlock(vol: Volume, i: nat, ghost n: nat) returns (found: bool, id: int)
    requires vol.Valid() && 1 <= i <= NUM_INODE_BLOCKS && n == Times(i - 1, SLOTS) + 1 && n + SLOTS <= ALL_SLOTS + 1
    ensures found ==> id == NextFree(vol.State().disk, n)
    ensures !found ==> NextFree(vol.State().disk, n) == NextFree(vol.State().disk, n + SLOTS)
  {
    ghost var d := vol.State().disk;
    var read, b := vol.ReadBlock(i);
    var j: nat := 0;
    while j < SLOTS
      invariant j <= SLOTS && NextFree(d, n) == NextFree(d, n + j)
    {
      PlaceOf(n + j, i, j);
      SlotIsStored(d, n + j);
      var ino := GetSlot(b, j);
      if ino.kind == TYPE_FREE {
        return true, NumberOf(ino);
      }
      j := j + 1;
    }
    return false, -1;
  }

  /** next_free_inode_number */
  method NextFreeInode(vol: Volume) returns (id: int)
    requires vol.Valid()
    ensures id == NextFree(vol.State().disk, 1)
  {
    ghost var d := vol.State().disk;
    var i: nat := 1;
    while i <= NUM_INODE_BLOCKS
      invariant 1 <= i <= NUM_INODE_BLOCKS + 1
      invariant NextFree(d, 1) == NextFree(d, Times(i - 1, SLOTS) + 1)
    {
      BlockInTable(i);
      var found;
      found, id := FreeInBlock(vol, i, Times(i - 1, SLOTS) + 1);
      if found {
        return;
      }
      i := i + 1;
    }
    AllSlotsIs();
    return -1;
  }

  lemma BlockInTable(i: nat)
    requires 1 <= i <= NUM_INODE_BLOCKS
    ensures Times(i - 1, SLOTS) + SLOTS == Times(i, SLOTS) <= ALL_SLOTS
  {
    AllSlotsIs();
    TimesIsMul(i, SLOTS);
    TimesIsMul(NUM_INODE_BLOCKS, SLOTS);
    MulMono(i, NUM_INODE_BLOCKS, SLOTS);
  }

  /** ialloc; the inode is the caller's, and stays as it is when iget fails. */
  method IallocFrom(vol: Volume, stale: Inode) returns (ok: bool, ino: Inode)
    requires vol.Valid()
    modifies vol, vol.data
    ensures TableResult(vol.State(), ok, ino) == Ialloc(old(vol.State()), stale)
  {
    var n := NextFreeInode(vol);
    if n == -1 {
      return false, stale;
    }
    ok, ino := IgetFrom(vol, n);
    if !ok {
      ino := stale;
    }
    vol.freeInodes := Decrement(vol.freeInodes);
    ok := vol.CommitSuperblock();
    ino := ino.(links := 1, kind := TYPE_ORDINARY);
    if !Placed(NumberOf(ino)) {
      return false, ino;
    }
    WriteInode(vol, NumberOf(ino), ino);
    ok := vol.CommitSuperblock();
  }

  /** ifree */
  method IfreeIn(vol: Volume, n: word)
    requires vol.Valid() && IsInode(n)
    modifies vol, vol.data
    ensures vol.State() == Ifree(old(vol.State()), n)
  {
    vol.freeInodes := Increment(vol.freeInodes);
    var ok := vol.CommitSuperblock();
    TableHoldsInodes();
    WriteInode(vol, n, FreshInode(n));
    ok := vol.CommitSuperblock();
  }

  /** The release loop of iput. */
  method ReleaseBlocksOf(vol: Volume, ino: Inode) returns (ino': Inode)
    requires vol.Valid()
    modifies vol, vol.data
    ensures (vol.State(), ino') == ReleaseFrom(old(vol.State()), ino, 0)
    ensures ino'.id == ino.id
  {
    ino' := ino;
    var i: nat := 0;
    while i < ino.numBlocks
      invariant i <= ino.numBlocks && ino'.numBlocks == ino.numBlocks && ino'.id == ino.id
      invariant ReleaseFrom(vol.State(), ino', i) == ReleaseFrom(old(vol.State()), ino, 0)
    {
      var id := GetBlockId(vol.data[..], ino', i);
      if id > 0 {
        var freed := vol.DataBlockFree(id);
        ino' := ino'.(numAllocated := Decrement(ino'.numAllocated));
      }
      i := i + 1;
    }
  }

  /** iput; the inode comes back with its count of blocks. */
  method IputTo(vol: Volume, ino: Inode) returns (ok: bool, ino': Inode)
    requires vol.Valid() && (ino.links == 0 ==> IsInode(ino.id))
    modifies vol, vol.data
    ensures TableResult(vol.State(), ok, ino') == Iput(old(vol.State()), ino)
  {
    if ino.links == 0 {
      ino' := ReleaseBlocksOf(vol, ino);
      IfreeIn(vol, ino.id);
      return true, ino';
    }
    if !Placed(NumberOf(ino)) {
      return false, ino;
    }
    WriteInode(vol, NumberOf(ino), ino);
    return true, ino;
  }

  // ----- the cache -------------------------------------------------------

  /** The inode cache: the entries of the hash table, and their keys in insertion order. */
  class InodeTable {
    var order: Line
    var at: map<word, Inode>

    constructor ()
      ensures Entries() == EMPTY_CACHE
    {
      order, at := Nobody, map[];
    }

    ghost function Entries(): Cache
      reads this
    {
      Cache(order, at)
    }

    /** HASH_DEL */
    method HashDelete(id: word)
      modifies this
      ensures Entries() == Delete(old(Entries()), id)
    {
      order, at := Without(order, id), at - {id};
    }

    /** HASH_ADD_INT */
    method HashAdd(id: word, ino: Inode)
      modifies this
      ensures Entries() == Append(old(Entries()), id, ino)
    {
      order, at := Line(order, id), at[id := ino];
    }

    /** get_inode_from_cache */
    method GetCached(id: int) returns (ok: bool, ino: Inode)
      modifies this
      ensures CacheHit(Entries(), ok, ino) == GetFromCache(old(Entries()), id)
    {
      if 0 <= id < ID_LIMIT && id in at {
        ino := at[id];
        HashDelete(id);
        HashAdd(id, ino);
        return true, ino;
      }
      return false, FreshInode(0);
    }

    /** put_inode_in_cache */
    method PutCached(ino: Inode)
      modifies this
      ensures Entries() == PutInCache(old(Entries()), ino)
    {
      HashDelete(ino.id);
      HashAdd(ino.id, ino);
      if Length(order) >= MAX_CACHE_SIZE {
        HashDelete(Oldest(order));
      }
    }

    /** get_inode */
    method Get(vol: Volume, id: int) returns (ok: bool, ino: Inode)
      requires vol.Valid()
      modifies this
      ensures CacheHit(Entries(), ok, ino) == GetInode(old(Entries()), vol.State().disk, id)
    {
      ok, ino := GetCached(id);
      if !ok {
        ok, ino := IgetFrom(vol, id);
        if ok {
          PutCached(ino);
        }
      }
    }

    /** put_inode */
    method Put(vol: Volume, ino: Inode) returns (ok: bool)
      requires vol.Valid() && (ino.links == 0 ==> IsInode(ino.id))
      modifies this, vol, vol.data
      ensures PutResult(Entries(), vol.State(), ok) == PutInode(old(Entries()), old(vol.State()), ino)
    {
      var ino';
      ok, ino' := IputTo(vol, ino);
      if ok {
        PutCached(ino');
      }
    }
  }
}

/** Directories on values: adding, removing and looking up entries in the blocks of a
    directory inode. */
module Directory {
  import opened Geometry
  import opened FreeList
  import opened BlockMap
  import opened DirBlock

  datatype DirResult = DirResult(vol: Vol, ino: Inode, ok: bool)

  function WriteTo(v: Vol, id: word, b: Block): Vol
    requires id < NUM_BLOCKS
  {
    Vol(v.disk[id := b], v.freeBlocks, v.freeInodes)
  }

  /** add_entry_to_parent: the last block is tried first, then a new one is mapped. */
  function DirAdd(v: Vol, ino: Inode, id: nat, name: seq<byte>): DirResult
    requires id < 0x8000_0000 && IsName(name)
  {
    if ino.numBlocks > 0 then
      var last := GetBlockId(v.disk, ino, ino.numBlocks - 1);
      if last == 0 || last >= NUM_BLOCKS then DirResult(v, ino, false)
      else
        var added := AddToBlock(v.disk[last], id, name);
        if added.ok then DirResult(WriteTo(v, last, added.b), ino, true) else DirGrow(v, ino, id, name)
    else DirGrow(v, ino, id, name)
  }

  /** The second half of add_entry_to_parent. */
  function DirGrow(v: Vol, ino: Inode, id: nat, name: seq<byte>): DirResult
    requires id < 0x8000_0000 && IsName(name)
  {
    var a := Alloc(v);
    if !a.ok then DirResult(a.vol, ino, false)
    else
      var r := SetBlockId(a.vol, ino, ino.numBlocks, a.id);
      if !r.ok || a.id >= NUM_BLOCKS then DirResult(r.vol, r.ino, false)
      else
        DirResult(WriteTo(r.vol, a.id, AddToBlock(ZERO, id, name).b),
                  r.ino.(numBlocks := Increment(r.ino.numBlocks)), true)
  }

  datatype RemoveResult = RemoveResult(vol: Vol, ok: bool)

  /** remove_entry_from_parent, from block i on. */
  function DirRemove(v: Vol, ino: Inode, i: nat, id: int): RemoveResult
    decreases ino.numBlocks - i
  {
    if i >= ino.numBlocks then RemoveResult(v, false)
    else
      var at := GetBlockId(v.disk, ino, i);
      if 0 < at < NUM_BLOCKS && RemoveFromBlock(v.disk[at], id).ok then
        RemoveResult(WriteTo(v, at, RemoveFromBlock(v.disk[at], id).b), true)
      else DirRemove(v, ino, i + 1, id)
  }

  /** The block scan of namei, from block i on; `b` is the buffer, which keeps its
      contents when a block cannot be read. */
  function DirLookup(d: Disk, ino: Inode, i: nat, name: seq<byte>, b: Block): int
    decreases ino.numBlocks - i
  {
    if i >= ino.numBlocks then -1
    else
      var at := GetBlockId(d, ino, i);
      var read := if at < NUM_BLOCKS then d[at] else b;
      var found := LookupInBlock(read, name);
      if found != -1 then found else DirLookup(d, ino, i + 1, name, read)
  }
}

/** Directory entries, added, removed and looked up in place. */
module DirCalls {
  import opened Geometry
  import opened BlockMap
  import opened DirBlock
  import opened Directory
  import opened Volumes
  import opened BlockCalls

  // ----- one directory block ---------------------------------------------

  /** add_entry_to_dir_block */
  method AddEntry(b: Block, id: nat, name: seq<byte>) returns (ok: bool, r: Block)
    requires id < 0x8000_0000 && IsName(name)
    ensures BlockResult(r, ok) == AddToBlock(b, id, name)
  {
    var i: nat := 0;
    while i < LEN
      invariant i <= LEN && FirstUnused(Entries(b), 0) == FirstUnused(Entries(b), i)
    {
      FirstEntriesAt(b, LEN, i);
      if EntryAt(b, i).id == 0 {
        return true, PutEntry(b, i, id, name);
      }
      i := i + 1;
    }
    return false, b;
  }

  /** remove_entry_from_dir_block */
  method RemoveEntry(b: Block, id: int) returns (ok: bool, r: Block)
    ensures BlockResult(r, ok) == RemoveFromBlock(b, id)
  {
    var i: nat := 0;
    while i < LEN
      invariant i <= LEN && FirstWithId(Entries(b), 0, id) == FirstWithId(Entries(b), i, id)
    {
      FirstEntriesAt(b, LEN, i);
      if EntryAt(b, i).id == id {
        return true, PutEntry(b, i, 0, []);
      }
      i := i + 1;
    }
    return false, b;
  }

  /** check_data_block_for_next_entry */
  method CheckBlock(b: Block, name: seq<byte>) returns (id: int)
    ensures id == LookupInBlock(b, name)
  {
    var i: nat := 0;
    while i < LEN
      invariant i <= LEN && FirstNamed(Entries(b), 0, name) == FirstNamed(Entries(b), i, name)
    {
      FirstEntriesAt(b, LEN, i);
      if EntryAt(b, i).name == name {
        return EntryAt(b, i).id;
      }
      i := i + 1;
    }
    return -1;
  }

  /** The loop of init_dir_block. */
  method ClearBlock(b: Block) returns (r: Block)
    ensures r == ClearEntries(b, 0)
  {
    r := b;
    var i: nat := 0;
    while i < LEN
      invariant i <= LEN && ClearEntries(b, 0) == ClearEntries(r, i)
    {
      r := PutEntry(r, i, 0, []);
      i := i + 1;
    }
  }

  /** init_dir_block */
  method FormatBlock(b: Block, self: nat, parent: nat) returns (r: Block)
    requires self < 0x8000_0000 && parent < 0x8000_0000
    ensures r == InitDirBlock(b, self, parent)
  {
    r := ClearBlock(b);
    var ok;
    ok, r := AddEntry(r, self, DOT);
    ok, r := AddEntry(r, parent, DOT_DOT);
  }

  // ----- all blocks of a directory ---------------------------------------

  /** add_entry_to_parent */
  method AddEntryToParent(vol: Volume, ino: Inode, id: nat, name: seq<byte>) returns (ok: bool, ino': Inode)
    requires vol.Valid() && id < 0x8000_0000 && IsName(name)
    modifies vol, vol.data
    ensures DirResult(vol.State(), ino', ok) == DirAdd(old(vol.State()), ino, id, name)
  {
    if ino.numBlocks > 0 {
      var last := GetBlockId(vol.data[..], ino, ino.numBlocks - 1);
      if last == 0 {
        return false, ino;
      }
      var read, b := vol.ReadBlock(last);
      if !read {
        return false, ino;
      }
      var added;
      added, b := AddEntry(b, id, name);
      if added {
        ok := vol.WriteBlock(last, b);
        return ok, ino;
      }
    }
    ok, ino' := GrowParent(vol, ino, id, name);
  }

  /** The second half of add_entry_to_parent. */
  method GrowParent(vol: Volume, ino: Inode, id: nat, name: seq<byte>) returns (ok: bool, ino': Inode)
    requires vol.Valid() && id < 0x8000_0000 && IsName(name)
    modifies vol, vol.data
    ensures DirResult(vol.State(), ino', ok) == DirGrow(old(vol.State()), ino, id, name)
  {
    var block;
    ok, block := vol.DataBlockAlloc();
    if !ok {
      return false, ino;
    }
    ok, ino' := SetBlockIdOf(vol, ino, ino.numBlocks, block);
    if !ok {
      return;
    }
    var added, b := AddEntry(ZERO, id, name);
    ok := vol.WriteBlock(block, b);
    if ok {
      ino' := ino'.(numBlocks := Increment(ino'.numBlocks));
    }
  }

  /** remove_entry_from_parent */
  method RemoveEntryFromParent(vol: Volume, ino: Inode, id: int) returns (ok: bool)
    requires vol.Valid()
    modifies vol, vol.data
    ensures RemoveResult(vol.State(), ok) == DirRemove(old(vol.State()), ino, 0, id)
  {
    var i: nat := 0;
    while i < ino.numBlocks
      invariant i <= ino.numBlocks && vol.State() == old(vol.State())
      invariant DirRemove(old(vol.State()), ino, 0, id) == DirRemove(old(vol.State()), ino, i, id)
    {
      var at := GetBlockId(vol.data[..], ino, i);
      if at > 0 {
        var read, b := vol.ReadBlock(at);
        if read {
          var removed;
          removed, b := RemoveEntry(b, id);
          if removed {
            ok := vol.WriteBlock(at, b);
            return;
          }
        }
      }
      i := i + 1;
    }
    return false;
  }

  /** The block scan of namei; `buffer` is what the block buffer holds at first. */
  method ScanForName(vol: Volume, ino: Inode, name: seq<byte>, buffer: Block) returns (found: int)
    requires vol.Valid()
    ensures found == DirLookup(vol.State().disk, ino, 0, name, buffer)
  {
    ghost var d := vol.State().disk;
    var i: nat, b := 0, buffer;
    while i < ino.numBlocks
      invariant i <= ino.numBlocks && DirLookup(d, ino, 0, name, buffer) == DirLookup(d, ino, i, name, b)
    {
      var read, block := vol.ReadBlock(GetBlockId(vol.data[..], ino, i));
      if read {
        b := block;
      }
      found := CheckBlock(b, name);
      if found != -1 {
        return;
      }
      i := i + 1;
    }
    return -1;
  }
}

/** set_block_id and its helpers, working on a volume in place. */
module BlockCalls {
  import opened Arithmetic
  import opened Geometry
  import opened Codec
  import opened BlockMap
  import opened Volumes

  /** set_single_indirect_block_id */
  method SetSingleId(vol: Volume, list: word, index: nat, id: word) returns (ok: bool)
    requires vol.Valid() && index < K
    modifies vol, vol.data
    ensures MapResult(vol.State(), ok) == SetSingle(old(vol.State()), list, index, id)
  {
    if list == 0 {
      return false;
    }
    var read, b := vol.ReadBlock(list);
    if read {
      ok := vol.WriteBlock(list, SetWord(b, index, id));
      return;
    }
    return false;
  }

  /** Allocates an index block and links it in slot `bucket` of block `list`, whose
      contents are b. */
  method LinkChild(vol: Volume, list: word, b: Block, bucket: nat) returns (ok: bool, child: word)
    requires vol.Valid() && list < NUM_BLOCKS && bucket < K && b == vol.data[list] && Words(b)[bucket] == 0
    modifies vol, vol.data
    ensures ChildResult(vol.State(), ok, child) == EnsureChild(old(vol.State()), list, bucket)
  {
    ok, child := vol.DataBlockAlloc();
    if !ok {
      return false, 0;
    }
    var written := vol.WriteBlock(list, SetWord(b, bucket, child));
  }

  /** set_double_indirect_block_id */
  method SetDoubleId(vol: Volume, list: word, index: nat, id: word) returns (ok: bool)
    requires vol.Valid() && index < K2
    modifies vol, vol.data
    ensures MapResult(vol.State(), ok) == SetDouble(old(vol.State()), list, index, id)
  {
    if list == 0 {
      return false;
    }
    var read, b := vol.ReadBlock(list);
    if !read {
      return false;
    }
    var bucket, offset := Quot(index, K), Rem(index, K);
    WordsAt(b, bucket);
    var child := WordAt(b, bucket);
    if child == 0 {
      ok, child := LinkChild(vol, list, b, bucket);
      if !ok {
        return false;
      }
    }
    ok := SetSingleId(vol, child, offset, id);
  }

  /** set_triple_indirect_block_id */
  method SetTripleId(vol: Volume, list: word, index: nat, id: word) returns (ok: bool)
    requires vol.Valid() && index < K3
    modifies vol, vol.data
    ensures MapResult(vol.State(), ok) == SetTriple(old(vol.State()), list, index, id)
  {
    if list == 0 {
      return false;
    }
    var read, b := vol.ReadBlock(list);
    if !read {
      return false;
    }
    var bucket, offset := Quot(index, K2), Rem(index, K2);
    WordsAt(b, bucket);
    var child := WordAt(b, bucket);
    if child == 0 {
      ok, child := LinkChild(vol, list, b, bucket);
      if !ok {
        return false;
      }
    }
    ok := SetDoubleId(vol, child, offset, id);
  }

  /** Allocates the root index block of an inode field that is 0. */
  method LinkRoot(vol: Volume, root: word) returns (ok: bool, list: word)
    requires vol.Valid()
    modifies vol, vol.data
    ensures ChildResult(vol.State(), ok, list) == EnsureRoot(old(vol.State()), root)
  {
    if root == 0 {
      ok, list := vol.DataBlockAlloc();
      if !ok {
        return false, 0;
      }
    } else {
      ok, list := true, root;
    }
  }

  /** set_block_id in the range of the single indirect numbers. */
  method UnderSingle(vol: Volume, ino: Inode, index: nat, id: word) returns (ok: bool, ino': Inode)
    requires vol.Valid() && NUM_DIRECT <= index < NUM_DIRECT + K
    modifies vol, vol.data
    ensures InodeResult(vol.State(), ino', ok) == SetBlockId(old(vol.State()), ino, index, id)
  {
    var list;
    ok, list := LinkRoot(vol, ino.single);
    if !ok {
      return false, ino;
    }
    ino' := ino.(single := list);
    ok := SetSingleId(vol, list, index - NUM_DIRECT, id);
  }

  /** set_block_id in the range of the double indirect numbers. */
  method UnderDouble(vol: Volume, ino: Inode, index: nat, id: word) returns (ok: bool, ino': Inode)
    requires vol.Valid() && NUM_DIRECT + K <= index < NUM_DIRECT + K + K2
    modifies vol, vol.data
    ensures InodeResult(vol.State(), ino', ok) == SetBlockId(old(vol.State()), ino, index, id)
  {
    var list;
    ok, list := LinkRoot(vol, ino.double);
    if !ok {
      return false, ino;
    }
    ino' := ino.(double := list);
    ok := SetDoubleId(vol, list, index - NUM_DIRECT - K, id);
  }

  /** set_block_id in the range of the triple indirect numbers. */
  method UnderTriple(vol: Volume, ino: Inode, index: nat, id: word) returns (ok: bool, ino': Inode)
    requires vol.Valid() && NUM_DIRECT + K + K2 <= index < MAX_INDEX
    modifies vol, vol.data
    ensures InodeResult(vol.State(), ino', ok) == SetBlockId(old(vol.State()), ino, index, id)
  {
    var list;
    ok, list := LinkRoot(vol, ino.triple);
    if !ok {
      return false, ino;
    }
    ino' := ino.(triple := list);
    ok := SetTripleId(vol, list, index - NUM_DIRECT - K - K2, id);
  }

  /** set_block_id; the inode comes back with its changed field. */
  method SetBlockIdOf(vol: Volume, ino: Inode, index: nat, id: word) returns (ok: bool, ino': Inode)
    requires vol.Valid()
    modifies vol, vol.data
    ensures InodeResult(vol.State(), ino', ok) == SetBlockId(old(vol.State()), ino, index, id)
  {
    if index < NUM_DIRECT {
      ok, ino' := true, ino.(direct := ino.direct[index := id]);
    } else if index - NUM_DIRECT < K {
      ok, ino' := UnderSingle(vol, ino, index, id);
    } else if index - NUM_DIRECT - K < K2 {
      ok, ino' := UnderDouble(vol, ino, index, id);
    } else if index - NUM_DIRECT - K - K2 < K3 {
      ok, ino' := UnderTriple(vol, ino, index, id);
    } else {
      ok, ino' := false, ino;
    }
  }
}

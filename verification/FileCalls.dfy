/** pread and pwrite, working in place on a volume, the inode cache and the descriptor
    tables. */
module FileCalls {
  import opened Arithmetic
  import opened Geometry
  import opened Codec
  import opened BlockMap
  import opened FileIO
  import opened Descriptors
  import opened FileSystem
  import opened Syscalls
  import opened Volumes
  import opened BlockCalls
  import opened InodeCalls
  import opened MkfsCalls
  import opened FdCalls

  // ----- the write loop --------------------------------------------------

  /** set_ith_datablock_number; indices count from 0 here. */
  method SetIthBlock(vol: Volume, ino: Inode, index: nat, id: word) returns (ok: bool, ino': Inode)
    requires vol.Valid()
    modifies vol, vol.data
    ensures InodeResult(vol.State(), ino', ok) == SetIth(old(vol.State()), ino, index, id)
  {
    ok, ino' := SetBlockIdOf(vol, ino, index, id);
    MaxIndexFits();
    if ok && ino'.numBlocks < index + 1 {
      ino' := ino'.(numBlocks := index + 1, used := 0);
    }
  }

  /** One iteration of the write loop: `current` is the block that holds byte pos, or 0. */
  method WriteChunkAt(vol: Volume, ino: Inode, pos: nat, current: word, chunk: seq<byte>)
    returns (status: Status, ino': Inode)
    requires vol.Valid() && OffsetIn(pos) + |chunk| <= BLOCK_SIZE
    requires current == GetBlockId(vol.State().disk, ino, BlockOf(pos))
    modifies vol, vol.data
    ensures WriteState(status, vol.State(), ino') == WriteChunk(old(vol.State()), ino, pos, chunk)
  {
    ino' := ino;
    var id, b, ok := current, ZERO, true;
    if current == 0 {
      ok, id := vol.DataBlockAlloc();
      if !ok {
        return NoSpace, ino;
      }
      ok, ino' := SetIthBlock(vol, ino, BlockOf(pos), id);
      if !ok {
        return IoError, ino';
      }
      ino' := ino'.(numAllocated := Increment(ino'.numAllocated));
    } else {
      ok, b := vol.ReadBlock(current);
      if !ok {
        return IoError, ino;
      }
    }
    ok := vol.WriteBlock(id, Patch(b, OffsetIn(pos), chunk));
    status := if ok then Done else IoError;
  }

  /** Where the position moves when n bytes are handled. */
  lemma Advance(pos: nat, n: nat)
    requires OffsetIn(pos) + n <= BLOCK_SIZE
    ensures OffsetIn(pos + n) == if OffsetIn(pos) + n == BLOCK_SIZE then 0 else OffsetIn(pos) + n
    ensures BlockOf(pos + n) == if OffsetIn(pos) + n == BLOCK_SIZE then BlockOf(pos) + 1 else BlockOf(pos)
  {
    if OffsetIn(pos) + n == BLOCK_SIZE {
      NextBlock(pos, n);
    } else {
      SameBlock(pos, n);
    }
  }

  /** Moves on by n bytes; the next block is looked up when the end of a block is reached. */
  method MoveOn(vol: Volume, ino: Inode, ghost pos: nat, n: nat, block: nat, inBlock: nat, current: word)
    returns (block': nat, inBlock': nat, current': word)
    requires vol.Valid() && block == BlockOf(pos) && inBlock == OffsetIn(pos) && inBlock + n <= BLOCK_SIZE && n > 0
    ensures block' == BlockOf(pos + n) && inBlock' == OffsetIn(pos + n)
    ensures current' == if inBlock' == 0 then GetBlockId(vol.State().disk, ino, block') else current
    ensures inBlock + n == BLOCK_SIZE ==> inBlock' == 0
    ensures inBlock' != 0 ==> block' == block
  {
    Advance(pos, n);
    block', inBlock', current' := block, if inBlock + n == BLOCK_SIZE then 0 else inBlock + n, current;
    if inBlock' == 0 {
      block' := block + 1;
      current' := GetBlockId(vol.data[..], ino, block');
    }
  }

  /** One iteration on the block at hand. */
  method WriteNext(vol: Volume, ino: Inode, pos: nat, current: word, rest: Buffer, ghost end: WriteState)
    returns (status: Status, ino': Inode)
    requires vol.Valid() && rest != [] && current == GetBlockId(vol.State().disk, ino, BlockOf(pos))
    requires end == PwriteLoop(vol.State(), ino, pos, rest)
    modifies vol, vol.data
    ensures status != Done ==> end == WriteState(status, vol.State(), ino')
    ensures status == Done ==>
      end == PwriteLoop(vol.State(), ino', pos + ChunkLen(pos, |rest|), rest[ChunkLen(pos, |rest|)..])
  {
    ghost var v := vol.State();
    status, ino' := WriteChunkAt(vol, ino, pos, current, rest[..ChunkLen(pos, |rest|)]);
    WriteUnfolds(v, ino, pos, rest, WriteState(status, vol.State(), ino'), end);
  }

  /** One iteration, and the move to the next position. */
  method WriteOnce(vol: Volume, ino: Inode, pos: nat, block: nat, inBlock: nat, current: word, rest: Buffer)
    returns (status: Status, ino': Inode, pos': nat, block': nat, inBlock': nat, current': word, rest': Buffer)
    requires vol.Valid() && rest != [] && block == BlockOf(pos) && inBlock == OffsetIn(pos)
    requires current == GetBlockId(vol.State().disk, ino, block)
    modifies vol, vol.data
    ensures status != Done ==> WriteState(status, vol.State(), ino') == PwriteLoop(old(vol.State()), ino, pos, rest)
    ensures status == Done ==>
      && PwriteLoop(vol.State(), ino', pos', rest') == PwriteLoop(old(vol.State()), ino, pos, rest)
      && pos' + |rest'| == pos + |rest| && |rest'| < |rest| && block' == BlockOf(pos') && inBlock' == OffsetIn(pos')
      && (rest' != [] ==> current' == GetBlockId(vol.State().disk, ino', block'))
  {
    hide WriteChunk, GetBlockId;
    status, ino' := WriteNext(vol, ino, pos, current, rest, PwriteLoop(vol.State(), ino, pos, rest));
    pos', block', inBlock', current', rest' := pos, block, inBlock, current, rest;
    if status == Done {
      pos', rest' := pos + ChunkLen(pos, |rest|), rest[ChunkLen(pos, |rest|)..];
      block', inBlock', current' := MoveOn(vol, ino', pos, ChunkLen(pos, |rest|), block, inBlock, current);
    }
  }

  /** The write loop of pwrite; `block` is the index of the block where it ended, and
      `inBlock` the position in that block. */
  method WriteBytes(vol: Volume, ino: Inode, offset: nat, data: Buffer)
    returns (status: Status, ino': Inode, block: nat, inBlock: nat)
    requires vol.Valid()
    modifies vol, vol.data
    ensures WriteState(status, vol.State(), ino') == PwriteLoop(old(vol.State()), ino, offset, data)
    ensures status == Done ==> block == BlockOf(offset + |data|) && inBlock == OffsetIn(offset + |data|)
  {
    hide WriteChunk, GetBlockId;
    ino', block, inBlock := ino, BlockOf(offset), OffsetIn(offset);
    var current := GetBlockId(vol.data[..], ino, block);
    var rest, pos := data, offset;
    while rest != []
      invariant pos + |rest| == offset + |data| && block == BlockOf(pos) && inBlock == OffsetIn(pos)
      invariant rest != [] ==> current == GetBlockId(vol.State().disk, ino', block)
      invariant PwriteLoop(vol.State(), ino', pos, rest) == PwriteLoop(old(vol.State()), ino, offset, data)
      decreases |rest|
    {
      status, ino', pos, block, inBlock, current, rest := WriteOnce(vol, ino', pos, block, inBlock, current, rest);
      if status != Done {
        return;
      }
    }
    status := Done;
  }

  /** The size update of pwrite: `ith` counts blocks from 1. */
  method UpdateSize(ino: Inode, ith: nat, inBlock: nat, ghost pos: nat) returns (r: Inode)
    requires pos < ID_LIMIT - 1 && ith == BlockOf(pos) + 1 && inBlock == OffsetIn(pos)
    ensures r == FinishWrite(ino, pos)
  {
    QuotAtMost(pos, BLOCK_SIZE);
    r := ino;
    if ith > ino.numBlocks || (ith == ino.numBlocks && inBlock > ino.used) {
      if inBlock == 0 {
        r := ino.(numBlocks := ith - 1, used := BLOCK_SIZE);
      } else {
        r := ino.(numBlocks := ith, used := inBlock);
      }
    }
  }

  // ----- the read loop ---------------------------------------------------

  /** The result of the whole loop when `bytes` have been delivered and `r` is to come. */
  function Prepend(bytes: seq<byte>, r: ReadResult): ReadResult {
    if r.ReadFailed? then r else Read(bytes + r.bytes, r.eof)
  }

  lemma PrependStep(bytes: seq<byte>, got: seq<byte>, rest: ReadResult, whole: ReadResult)
    requires whole == if rest.ReadFailed? then rest else Read(got + rest.bytes, rest.eof)
    ensures Prepend(bytes, whole) == Prepend(bytes + got, rest)
  {
    if rest.Read? {
      assert bytes + (got + rest.bytes) == (bytes + got) + rest.bytes;
    }
  }

  /** One iteration of the read loop: n bytes from position `inBlock` of block `current`. */
  method ReadChunk(vol: Volume, current: word, inBlock: nat, n: nat) returns (r: ReadResult)
    requires vol.Valid() && inBlock + n <= BLOCK_SIZE
    ensures r == Fetch(vol.State().disk, current, inBlock, n)
  {
    if current == 0 {
      return Read(seq<byte>(n, _ => 0), false);
    }
    var ok, b := vol.ReadBlock(current);
    if !ok {
      return ReadFailed;
    }
    return Read(b[inBlock..inBlock + n], false);
  }

  /** What is still to come after one more iteration. */
  lemma ReadMore(d: Disk, ino: Inode, pos: nat, remaining: ByteCount, first: bool, n: nat, got: ReadResult,
                 bytes: seq<byte>, end: ReadResult)
    requires remaining > 0 && ReadState(ino, pos, first) && !AtEnd(ino, pos)
    requires end == Prepend(bytes, PreadLoop(d, ino, pos, remaining, first))
    requires n == ReadLen(ino, pos, remaining, first) && OffsetIn(pos) + n <= BLOCK_SIZE && 0 < n <= remaining
    requires remaining > n ==> ReadState(ino, pos + n, false)
    requires got == Fetch(d, GetBlockId(d, ino, BlockOf(pos)), OffsetIn(pos), n)
    ensures end ==
      if got.ReadFailed? then got else Prepend(bytes + got.bytes, PreadLoop(d, ino, pos + n, remaining - n, false))
  {
    ReadUnfolds(d, ino, pos, remaining, first, got, PreadLoop(d, ino, pos, remaining, first));
    if got.Read? {
      PrependStep(bytes, got.bytes, PreadLoop(d, ino, pos + n, remaining - n, false),
                  PreadLoop(d, ino, pos, remaining, first));
    }
  }

  /** Bytes to copy in one iteration. */
  method CopyLength(ino: Inode, ghost pos: nat, block: nat, inBlock: nat, remaining: ByteCount, first: bool)
    returns (n: nat)
    requires block == BlockOf(pos) && inBlock == OffsetIn(pos)
    requires ReadState(ino, pos, first) && remaining > 0 && !AtEnd(ino, pos)
    ensures n == ReadLen(ino, pos, remaining, first) && 0 < n <= remaining && inBlock + n <= BLOCK_SIZE
    ensures remaining > n ==> ReadState(ino, pos + n, false)
  {
    ReadStep(ino, pos, remaining, first);
    n := if first then Min(BLOCK_SIZE - inBlock, remaining) else Min(BLOCK_SIZE, remaining);
    if block + 1 == ino.numBlocks && ino.used - inBlock < n {
      n := ino.used - inBlock;
    }
  }

  /** One iteration on the block at hand: n bytes are copied. */
  method ReadNext(vol: Volume, ino: Inode, ghost pos: nat, block: nat, inBlock: nat, current: word,
                  remaining: ByteCount, first: bool, ghost bytes: seq<byte>, ghost end: ReadResult)
    returns (n: nat, got: ReadResult)
    requires vol.Valid() && block == BlockOf(pos) && inBlock == OffsetIn(pos)
    requires current == GetBlockId(vol.State().disk, ino, block)
    requires remaining > 0 && ReadState(ino, pos, first) && !AtEnd(ino, pos)
    requires end == Prepend(bytes, PreadLoop(vol.State().disk, ino, pos, remaining, first))
    ensures 0 < n <= remaining && inBlock + n <= BLOCK_SIZE && (remaining > n ==> ReadState(ino, pos + n, false))
    ensures got.ReadFailed? ==> end == got
    ensures got.Read? ==>
      end == Prepend(bytes + got.bytes, PreadLoop(vol.State().disk, ino, pos + n, remaining - n, false))
  {
    n := CopyLength(ino, pos, block, inBlock, remaining, first);
    got := ReadChunk(vol, current, inBlock, n);
    ReadMore(vol.State().disk, ino, pos, remaining, first, n, got, bytes, end);
  }

  /** The read loop of pread. */
  method ReadBytes(vol: Volume, ino: Inode, offset: nat, nbyte: ByteCount) returns (r: ReadResult)
    requires vol.Valid() && (nbyte > 0 ==> ReadState(ino, offset, true))
    ensures r == PreadLoop(vol.State().disk, ino, offset, nbyte, true)
  {
    ghost var d, end, pos := vol.State().disk, PreadLoop(vol.State().disk, ino, offset, nbyte, true), offset;
    var block, inBlock: nat, remaining: ByteCount := BlockOf(offset), OffsetIn(offset), nbyte;
    var current := GetBlockId(vol.data[..], ino, block);
    var buf: seq<byte>, first := [], true;
    while remaining > 0
      invariant block == BlockOf(pos) && inBlock == OffsetIn(pos) && current == GetBlockId(d, ino, block)
      invariant remaining > 0 ==> ReadState(ino, pos, first)
      invariant first <==> remaining == nbyte
      invariant remaining <= nbyte && end == Prepend(buf, PreadLoop(d, ino, pos, remaining, first))
      decreases remaining
    {
      if block + 1 == ino.numBlocks && ino.used == inBlock {
        return Read(buf, true);
      }
      var n, got := ReadNext(vol, ino, pos, block, inBlock, current, remaining, first, buf, end);
      if got.ReadFailed? {
        return ReadFailed;
      }
      block, inBlock, current := MoveOn(vol, ino, pos, n, block, inBlock, current);
      pos, buf, remaining, first := pos + n, buf + got.bytes, remaining - n, false;
    }
    return Read(buf, false);
  }

  // ----- the calls -------------------------------------------------------

  /** syscalls2__open, from the inode number on */
  method OpenOn(vol: Volume, table: InodeTable, fds: FdTables, pid: int, mode: Mode, n: nat) returns (fd: int)
    requires vol.Valid() && Inv(fds.tables)
    modifies vol, vol.data, table, fds
    ensures CallResult(Sys(table.Entries(), vol.State()), fds.tables, fd, [])
         == OpenCall(old(Sys(table.Entries(), vol.State())), old(fds.tables), pid, mode, n)
  {
    hide PutBack, Open;
    var ok, ino := table.Get(vol, n);
    fd := fds.OpenFd(pid, mode, n);
    ok := PutBackIn(vol, table, ino);
  }

  /** syscalls2__pwrite */
  method PwriteOn(vol: Volume, table: InodeTable, fds: FdTables, pid: int, fd: nat, data: Buffer, offset: nat)
    returns (result: int)
    requires vol.Valid() && offset + |data| < ID_LIMIT - 1
    modifies vol, vol.data, table, fds
    ensures CallResult(Sys(table.Entries(), vol.State()), fds.tables, result, [])
         == PwriteCall(old(Sys(table.Entries(), vol.State())), old(fds.tables), pid, fd, offset, data)
  {
    hide PwriteLoop, PutBack, FinishWrite;
    var e := GetEntry(fds.tables, pid, fd);
    if e.Missing? {
      return -1;
    }
    if e.entry.mode != WRITE && e.entry.mode != READ_WRITE {
      return -1;
    }
    var ok, ino := table.Get(vol, e.entry.inodeNumber);
    if offset >= GetSizeOfFile(ino) && !InRange(BlockOf(offset)) {
      return -1;
    }
    var status, block, inBlock;
    status, ino, block, inBlock := WriteBytes(vol, ino, offset, data);
    if status != Done {
      return -1;
    }
    ino := UpdateSize(ino, block + 1, inBlock, offset + |data|);
    ok := PutBackIn(vol, table, ino);
    if !ok {
      return -1;
    }
    fds.tables := SetOffset(fds.tables, pid, fd, ToInt(offset + |data|));
    return |data|;
  }

  /** syscalls2__pread */
  method PreadOn(vol: Volume, table: InodeTable, fds: FdTables, pid: int, fd: nat, nbyte: ByteCount, offset: nat)
    returns (result: int, buf: seq<byte>)
    requires vol.Valid()
    modifies vol, vol.data, table, fds
    ensures CallResult(Sys(table.Entries(), vol.State()), fds.tables, result, buf)
         == PreadCall(old(Sys(table.Entries(), vol.State())), old(fds.tables), pid, fd, nbyte, offset)
  {
    var e := GetEntry(fds.tables, pid, fd);
    if e.Missing? {
      return -1, [];
    }
    if e.entry.mode != READ && e.entry.mode != READ_WRITE {
      return -1, [];
    }
    var ok, ino := table.Get(vol, e.entry.inodeNumber);
    if !ok {
      return -1, [];
    }
    if offset >= GetSizeOfFile(ino) {
      return 0, [];
    }
    BelowSize(ino, offset);
    var r := ReadBytes(vol, ino, offset, nbyte);
    result, buf := EndPread(vol, table, fds, pid, fd, ino, offset, r);
  }

  /** The end of syscalls2__pread. */
  method EndPread(vol: Volume, table: InodeTable, fds: FdTables, pid: int, fd: nat, ino: Inode, offset: nat,
                  r: ReadResult)
    returns (result: int, buf: seq<byte>)
    requires vol.Valid()
    modifies vol, vol.data, table, fds
    ensures CallResult(Sys(table.Entries(), vol.State()), fds.tables, result, buf)
         == FinishPread(old(Sys(table.Entries(), vol.State())), old(fds.tables), pid, fd, ino, offset, r)
  {
    if r.ReadFailed? {
      return -1, [];
    }
    if r.eof {
      fds.tables := SetOffset(fds.tables, pid, fd, GetSizeOfFile(ino));
      return |r.bytes|, r.bytes;
    }
    fds.tables := SetOffset(fds.tables, pid, fd, ToInt(offset + |r.bytes|));
    var ok := PutBackIn(vol, table, ino);
    if !ok {
      return -1, [];
    }
    return |r.bytes|, r.bytes;
  }
}

/** syscalls2__pread and syscalls2__pwrite on values: the loops over the blocks of one
    file, given its inode. */
module FileIO {
  import opened Arithmetic
  import opened Geometry
  import opened Codec
  import opened FreeList
  import opened BlockMap

  // ----- positions and sizes ---------------------------------------------

  /** Index of the block that holds byte `pos`, counted from 0. */
  function BlockOf(pos: nat): nat {
    Quot(pos, BLOCK_SIZE)
  }

  function OffsetIn(pos: nat): (o: nat)
    ensures o < BLOCK_SIZE
  {
    QuotRem(pos, BLOCK_SIZE);
    Rem(pos, BLOCK_SIZE)
  }

  /** Lengths that survive the source's min, which takes and returns an int. */
  type ByteCount = n: nat | n < 0x8000_0000

  /** A buffer of such a length. */
  type Buffer = s: seq<byte> | |s| < 0x8000_0000

  /** The size the two size fields stand for. */
  function FileSize(ino: Inode): nat {
    if ino.numBlocks == 0 then 0 else Times(ino.numBlocks - 1, BLOCK_SIZE) + ino.used
  }

  /** get_size_of_file: the size, truncated to an int. */
  function GetSizeOfFile(ino: Inode): int {
    ToInt(FileSize(ino))
  }

  /** is_ith_block_in_range_of_direct_and_indirect_blocks, for the block at `index` = ith - 1. */
  predicate InRange(index: nat) {
    index < MAX_INDEX
  }

  /** Byte `pos` of a file; holes and unmapped positions read as 0. */
  function ByteAt(d: Disk, ino: Inode, pos: nat): byte {
    var id := GetBlockId(d, ino, BlockOf(pos));
    if id == 0 || id >= NUM_BLOCKS then 0 else d[id][OffsetIn(pos)]
  }

  /** The contents of a file. */
  function Content(d: Disk, ino: Inode): (c: seq<byte>)
    ensures |c| == FileSize(ino)
  {
    seq(FileSize(ino), p requires 0 <= p < FileSize(ino) => ByteAt(d, ino, p))
  }

  // ----- pwrite ----------------------------------------------------------

  datatype Status = Done | TooBig | NoSpace | IoError

  datatype WriteState = WriteState(status: Status, vol: Vol, ino: Inode)

  /** set_ith_datablock_number, for the block at `index` = ith - 1. */
  function SetIth(v: Vol, ino: Inode, index: nat, id: word): InodeResult {
    var r := SetBlockId(v, ino, index, id);
    MaxIndexFits();
    if !r.ok then r
    else if r.ino.numBlocks < index + 1 then InodeResult(r.vol, r.ino.(numBlocks := index + 1, used := 0), true)
    else r
  }

  /** One iteration of the write loop: `chunk` goes to the block that holds `pos`, which
      is allocated and mapped if it was a hole. */
  function WriteChunk(v: Vol, ino: Inode, pos: nat, chunk: seq<byte>): WriteState
    requires OffsetIn(pos) + |chunk| <= BLOCK_SIZE
  {
    var id := GetBlockId(v.disk, ino, BlockOf(pos));
    if id == 0 then
      var a := Alloc(v);
      if !a.ok then WriteState(NoSpace, a.vol, ino)
      else
        var r := SetIth(a.vol, ino, BlockOf(pos), a.id);
        if !r.ok then WriteState(IoError, r.vol, r.ino)
        else
          var counted := r.ino.(numAllocated := Increment(r.ino.numAllocated));
          PutBlock(r.vol, counted, a.id, Patch(ZERO, OffsetIn(pos), chunk))
    else if id >= NUM_BLOCKS then WriteState(IoError, v, ino)
    else PutBlock(v, ino, id, Patch(v.disk[id], OffsetIn(pos), chunk))
  }

  /** bwrite. */
  function PutBlock(v: Vol, ino: Inode, id: word, b: Block): WriteState {
    if id >= NUM_BLOCKS then WriteState(IoError, v, ino)
    else WriteState(Done, Vol(v.disk[id := b], v.freeBlocks, v.freeInodes), ino)
  }

  /** Bytes handled by one iteration. */
  function ChunkLen(pos: nat, remaining: ByteCount): (n: nat)
    ensures remaining > 0 ==> 0 < n <= remaining
    ensures OffsetIn(pos) + n <= BLOCK_SIZE
  {
    Min(BLOCK_SIZE - OffsetIn(pos), remaining)
  }

  /** How often the write loop goes round for n bytes from `pos` on (see ChunksAreBlocks). */
  function Chunks(pos: nat, n: ByteCount): (r: nat)
    ensures n > 0 ==> r > 0
    decreases n
  {
    if n == 0 then 0 else 1 + Chunks(pos + ChunkLen(pos, n), n - ChunkLen(pos, n))
  }

  /** The write loop, from byte `pos` on. */
  function PwriteLoop(v: Vol, ino: Inode, pos: nat, data: Buffer): WriteState
    decreases |data|
  {
    if data == [] then WriteState(Done, v, ino)
    else
      var n := ChunkLen(pos, |data|);
      var s := WriteChunk(v, ino, pos, data[..n]);
      if s.status != Done then s else PwriteLoop(s.vol, s.ino, pos + n, data[n..])
  }

  /** One iteration of the write loop, which ends in state `end`. */
  lemma WriteUnfolds(v: Vol, ino: Inode, pos: nat, data: Buffer, s: WriteState, end: WriteState)
    requires data != [] && end == PwriteLoop(v, ino, pos, data)
    requires s == WriteChunk(v, ino, pos, data[..ChunkLen(pos, |data|)])
    ensures s.status != Done ==> end == s
    ensures s.status == Done ==>
      end == PwriteLoop(s.vol, s.ino, pos + ChunkLen(pos, |data|), data[ChunkLen(pos, |data|)..])
  {}

  /** The size update after the write loop, which ended at byte `pos`. */
  function FinishWrite(ino: Inode, pos: nat): Inode
    requires pos < ID_LIMIT - 1
  {
    QuotAtMost(pos, BLOCK_SIZE);
    var ith, offset := BlockOf(pos) + 1, OffsetIn(pos);
    if ith > ino.numBlocks || (ith == ino.numBlocks && offset > ino.used) then
      if offset == 0 then ino.(numBlocks := ith - 1, used := BLOCK_SIZE)
      else ino.(numBlocks := ith, used := offset)
    else ino
  }

  /** syscalls2__pwrite between get_inode and put_inode. */
  function Pwrite(v: Vol, ino: Inode, offset: nat, data: Buffer): WriteState
    requires offset + |data| < ID_LIMIT - 1
  {
    if offset >= GetSizeOfFile(ino) && !InRange(BlockOf(offset)) then WriteState(TooBig, v, ino)
    else
      var s := PwriteLoop(v, ino, offset, data);
      if s.status != Done then s else WriteState(Done, s.vol, FinishWrite(s.ino, offset + |data|))
  }

  // ----- pread -----------------------------------------------------------

  /** The bytes delivered; `eof` when the loop stopped at the end of the file. */
  datatype ReadResult = Read(bytes: seq<byte>, eof: bool) | ReadFailed

  /** The position is not behind the fill of the last block: what the loop relies on when
      it computes how much of the last block is left. */
  predicate Readable(ino: Inode, pos: nat) {
    BlockOf(pos) + 1 == ino.numBlocks ==> OffsetIn(pos) <= ino.used
  }

  /** So is every position below the size, whatever the size fields hold. */
  lemma BelowSize(ino: Inode, pos: nat)
    requires pos < GetSizeOfFile(ino)
    ensures Readable(ino, pos)
  {
    QuotRem(pos, BLOCK_SIZE);
    TimesIsMul(BlockOf(pos), BLOCK_SIZE);
  }

  /** Bytes offset..offset+n of a block, zeros for a hole. */
  function Fetch(d: Disk, id: word, offset: nat, n: nat): ReadResult
    requires offset + n <= BLOCK_SIZE
  {
    if id == 0 then Read(seq<byte>(n, _ => 0), false)
    else if id >= NUM_BLOCKS then ReadFailed
    else Read(d[id][offset..offset + n], false)
  }

  /** Bytes copied by one iteration; less than a block only at the start and at the end. */
  function ReadLen(ino: Inode, pos: nat, remaining: ByteCount, first: bool): int {
    var n := if first then Min(BLOCK_SIZE - OffsetIn(pos), remaining) else Min(BLOCK_SIZE, remaining);
    if BlockOf(pos) + 1 == ino.numBlocks && ino.used - OffsetIn(pos) < n then ino.used - OffsetIn(pos) else n
  }

  predicate AtEnd(ino: Inode, pos: nat) {
    BlockOf(pos) + 1 == ino.numBlocks && ino.used == OffsetIn(pos)
  }

  /** Only the first iteration starts inside a block, unless the file has ended. */
  predicate ReadState(ino: Inode, pos: nat, first: bool) {
    Readable(ino, pos) && (first || OffsetIn(pos) == 0 || AtEnd(ino, pos))
  }

  lemma ReadStep(ino: Inode, pos: nat, remaining: ByteCount, first: bool)
    requires ReadState(ino, pos, first) && remaining > 0 && !AtEnd(ino, pos)
    ensures 0 < ReadLen(ino, pos, remaining, first) <= remaining
    ensures OffsetIn(pos) + ReadLen(ino, pos, remaining, first) <= BLOCK_SIZE
    ensures remaining > ReadLen(ino, pos, remaining, first) ==>
      ReadState(ino, pos + ReadLen(ino, pos, remaining, first), false)
  {
    var n := ReadLen(ino, pos, remaining, first);
    QuotRem(pos, BLOCK_SIZE);
    if OffsetIn(pos) + n == BLOCK_SIZE {
      NextBlock(pos, n);
    } else {
      SameBlock(pos, n);
    }
  }

  /** Moving on to the start of the next block, or within a block. */
  lemma NextBlock(pos: nat, n: nat)
    requires OffsetIn(pos) + n == BLOCK_SIZE
    ensures BlockOf(pos + n) == BlockOf(pos) + 1 && OffsetIn(pos + n) == 0
  {
    QuotRem(pos, BLOCK_SIZE);
    assert (BlockOf(pos) + 1) * BLOCK_SIZE == BlockOf(pos) * BLOCK_SIZE + BLOCK_SIZE;
    QuotRemUnique(pos + n, BLOCK_SIZE, BlockOf(pos) + 1, 0);
  }

  lemma SameBlock(pos: nat, n: nat)
    requires OffsetIn(pos) + n < BLOCK_SIZE
    ensures BlockOf(pos + n) == BlockOf(pos) && OffsetIn(pos + n) == OffsetIn(pos) + n
  {
    QuotRem(pos, BLOCK_SIZE);
    QuotRemUnique(pos + n, BLOCK_SIZE, BlockOf(pos), OffsetIn(pos) + n);
  }

  /** The read loop, from byte `pos` on. */
  function PreadLoop(d: Disk, ino: Inode, pos: nat, remaining: ByteCount, first: bool): ReadResult
    requires remaining > 0 ==> ReadState(ino, pos, first)
    decreases remaining
  {
    if remaining == 0 then Read([], false)
    else if AtEnd(ino, pos) then Read([], true)
    else
      ReadStep(ino, pos, remaining, first);
      var n := ReadLen(ino, pos, remaining, first);
      var got := Fetch(d, GetBlockId(d, ino, BlockOf(pos)), OffsetIn(pos), n);
      if got.ReadFailed? then got
      else
        var rest := PreadLoop(d, ino, pos + n, remaining - n, false);
        if rest.ReadFailed? then rest else Read(got.bytes + rest.bytes, rest.eof)
  }

  /** One iteration of the read loop, which returns r. */
  lemma ReadUnfolds(d: Disk, ino: Inode, pos: nat, remaining: ByteCount, first: bool, got: ReadResult, r: ReadResult)
    requires remaining > 0 && ReadState(ino, pos, first) && !AtEnd(ino, pos)
    requires r == PreadLoop(d, ino, pos, remaining, first)
    requires 0 < ReadLen(ino, pos, remaining, first) <= remaining
    requires OffsetIn(pos) + ReadLen(ino, pos, remaining, first) <= BLOCK_SIZE
    requires remaining > ReadLen(ino, pos, remaining, first) ==>
      ReadState(ino, pos + ReadLen(ino, pos, remaining, first), false)
    requires got == Fetch(d, GetBlockId(d, ino, BlockOf(pos)), OffsetIn(pos), ReadLen(ino, pos, remaining, first))
    ensures got.ReadFailed? ==> r == got
    ensures got.Read? ==>
      var rest := PreadLoop(d, ino, pos + ReadLen(ino, pos, remaining, first),
                            remaining - ReadLen(ino, pos, remaining, first), false);
      r == if rest.ReadFailed? then rest else Read(got.bytes + rest.bytes, rest.eof)
  {}

  /** syscalls2__pread between get_inode and put_inode. */
  function Pread(d: Disk, ino: Inode, nbyte: ByteCount, offset: nat): ReadResult
  {
    if offset >= GetSizeOfFile(ino) then Read([], false)
    else
      BelowSize(ino, offset);
      PreadLoop(d, ino, offset, nbyte, true)
  }
}

/** What pread returns. */
module ReadLaws {
  import opened Arithmetic
  import opened Geometry
  import opened Codec
  import opened FreeList
  import opened BlockMap
  import opened Ownership
  import opened Leaves
  import opened FileIO
  import opened WriteLaws

  /** Every mapped block number is on the disk; so in every sound world. */
  ghost predicate OnDisk(d: Disk, ino: Inode) {
    forall j :: 0 <= j < MAX_INDEX ==> GetBlockId(d, ino, j) < NUM_BLOCKS
  }

  lemma SoundOnDisk(w: World, f: nat)
    requires Sound(w) && f in w.files
    ensures OnDisk(w.disk, w.files[f])
  {
    forall j | 0 <= j < MAX_INDEX ensures GetBlockId(w.disk, w.files[f], j) < NUM_BLOCKS {
      if Blk(w, f, j) != 0 {
        LeafFacts(w, f, j);
      }
    }
  }

  /** The last block of the file is not full. */
  predicate Partial(ino: Inode) {
    ino.numBlocks > 0 && ino.used < BLOCK_SIZE
  }

  /** Bytes the loop delivers: only a partly filled last block stops it. */
  function ReadCount(ino: Inode, pos: nat, remaining: nat): nat {
    if !Partial(ino) then remaining
    else if pos >= FileSize(ino) then 0
    else Min(remaining, FileSize(ino) - pos)
  }

  /** The result is the bytes of the file from `pos` on. */
  ghost predicate ReadsBytes(d: Disk, ino: Inode, pos: nat, r: ReadResult, n: nat) {
    && r.Read? && |r.bytes| == n
    && forall k :: 0 <= k < n ==> r.bytes[k] == ByteAt(d, ino, pos + k)
  }

  /** Positions inside a file whose last block is partly filled. */
  lemma InsidePartial(ino: Inode, pos: nat)
    requires WellSized(ino) && Partial(ino) && pos <= FileSize(ino)
    ensures BlockOf(pos) + 1 <= ino.numBlocks
    ensures BlockOf(pos) + 1 == ino.numBlocks ==> FileSize(ino) - pos == ino.used - OffsetIn(pos)
    ensures BlockOf(pos) + 1 < ino.numBlocks ==> pos - OffsetIn(pos) + BLOCK_SIZE <= FileSize(ino)
  {
    var q, nb := BlockOf(pos), ino.numBlocks;
    BlockBounds(pos);
    TimesStep(nb - 1);
    if q >= nb {
      TimesMono(nb, q);
    } else if q + 1 < nb {
      TimesMono(q + 1, nb - 1);
    }
  }

  lemma FetchReads(d: Disk, ino: Inode, pos: nat, n: nat)
    requires OnDisk(d, ino) && OffsetIn(pos) + n <= BLOCK_SIZE
    ensures ReadsBytes(d, ino, pos, Fetch(d, GetBlockId(d, ino, BlockOf(pos)), OffsetIn(pos), n), n)
  {
    var id, r := GetBlockId(d, ino, BlockOf(pos)), Fetch(d, GetBlockId(d, ino, BlockOf(pos)), OffsetIn(pos), n);
    assert id < NUM_BLOCKS;
    forall k | 0 <= k < n ensures r.bytes[k] == ByteAt(d, ino, pos + k) {
      SameBlock(pos, k);
    }
  }

  lemma {:induction false} LoopReads(d: Disk, ino: Inode, pos: nat, remaining: ByteCount, first: bool, r: ReadResult)
    requires WellSized(ino) && OnDisk(d, ino) && (Partial(ino) ==> pos <= FileSize(ino))
    requires remaining > 0 ==> ReadState(ino, pos, first)
    requires r == PreadLoop(d, ino, pos, remaining, first)
    ensures ReadsBytes(d, ino, pos, r, ReadCount(ino, pos, remaining))
    ensures r.eof <==> ReadCount(ino, pos, remaining) < remaining
    decreases remaining
  {
    if remaining == 0 {
    } else if AtEnd(ino, pos) {
      InsidePartial(ino, pos);
    } else {
      var n, got, rest := LoopReadsStep(d, ino, pos, remaining, first, r);
      LoopReads(d, ino, pos + n, remaining - n, false, rest);
      ReadsAppend(d, ino, pos, n, remaining, got, rest);
    }
  }

  /** One iteration of the read loop. */
  lemma LoopReadsStep(d: Disk, ino: Inode, pos: nat, remaining: ByteCount, first: bool, r: ReadResult)
    returns (n: nat, got: ReadResult, rest: ReadResult)
    requires WellSized(ino) && OnDisk(d, ino) && (Partial(ino) ==> pos <= FileSize(ino))
    requires remaining > 0 && ReadState(ino, pos, first) && !AtEnd(ino, pos)
    requires r == PreadLoop(d, ino, pos, remaining, first)
    ensures 0 < n <= remaining && ReadsBytes(d, ino, pos, got, n) && (Partial(ino) ==> pos + n <= FileSize(ino))
    ensures remaining > n ==> ReadState(ino, pos + n, false)
    ensures rest == PreadLoop(d, ino, pos + n, remaining - n, false)
    ensures r == if rest.ReadFailed? then rest else Read(got.bytes + rest.bytes, rest.eof)
  {
    StaysInside(ino, pos, remaining, first);
    n, got, rest := LoopReadsAt(d, ino, pos, remaining, first, r);
    FetchReads(d, ino, pos, n);
  }

  lemma LoopReadsAt(d: Disk, ino: Inode, pos: nat, remaining: ByteCount, first: bool, r: ReadResult)
    returns (n: nat, got: ReadResult, rest: ReadResult)
    requires remaining > 0 && ReadState(ino, pos, first) && !AtEnd(ino, pos)
    requires r == PreadLoop(d, ino, pos, remaining, first)
    ensures n == ReadLen(ino, pos, remaining, first) && 0 < n <= remaining && OffsetIn(pos) + n <= BLOCK_SIZE
    ensures remaining > n ==> ReadState(ino, pos + n, false)
    ensures got == Fetch(d, GetBlockId(d, ino, BlockOf(pos)), OffsetIn(pos), n)
    ensures rest == PreadLoop(d, ino, pos + n, remaining - n, false)
    ensures got.ReadFailed? ==> r == got
    ensures got.Read? ==> r == if rest.ReadFailed? then rest else Read(got.bytes + rest.bytes, rest.eof)
  {
    ReadStep(ino, pos, remaining, first);
    n := ReadLen(ino, pos, remaining, first);
    got := Fetch(d, GetBlockId(d, ino, BlockOf(pos)), OffsetIn(pos), ReadLen(ino, pos, remaining, first));
    ReadUnfolds(d, ino, pos, remaining, first, got, r);
    rest := PreadLoop(d, ino, pos + ReadLen(ino, pos, remaining, first),
                      remaining - ReadLen(ino, pos, remaining, first), false);
  }

  lemma StaysInside(ino: Inode, pos: nat, remaining: ByteCount, first: bool)
    requires WellSized(ino) && (Partial(ino) ==> pos <= FileSize(ino))
    requires remaining > 0 && ReadState(ino, pos, first) && !AtEnd(ino, pos)
    ensures Partial(ino) ==> pos + ReadLen(ino, pos, remaining, first) <= FileSize(ino)
  {
    ReadStep(ino, pos, remaining, first);
    if Partial(ino) {
      InsidePartial(ino, pos);
    }
  }

  lemma ReadsAppend(d: Disk, ino: Inode, pos: nat, n: nat, remaining: nat, a: ReadResult, b: ReadResult)
    requires n <= remaining && (Partial(ino) ==> pos + n <= FileSize(ino))
    requires ReadsBytes(d, ino, pos, a, n) && ReadsBytes(d, ino, pos + n, b, ReadCount(ino, pos + n, remaining - n))
    ensures ReadsBytes(d, ino, pos, Read(a.bytes + b.bytes, b.eof), ReadCount(ino, pos, remaining))
  {
    forall k | n <= k < n + |b.bytes| ensures (a.bytes + b.bytes)[k] == ByteAt(d, ino, pos + k) {
      assert b.bytes[k - n] == ByteAt(d, ino, pos + n + (k - n));
    }
  }

  // ----- the theorem -----------------------------------------------------

  /** `nbyte` bytes of a file from `offset` on, cut short at the end of the file: what
      POSIX asks of pread. */
  function Slice(c: seq<byte>, offset: nat, nbyte: nat): seq<byte> {
    if offset >= |c| then [] else c[offset..Min(offset + nbyte, |c|)]
  }

  function Zeros(n: nat): seq<byte> {
    seq<byte>(n, _ => 0)
  }

  /** The size is a multiple of the block size. */
  predicate WholeBlocks(ino: Inode) {
    OffsetIn(FileSize(ino)) == 0
  }

  lemma WholeOrPartial(ino: Inode)
    requires WellSized(ino)
    ensures WholeBlocks(ino) <==> !Partial(ino)
  {
    if ino.numBlocks > 0 {
      var q := ino.numBlocks - 1;
      if Partial(ino) {
        TimesIsMul(q, BLOCK_SIZE);
        QuotRemUnique(FileSize(ino), BLOCK_SIZE, q, ino.used);
      } else {
        TimesStep(q);
        TimesBlocks(q + 1);
      }
    } else {
      TimesBlocks(0);
    }
  }

  /** The number of bytes pread returns, and that they are the bytes of the file. */
  lemma PreadBytes(d: Disk, ino: Inode, nbyte: ByteCount, offset: nat)
    requires FileInv(d, ino) && OnDisk(d, ino) && offset < GetSizeOfFile(ino)
    ensures ReadsBytes(d, ino, offset, Pread(d, ino, nbyte, offset),
                       if WholeBlocks(ino) then nbyte else Min(nbyte, FileSize(ino) - offset))
  {
    WholeOrPartial(ino);
    BelowSize(ino, offset);
    LoopReads(d, ino, offset, nbyte, true, PreadLoop(d, ino, offset, nbyte, true));
  }

  /** n bytes from `offset` on, filled up with zeros behind the end. */
  function Padded(c: seq<byte>, offset: nat, n: nat): seq<byte>
    requires offset <= |c|
  {
    if offset + n <= |c| then c[offset..offset + n] else c[offset..] + Zeros(offset + n - |c|)
  }

  /** What a read of a file with contents c delivers; the size it looks at is an int. */
  function Delivered(c: seq<byte>, nbyte: nat, offset: nat): seq<byte> {
    if offset >= ToInt(|c|) then []
    else if OffsetIn(|c|) == 0 then Padded(c, offset, nbyte)
    else Slice(c, offset, nbyte)
  }

  lemma BytesAreSlice(d: Disk, ino: Inode, offset: nat, r: ReadResult, n: nat)
    requires FileInv(d, ino) && offset <= FileSize(ino) && ReadsBytes(d, ino, offset, r, n)
    ensures r.bytes == Padded(Content(d, ino), offset, n)
  {
    var s := Padded(Content(d, ino), offset, n);
    forall k | 0 <= k < n ensures r.bytes[k] == s[k] {
      assert r.bytes[k] == ByteAt(d, ino, offset + k);
    }
  }

  /** pread returns the requested slice of the file, except that it returns nothing behind
      the size taken as an int, and that a read that starts inside a file of whole blocks
      and runs past its end is filled up with zeros. */
  lemma PreadReturns(d: Disk, ino: Inode, nbyte: ByteCount, offset: nat)
    requires FileInv(d, ino) && OnDisk(d, ino)
    ensures Pread(d, ino, nbyte, offset).Read?
    ensures Pread(d, ino, nbyte, offset).bytes == Delivered(Content(d, ino), nbyte, offset)
    ensures Pread(d, ino, nbyte, offset).bytes == [] <==> nbyte == 0 || offset >= GetSizeOfFile(ino)
  {
    if offset < GetSizeOfFile(ino) {
      PreadBytes(d, ino, nbyte, offset);
      var n := if WholeBlocks(ino) then nbyte else Min(nbyte, FileSize(ino) - offset);
      BytesAreSlice(d, ino, offset, Pread(d, ino, nbyte, offset), n);
    }
  }

  /** So pread meets POSIX exactly when nothing is asked for, when it starts behind the end,
      or when it starts below the size taken as an int and does not cross the end of a file
      of whole blocks. */
  lemma PreadIsSlice(d: Disk, ino: Inode, nbyte: ByteCount, offset: nat)
    requires FileInv(d, ino) && OnDisk(d, ino)
    ensures var r := Pread(d, ino, nbyte, offset);
      (r.Read? && r.bytes == Slice(Content(d, ino), offset, nbyte))
      <==> (nbyte == 0 || offset >= FileSize(ino)
            || (offset < GetSizeOfFile(ino) && (offset + nbyte <= FileSize(ino) || !WholeBlocks(ino))))
  {
    PreadReturns(d, ino, nbyte, offset);
  }

  /** In terms of the lowest 32 bits of the size: when their sign bit is set, as for sizes
      from 2 to 4 GiB, no byte of the file can be read; otherwise exactly the bytes before
      that position can. */
  lemma PreadBySize(d: Disk, ino: Inode, nbyte: ByteCount, offset: nat)
    requires FileInv(d, ino) && OnDisk(d, ino)
    ensures var r, size := Pread(d, ino, nbyte, offset), FileSize(ino) % 0x1_0000_0000;
      && r.Read?
      && (size >= 0x8000_0000 ==> r.bytes == [])
      && (size < 0x8000_0000 ==>
            && (r.bytes == [] <==> nbyte == 0 || offset >= size)
            && (offset < size ==>
                  r.bytes == if WholeBlocks(ino) then Padded(Content(d, ino), offset, nbyte)
                             else Slice(Content(d, ino), offset, nbyte)))
  {
    PreadReturns(d, ino, nbyte, offset);
    ToIntIs(FileSize(ino));
  }

  /** An inode of one block that is a hole. */
  const ONE_HOLE: Inode := Inode(1, TYPE_ORDINARY, 1, NO_BLOCKS, 0, 0, 0, 1, BLOCK_SIZE, 0)

  /** For instance: reading one byte more than a file of one block has delivers that byte
      too. */
  lemma OverlongRead(d: Disk)
    ensures FileInv(d, ONE_HOLE) && OnDisk(d, ONE_HOLE) && FileSize(ONE_HOLE) == BLOCK_SIZE
    ensures var r, c := Pread(d, ONE_HOLE, BLOCK_SIZE + 1, 0), Content(d, ONE_HOLE);
      r.Read? && r.bytes == c + [0] && r.bytes != Slice(c, 0, BLOCK_SIZE + 1)
  {
    forall j: nat ensures GetBlockId(d, ONE_HOLE, j) == 0 {}
    assert Mapped(d, ONE_HOLE) == {};
    TimesBlocks(1);
    PreadReturns(d, ONE_HOLE, BLOCK_SIZE + 1, 0);
  }

  /** What was written is read back, exactly when it starts below the size taken as an int. */
  lemma WriteThenRead(v: Vol, w: World, f: nat, offset: nat, data: Buffer)
    requires v.disk == w.disk && Sound(w) && f in w.files && FileInv(w.disk, w.files[f])
    requires offset + |data| < ID_LIMIT - 1
    requires Pwrite(v, w.files[f], offset, data).status == Done
    ensures var s := Pwrite(v, w.files[f], offset, data);
      && Pread(s.vol.disk, s.ino, |data|, offset).Read?
      && (Pread(s.vol.disk, s.ino, |data|, offset).bytes == data
          <==> data == [] || offset < ToInt(Max(FileSize(w.files[f]), offset + |data|)))
  {
    var s := Pwrite(v, w.files[f], offset, data);
    var w' := PwriteRefines(v, w, f, offset, data);
    SoundOnDisk(w', f);
    ReadBack(s.vol.disk, s.ino, Content(w.disk, w.files[f]), offset, data);
  }

  lemma ReadBack(d: Disk, ino: Inode, c: seq<byte>, offset: nat, data: Buffer)
    requires FileInv(d, ino) && OnDisk(d, ino)
    requires Content(d, ino) == Overlay(c, offset, data)
    ensures Pread(d, ino, |data|, offset).Read?
    ensures Pread(d, ino, |data|, offset).bytes == data <==> data == [] || offset < ToInt(Max(|c|, offset + |data|))
  {
    PreadReturns(d, ino, |data|, offset);
    var o := Overlay(c, offset, data);
    forall k | 0 <= k < |data| ensures o[offset..offset + |data|][k] == data[k] {
      assert o[offset + k] == data[k];
    }
  }
}

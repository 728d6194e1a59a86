/** A successful write refines overlaying bytes on a byte sequence, and keeps the
    invariants of the file and of all other files. */
module WriteLaws {
  import opened Arithmetic
  import opened Geometry
  import opened Codec
  import opened FreeList
  import opened FreeRuns
  import opened BlockMap
  import opened Ownership
  import opened Leaves
  import opened FileIO

  // ----- what a file promises --------------------------------------------

  function Byte(w: World, f: nat, p: nat): byte
    requires f in w.files
  {
    ByteAt(w.disk, w.files[f], p)
  }

  /** Indices of a file that have a block. */
  function Mapped(d: Disk, ino: Inode): set<int> {
    set j | 0 <= j < MAX_INDEX && GetBlockId(d, ino, j) != 0
  }

  ghost predicate NothingBeyond(d: Disk, ino: Inode) {
    forall j :: ino.numBlocks <= j < MAX_INDEX ==> GetBlockId(d, ino, j) == 0
  }

  /** The fill of the last block is at least one byte, unless there is no block. */
  predicate WellSized(ino: Inode) {
    ino.numBlocks == 0 || 1 <= ino.used <= BLOCK_SIZE
  }

  /** An ordinary file: no block beyond num_blocks, zeros beyond the end, and
      num_allocated_blocks counts the mapped indices. */
  ghost predicate FileInv(d: Disk, ino: Inode) {
    && WellSized(ino)
    && NothingBeyond(d, ino)
    && (forall p :: p >= FileSize(ino) ==> ByteAt(d, ino, p) == 0)
    && ino.numAllocated == |Mapped(d, ino)|
  }

  /** Every other file, with its data blocks, and all inode blocks are as before. */
  ghost predicate Spared(w: World, w': World, f: nat) {
    && f in w.files && f in w'.files && w'.files == w.files[f := w'.files[f]]
    && (forall g, j :: g in w.files && 0 <= j < MAX_INDEX && g != f ==> SameLeaf(w, w', g, j))
    && (forall x :: 1 <= x < HEAD ==> w'.disk[x] == w.disk[x])
  }

  lemma SparedTrans(a: World, b: World, c: World, f: nat)
    requires Spared(a, b, f) && Spared(b, c, f)
    ensures Spared(a, c, f)
  {
    forall g, j | g in a.files && 0 <= j < MAX_INDEX && g != f ensures SameLeaf(a, c, g, j) {
      assert SameLeaf(a, b, g, j) && SameLeaf(b, c, g, j);
    }
  }

  /** Everything that does not belong to file f is as before. */
  ghost predicate ForeignKept(w: World, w': World, f: nat) {
    Spared(w, w', f) && w'.lost == w.lost
  }

  lemma ForeignKeptTrans(a: World, b: World, c: World, f: nat)
    requires ForeignKept(a, b, f) && ForeignKept(b, c, f)
    ensures ForeignKept(a, c, f)
  {
    SparedTrans(a, b, c, f);
  }

  // ----- one iteration ---------------------------------------------------

  /** What one iteration does to file f: the block at `index` is mapped from now on. */
  ghost predicate MapsIndex(w: World, w': World, f: nat, index: nat) {
    && OthersKept(w, w', f, index) && index < MAX_INDEX
    && Sound(w')
    && (forall extra :: Covered(w, extra) ==> Covered(w', extra))
    && 0 < Blk(w', f, index) < NUM_BLOCKS
    && var a, b := w.files[f], w'.files[f];
      && b.id == a.id && b.kind == a.kind && b.links == a.links
      && if Blk(w, f, index) != 0 then
           Blk(w', f, index) == Blk(w, f, index) && b == a
         else
           && b.numAllocated == Increment(a.numAllocated)
           && if a.numBlocks < index + 1 then b.numBlocks == index + 1 && b.used == 0
              else b.numBlocks == a.numBlocks && b.used == a.used
  }

  /** The contents a write at `index` starts from; a new block is cleared. */
  function OldBlock(w: World, f: nat, index: nat): Block
    requires f in w.files
  {
    if Blk(w, f, index) == 0 || Blk(w, f, index) >= NUM_BLOCKS then ZERO else w.disk[Blk(w, f, index)]
  }

  lemma ChunkMaps(v: Vol, w: World, f: nat, pos: nat, chunk: seq<byte>) returns (w': World)
    requires v.disk == w.disk && Sound(w) && f in w.files
    requires OffsetIn(pos) + |chunk| <= BLOCK_SIZE
    requires WriteChunk(v, w.files[f], pos, chunk).status == Done
    ensures var s := WriteChunk(v, w.files[f], pos, chunk);
      && w'.disk == s.vol.disk && w'.files == w.files[f := s.ino] && Tallied(v, w.free, s.vol, w'.free, 4)
      && MapsIndex(w, w', f, BlockOf(pos)) && Persists(w, w')
      && w'.disk[Blk(w', f, BlockOf(pos))] == Patch(OldBlock(w, f, BlockOf(pos)), OffsetIn(pos), chunk)
  {
    if Blk(w, f, BlockOf(pos)) != 0 {
      w' := ChunkOverwrites(v, w, f, pos, chunk);
    } else {
      w' := ChunkMapsHole(v, w, f, pos, chunk);
    }
  }

  lemma ChunkOverwrites(v: Vol, w: World, f: nat, pos: nat, chunk: seq<byte>) returns (w': World)
    requires v.disk == w.disk && Sound(w) && f in w.files && Blk(w, f, BlockOf(pos)) != 0
    requires OffsetIn(pos) + |chunk| <= BLOCK_SIZE
    ensures var s := WriteChunk(v, w.files[f], pos, chunk);
      && w'.disk == s.vol.disk && w'.files == w.files[f := s.ino] && Tallied(v, w.free, s.vol, w'.free, 4)
      && MapsIndex(w, w', f, BlockOf(pos)) && Persists(w, w')
      && w'.disk[Blk(w', f, BlockOf(pos))] == Patch(OldBlock(w, f, BlockOf(pos)), OffsetIn(pos), chunk)
  {
    var index := BlockOf(pos);
    assert index < MAX_INDEX;
    LeafFacts(w, f, index);
    var b := Patch(w.disk[Blk(w, f, index)], OffsetIn(pos), chunk);
    w' := WriteLeaf(w, f, index, b);
    TalliedWrite(v, w.free, v, w.free, 4, Blk(w, f, index), b);
    assert w.files[f := w.files[f]] == w.files;
  }

  lemma ChunkMapsHole(v: Vol, w: World, f: nat, pos: nat, chunk: seq<byte>) returns (w': World)
    requires v.disk == w.disk && Sound(w) && f in w.files && Blk(w, f, BlockOf(pos)) == 0
    requires OffsetIn(pos) + |chunk| <= BLOCK_SIZE
    requires WriteChunk(v, w.files[f], pos, chunk).status == Done
    ensures var s := WriteChunk(v, w.files[f], pos, chunk);
      && w'.disk == s.vol.disk && w'.files == w.files[f := s.ino] && Tallied(v, w.free, s.vol, w'.free, 4)
      && MapsIndex(w, w', f, BlockOf(pos)) && Persists(w, w')
      && w'.disk[Blk(w', f, BlockOf(pos))] == Patch(ZERO, OffsetIn(pos), chunk)
  {
    var ino, index := w.files[f], BlockOf(pos);
    var s := WriteChunk(v, ino, pos, chunk);
    var a := Alloc(v);
    var w1 := MapFreshBlock(v, w, f, index);
    var w2 := w1.(files := w1.files[f := s.ino]);
    Relabel(w1, w2, f, index);
    OthersKeptTrans(w, w1, w2, f, index);
    w' := WriteLeaf(w2, f, index, Patch(ZERO, OffsetIn(pos), chunk));
    PersistsTrans(w, w1, w2);
    PersistsTrans(w, w2, w');
    TalliedWrite(v, w.free, SetBlockId(a.vol, ino, index, a.id).vol, w1.free, 4, a.id,
                 Patch(ZERO, OffsetIn(pos), chunk));
    OthersKeptTrans(w, w2, w', f, index);
  }

  /** Changing an inode's attributes changes no cell. */
  lemma Relabel(w: World, w': World, f: nat, index: nat)
    requires Sound(w) && f in w.files && f in w'.files
    requires w' == w.(files := w.files[f := w'.files[f]])
    requires forall r :: 0 <= r < NUM_DIRECT + 3 ==> RootWord(w'.files[f], r) == RootWord(w.files[f], r)
    ensures Sound(w') && forall extra :: Covered(w, extra) ==> Covered(w', extra)
    ensures OthersKept(w, w', f, index) && (index < MAX_INDEX ==> Blk(w', f, index) == Blk(w, f, index))
    ensures Persists(w, w')
  {
    KeepsIndexKeepsCells(w, w');
    SameOwners(w, w');
    forall g, j | g in w.files && 0 <= j < MAX_INDEX ensures SameLeaf(w, w', g, j) {
      BlkIsCell(w, g, j);
      BlkIsCell(w', g, j);
    }
    if index < MAX_INDEX {
      assert SameLeaf(w, w', f, index);
    }
  }

  // ----- bytes -----------------------------------------------------------

  /** The bytes of a file with `data` laid over them from position `at` on. */
  function OverlayAt(was: byte, at: nat, data: seq<byte>, p: nat): byte {
    if at <= p < at + |data| then data[p - at] else was
  }

  /** File f of w' holds the bytes it held in w, with `data` laid over them. */
  ghost predicate Overlaid(w: World, w': World, f: nat, at: nat, data: seq<byte>)
    requires f in w.files && f in w'.files
  {
    forall p :: p >= 0 ==> Byte(w', f, p) == OverlayAt(Byte(w, f, p), at, data, p)
  }

  lemma ChunkBytes(w: World, w': World, f: nat, pos: nat, chunk: seq<byte>)
    requires f in w.files && MapsIndex(w, w', f, BlockOf(pos)) && OffsetIn(pos) + |chunk| <= BLOCK_SIZE
    requires w'.disk[Blk(w', f, BlockOf(pos))] == Patch(OldBlock(w, f, BlockOf(pos)), OffsetIn(pos), chunk)
    ensures Overlaid(w, w', f, pos, chunk)
  {
    forall p | p >= 0 ensures Byte(w', f, p) == OverlayAt(Byte(w, f, p), pos, chunk, p) {
      ChunkByte(w, w', f, pos, chunk, p);
    }
  }

  lemma ChunkByte(w: World, w': World, f: nat, pos: nat, chunk: seq<byte>, p: nat)
    requires f in w.files && MapsIndex(w, w', f, BlockOf(pos)) && OffsetIn(pos) + |chunk| <= BLOCK_SIZE
    requires w'.disk[Blk(w', f, BlockOf(pos))] == Patch(OldBlock(w, f, BlockOf(pos)), OffsetIn(pos), chunk)
    ensures Byte(w', f, p) == OverlayAt(Byte(w, f, p), pos, chunk, p)
  {
    SameBlockIff(pos, |chunk|, p);
    if BlockOf(p) != BlockOf(pos) && BlockOf(p) < MAX_INDEX {
      assert SameLeaf(w, w', f, BlockOf(p));
    }
  }

  /** The positions a chunk covers, in terms of block and offset. */
  lemma SameBlockIff(pos: nat, n: nat, p: nat)
    requires OffsetIn(pos) + n <= BLOCK_SIZE
    ensures pos <= p < pos + n <==> BlockOf(p) == BlockOf(pos) && OffsetIn(pos) <= OffsetIn(p) < OffsetIn(pos) + n
    ensures BlockOf(p) == BlockOf(pos) ==> p - pos == OffsetIn(p) - OffsetIn(pos)
  {
    QuotRem(pos, BLOCK_SIZE);
    QuotRem(p, BLOCK_SIZE);
    if pos <= p < pos + n {
      QuotRemUnique(p, BLOCK_SIZE, BlockOf(pos), OffsetIn(pos) + p - pos);
    }
  }

  // ----- writes that may end anywhere ------------------------------------

  /** What a write does to the blocks, however it ends: every other file and the inode
      blocks are as before, no block gets a second owner, and none is left without one
      (blocks may be lost). */
  ghost predicate Contained(w: World, w': World, f: nat) {
    && Spared(w, w', f) && Sound(w') && Persists(w, w') && w.lost <= w'.lost
    && (forall extra :: Covered(w, extra) ==> Covered(w', extra))
    && w'.files[f].id == w.files[f].id && w'.files[f].kind == w.files[f].kind && w'.files[f].links == w.files[f].links
  }

  lemma ContainedTrans(a: World, b: World, c: World, f: nat)
    requires Contained(a, b, f) && Contained(b, c, f)
    ensures Contained(a, c, f)
  {
    SparedTrans(a, b, c, f);
    PersistsTrans(a, b, c);
    forall extra | Covered(a, extra) ensures Covered(c, extra) {
      assert Covered(b, extra);
    }
  }

  /** The blocks with indices lo..hi-1 of file f are mapped now; which other blocks are
      mapped, and where, is as before. */
  ghost predicate MapsBlocks(w: World, w': World, f: nat, lo: nat, hi: nat)
    requires f in w.files && f in w'.files
  {
    forall j :: 0 <= j < MAX_INDEX ==>
      && (Blk(w', f, j) != 0 <==> Blk(w, f, j) != 0 || lo <= j < hi)
      && (Blk(w, f, j) != 0 ==> Blk(w', f, j) == Blk(w, f, j))
  }

  /** The index behind the last block that n bytes from `pos` on touch. */
  function EndBlock(pos: nat, n: nat): nat {
    if n == 0 then BlockOf(pos) else BlockOf(pos + n - 1) + 1
  }

  lemma ChunkMapsOne(w: World, w': World, f: nat, pos: nat)
    requires f in w.files && MapsIndex(w, w', f, BlockOf(pos))
    ensures MapsBlocks(w, w', f, BlockOf(pos), BlockOf(pos) + 1)
  {
    forall j | 0 <= j < MAX_INDEX
      ensures Blk(w', f, j) != 0 <==> Blk(w, f, j) != 0 || j == BlockOf(pos)
      ensures Blk(w, f, j) != 0 ==> Blk(w', f, j) == Blk(w, f, j)
    {
      if j != BlockOf(pos) {
        assert SameLeaf(w, w', f, j);
      }
    }
  }

  lemma MapsNone(w: World, w': World, f: nat, lo: nat)
    requires f in w.files && f in w'.files && forall j :: 0 <= j < MAX_INDEX ==> SameLeaf(w, w', f, j)
    ensures MapsBlocks(w, w', f, lo, lo)
  {
    forall j | 0 <= j < MAX_INDEX ensures Blk(w', f, j) == Blk(w, f, j) {
      assert SameLeaf(w, w', f, j);
    }
  }

  /** When no block of the file changed, no byte did. */
  lemma NothingLaid(w: World, w': World, f: nat, at: nat)
    requires f in w.files && f in w'.files && forall j :: 0 <= j < MAX_INDEX ==> SameLeaf(w, w', f, j)
    ensures Overlaid(w, w', f, at, [])
  {
    forall p | p >= 0 ensures Byte(w', f, p) == Byte(w, f, p) {
      if BlockOf(p) < MAX_INDEX {
        assert SameLeaf(w, w', f, BlockOf(p));
      }
    }
  }

  lemma ContainedSelf(w: World, f: nat)
    requires Sound(w) && f in w.files
    ensures Contained(w, w, f)
  {}

  /** How one iteration may end: it succeeds, taking at most four blocks, only at an index
      that exists; it fails only at another index or when the free list runs out. */
  lemma ChunkEnds(v: Vol, w: World, f: nat, pos: nat, chunk: seq<byte>) returns (w': World)
    requires v.disk == w.disk && Sound(w) && f in w.files
    requires OffsetIn(pos) + |chunk| <= BLOCK_SIZE
    ensures var s := WriteChunk(v, w.files[f], pos, chunk);
      && w'.disk == s.vol.disk && w'.files == w.files[f := s.ino] && Contained(w, w', f)
      && Tallied(v, w.free, s.vol, w'.free, if s.status == Done then 4 else 3)
      && s.status != TooBig
      && (if s.status == Done then BlockOf(pos) < MAX_INDEX && w'.lost == w.lost
          else w'.free == Empty || BlockOf(pos) >= MAX_INDEX)
    ensures Overlaid(w, w', f, pos, if WriteChunk(v, w.files[f], pos, chunk).status == Done then chunk else [])
    ensures WriteChunk(v, w.files[f], pos, chunk).status != Done ==> Blk(w, f, BlockOf(pos)) == 0
    ensures MapsBlocks(w, w', f, BlockOf(pos),
                       BlockOf(pos) + if WriteChunk(v, w.files[f], pos, chunk).status == Done then 1 else 0)
  {
    var ino, index := w.files[f], BlockOf(pos);
    var s := WriteChunk(v, ino, pos, chunk);
    if Blk(w, f, index) != 0 {
      LeafFacts(w, f, index);
    }
    if s.status == Done {
      w' := ChunkMaps(v, w, f, pos, chunk);
      OthersAreSpared(w, w', f, index);
      ChunkBytes(w, w', f, pos, chunk);
      ChunkMapsOne(w, w', f, pos);
    } else {
      AllocPops(v, w.free);
      if w.free.Empty? {
        w' := w;
        ContainedSelf(w, f);
        assert w.files[f := ino] == w.files;
      } else {
        w' := MapFails(v, w, f, index);
      }
      NothingLaid(w, w', f, pos);
      MapsNone(w, w', f, index);
    }
  }

  lemma OthersAreSpared(w: World, w': World, f: nat, index: nat)
    requires OthersKept(w, w', f, index)
    ensures ForeignKept(w, w', f)
  {}

  // ----- the count of mapped blocks --------------------------------------

  lemma MappedBound(d: Disk, ino: Inode)
    ensures |Mapped(d, ino)| <= MAX_INDEX
  {
    RangeCard(MAX_INDEX);
    SubsetCard(Mapped(d, ino), Range(MAX_INDEX));
  }

  lemma MappedIff(w: World, f: nat, j: nat)
    requires f in w.files && j < MAX_INDEX
    ensures j in Mapped(w.disk, w.files[f]) <==> Blk(w, f, j) != 0
  {}

  lemma ChunkCounts(w: World, w': World, f: nat, index: nat)
    requires f in w.files && MapsIndex(w, w', f, index)
    requires w.files[f].numAllocated == |Mapped(w.disk, w.files[f])|
    ensures w'.files[f].numAllocated == |Mapped(w'.disk, w'.files[f])|
  {
    var m, m' := Mapped(w.disk, w.files[f]), Mapped(w'.disk, w'.files[f]);
    MappedBound(w.disk, w.files[f]);
    MaxIndexFits();
    forall j | 0 <= j < MAX_INDEX ensures j in m' <==> j == index || j in m {
      MappedIff(w, f, j);
      MappedIff(w', f, j);
      if j != index {
        assert SameLeaf(w, w', f, j);
      }
    }
    assert m' == m + {index};
  }

  // ----- the size fields while the loop runs -----------------------------

  /** Either the size fields are final, or the loop has just mapped the last block and
      will set the fill when it ends; `more` says that bytes are left to write. */
  predicate SizePending(ino: Inode, pos: nat, more: bool) {
    && ino.used == 0 && ino.numBlocks > 0
    && Times(ino.numBlocks - 1, BLOCK_SIZE) < pos <= Times(ino.numBlocks, BLOCK_SIZE)
    && (more ==> pos == Times(ino.numBlocks, BLOCK_SIZE))
  }

  predicate SizeState(ino: Inode, pos: nat, more: bool) {
    WellSized(ino) || SizePending(ino, pos, more)
  }

  lemma BlockBounds(pos: nat)
    ensures pos == Times(BlockOf(pos), BLOCK_SIZE) + OffsetIn(pos)
    ensures Times(BlockOf(pos) + 1, BLOCK_SIZE) == Times(BlockOf(pos), BLOCK_SIZE) + BLOCK_SIZE
  {
    QuotRem(pos, BLOCK_SIZE);
    TimesIsMul(BlockOf(pos), BLOCK_SIZE);
  }

  lemma TimesBlocks(q: nat)
    ensures BlockOf(Times(q, BLOCK_SIZE)) == q && OffsetIn(Times(q, BLOCK_SIZE)) == 0
  {
    TimesIsMul(q, BLOCK_SIZE);
    QuotRemUnique(Times(q, BLOCK_SIZE), BLOCK_SIZE, q, 0);
  }

  lemma ChunkSizes(w: World, w': World, f: nat, pos: nat, n: nat, remaining: ByteCount)
    requires f in w.files && MapsIndex(w, w', f, BlockOf(pos)) && remaining > 0 && n == ChunkLen(pos, remaining)
    requires NothingBeyond(w.disk, w.files[f]) && SizeState(w.files[f], pos, true)
    ensures NothingBeyond(w'.disk, w'.files[f])
    ensures SizeState(w'.files[f], pos + n, remaining > n)
    ensures Extends(w.files[f], w'.files[f])
  {
    var a, b, index := w.files[f], w'.files[f], BlockOf(pos);
    forall j | b.numBlocks <= j < MAX_INDEX ensures GetBlockId(w'.disk, b, j) == 0 {
      assert Blk(w', f, j) == GetBlockId(w'.disk, b, j);
      if j != index {
        assert SameLeaf(w, w', f, j);
      }
      assert Blk(w, f, index) != 0 ==> index < a.numBlocks;
    }
    BlockBounds(pos);
    if SizePending(a, pos, true) && !WellSized(a) {
      TimesBlocks(a.numBlocks);
    }
  }

  /** The number of blocks stays, with the fill, or grows. */
  predicate Extends(a: Inode, b: Inode) {
    (b.numBlocks == a.numBlocks && b.used == a.used) || (b.numBlocks > a.numBlocks && b.used == 0)
  }

  // ----- the loop --------------------------------------------------------

  /** What a run of the loop keeps. */
  ghost predicate LoopKeeps(w: World, w': World, f: nat) {
    && ForeignKept(w, w', f) && Sound(w')
    && (forall extra :: Covered(w, extra) ==> Covered(w', extra))
    && NothingBeyond(w'.disk, w'.files[f])
    && var a, b := w.files[f], w'.files[f];
      && b.id == a.id && b.kind == a.kind && b.links == a.links
      && Extends(a, b)
      && (a.numAllocated == |Mapped(w.disk, a)| ==> b.numAllocated == |Mapped(w'.disk, b)|)
  }

  lemma LoopKeepsTrans(a: World, b: World, c: World, f: nat)
    requires LoopKeeps(a, b, f) && LoopKeeps(b, c, f)
    ensures LoopKeeps(a, c, f)
  {
    ForeignKeptTrans(a, b, c, f);
    forall extra | Covered(a, extra) ensures Covered(c, extra) {
      assert Covered(b, extra);
    }
  }

  lemma ChunkKeeps(w: World, w': World, f: nat, pos: nat, n: nat, remaining: ByteCount)
    requires f in w.files && MapsIndex(w, w', f, BlockOf(pos)) && remaining > 0 && n == ChunkLen(pos, remaining)
    requires NothingBeyond(w.disk, w.files[f]) && SizeState(w.files[f], pos, true)
    ensures LoopKeeps(w, w', f) && SizeState(w'.files[f], pos + n, remaining > n)
  {
    ChunkSizes(w, w', f, pos, n, remaining);
    if w.files[f].numAllocated == |Mapped(w.disk, w.files[f])| {
      ChunkCounts(w, w', f, BlockOf(pos));
    }
  }

  lemma ChunkRefines(v: Vol, w: World, f: nat, pos: nat, data: Buffer, s: WriteState) returns (w': World)
    requires v.disk == w.disk && Sound(w) && f in w.files && data != []
    requires NothingBeyond(w.disk, w.files[f]) && SizeState(w.files[f], pos, true)
    requires s == WriteChunk(v, w.files[f], pos, data[..ChunkLen(pos, |data|)]) && s.status == Done
    ensures w'.disk == s.vol.disk && w'.files == w.files[f := s.ino] && LoopKeeps(w, w', f)
    ensures var n := ChunkLen(pos, |data|);
      SizeState(w'.files[f], pos + n, data[n..] != []) && Overlaid(w, w', f, pos, data[..n])
  {
    var n := ChunkLen(pos, |data|);
    w' := ChunkMaps(v, w, f, pos, data[..n]);
    ChunkBytes(w, w', f, pos, data[..n]);
    ChunkKeeps(w, w', f, pos, n, |data|);
  }

  /** The write loop, which ends in state `s`, overlays the data on the bytes of the file. */
  lemma {:induction false} LoopRefines(v: Vol, w: World, f: nat, pos: nat, data: Buffer, s: WriteState)
    returns (w': World)
    requires v.disk == w.disk && Sound(w) && f in w.files
    requires NothingBeyond(w.disk, w.files[f]) && SizeState(w.files[f], pos, data != [])
    requires s == PwriteLoop(v, w.files[f], pos, data) && s.status == Done
    ensures w'.disk == s.vol.disk && w'.files == w.files[f := s.ino]
    ensures LoopKeeps(w, w', f) && SizeState(w'.files[f], pos + |data|, false)
    ensures Overlaid(w, w', f, pos, data)
    decreases |data|
  {
    hide WriteChunk;
    if data == [] {
      w' := w;
      LoopSelf(w, f, pos);
    } else {
      var n, rest, s1, w1 := LoopStep(v, w, f, pos, data, s);
      w' := LoopRefines(s1.vol, w1, f, pos + n, rest, s);
      LoopCompose(w, w1, w', f, pos, data, n, s1.ino, s.ino);
    }
  }

  /** The first chunk, and the state behind it. */
  lemma LoopStep(v: Vol, w: World, f: nat, pos: nat, data: Buffer, s: WriteState)
    returns (n: nat, rest: Buffer, s1: WriteState, w1: World)
    requires v.disk == w.disk && Sound(w) && f in w.files && data != []
    requires NothingBeyond(w.disk, w.files[f]) && SizeState(w.files[f], pos, true)
    requires s == PwriteLoop(v, w.files[f], pos, data) && s.status == Done
    ensures w1.disk == s1.vol.disk && w1.files == w.files[f := s1.ino] && f in w1.files
    ensures n <= |data| && rest == data[n..] && |rest| < |data| && s == PwriteLoop(s1.vol, w1.files[f], pos + n, rest)
    ensures LoopKeeps(w, w1, f) && Sound(w1) && NothingBeyond(w1.disk, w1.files[f])
    ensures SizeState(w1.files[f], pos + n, rest != []) && Overlaid(w, w1, f, pos, data[..n])
  {
    hide WriteChunk;
    s1, rest := LoopStepAt(v, w.files[f], pos, data, s);
    n := ChunkLen(pos, |data|);
    w1 := ChunkRefines(v, w, f, pos, data, s1);
  }

  lemma LoopStepAt(v: Vol, ino: Inode, pos: nat, data: Buffer, s: WriteState) returns (s1: WriteState, rest: Buffer)
    requires data != [] && s == PwriteLoop(v, ino, pos, data) && s.status == Done
    ensures s1 == WriteChunk(v, ino, pos, data[..ChunkLen(pos, |data|)]) && s1.status == Done
    ensures rest == data[ChunkLen(pos, |data|)..] && s == PwriteLoop(s1.vol, s1.ino, pos + ChunkLen(pos, |data|), rest)
  {
    s1, rest := WriteChunk(v, ino, pos, data[..ChunkLen(pos, |data|)]), data[ChunkLen(pos, |data|)..];
    WriteUnfolds(v, ino, pos, data, s1, s);
  }

  lemma LoopSelf(w: World, f: nat, pos: nat)
    requires Sound(w) && f in w.files && NothingBeyond(w.disk, w.files[f])
    ensures LoopKeeps(w, w, f) && Overlaid(w, w, f, pos, []) && w.files == w.files[f := w.files[f]]
  {}

  lemma LoopCompose(w: World, w1: World, w': World, f: nat, pos: nat, data: seq<byte>, n: nat, ino1: Inode, ino: Inode)
    requires LoopKeeps(w, w1, f) && LoopKeeps(w1, w', f) && n <= |data|
    requires w1.files == w.files[f := ino1] && w'.files == w1.files[f := ino]
    requires Overlaid(w, w1, f, pos, data[..n]) && Overlaid(w1, w', f, pos + n, data[n..])
    ensures LoopKeeps(w, w', f) && Overlaid(w, w', f, pos, data) && w'.files == w.files[f := ino]
  {
    LoopKeepsTrans(w, w1, w', f);
    OverlayTwice(w, w1, w', f, pos, data, n);
  }

  lemma OverlayTwice(w: World, w1: World, w': World, f: nat, pos: nat, data: seq<byte>, n: nat)
    requires f in w.files && f in w1.files && f in w'.files && n <= |data|
    requires Overlaid(w, w1, f, pos, data[..n])
    requires Overlaid(w1, w', f, pos + n, data[n..])
    ensures Overlaid(w, w', f, pos, data)
  {
    forall p: nat ensures OverlayAt(OverlayAt(Byte(w, f, p), pos, data[..n], p), pos + n, data[n..], p)
                       == OverlayAt(Byte(w, f, p), pos, data, p) {
    }
  }

  // ----- how the loop may end --------------------------------------------

  /** Most blocks the loop takes from the free list. */
  function MostTaken(pos: nat, n: ByteCount, status: Status): nat {
    if status == Done || n == 0 then 4 * Chunks(pos, n) else 4 * Chunks(pos, n) - 1
  }

  /** The first chunk, however it ends, and what is left to do. */
  lemma FirstChunk(v: Vol, w: World, f: nat, pos: nat, data: Buffer, s: WriteState)
    returns (n: nat, rest: Buffer, s1: WriteState, w1: World)
    requires v.disk == w.disk && Sound(w) && f in w.files && data != []
    requires s == PwriteLoop(v, w.files[f], pos, data)
    ensures n == ChunkLen(pos, |data|) && rest == data[n..] && |rest| == |data| - n < |data|
    ensures w1.disk == s1.vol.disk && w1.files == w.files[f := s1.ino] && f in w1.files
    ensures Sound(w1) && Contained(w, w1, f)
    ensures Tallied(v, w.free, s1.vol, w1.free, if s1.status == Done then 4 else 3)
    ensures s1.status == Done ==>
      BlockOf(pos) < MAX_INDEX && w1.lost == w.lost && s == PwriteLoop(s1.vol, w1.files[f], pos + n, rest)
    ensures s1.status != TooBig && (s1.status != Done ==> s == s1)
    ensures s1.status != Done ==> (w1.free == Empty || BlockOf(pos) >= MAX_INDEX)
    ensures Overlaid(w, w1, f, pos, if s1.status == Done then data[..n] else [])
    ensures s1.status != Done ==> Blk(w, f, BlockOf(pos)) == 0
    ensures MapsBlocks(w, w1, f, BlockOf(pos), BlockOf(pos) + if s1.status == Done then 1 else 0)
  {
    hide WriteChunk, MapsBlocks, Overlaid;
    s1, rest := WriteChunk(v, w.files[f], pos, data[..ChunkLen(pos, |data|)]), data[ChunkLen(pos, |data|)..];
    n := ChunkLen(pos, |data|);
    WriteUnfolds(v, w.files[f], pos, data, s1, s);
    w1 := ChunkEnds(v, w, f, pos, data[..ChunkLen(pos, |data|)]);
  }

  lemma BlockOfMono(a: nat, b: nat)
    requires a <= b
    ensures BlockOf(a) <= BlockOf(b)
  {
    QuotLess(a, BlockOf(a), BLOCK_SIZE);
    QuotLess(b, BlockOf(a), BLOCK_SIZE);
  }

  /** The block of the last byte of a chunk, and of all bytes. */
  lemma LastBlock(pos: nat, len: ByteCount, n: nat)
    requires len > 0 && n == ChunkLen(pos, len)
    ensures BlockOf(pos) <= BlockOf(pos + len - 1)
    ensures n == len ==> BlockOf(pos + len - 1) == BlockOf(pos)
    ensures n < len ==> BlockOf(pos + n) == BlockOf(pos) + 1
  {
    BlockOfMono(pos, pos + len - 1);
    if n == len {
      SameBlock(pos, n - 1);
    } else {
      NextBlock(pos, n);
    }
  }

  /** The loop goes round once for each block it touches. */
  lemma {:induction false} ChunksAreBlocks(pos: nat, len: ByteCount)
    requires len > 0
    ensures Chunks(pos, len) == BlockOf(pos + len - 1) - BlockOf(pos) + 1
    decreases len
  {
    var n := ChunkLen(pos, len);
    LastBlock(pos, len, n);
    if n < len {
      ChunksAreBlocks(pos + n, len - n);
    }
  }

  lemma NothingWritten(v: Vol, w: World, f: nat, pos: nat, s: WriteState)
    requires v.disk == w.disk && Sound(w) && f in w.files && s == PwriteLoop(v, w.files[f], pos, [])
    ensures s == WriteState(Done, v, w.files[f]) && w.files[f := w.files[f]] == w.files
    ensures Contained(w, w, f) && Tallied(v, w.free, v, w.free, MostTaken(pos, 0, Done)) && Overlaid(w, w, f, pos, [])
    ensures MapsBlocks(w, w, f, BlockOf(pos), BlockOf(pos))
  {}

  /** Where a write stops: behind its first `done` bytes, at the start of a block that was a
      hole, because no inode can map it or the free list, `free` at the end, has run out. */
  ghost predicate StopsAt(w: World, f: nat, pos: nat, data: seq<byte>, done: nat, free: Stack)
    requires f in w.files
  {
    && done < |data| && (done > 0 ==> OffsetIn(pos + done) == 0)
    && Blk(w, f, BlockOf(pos + done)) == 0
    && (free == Empty || BlockOf(pos + done) >= MAX_INDEX)
  }

  lemma StopsFirst(w: World, f: nat, pos: nat, data: seq<byte>, free: Stack)
    requires f in w.files && data != [] && Blk(w, f, BlockOf(pos)) == 0
    requires free == Empty || BlockOf(pos) >= MAX_INDEX
    ensures StopsAt(w, f, pos, data, 0, free)
  {}

  /** However the write loop ends, the blocks keep their owners and the counters their
      meaning.  It succeeds only when the last index exists, and otherwise fails; with
      that index it fails only when the free list runs out.  It has written all bytes, or
      those before the first block that could not be had. */
  lemma {:induction false} LoopEnds(v: Vol, w: World, f: nat, pos: nat, data: Buffer, s: WriteState)
    returns (w': World, done: nat)
    requires v.disk == w.disk && Sound(w) && f in w.files && s == PwriteLoop(v, w.files[f], pos, data)
    ensures w'.disk == s.vol.disk && w'.files == w.files[f := s.ino] && Contained(w, w', f)
    ensures Tallied(v, w.free, s.vol, w'.free, MostTaken(pos, |data|, s.status))
    ensures s.status == Done ==> w'.lost == w.lost && (data != [] ==> BlockOf(pos + |data| - 1) < MAX_INDEX)
    ensures s.status != TooBig
    ensures s.status != Done ==> data != [] && (w'.free == Empty || BlockOf(pos + |data| - 1) >= MAX_INDEX)
    ensures done <= |data| && if s.status == Done then done == |data| else StopsAt(w, f, pos, data, done, w'.free)
    ensures Overlaid(w, w', f, pos, data[..done]) && MapsBlocks(w, w', f, BlockOf(pos), EndBlock(pos, done))
    decreases |data|
  {
    hide PwriteLoop, Chunks, Contained, Sound, BlockOf, StopsAt, Overlaid, MapsBlocks;
    if data == [] {
      w', done := w, 0;
      NothingWritten(v, w, f, pos, s);
      assert data[..0] == [];
    } else {
      var n, rest, s1, w1 := FirstChunk(v, w, f, pos, data, s);
      LastBlock(pos, |data|, n);
      if s1.status == Done {
        w', done := LoopEnds(s1.vol, w1, f, pos + n, rest, s);
        EndsCompose(v, w, s1, w1, s, w', f, pos, |data|, n);
        PrefixCompose(w, w1, w', f, pos, data, n, done, s.status == Done);
        MapsCompose(w, w1, w', f, pos, |data|, n, done);
        done := n + done;
      } else {
        w', done := w1, 0;
        StopsFirst(w, f, pos, data, w1.free);
        assert data[..0] == [];
      }
    }
  }

  lemma MapsCompose(w: World, w1: World, w': World, f: nat, pos: nat, len: ByteCount, n: nat, done: nat)
    requires f in w.files && f in w1.files && f in w'.files && len > 0 && n == ChunkLen(pos, len) && done <= len - n
    requires MapsBlocks(w, w1, f, BlockOf(pos), BlockOf(pos) + 1)
    requires MapsBlocks(w1, w', f, BlockOf(pos + n), EndBlock(pos + n, done))
    ensures MapsBlocks(w, w', f, BlockOf(pos), EndBlock(pos, n + done))
  {
    hide Blk;
    LastBlock(pos, len, n);
    SameBlock(pos, n - 1);
    if done > 0 {
      BlockOfMono(pos + n, pos + n + done - 1);
    }
  }

  /** A first chunk and a prefix of the rest make a prefix. */
  lemma PrefixCompose(w: World, w1: World, w': World, f: nat, pos: nat, data: Buffer, n: nat, done: nat, ended: bool)
    requires data != [] && n == ChunkLen(pos, |data|) && Contained(w, w1, f) && f in w'.files
    requires Overlaid(w, w1, f, pos, data[..n]) && done <= |data| - n
    requires Overlaid(w1, w', f, pos + n, data[n..][..done])
    requires !ended ==> StopsAt(w1, f, pos + n, data[n..], done, w'.free)
    ensures Overlaid(w, w', f, pos, data[..n + done])
    ensures !ended ==> StopsAt(w, f, pos, data, n + done, w'.free)
  {
    var part := data[..n + done];
    assert part[..n] == data[..n] && part[n..] == data[n..][..done];
    OverlayTwice(w, w1, w', f, pos, part, n);
    if !ended {
      var j := BlockOf(pos + n + done);
      if j < MAX_INDEX {
        BlkIsCell(w, f, j);
        BlkIsCell(w1, f, j);
      }
      if done == 0 {
        NextBlock(pos, n);
      }
    }
  }

  lemma EndsCompose(v: Vol, w: World, s1: WriteState, w1: World, s: WriteState, w': World, f: nat, pos: nat,
                    len: ByteCount, n: nat)
    requires len > 0 && n == ChunkLen(pos, len)
    requires Contained(w, w1, f) && Contained(w1, w', f)
    requires w1.files == w.files[f := s1.ino] && w'.files == w1.files[f := s.ino]
    requires Tallied(v, w.free, s1.vol, w1.free, 4)
    requires Tallied(s1.vol, w1.free, s.vol, w'.free, MostTaken(pos + n, len - n, s.status))
    requires s.status != Done ==> len > n
    ensures Contained(w, w', f) && w'.files == w.files[f := s.ino]
    ensures Tallied(v, w.free, s.vol, w'.free, MostTaken(pos, len, s.status))
  {
    ContainedTrans(w, w1, w', f);
    TalliedTrans(v, w.free, s1.vol, w1.free, s.vol, w'.free, 4, MostTaken(pos + n, len - n, s.status));
  }

  // ----- the final size --------------------------------------------------

  /** After the loop has ended at byte `e`, the size update makes the size the larger of
      the old size and `e`. */
  lemma FinishSizes(a: Inode, b: Inode, e: nat)
    requires WellSized(a) && Extends(a, b) && SizeState(b, e, false) && e < ID_LIMIT - 1
    ensures FileSize(FinishWrite(b, e)) == Max(FileSize(a), e)
    ensures WellSized(FinishWrite(b, e)) && FinishWrite(b, e).numBlocks >= b.numBlocks
  {
    BlockBounds(e);
    if WellSized(b) {
      UnchangedSizes(b, e);
    } else {
      PendingSizes(a, b, e);
    }
  }

  lemma UnchangedSizes(b: Inode, e: nat)
    requires WellSized(b) && e < ID_LIMIT - 1
    ensures FileSize(FinishWrite(b, e)) == Max(FileSize(b), e)
    ensures WellSized(FinishWrite(b, e)) && FinishWrite(b, e).numBlocks >= b.numBlocks
  {
    var q, nb := BlockOf(e), b.numBlocks;
    BlockBounds(e);
    if nb > 0 {
      TimesStep(nb - 1);
    }
    if q + 1 > nb {
      TimesMono(nb, q);
      if q > 0 {
        TimesStep(q - 1);
      }
    } else if q + 1 < nb {
      TimesMono(q + 1, nb - 1);
    }
  }

  lemma PendingSizes(a: Inode, b: Inode, e: nat)
    requires WellSized(a) && b.numBlocks > a.numBlocks && SizePending(b, e, false) && e < ID_LIMIT - 1
    ensures FileSize(FinishWrite(b, e)) == e >= FileSize(a)
    ensures WellSized(FinishWrite(b, e)) && FinishWrite(b, e).numBlocks >= b.numBlocks
  {
    var nb := b.numBlocks;
    TimesStep(nb - 1);
    TimesMono(a.numBlocks, nb - 1);
    if a.numBlocks > 0 {
      TimesStep(a.numBlocks - 1);
    }
    TimesBlocks(nb);
    if e < Times(nb, BLOCK_SIZE) {
      TimesIsMul(nb - 1, BLOCK_SIZE);
      QuotRemUnique(e, BLOCK_SIZE, nb - 1, e - Times(nb - 1, BLOCK_SIZE));
    }
  }

  lemma TimesStep(q: nat)
    ensures Times(q + 1, BLOCK_SIZE) == Times(q, BLOCK_SIZE) + BLOCK_SIZE
  {}

  lemma TimesMono(q: nat, r: nat)
    requires q <= r
    ensures Times(q, BLOCK_SIZE) <= Times(r, BLOCK_SIZE)
  {
    TimesIsMul(q, BLOCK_SIZE);
    TimesIsMul(r, BLOCK_SIZE);
    MulMono(q, r, BLOCK_SIZE);
  }

  // ----- the theorem -----------------------------------------------------

  /** A byte sequence with `data` written at `at`; a gap is filled with zeros. */
  function Overlay(c: seq<byte>, at: nat, data: seq<byte>): (r: seq<byte>)
    ensures |r| == Max(|c|, at + |data|)
    ensures forall p :: 0 <= p < |r| ==> r[p] == OverlayAt(if p < |c| then c[p] else 0, at, data, p)
  {
    seq<byte>(Max(|c|, at + |data|), p requires p >= 0 => OverlayAt(if p < |c| then c[p] else 0, at, data, p))
  }

  /** A successful pwrite overlays the data on the contents of the file.  It keeps the
      promises of the file, every other file, the inode blocks, the meaning of the
      counters and the ownership of all data blocks, loses none, takes at most four blocks
      from the free list for each block it writes, and maps exactly the blocks it writes. */
  lemma PwriteRefines(v: Vol, w: World, f: nat, offset: nat, data: Buffer) returns (w': World)
    requires v.disk == w.disk && Sound(w) && f in w.files && FileInv(w.disk, w.files[f])
    requires offset + |data| < ID_LIMIT - 1
    requires Pwrite(v, w.files[f], offset, data).status == Done
    ensures var s := Pwrite(v, w.files[f], offset, data);
      && w'.disk == s.vol.disk && w'.files == w.files[f := s.ino]
      && Tallied(v, w.free, s.vol, w'.free, 4 * Chunks(offset, |data|))
      && Content(s.vol.disk, s.ino) == Overlay(Content(v.disk, w.files[f]), offset, data)
      && FileSize(s.ino) == Max(FileSize(w.files[f]), offset + |data|)
      && FileInv(s.vol.disk, s.ino)
      && s.ino.id == w.files[f].id && s.ino.kind == w.files[f].kind && s.ino.links == w.files[f].links
    ensures Sound(w') && ForeignKept(w, w', f)
    ensures MapsBlocks(w, w', f, BlockOf(offset), EndBlock(offset, |data|))
    ensures forall extra :: Covered(w, extra) ==> Covered(w', extra)
  {
    hide MapsBlocks, PwriteLoop, Overlaid, Tallied, ForeignKept, Overlay;
    var s := PwriteLoop(v, w.files[f], offset, data);
    var w1 := LoopRefines(v, w, f, offset, data, s);
    LoopTallies(v, w, w1, f, offset, data, s);
    w' := FinishRefines(w, w1, f, offset, data);
    MapsFinished(w, w1, w', f, BlockOf(offset), EndBlock(offset, |data|), offset + |data|);
  }

  /** The size fields do not matter to the block map. */
  lemma MapsFinished(w: World, w1: World, w': World, f: nat, lo: nat, hi: nat, e: nat)
    requires f in w.files && f in w1.files && f in w'.files && MapsBlocks(w, w1, f, lo, hi) && e < ID_LIMIT - 1
    requires w'.disk == w1.disk && w'.files[f] == FinishWrite(w1.files[f], e)
    ensures MapsBlocks(w, w', f, lo, hi)
  {
    forall j | 0 <= j < MAX_INDEX ensures Blk(w', f, j) == Blk(w1, f, j) {}
  }

  /** When pwrite succeeds.  It fails as too big exactly for a position at or behind the end
      whose block no inode can map, and then changes nothing; otherwise it fails only when
      the last byte lies in such a block or the free list runs out.  Four free blocks for
      each block written are enough. */
  lemma PwriteEnds(v: Vol, w: World, f: nat, offset: nat, data: Buffer)
    requires v.disk == w.disk && Sound(w) && f in w.files && offset + |data| < ID_LIMIT - 1
    ensures var s := Pwrite(v, w.files[f], offset, data);
      && (s.status == TooBig <==> offset >= GetSizeOfFile(w.files[f]) && BlockOf(offset) >= MAX_INDEX)
      && (s.status == TooBig ==> s.vol == v)
      && (s.status != Done && s.status != TooBig ==>
            data != [] && (FreeInv(s.vol.disk, Empty) || BlockOf(offset + |data| - 1) >= MAX_INDEX))
    ensures data != [] ==>
      var s, last := Pwrite(v, w.files[f], offset, data), BlockOf(offset + |data| - 1);
      && (s.status == Done ==> last < MAX_INDEX)
      && (last < MAX_INDEX && |Ids(w.free)| >= 4 * (last - BlockOf(offset) + 1) ==> s.status == Done)
  {
    hide PwriteLoop, WriteChunk, Overlaid, StopsAt, MapsBlocks, Owned, Exclusive, Covered, Persists, Spared, Reads;
    var w', done := LoopEnds(v, w, f, offset, data, PwriteLoop(v, w.files[f], offset, data));
    ListedOrLink(w.free);
    if data != [] {
      ChunksAreBlocks(offset, |data|);
      BlockOfMono(offset, offset + |data| - 1);
    }
  }

  /** A pwrite of nothing changes the contents exactly when it lies behind the end of the
      file: it then extends the file with zeros. */
  lemma EmptyWrite(v: Vol, w: World, f: nat, offset: nat)
    requires v.disk == w.disk && Sound(w) && f in w.files && FileInv(w.disk, w.files[f]) && offset < ID_LIMIT - 1
    requires Pwrite(v, w.files[f], offset, []).status == Done
    ensures var s, c := Pwrite(v, w.files[f], offset, []), Content(w.disk, w.files[f]);
      && s.vol == v
      && (Content(s.vol.disk, s.ino) == c <==> offset <= FileSize(w.files[f]))
      && (offset > |c| ==> Content(s.vol.disk, s.ino) == c + seq<byte>(offset - |c|, _ => 0))
  {
    var w' := PwriteRefines(v, w, f, offset, []);
    var s, c := Pwrite(v, w.files[f], offset, []), Content(w.disk, w.files[f]);
    var c' := Overlay(c, offset, []);
    forall p | 0 <= p < |c'| ensures c'[p] == if p < |c| then c[p] else 0 {}
    if offset <= |c| {
      assert c' == c;
    }
  }

  lemma LoopTallies(v: Vol, w: World, w1: World, f: nat, pos: nat, data: Buffer, s: WriteState)
    requires v.disk == w.disk && Sound(w) && f in w.files
    requires s == PwriteLoop(v, w.files[f], pos, data) && s.status == Done
    requires Sound(w1) && w1.disk == s.vol.disk
    requires w1.files == w.files[f := s.ino]
    ensures Tallied(v, w.free, s.vol, w1.free, 4 * Chunks(pos, |data|))
    ensures MapsBlocks(w, w1, f, BlockOf(pos), EndBlock(pos, |data|))
  {
    hide PwriteLoop, Chunks, Overlaid;
    var w', done := LoopEnds(v, w, f, pos, data, s);
    ReadsUnique(w1.disk, HEAD, K - 1, w1.free, w'.free);
  }

  lemma FinishRefines(w: World, w1: World, f: nat, offset: nat, data: seq<byte>) returns (w': World)
    requires Sound(w) && f in w.files && FileInv(w.disk, w.files[f])
    requires offset + |data| < ID_LIMIT - 1
    requires LoopKeeps(w, w1, f) && SizeState(w1.files[f], offset + |data|, false) && Overlaid(w, w1, f, offset, data)
    ensures var ino := FinishWrite(w1.files[f], offset + |data|);
      && w' == w1.(files := w1.files[f := ino])
      && Content(w1.disk, ino) == Overlay(Content(w.disk, w.files[f]), offset, data)
      && FileSize(ino) == Max(FileSize(w.files[f]), offset + |data|)
      && FileInv(w1.disk, ino)
    ensures Sound(w') && ForeignKept(w, w', f)
    ensures forall extra :: Covered(w, extra) ==> Covered(w', extra)
  {
    var e := offset + |data|;
    var ino := FinishWrite(w1.files[f], e);
    FinishSizes(w.files[f], w1.files[f], e);
    w' := w1.(files := w1.files[f := ino]);
    Relabel(w1, w', f, 0);
    FinishKeeps(w, w1, w', f);
    FinishBytes(w, w1, w', f, offset, data);
  }

  lemma FinishKeeps(w: World, w1: World, w': World, f: nat)
    requires Sound(w) && LoopKeeps(w, w1, f) && FileInv(w.disk, w.files[f])
    requires f in w'.files && w' == w1.(files := w1.files[f := w'.files[f]])
    requires OthersKept(w1, w', f, 0) && Blk(w', f, 0) == Blk(w1, f, 0)
    requires w'.files[f].numBlocks >= w1.files[f].numBlocks
    requires w'.files[f].numAllocated == w1.files[f].numAllocated
    requires Sound(w') && forall extra :: Covered(w1, extra) ==> Covered(w', extra)
    ensures ForeignKept(w, w', f)
    ensures NothingBeyond(w'.disk, w'.files[f])
    ensures w'.files[f].numAllocated == |Mapped(w'.disk, w'.files[f])|
    ensures forall extra :: Covered(w, extra) ==> Covered(w', extra)
  {
    forall j | 0 <= j < MAX_INDEX ensures Blk(w', f, j) == Blk(w1, f, j) {
      if j != 0 {
        assert SameLeaf(w1, w', f, j);
      }
    }
    assert ForeignKept(w1, w', f);
    ForeignKeptTrans(w, w1, w', f);
    forall j | w'.files[f].numBlocks <= j < MAX_INDEX ensures GetBlockId(w'.disk, w'.files[f], j) == 0 {
      assert Blk(w', f, j) == Blk(w1, f, j);
    }
    assert Mapped(w'.disk, w'.files[f]) == Mapped(w1.disk, w1.files[f]) by {
      forall j ensures j in Mapped(w'.disk, w'.files[f]) <==> j in Mapped(w1.disk, w1.files[f]) {
        if 0 <= j < MAX_INDEX {
          assert Blk(w', f, j) == Blk(w1, f, j);
        }
      }
    }
    forall extra | Covered(w, extra) ensures Covered(w', extra) {
      assert Covered(w1, extra);
    }
  }

  lemma FinishBytes(w: World, w1: World, w': World, f: nat, offset: nat, data: seq<byte>)
    requires f in w.files && f in w1.files && f in w'.files && FileInv(w.disk, w.files[f])
    requires w' == w1.(files := w1.files[f := w'.files[f]])
    requires OthersKept(w1, w', f, 0) && Blk(w', f, 0) == Blk(w1, f, 0)
    requires Overlaid(w, w1, f, offset, data)
    requires FileSize(w'.files[f]) == Max(FileSize(w.files[f]), offset + |data|)
    ensures Content(w'.disk, w'.files[f]) == Overlay(Content(w.disk, w.files[f]), offset, data)
    ensures forall p :: p >= FileSize(w'.files[f]) ==> ByteAt(w'.disk, w'.files[f], p) == 0
  {
    forall p: nat ensures Byte(w', f, p) == OverlayAt(Byte(w, f, p), offset, data, p) {
      if 0 < BlockOf(p) < MAX_INDEX {
        assert SameLeaf(w1, w', f, BlockOf(p));
      }
      assert Byte(w1, f, p) == OverlayAt(Byte(w, f, p), offset, data, p);
    }
    forall p | p >= FileSize(w'.files[f]) ensures ByteAt(w'.disk, w'.files[f], p) == 0 {
      assert Byte(w', f, p) == OverlayAt(Byte(w, f, p), offset, data, p);
    }
    var c, c' := Content(w.disk, w.files[f]), Content(w'.disk, w'.files[f]);
    forall p | 0 <= p < |c'| ensures c'[p] == Overlay(c, offset, data)[p] {
      assert c'[p] == Byte(w', f, p);
      assert p < |c| ==> c[p] == Byte(w, f, p);
    }
  }
}

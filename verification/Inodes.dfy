/** The inode table on values: inode slots in the blocks 1..NUM_INODE_BLOCKS, and what
    iget, iput, ialloc and ifree do to a volume. */
module Inodes {
  import opened Arithmetic
  import opened Geometry
  import opened Codec
  import opened FreeList
  import opened BlockMap

  // ----- one slot --------------------------------------------------------

  /** Words an inode occupies in its slot. */
  const FIELDS: nat := NUM_DIRECT + 9

  /** `struct inode` laid out in 8-byte words. */
  function EncodeInode(ino: Inode): (ws: seq<word>)
    ensures |ws| == FIELDS
  {
    [ino.id, ino.kind, ino.links] + ino.direct
    + [ino.single, ino.double, ino.triple, ino.numBlocks, ino.used, ino.numAllocated]
  }

  function DecodeInode(ws: seq<word>): Inode
    requires |ws| == FIELDS
  {
    var n := 3 + NUM_DIRECT;
    Inode(ws[0], ws[1], ws[2], ws[3..n], ws[n], ws[n + 1], ws[n + 2], ws[n + 3], ws[n + 4], ws[n + 5])
  }

  lemma DecodeEncodeInode(ino: Inode)
    ensures DecodeInode(EncodeInode(ino)) == ino
  {
    var ws, n := EncodeInode(ino), 3 + NUM_DIRECT;
    assert ws[3..n] == ino.direct;
  }

  lemma EncodeDecodeInode(ws: seq<word>)
    requires |ws| == FIELDS
    ensures EncodeInode(DecodeInode(ws)) == ws
  {}

  /** memcpy of consecutive words into a block. */
  function SetWords(b: Block, at: nat, ws: seq<word>): (r: Block)
    requires at + |ws| <= K
    ensures forall i :: 0 <= i < K ==> Words(r)[i] == if at <= i < at + |ws| then ws[i - at] else Words(b)[i]
    decreases |ws|
  {
    if ws == [] then b else SetWords(SetWord(b, at, ws[0]), at + 1, ws[1..])
  }

  /** First word of slot j. */
  function SlotStart(j: nat): (at: nat)
    requires j < SLOTS
    ensures at + FIELDS <= K
  {
    Times(j, INODE_WIDTH)
  }

  lemma SlotsApart(i: nat, j: nat)
    requires i < j < SLOTS
    ensures SlotStart(i) + FIELDS <= SlotStart(j)
  {
    TimesIsMul(i, INODE_WIDTH);
    TimesIsMul(j, INODE_WIDTH);
    MulStrict(i, j, INODE_WIDTH);
  }

  function GetSlot(b: Block, j: nat): Inode
    requires j < SLOTS
  {
    DecodeInode(Words(b)[SlotStart(j)..SlotStart(j) + FIELDS])
  }

  function PutSlot(b: Block, j: nat, ino: Inode): Block
    requires j < SLOTS
  {
    SetWords(b, SlotStart(j), EncodeInode(ino))
  }

  /** Writing a slot changes that slot only. */
  lemma PutGetSlot(b: Block, j: nat, ino: Inode, i: nat)
    requires i < SLOTS && j < SLOTS
    ensures GetSlot(PutSlot(b, j, ino), i) == if i == j then ino else GetSlot(b, i)
  {
    var r := PutSlot(b, j, ino);
    if i == j {
      assert Words(r)[SlotStart(j)..SlotStart(j) + FIELDS] == EncodeInode(ino);
      DecodeEncodeInode(ino);
    } else {
      if i < j { SlotsApart(i, j); } else { SlotsApart(j, i); }
      assert Words(r)[SlotStart(i)..SlotStart(i) + FIELDS] == Words(b)[SlotStart(i)..SlotStart(i) + FIELDS];
    }
  }

  // ----- the table -------------------------------------------------------

  /** Slots in the inode blocks; the last block may hold more than NUM_INODES needs. */
  const ALL_SLOTS: TableSize

  type TableSize = n: nat | forall i: nat :: Quot(i, SLOTS) < NUM_INODE_BLOCKS <==> i < n
    witness Below(NUM_INODE_BLOCKS, SLOTS)

  predicate IsInode(n: int) {
    1 <= n <= NUM_INODES
  }

  function InodeBlock(n: nat): nat
    requires n >= 1
  {
    1 + Quot(n - 1, SLOTS)
  }

  function InodeSlot(n: nat): (j: nat)
    requires n >= 1
    ensures j < SLOTS
  {
    QuotRem(n - 1, SLOTS);
    Rem(n - 1, SLOTS)
  }

  lemma TableHoldsInodes()
    ensures NUM_INODES <= ALL_SLOTS
  {
    assert Quot(NUM_INODES - 1, SLOTS) < NUM_INODE_BLOCKS;
  }

  lemma SlotInTable(n: nat)
    requires 1 <= n <= ALL_SLOTS
    ensures 1 <= InodeBlock(n) < HEAD
  {
    assert Quot(n - 1, SLOTS) < NUM_INODE_BLOCKS;
  }

  /** Different inodes have different places. */
  lemma SlotAddressInjective(m: nat, n: nat)
    requires m >= 1 && n >= 1 && InodeBlock(m) == InodeBlock(n) && InodeSlot(m) == InodeSlot(n)
    ensures m == n
  {
    QuotRemInjective(m - 1, n - 1, SLOTS);
  }

  /** The inode stored in slot n. */
  function StoredInode(d: Disk, n: nat): Inode
    requires 1 <= n <= ALL_SLOTS
  {
    SlotInTable(n);
    GetSlot(d[InodeBlock(n)], InodeSlot(n))
  }

  /** The first n slots of the table. */
  function Table(d: Disk, n: nat): (t: seq<Inode>)
    requires n <= ALL_SLOTS
    ensures |t| == n
  {
    if n == 0 then [] else Table(d, n - 1) + [StoredInode(d, n)]
  }

  /** The inode on disk. */
  function SlotOf(d: Disk, n: nat): Inode
    requires 1 <= n <= ALL_SLOTS
  {
    Table(d, ALL_SLOTS)[n - 1]
  }

  lemma {:induction false} TableAt(d: Disk, m: nat, n: nat)
    requires 1 <= n <= m <= ALL_SLOTS
    ensures Table(d, m)[n - 1] == StoredInode(d, n)
  {
    var shorter := Table(d, m - 1);
    assert Table(d, m) == shorter + [StoredInode(d, m)];
    if n < m {
      TableAt(d, m - 1, n);
      assert Table(d, m)[n - 1] == shorter[n - 1];
    }
  }

  lemma SlotIsStored(d: Disk, n: nat)
    requires 1 <= n <= ALL_SLOTS
    ensures SlotOf(d, n) == StoredInode(d, n)
  {
    TableAt(d, ALL_SLOTS, n);
  }

  /** The slot that number n names lies on the disk, in the table or behind it. */
  predicate Placed(n: int) {
    n >= 1 && (n <= ALL_SLOTS || InodeBlock(n) < NUM_BLOCKS)
  }

  /** A slot is on the disk when its block is. */
  lemma PlacedBlock(n: nat)
    requires n >= 1
    ensures Placed(n) <==> InodeBlock(n) < NUM_BLOCKS
  {
    if n <= ALL_SLOTS {
      SlotInTable(n);
    }
  }

  function WithSlot(d: Disk, n: nat, ino: Inode): Disk
    requires Placed(n)
  {
    PlacedBlock(n);
    d[InodeBlock(n) := PutSlot(d[InodeBlock(n)], InodeSlot(n), ino)]
  }

  /** iput then iget round-trips, and every other slot is unchanged. */
  lemma WriteReadSlot(d: Disk, n: nat, ino: Inode, m: nat)
    requires 1 <= n <= ALL_SLOTS && 1 <= m <= ALL_SLOTS
    ensures SlotOf(WithSlot(d, n, ino), m) == if m == n then ino else SlotOf(d, m)
  {
    SlotInTable(n);
    SlotInTable(m);
    SlotIsStored(d, m);
    SlotIsStored(WithSlot(d, n, ino), m);
    PutGetSlot(d[InodeBlock(n)], InodeSlot(n), ino, InodeSlot(m));
    if InodeBlock(m) == InodeBlock(n) && InodeSlot(m) == InodeSlot(n) {
      SlotAddressInjective(m, n);
    }
  }

  /** Writing the superblock and a slot, in any order, changes block 0 and that slot. */
  lemma CommitSlot(d: Disk, image: Block, n: nat, ino: Inode)
    requires Placed(n)
    ensures WithSlot(d[0 := image], n, ino)[0 := image] == WithSlot(d, n, ino)[0 := image]
    ensures WithSlot(d[0 := image], n, ino) == WithSlot(d, n, ino)[0 := image]
  {
    PlacedBlock(n);
  }

  /** A slot write stays inside the inode blocks. */
  lemma WriteSlotFrame(d: Disk, n: nat, ino: Inode)
    requires 1 <= n <= ALL_SLOTS
    ensures forall x :: 0 <= x < NUM_BLOCKS && (x == 0 || x >= HEAD) ==> WithSlot(d, n, ino)[x] == d[x]
  {
    SlotInTable(n);
  }

  /** Slots depend on the inode blocks only. */
  lemma SlotFrame(d: Disk, d': Disk, n: nat)
    requires 1 <= n <= ALL_SLOTS
    requires forall x :: 1 <= x < HEAD ==> d'[x] == d[x]
    ensures SlotOf(d', n) == SlotOf(d, n)
  {
    SlotInTable(n);
    SlotIsStored(d, n);
    SlotIsStored(d', n);
  }

  /** The place of an inode: slot (n - 1) % SLOTS of block 1 + (n - 1) / SLOTS; a block has as
      many slots as fit. */
  lemma SlotPlace(d: Disk, n: nat, block: int, at: int)
    requires 1 <= n <= ALL_SLOTS && block == 1 + (n - 1) / SLOTS && at == (n - 1) % SLOTS * INODE_WIDTH
    ensures SLOTS == K / INODE_WIDTH
    ensures 0 <= block < NUM_BLOCKS && 0 <= at && at + FIELDS <= K
    ensures EncodeInode(SlotOf(d, n)) == Words(d[block])[at..at + FIELDS]
  {
    SlotIsStored(d, n);
    SlotInTable(n);
    QuotIsDiv(n - 1, SLOTS);
    var j := InodeSlot(n);
    TimesIsMul(j, INODE_WIDTH);
    assert SlotStart(j) + FIELDS <= K;
    EncodeDecodeInode(Words(d[InodeBlock(n)])[SlotStart(j)..SlotStart(j) + FIELDS]);
    TimesIsMul(SLOTS - 1, INODE_WIDTH);
    TimesIsMul(SLOTS, INODE_WIDTH);
    assert Times(SLOTS - 1, INODE_WIDTH) + INODE_WIDTH <= K && !(Times(SLOTS, INODE_WIDTH) + INODE_WIDTH <= K);
    DivModUnique(K, INODE_WIDTH, SLOTS, K - SLOTS * INODE_WIDTH);
  }

  // ----- iget, ialloc, ifree, iput ---------------------------------------

  datatype Fetched = Fetched(ok: bool, ino: Inode)
  datatype TableResult = TableResult(vol: Vol, ok: bool, ino: Inode)

  /** iget */
  function Iget(d: Disk, n: int): Fetched {
    TableHoldsInodes();
    if IsInode(n) then Fetched(true, SlotOf(d, n)) else Fetched(false, FreshInode(0))
  }

  /** inode_id, which is an int. */
  function NumberOf(ino: Inode): int {
    ToInt(ino.id)
  }

  /** next_free_inode_number, scanning from slot n on: the number that the first slot of
      type TYPE_FREE carries, or -1. */
  function NextFree(d: Disk, n: nat): int
    requires 1 <= n
    decreases ALL_SLOTS + 1 - n, d
  {
    if n > ALL_SLOTS then -1
    else if SlotOf(d, n).kind == TYPE_FREE then NumberOf(SlotOf(d, n))
    else NextFree(d, n + 1)
  }

  /** ialloc; `stale` is what the caller's inode holds at first, and still holds when iget
      fails, which ialloc does not notice.  The superblock is written before and after the
      slot. */
  function Ialloc(v: Vol, stale: Inode): TableResult {
    var n := NextFree(v.disk, 1);
    if n == -1 then TableResult(v, false, stale)
    else
      var got := Iget(v.disk, n);
      var ino := (if got.ok then got.ino else stale).(links := 1, kind := TYPE_ORDINARY);
      var counted := Commit(Vol(v.disk, v.freeBlocks, Decrement(v.freeInodes)));
      if !Placed(NumberOf(ino)) then TableResult(counted, false, ino)
      else
        var d := WithSlot(counted.disk, NumberOf(ino), ino);
        TableResult(Commit(Vol(d, counted.freeBlocks, counted.freeInodes)), true, ino)
  }

  /** ifree; the superblock is written before and after the slot. */
  function Ifree(v: Vol, n: nat): Vol
    requires IsInode(n)
  {
    TableHoldsInodes();
    var counted := Commit(Vol(v.disk, v.freeBlocks, Increment(v.freeInodes)));
    Commit(Vol(WithSlot(counted.disk, n, FreshInode(n)), counted.freeBlocks, counted.freeInodes))
  }

  /** The release loop of iput from index i on: every mapped block is freed. */
  function ReleaseFrom(v: Vol, ino: Inode, i: nat): (Vol, Inode)
    decreases ino.numBlocks - i
  {
    if i >= ino.numBlocks then (v, ino)
    else
      var id := GetBlockId(v.disk, ino, i);
      if id == 0 then ReleaseFrom(v, ino, i + 1)
      else ReleaseFrom(Free(v, id).vol, ino.(numAllocated := Decrement(ino.numAllocated)), i + 1)
  }

  /** How often the release loop finds the head of the free chain full. */
  function SpillsFrom(v: Vol, ino: Inode, i: nat): nat
    decreases ino.numBlocks - i
  {
    if i >= ino.numBlocks then 0
    else
      var id := GetBlockId(v.disk, ino, i);
      if id == 0 then SpillsFrom(v, ino, i + 1)
      else
        (if HeadFull(v.disk) then 1 else 0)
        + SpillsFrom(Free(v, id).vol, ino.(numAllocated := Decrement(ino.numAllocated)), i + 1)
  }

  /** iput; it fails on an inode whose slot is not on the disk. */
  function Iput(v: Vol, ino: Inode): (r: TableResult)
    requires ino.links == 0 ==> IsInode(ino.id)
    ensures IsInode(ino.id) ==> r.ok
  {
    TableHoldsInodes();
    if ino.links == 0 then
      var r := ReleaseFrom(v, ino, 0);
      TableResult(Ifree(r.0, ino.id), true, r.1)
    else if !Placed(NumberOf(ino)) then TableResult(v, false, ino)
    else TableResult(Vol(WithSlot(v.disk, NumberOf(ino), ino), v.freeBlocks, v.freeInodes), true, ino)
  }

  /** ifree blanks one slot and writes the superblock; other slots and all data blocks
      stay. */
  lemma IfreeBlanks(v: Vol, n: nat)
    requires IsInode(n)
    ensures NUM_INODES <= ALL_SLOTS && Committed(Ifree(v, n))
    ensures Ifree(v, n).freeBlocks == v.freeBlocks && Ifree(v, n).freeInodes == Increment(v.freeInodes)
    ensures forall m :: 1 <= m <= ALL_SLOTS ==>
      SlotOf(Ifree(v, n).disk, m) == if m == n then FreshInode(n) else SlotOf(v.disk, m)
    ensures forall x :: HEAD <= x < NUM_BLOCKS ==> Ifree(v, n).disk[x] == v.disk[x]
  {
    TableHoldsInodes();
    var d, d1 := Ifree(v, n).disk, WithSlot(v.disk, n, FreshInode(n));
    CommitSlot(v.disk, d[0], n, FreshInode(n));
    assert d == d1[0 := d[0]];
    WriteSlotFrame(v.disk, n, FreshInode(n));
    forall m | 1 <= m <= ALL_SLOTS ensures SlotOf(d, m) == if m == n then FreshInode(n) else SlotOf(v.disk, m) {
      WriteReadSlot(v.disk, n, FreshInode(n), m);
      SlotFrame(d1, d, m);
    }
  }
}

/** The free-block allocator on values: what data_block_alloc and data_block_free
    do to a volume, and its reading as a stack.

    Free block numbers live in a chain of list blocks that starts at HEAD.  Word 0
    of a list block names the next list block, words 1..K-1 hold free block
    numbers or 0.  The list blocks behind the head are free blocks themselves. */
module FreeList {
  import opened Arithmetic
  import opened Geometry
  import opened Codec

  /** The disk and the two counters of the superblock. */
  datatype Vol = Vol(disk: Disk, freeBlocks: word, freeInodes: word)

  datatype Allocated = Allocated(vol: Vol, ok: bool, id: word)
  datatype Freed = Freed(vol: Vol, ok: bool)

  // ----- the superblock --------------------------------------------------

  /** The fields of `struct superblock`: fs_size, num_free_blocks, next_free_block_list,
      num_free_inodes and next_free_inode; the two caches among them have length 0. */
  const SUPER_FIELDS: nat := 5

  function SuperField(i: nat, freeBlocks: word, freeInodes: word): word {
    if i == 0 then FS_SIZE
    else if i == 1 then freeBlocks
    else if i == 2 then HEAD
    else if i == 3 then freeInodes
    else 1
  }

  /** Fields i, i+1, .. stored in a block. */
  function StoreFields(b: Block, i: nat, freeBlocks: word, freeInodes: word): Block
    requires i <= SUPER_FIELDS
    decreases SUPER_FIELDS - i, b
  {
    if i == SUPER_FIELDS then b
    else StoreFields(SetWord(b, i, SuperField(i, freeBlocks, freeInodes)), i + 1, freeBlocks, freeInodes)
  }

  /** What block 0 holds when the superblock has been written. */
  function SuperImage(freeBlocks: word, freeInodes: word): Block {
    StoreFields(ZERO, 0, freeBlocks, freeInodes)
  }

  /** commit_superblock */
  function Commit(v: Vol): Vol {
    Vol(v.disk[0 := SuperImage(v.freeBlocks, v.freeInodes)], v.freeBlocks, v.freeInodes)
  }

  /** Block 0 holds the superblock as it is in memory. */
  ghost predicate Committed(v: Vol) {
    v.disk[0] == SuperImage(v.freeBlocks, v.freeInodes)
  }

  /** init_superblock: the counters are read from block 0. */
  function InitSuperblock(d: Disk): Vol {
    Vol(d, Words(d[0])[1], Words(d[0])[3])
  }

  lemma {:induction false} StoredFields(b: Block, i: nat, freeBlocks: word, freeInodes: word, j: nat)
    requires i <= SUPER_FIELDS && j < K
    ensures Words(StoreFields(b, i, freeBlocks, freeInodes))[j]
         == if i <= j < SUPER_FIELDS then SuperField(j, freeBlocks, freeInodes) else Words(b)[j]
    decreases SUPER_FIELDS - i
  {
    if i < SUPER_FIELDS {
      StoredFields(SetWord(b, i, SuperField(i, freeBlocks, freeInodes)), i + 1, freeBlocks, freeInodes, j);
    }
  }

  /** Reading the superblock back yields the counters as they were last committed; the other
      fields are fixed, and the rest of the block is zero. */
  lemma InitReadsCommitted(v: Vol)
    ensures Committed(Commit(v)) && InitSuperblock(Commit(v).disk) == Commit(v)
    ensures Committed(v) ==> InitSuperblock(v.disk) == v
    ensures Committed(v) ==>
      && Words(v.disk[0])[0] == FS_SIZE && Words(v.disk[0])[2] == 1 + NUM_INODE_BLOCKS && Words(v.disk[0])[4] == 1
      && forall j :: 5 <= j < K ==> Words(v.disk[0])[j] == 0
  {
    ZeroWords();
    forall j | 0 <= j < K
      ensures Words(SuperImage(v.freeBlocks, v.freeInodes))[j]
           == if j < SUPER_FIELDS then SuperField(j, v.freeBlocks, v.freeInodes) else 0
    {
      StoredFields(ZERO, 0, v.freeBlocks, v.freeInodes, j);
    }
  }

  // ----- scans of one list block -----------------------------------------

  /** Highest used slot among 1..i, or 0. */
  function LastUsed(ws: seq<word>, i: nat): (k: nat)
    requires i < |ws|
    ensures k <= i && (k > 0 ==> ws[k] != 0)
    ensures forall j :: k < j <= i ==> ws[j] == 0
  {
    if i == 0 || ws[i] != 0 then i else LastUsed(ws, i - 1)
  }

  /** Lowest empty slot at or after i, or |ws|. */
  function FirstHole(ws: seq<word>, i: nat): (k: nat)
    requires i <= |ws|
    ensures i <= k <= |ws| && (k < |ws| ==> ws[k] == 0)
    ensures forall j :: i <= j < k ==> ws[j] != 0
    decreases |ws| - i
  {
    if i == |ws| || ws[i] == 0 then i else FirstHole(ws, i + 1)
  }

  // ----- the two operations ----------------------------------------------

  /** data_block_alloc. */
  function Alloc(v: Vol): Allocated {
    var head := v.disk[HEAD];
    var slot := LastUsed(Words(head), K - 1);
    if slot > 0 then
      var id := Words(head)[slot];
      var taken := Vol(v.disk[HEAD := SetWord(head, slot, 0)], Decrement(v.freeBlocks), v.freeInodes);
      HandOut(taken, id)
    else
      var next := Words(head)[0];
      if next == 0 || next >= NUM_BLOCKS then Allocated(v, false, 0)
      else HandOut(Vol(v.disk[HEAD := v.disk[next]], v.freeBlocks, v.freeInodes), next)
  }

  /** The common tail of data_block_alloc: the block is cleared on disk, and the
      superblock is written. */
  function HandOut(v: Vol, id: word): Allocated {
    if id >= NUM_BLOCKS then Allocated(v, false, 0)
    else Allocated(Commit(Vol(v.disk[id := ZERO], v.freeBlocks, v.freeInodes)), true, id)
  }

  /** data_block_free. */
  function Free(v: Vol, id: word): Freed {
    if id >= NUM_BLOCKS then Freed(v, false)
    else Freed(Commit(Vol(FreeOnDisk(v.disk, id), Increment(v.freeBlocks), v.freeInodes)), true)
  }

  /** A full head spills into the freed block; otherwise the block is cleared and listed. */
  function FreeOnDisk(d: Disk, id: word): Disk
    requires id < NUM_BLOCKS
  {
    var hole := FirstHole(Words(d[HEAD]), 1);
    if hole == K then d[id := d[HEAD]][HEAD := SetWord(ZERO, 0, id)]
    else d[id := ZERO][HEAD := SetWord(d[HEAD], hole, id)]
  }

  // ----- the chain read as a stack ---------------------------------------

  /** All free block numbers, the one handed out next on top: the entries of the head
      from the last slot down, then the number of the next list block, then the
      entries of that block, and so on. */
  datatype Stack = Empty | Entry(id: word, below: Stack) | Link(id: word, below: Stack)

  function Ids(s: Stack): set<word> {
    if s.Empty? then {} else {s.id} + Ids(s.below)
  }

  /** The list blocks behind the head. */
  function Links(s: Stack): set<word> {
    match s
    case Empty => {}
    case Entry(_, below) => Links(below)
    case Link(id, below) => {id} + Links(below)
  }

  function Order(s: Stack): seq<word> {
    if s.Empty? then [] else [s.id] + Order(s.below)
  }

  function Size(s: Stack): nat {
    if s.Empty? then 0 else 1 + Size(s.below)
  }

  /** Numbers held in slots; the list blocks themselves are not counted. */
  function Listed(s: Stack): nat {
    match s
    case Empty => 0
    case Entry(_, below) => 1 + Listed(below)
    case Link(_, below) => Listed(below)
  }

  /** num_free_blocks equals, modulo 2^64, the listed numbers plus n. */
  predicate Counts(v: Vol, s: Stack, n: nat) {
    v.freeBlocks == Rem(Listed(s) + n, ID_LIMIT)
  }

  /** num_free_blocks moved with the listed numbers. */
  ghost predicate KeepsCount(v: Vol, s: Stack, v': Vol, s': Stack) {
    forall n: nat :: Counts(v, s, n) ==> Counts(v', s', n)
  }

  /** Between the two states at most k blocks left the free stack; num_free_blocks moved
      with the listed numbers, num_free_inodes is the same, and block 0 still agrees with
      both counters if it did. */
  ghost predicate Tallied(v: Vol, s: Stack, v': Vol, s': Stack, k: nat) {
    && Size(s) <= Size(s') + k
    && KeepsCount(v, s, v', s')
    && v'.freeInodes == v.freeInodes
    && (Committed(v) ==> Committed(v'))
  }

  lemma TalliedTrans(a: Vol, s: Stack, b: Vol, t: Stack, c: Vol, u: Stack, k: nat, l: nat)
    requires Tallied(a, s, b, t, k) && Tallied(b, t, c, u, l)
    ensures Tallied(a, s, c, u, k + l)
  {}

  /** Writing another block than the superblock changes no count. */
  lemma TalliedWrite(v: Vol, s: Stack, v': Vol, s': Stack, k: nat, x: nat, b: Block)
    requires Tallied(v, s, v', s', k) && 1 <= x < NUM_BLOCKS
    ensures Tallied(v, s, Vol(v'.disk[x := b], v'.freeBlocks, v'.freeInodes), s', k)
  {}

  /** Wrap-around counting. */
  lemma CountUp(n: nat)
    ensures Rem(n, ID_LIMIT) < ID_LIMIT && Rem(n + 1, ID_LIMIT) < ID_LIMIT
    ensures Increment(Rem(n, ID_LIMIT)) == Rem(n + 1, ID_LIMIT)
    ensures Decrement(Rem(n + 1, ID_LIMIT)) == Rem(n, ID_LIMIT)
  {
    QuotIsDiv(n, ID_LIMIT);
    QuotIsDiv(n + 1, ID_LIMIT);
  }

  /** All numbers are data blocks and none occurs twice. */
  predicate Proper(s: Stack) {
    s.Empty? || (IsData(s.id) && s.id !in Ids(s.below) && Proper(s.below))
  }

  /** From slot i of list block b downwards the chain reads `s`. */
  ghost predicate Reads(d: Disk, b: nat, i: nat, s: Stack)
    requires b < NUM_BLOCKS && i < K
    decreases s, i
  {
    var w := Words(d[b])[i];
    if i > 0 && w == 0 then Reads(d, b, i - 1, s)
    else if i > 0 then s.Entry? && s.id == w && Reads(d, b, i - 1, s.below)
    else if w == 0 then s.Empty?
    else s.Link? && s.id == w && w < NUM_BLOCKS && Reads(d, w, K - 1, s.below)
  }

  /** The free list on disk is well formed and reads `s`. */
  ghost predicate FreeInv(d: Disk, s: Stack) {
    Reads(d, HEAD, K - 1, s) && Proper(s)
  }

  /** Two list blocks agree on slots 0..i. */
  ghost predicate SameSlots(a: Block, b: Block, i: nat)
    requires i < K
  {
    forall j :: 0 <= j <= i ==> Words(a)[j] == Words(b)[j]
  }

  ghost predicate SameBlocks(d: Disk, d': Disk, ids: set<word>) {
    forall x :: x in ids && x < NUM_BLOCKS ==> d'[x] == d[x]
  }

  /** A chain depends only on the slots read and on its list blocks. */
  lemma {:induction false} ReadsFrame(d: Disk, b: nat, d': Disk, b': nat, i: nat, s: Stack)
    requires b < NUM_BLOCKS && b' < NUM_BLOCKS && i < K
    requires Reads(d, b, i, s)
    requires SameSlots(d[b], d'[b'], i) && SameBlocks(d, d', Links(s))
    ensures Reads(d', b', i, s)
    decreases s, i
  {
    if i > 0 && Words(d[b])[i] == 0 {
      ReadsFrame(d, b, d', b', i - 1, s);
    } else if i > 0 {
      ReadsFrame(d, b, d', b', i - 1, s.below);
    } else if s.Link? {
      ReadsFrame(d, s.id, d', s.id, K - 1, s.below);
    }
  }

  /** Empty slots are skipped. */
  lemma {:induction false} ReadsSkip(d: Disk, b: nat, i: nat, j: nat, s: Stack)
    requires b < NUM_BLOCKS && j <= i < K
    requires forall k :: j < k <= i ==> Words(d[b])[k] == 0
    ensures Reads(d, b, i, s) <==> Reads(d, b, j, s)
    decreases i
  {
    if j < i {
      ReadsSkip(d, b, i - 1, j, s);
    }
  }

  /** A disk has at most one reading. */
  lemma {:induction false} ReadsUnique(d: Disk, b: nat, i: nat, s: Stack, t: Stack)
    requires b < NUM_BLOCKS && i < K
    requires Reads(d, b, i, s) && Reads(d, b, i, t)
    ensures s == t
    decreases s, i
  {
    var w := Words(d[b])[i];
    if i > 0 && w == 0 {
      ReadsUnique(d, b, i - 1, s, t);
    } else if i > 0 {
      ReadsUnique(d, b, i - 1, s.below, t.below);
    } else if w != 0 {
      ReadsUnique(d, w, K - 1, s.below, t.below);
    }
  }

  lemma {:induction false} LinksAreIds(s: Stack)
    ensures Links(s) <= Ids(s)
  {
    if !s.Empty? {
      LinksAreIds(s.below);
    }
  }

  lemma {:induction false} ListedOrLink(s: Stack)
    requires Proper(s)
    ensures Size(s) == |Ids(s)| == Listed(s) + |Links(s)|
  {
    if !s.Empty? {
      ListedOrLink(s.below);
      LinksAreIds(s.below);
    }
  }

  lemma {:induction false} IdsAreData(s: Stack)
    requires Proper(s)
    ensures forall x :: x in Ids(s) ==> IsData(x)
  {
    if !s.Empty? {
      IdsAreData(s.below);
    }
  }

  // ----- alloc is pop ----------------------------------------------------

  /** An allocation from a head that lists something clears the highest used slot. */
  lemma AllocTakes(v: Vol, s: Stack)
    requires FreeInv(v.disk, s) && LastUsed(Words(v.disk[HEAD]), K - 1) > 0
    ensures s.Entry? && Alloc(v).ok && Alloc(v).id == s.id
    ensures Reads(Alloc(v).vol.disk, HEAD, K - 1, s.below)
  {
    var d, d' := v.disk, Alloc(v).vol.disk;
    var k := LastUsed(Words(d[HEAD]), K - 1);
    ReadsSkip(d, HEAD, K - 1, k, s);
    LinksAreIds(s.below);
    IdsAreData(s.below);
    assert d'[HEAD] == SetWord(d[HEAD], k, 0);
    TakeKeeps(d, s.below, k, d');
  }

  lemma TakeKeeps(d: Disk, s: Stack, k: nat, d': Disk)
    requires 1 <= k < K && Reads(d, HEAD, k - 1, s)
    requires SameSlots(d[HEAD], d'[HEAD], k - 1) && forall j :: k <= j < K ==> Words(d'[HEAD])[j] == 0
    requires SameBlocks(d, d', Links(s))
    ensures Reads(d', HEAD, K - 1, s)
  {
    ReadsFrame(d, HEAD, d', HEAD, k - 1, s);
    ReadsSkip(d', HEAD, K - 1, k - 1, s);
  }

  /** An allocation from a head that lists nothing consumes the next list block. */
  lemma AllocConsumes(v: Vol, s: Stack)
    requires FreeInv(v.disk, s) && !s.Empty? && LastUsed(Words(v.disk[HEAD]), K - 1) == 0
    ensures s.Link? && Alloc(v).ok && Alloc(v).id == s.id
    ensures Reads(Alloc(v).vol.disk, HEAD, K - 1, s.below)
  {
    ReadsSkip(v.disk, HEAD, K - 1, 0, s);
    ConsumeKeeps(v.disk, s, Alloc(v).vol.disk);
  }

  lemma ConsumeKeeps(d: Disk, s: Stack, d': Disk)
    requires s.Link? && Proper(s) && Reads(d, s.id, K - 1, s.below)
    requires d' == d[HEAD := d[s.id]][s.id := ZERO][0 := d'[0]]
    ensures Reads(d', HEAD, K - 1, s.below)
  {
    LinksAreIds(s.below);
    IdsAreData(s.below);
    ReadsFrame(d, s.id, d', HEAD, K - 1, s.below);
  }

  lemma AllocFails(v: Vol)
    requires FreeInv(v.disk, Empty)
    ensures Alloc(v) == Allocated(v, false, 0)
  {
    var k := LastUsed(Words(v.disk[HEAD]), K - 1);
    ReadsSkip(v.disk, HEAD, K - 1, k, Empty);
  }

  lemma AllocTallies(v: Vol, s: Stack)
    requires FreeInv(v.disk, s) && !s.Empty? && Alloc(v).ok
    requires Alloc(v).vol.freeInodes == v.freeInodes && Committed(Alloc(v).vol)
    requires Alloc(v).vol.freeBlocks == if s.Entry? then Decrement(v.freeBlocks) else v.freeBlocks
    ensures Tallied(v, s, Alloc(v).vol, s.below, 1)
  {
    forall n: nat | Counts(v, s, n) ensures Counts(Alloc(v).vol, s.below, n) {
      CountUp(Listed(s.below) + n);
    }
  }

  /** With an empty free set data_block_alloc fails and changes nothing; otherwise it
      returns the top of the stack, cleared, and changes nothing else but the head and
      the superblock, which is committed. */
  lemma AllocPops(v: Vol, s: Stack)
    requires FreeInv(v.disk, s)
    ensures var a := Alloc(v);
      if s.Empty? then a == Allocated(v, false, 0)
      else
        && a.ok && a.id == s.id && FreeInv(a.vol.disk, s.below)
        && a.vol.disk[s.id] == ZERO
        && (forall x :: 1 <= x < NUM_BLOCKS && x != HEAD && x != s.id ==> a.vol.disk[x] == v.disk[x])
        && a.vol.freeBlocks == (if s.Entry? then Decrement(v.freeBlocks) else v.freeBlocks)
        && Committed(a.vol) && Tallied(v, s, a.vol, s.below, 1)
  {
    if s.Empty? {
      AllocFails(v);
    } else {
      if LastUsed(Words(v.disk[HEAD]), K - 1) > 0 {
        AllocTakes(v, s);
      } else {
        AllocConsumes(v, s);
      }
      AllocTallies(v, s);
    }
  }

  // ----- free inserts ----------------------------------------------------

  /** The head has no room: the next free spills it into the freed block. */
  predicate HeadFull(d: Disk) {
    FirstHole(Words(d[HEAD]), 1) == K
  }

  /** Slots are used from the front, without holes. */
  ghost predicate PackedBlock(b: Block) {
    forall i, j :: 1 <= i < j < K && Words(b)[j] != 0 ==> Words(b)[i] != 0
  }

  /** A new entry below the first k elements. */
  function Insert(s: Stack, k: nat, id: word): Stack
    requires k <= Size(s)
  {
    if k == 0 then Entry(id, s)
    else if s.Entry? then Entry(s.id, Insert(s.below, k - 1, id))
    else Link(s.id, Insert(s.below, k - 1, id))
  }

  lemma {:induction false} InsertLaws(s: Stack, k: nat, id: word)
    requires k <= Size(s) && Proper(s) && IsData(id) && id !in Ids(s)
    ensures Proper(Insert(s, k, id)) && Ids(Insert(s, k, id)) == Ids(s) + {id}
    ensures Links(Insert(s, k, id)) == Links(s) && Listed(Insert(s, k, id)) == Listed(s) + 1
  {
    if k > 0 {
      InsertLaws(s.below, k - 1, id);
    }
  }

  /** The stack after a free: a spilled head becomes a new link, otherwise the number
      joins the entries of the head. */
  function Push(s: Stack, k: nat, id: word, full: bool): Stack
    requires k <= Size(s)
  {
    if full then Link(id, s) else Insert(s, k, id)
  }

  /** Block b is list block a with slot `hole`, which was empty, set to id. */
  ghost predicate Filled(a: Block, b: Block, hole: nat, id: word)
    requires hole < K
  {
    && hole > 0 && id != 0
    && Words(a)[hole] == 0 && Words(b)[hole] == id
    && forall j :: 0 <= j < K && j != hole ==> Words(b)[j] == Words(a)[j]
  }

  /** When nothing is used above the hole, the new entry is on top. */
  lemma FillOnTop(d: Disk, d': Disk, hole: nat, id: word, s: Stack)
    requires hole < K && Filled(d[HEAD], d'[HEAD], hole, id) && SameBlocks(d, d', Links(s))
    requires Reads(d, HEAD, K - 1, s)
    requires forall j :: hole < j < K ==> Words(d[HEAD])[j] == 0
    ensures Reads(d', HEAD, K - 1, Entry(id, s))
  {
    ReadsSkip(d, HEAD, K - 1, hole, s);
    FillTop(d, d', hole, id, s);
    ReadsSkip(d', HEAD, K - 1, hole, Entry(id, s));
  }

  lemma FillTop(d: Disk, d': Disk, hole: nat, id: word, s: Stack)
    requires hole < K && Filled(d[HEAD], d'[HEAD], hole, id) && SameBlocks(d, d', Links(s))
    requires Reads(d, HEAD, hole, s)
    ensures Reads(d', HEAD, hole, Entry(id, s))
  {
    assert Reads(d, HEAD, hole - 1, s);
    assert SameSlots(d[HEAD], d'[HEAD], hole - 1);
    ReadsFrame(d, HEAD, d', HEAD, hole - 1, s);
  }

  /** Filling slot `hole` of the head inserts one entry. */
  lemma {:induction false} FillReads(d: Disk, d': Disk, hole: nat, id: word, i: nat, s: Stack) returns (k: nat)
    requires hole <= i < K && Filled(d[HEAD], d'[HEAD], hole, id) && SameBlocks(d, d', Links(s))
    requires Reads(d, HEAD, i, s)
    ensures k <= Size(s) && Reads(d', HEAD, i, Insert(s, k, id))
    decreases i
  {
    if i == hole {
      k := 0;
      FillTop(d, d', hole, id, s);
    } else if Words(d[HEAD])[i] == 0 {
      assert Reads(d, HEAD, i - 1, s);
      k := FillReads(d, d', hole, id, i - 1, s);
    } else {
      assert s.Entry? && Reads(d, HEAD, i - 1, s.below);
      var k0 := FillReads(d, d', hole, id, i - 1, s.below);
      k := k0 + 1;
    }
  }

  lemma FreeFills(d: Disk, s: Stack, id: word) returns (k: nat)
    requires FreeInv(d, s) && IsData(id) && id !in Ids(s) && !HeadFull(d)
    ensures k <= Size(s) && Reads(FreeOnDisk(d, id), HEAD, K - 1, Insert(s, k, id))
    ensures PackedBlock(d[HEAD]) ==> k == 0
  {
    var d', hole := FreeOnDisk(d, id), FirstHole(Words(d[HEAD]), 1);
    LinksAreIds(s);
    IdsAreData(s);
    assert Filled(d[HEAD], d'[HEAD], hole, id) by {
      assert d'[HEAD] == SetWord(d[HEAD], hole, id);
    }
    if LastUsed(Words(d[HEAD]), K - 1) < hole {
      k := 0;
      FillOnTop(d, d', hole, id, s);
    } else {
      k := FillReads(d, d', hole, id, K - 1, s);
    }
  }

  lemma FreeSpills(d: Disk, s: Stack, id: word)
    requires FreeInv(d, s) && IsData(id) && id !in Ids(s) && HeadFull(d)
    ensures Reads(FreeOnDisk(d, id), HEAD, K - 1, Link(id, s))
  {
    var d' := FreeOnDisk(d, id);
    LinksAreIds(s);
    IdsAreData(s);
    ReadsFrame(d, HEAD, d', id, K - 1, s);
    assert d'[HEAD] == SetWord(ZERO, 0, id);
    ZeroWords();
    ReadsSkip(d', HEAD, K - 1, 0, Link(id, s));
  }

  /** A free adds exactly the freed block, whatever the slots look like; on top of the
      stack when the head is packed or full. */
  lemma FreeInserts(v: Vol, s: Stack, id: word) returns (k: nat)
    requires FreeInv(v.disk, s) && IsData(id) && id !in Ids(s)
    ensures k <= Size(s) && (PackedBlock(v.disk[HEAD]) ==> k == 0)
    ensures FreeInv(Free(v, id).vol.disk, Push(s, k, id, HeadFull(v.disk)))
    ensures Ids(Push(s, k, id, HeadFull(v.disk))) == Ids(s) + {id}
  {
    k := 0;
    if HeadFull(v.disk) {
      FreeSpills(v.disk, s, id);
    } else {
      k := FreeFills(v.disk, s, id);
      InsertLaws(s, k, id);
    }
    CommitKeepsList(FreeOnDisk(v.disk, id), Free(v, id).vol.disk, Push(s, k, id, HeadFull(v.disk)));
  }

  /** Writing the superblock does not touch the free list. */
  lemma CommitKeepsList(d: Disk, d': Disk, s: Stack)
    requires FreeInv(d, s) && d' == d[0 := d'[0]]
    ensures FreeInv(d', s)
  {
    LinksAreIds(s);
    IdsAreData(s);
    ReadsFrame(d, HEAD, d', HEAD, K - 1, s);
  }

  /** A free writes the head, the freed block and the superblock, which is committed.  The
      freed block is cleared and listed in the lowest empty slot of the head; a full head
      moves into it instead, and links it. */
  lemma FreeFrame(v: Vol, id: word)
    requires IsData(id)
    ensures Free(v, id).ok && Free(v, id).vol.freeInodes == v.freeInodes && Committed(Free(v, id).vol)
    ensures forall x :: 1 <= x < NUM_BLOCKS && x != HEAD && x != id ==> Free(v, id).vol.disk[x] == v.disk[x]
    ensures Free(v, id).vol.disk[id] == if HeadFull(v.disk) then v.disk[HEAD] else ZERO
    ensures var was, head := Words(v.disk[HEAD]), Words(Free(v, id).vol.disk[HEAD]);
      && (HeadFull(v.disk) <==> forall i :: 1 <= i < K ==> was[i] != 0)
      && (HeadFull(v.disk) ==> head[0] == id && forall i :: 1 <= i < K ==> head[i] == 0)
      && (!HeadFull(v.disk) ==> exists hole :: 1 <= hole < K && was[hole] == 0 && head == was[hole := id]
                                               && forall i :: 1 <= i < hole ==> was[i] != 0)
  {
    var was, head := Words(v.disk[HEAD]), Words(Free(v, id).vol.disk[HEAD]);
    var hole := FirstHole(was, 1);
    ZeroWords();
    if !HeadFull(v.disk) {
      assert was[hole] == 0 && head == was[hole := id];
    }
  }

  /** A free is counted as a listed number, or as a spill when the head was full. */
  lemma FreeCounts(v: Vol, s: Stack, id: word, k: nat, n: nat)
    requires IsData(id) && k <= Size(s) && Proper(s) && id !in Ids(s) && Counts(v, s, n)
    ensures Counts(Free(v, id).vol, Push(s, k, id, HeadFull(v.disk)), if HeadFull(v.disk) then n + 1 else n)
  {
    if !HeadFull(v.disk) {
      InsertLaws(s, k, id);
    }
    CountUp(Listed(s) + n);
  }
}

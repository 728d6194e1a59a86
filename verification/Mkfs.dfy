/** What mkfs writes: the sizing of the superblock, the inode slots, and the chain of
    free-block lists. */
module Mkfs {
  import opened Arithmetic
  import opened Geometry
  import opened Codec
  import opened FreeList
  import opened FreeRuns
  import opened BlockMap
  import opened Inodes

  // ----- sizing ----------------------------------------------------------

  /** Blocks behind the inode area, the head of the chain included. */
  const DATA_BLOCKS: nat := NUM_BLOCKS - HEAD

  /** The blocks that are not listed hold the lists, and the listed blocks fill all lists
      but the last one. */
  type ListedCount = n: nat |
      n < DATA_BLOCKS && Times(DATA_BLOCKS - n - 1, K - 1) <= n <= Times(DATA_BLOCKS - n, K - 1)
    witness ShareOf(DATA_BLOCKS, K)

  /** superblock.num_free_blocks, as create_superblock sets it (see SizingLaws). */
  const LISTED_BLOCKS: ListedCount

  /** num_free_block_lists */
  const LISTS: nat := DATA_BLOCKS - LISTED_BLOCKS

  /** First listed block. */
  const FIRST_LISTED: nat := HEAD + LISTS

  function ShareOf(d: nat, k: nat): (n: nat)
    requires d >= 1 && k >= 2
    ensures n == d * (k - 1) / k
    ensures n < d && Times(d - n - 1, k - 1) <= n <= Times(d - n, k - 1)
  {
    var n := d * (k - 1) / k;
    assert 0 <= d * (k - 1);
    DivModLaw(d * (k - 1), k);
    ShareFits(d, k, n);
    TimesIsMul(d - n - 1, k - 1);
    TimesIsMul(d - n, k - 1);
    n
  }

  lemma ShareFits(d: nat, k: nat, n: nat)
    requires d >= 1 && k >= 2 && n * k <= d * (k - 1) < n * k + k
    ensures n < d && (d - n - 1) * (k - 1) <= n <= (d - n) * (k - 1)
    ensures (d - n) * k >= d && (d - n - 1) * k < d
  {
    assert d * (k - 1) == d * k - d;
    if n >= d {
      MulMono(d, n, k);
    }
    var l := d - n;
    assert l * k == d * k - n * k;
    assert (l - 1) * k == l * k - k;
    assert l * (k - 1) == l * k - l;
    assert (l - 1) * (k - 1) == (l - 1) * k - (l - 1);
  }

  /** At most one number of blocks can be listed. */
  lemma ShareUnique(d: nat, k: nat, n: nat)
    requires k >= 2 && n < d && (d - n - 1) * (k - 1) <= n <= (d - n) * (k - 1)
    ensures n == d * (k - 1) / k
  {
    var l := d - n;
    assert d * (k - 1) == l * (k - 1) + n * (k - 1);
    assert n * k == n * (k - 1) + n;
    assert (l - 1) * (k - 1) == l * (k - 1) - (k - 1);
    DivModUnique(d * (k - 1), k, n, d * (k - 1) - n * k);
  }

  /** num_free_blocks is (NUM_BLOCKS - NUM_INODE_BLOCKS - 1) * (K - 1) / K, which does not
      overflow, and the number of lists is the ceiling of D / K. */
  lemma SizingLaws()
    ensures DATA_BLOCKS * (K - 1) < ID_LIMIT && LISTED_BLOCKS == DATA_BLOCKS * (K - 1) / K
    ensures LISTS * K >= DATA_BLOCKS && (LISTS - 1) * K < DATA_BLOCKS
  {
    var d, n := DATA_BLOCKS, LISTED_BLOCKS;
    TimesIsMul(d - n - 1, K - 1);
    TimesIsMul(d - n, K - 1);
    ShareUnique(d, K, n);
    DivModLaw(d * (K - 1), K);
    ShareFits(d, K, n);
    VolumeFits(NUM_BLOCKS, d, K);
  }

  lemma VolumeFits(max: nat, d: nat, k: nat)
    requires d < max && k == K && Times(max - 1, BLOCK_SIZE) + BLOCK_SIZE < ID_LIMIT
    ensures d * (k - 1) < ID_LIMIT
  {
    TimesIsMul(max - 1, BLOCK_SIZE);
    MulMono(d, max - 1, BLOCK_SIZE);
    MulMono(k - 1, BLOCK_SIZE, d);
    assert d * (k - 1) == (k - 1) * d && d * BLOCK_SIZE == BLOCK_SIZE * d;
  }

  // ----- inode slots -----------------------------------------------------

  /** create_inodes, from inode i on. */
  function WriteInodes(d: Disk, i: nat): Disk
    requires i >= 1
    decreases NUM_INODES + 1 - i, d
  {
    TableHoldsInodes();
    if i > NUM_INODES then d else WriteInodes(WithSlot(d, i, FreshInode(i)), i + 1)
  }

  /** What create_inodes leaves in slot m. */
  function Written(d: Disk, i: nat, m: nat): Inode
    requires 1 <= m <= ALL_SLOTS
  {
    if i <= m <= NUM_INODES then FreshInode(m) else SlotOf(d, m)
  }

  lemma {:induction false} WrittenInodes(d: Disk, i: nat, m: nat, after: Disk)
    requires i >= 1 && 1 <= m <= ALL_SLOTS && after == WriteInodes(d, i)
    ensures SlotOf(after, m) == Written(d, i, m)
    decreases NUM_INODES + 1 - i
  {
    hide WriteInodes, Written;
    if i <= NUM_INODES {
      var d1 := FirstWritten(d, i, m);
      WrittenInodes(d1, i + 1, m, after);
    } else {
      NoneWritten(d, i, m);
    }
  }

  /** create_inodes stays inside the inode blocks. */
  lemma {:induction false} InodesFrame(d: Disk, i: nat)
    requires i >= 1
    ensures WriteInodes(d, i)[0] == d[0]
    decreases NUM_INODES + 1 - i
  {
    TableHoldsInodes();
    if i <= NUM_INODES {
      WriteSlotFrame(d, i, FreshInode(i));
      InodesFrame(WithSlot(d, i, FreshInode(i)), i + 1);
    }
  }

  lemma NoneWritten(d: Disk, i: nat, m: nat)
    requires i > NUM_INODES && 1 <= m <= ALL_SLOTS
    ensures WriteInodes(d, i) == d && Written(d, i, m) == SlotOf(d, m)
  {}

  lemma FirstWritten(d: Disk, i: nat, m: nat) returns (d1: Disk)
    requires 1 <= i <= NUM_INODES && 1 <= m <= ALL_SLOTS
    ensures WriteInodes(d, i) == WriteInodes(d1, i + 1) && Written(d, i, m) == Written(d1, i + 1, m)
  {
    TableHoldsInodes();
    d1 := WithSlot(d, i, FreshInode(i));
    WriteReadSlot(d, i, FreshInode(i), m);
  }

  // ----- free-block lists ------------------------------------------------

  /** free_block_id after one list. */
  function NextFirst(free: nat): nat {
    Min(free + (K - 1), NUM_BLOCKS)
  }

  /** The inner loop of create_free_blocks: slots j..1, from the last one down. */
  function FillSlots(b: Block, j: nat, free: nat): Block
    requires j < K
    decreases j
  {
    if j == 0 then b
    else if free < NUM_BLOCKS then FillSlots(SetWord(b, j, free), j - 1, free + 1)
    else FillSlots(SetWord(b, j, 0), j - 1, free)
  }

  /** Block number of the list behind list i, or 0. */
  function NextList(lists: nat, i: nat): word
    requires HEAD + lists <= NUM_BLOCKS
  {
    if i + 1 < lists then HEAD + i + 1 else 0
  }

  /** List i, when the next block to list is `free`; `b` is the buffer. */
  function ListBlock(b: Block, lists: nat, i: nat, free: nat): Block
    requires HEAD + lists <= NUM_BLOCKS
  {
    FillSlots(SetWord(b, 0, NextList(lists, i)), K - 1, free)
  }

  /** The outer loop of create_free_blocks, from list i on. */
  function MakeLists(d: Disk, b: Block, lists: nat, i: nat, free: nat): Disk
    requires i <= lists && HEAD + lists <= NUM_BLOCKS
    decreases lists - i
  {
    if i == lists then d
    else
      var list := ListBlock(b, lists, i, free);
      MakeLists(d[HEAD + i := list], list, lists, i + 1, NextFirst(free))
  }

  /** create_superblock */
  function FreshSuper(d: Disk): Vol {
    Commit(Vol(d, LISTED_BLOCKS, NUM_INODES))
  }

  /** The volume mkfs makes of a disk, before the root directory; `b` is what the buffer
      of create_free_blocks holds at first. */
  function Format(d: Disk, b: Block): Vol {
    FreshSuper(d).(disk := MakeLists(WriteInodes(FreshSuper(d).disk, 1), b, LISTS, 0, FIRST_LISTED))
  }

  // ----- the stack of a fresh volume -------------------------------------

  /** Entries a, a+1, .., b-1 on top of `below`. */
  function Entries(a: nat, b: nat, below: Stack): Stack
    requires b <= NUM_BLOCKS
    decreases b - a
  {
    if a >= b then below else Entry(a, Entries(a + 1, b, below))
  }

  /** What the chain reads from list i on. */
  function FreshStack(lists: nat, i: nat, free: nat): Stack
    requires i < lists && HEAD + lists <= NUM_BLOCKS
    decreases lists - i, 1
  {
    Entries(free, NextFirst(free), TailStack(lists, i, NextFirst(free)))
  }

  function TailStack(lists: nat, i: nat, next: nat): Stack
    requires i < lists && HEAD + lists <= NUM_BLOCKS
    decreases lists - i, 0
  {
    if i + 1 < lists then Link(HEAD + i + 1, FreshStack(lists, i + 1, next)) else Empty
  }

  lemma {:induction false} EntriesLaws(a: nat, b: nat, below: Stack)
    requires b <= NUM_BLOCKS && a > HEAD && Proper(below) && forall x :: x in Ids(below) ==> x < a || x >= b
    ensures forall x: word :: x in Ids(Entries(a, b, below)) <==> a <= x < b || x in Ids(below)
    ensures Listed(Entries(a, b, below)) == Listed(below) + if a < b then b - a else 0
    ensures Proper(Entries(a, b, below))
    decreases b - a
  {
    if a < b {
      EntriesLaws(a + 1, b, below);
    }
  }

  /** Block x is one of the lists behind list i, or not listed before `free`. */
  predicate InTail(lists: nat, i: nat, free: nat, x: nat) {
    HEAD + i < x < HEAD + lists || free <= x < NUM_BLOCKS
  }

  ghost predicate Holds(s: Stack, lists: nat, i: nat, free: nat) {
    forall x: word :: x in Ids(s) <==> InTail(lists, i, free, x)
  }

  /** From list i on the chain lists the blocks from `free` on and links the later lists. */
  lemma {:induction false} FreshStackLaws(lists: nat, i: nat, free: nat)
    requires i < lists && HEAD + lists <= free <= NUM_BLOCKS && NUM_BLOCKS - free <= Times(lists - i, K - 1)
    ensures Holds(FreshStack(lists, i, free), lists, i, free)
    ensures Listed(FreshStack(lists, i, free)) == NUM_BLOCKS - free
    ensures Proper(FreshStack(lists, i, free))
    decreases lists - i
  {
    var next := NextFirst(free);
    if i + 1 < lists {
      FreshStackLaws(lists, i + 1, next);
      LinkLaws(lists, i, next, FreshStack(lists, i + 1, next));
      EntriesOnLink(lists, i, free, Link(HEAD + i + 1, FreshStack(lists, i + 1, next)));
    } else {
      assert Times(lists - i, K - 1) == Times(0, K - 1) + (K - 1);
      EntriesOnLink(lists, i, free, Empty);
    }
  }

  lemma LinkLaws(lists: nat, i: nat, next: nat, s: Stack)
    requires i + 1 < lists && HEAD + lists <= next <= NUM_BLOCKS && Proper(s) && Holds(s, lists, i + 1, next)
    ensures Proper(Link(HEAD + i + 1, s)) && Holds(Link(HEAD + i + 1, s), lists, i, next)
  {
    forall x: word ensures x in Ids(Link(HEAD + i + 1, s)) <==> InTail(lists, i, next, x) {
      assert x in Ids(s) <==> InTail(lists, i + 1, next, x);
    }
    assert !InTail(lists, i + 1, next, HEAD + i + 1);
  }

  lemma EntriesOnLink(lists: nat, i: nat, free: nat, s: Stack)
    requires HEAD + lists <= free <= NUM_BLOCKS && i < lists
    requires Proper(s) && Holds(s, lists, i, NextFirst(free))
    ensures var t := Entries(free, NextFirst(free), s);
      Proper(t) && Holds(t, lists, i, free) && Listed(t) == Listed(s) + (NextFirst(free) - free)
  {
    forall x | x in Ids(s) ensures x < free || x >= NextFirst(free) {
      assert InTail(lists, i, NextFirst(free), x);
    }
    EntriesLaws(free, NextFirst(free), s);
    var t := Entries(free, NextFirst(free), s);
    forall x: word ensures x in Ids(t) <==> InTail(lists, i, free, x) {
      assert x in Ids(s) <==> InTail(lists, i, NextFirst(free), x);
    }
  }

  // ----- the chain on disk -----------------------------------------------

  /** The word that slot t gets when slots j..1 are filled from `free` on. */
  function SlotValue(j: nat, free: nat, t: nat): word
    requires t <= j
  {
    if free + (j - t) < NUM_BLOCKS then free + (j - t) else 0
  }

  /** Slots j..1 hold the numbers from `free` on, as far as there are any. */
  ghost predicate SlotsMade(b: Block, j: nat, free: nat)
    requires j < K
  {
    forall t :: 1 <= t <= j ==> Words(b)[t] == SlotValue(j, free, t)
  }

  lemma {:induction false} FillSlotsAt(b: Block, j: nat, free: nat, t: nat)
    requires j < K && t < K
    ensures Words(FillSlots(b, j, free))[t] == if 1 <= t <= j then SlotValue(j, free, t) else Words(b)[t]
    decreases j
  {
    if j > 0 {
      FillSlotsAt(SetWord(b, j, SlotValue(j, free, j)), j - 1, if free < NUM_BLOCKS then free + 1 else free, t);
    }
  }

  lemma FillSlotsWords(b: Block, j: nat, free: nat)
    requires j < K
    ensures SlotsMade(FillSlots(b, j, free), j, free)
    ensures forall t :: 0 <= t < K && (t == 0 || t > j) ==> Words(FillSlots(b, j, free))[t] == Words(b)[t]
  {
    forall t | 0 <= t < K
      ensures Words(FillSlots(b, j, free))[t] == if 1 <= t <= j then SlotValue(j, free, t) else Words(b)[t]
    {
      FillSlotsAt(b, j, free, t);
    }
  }

  /** List i as mkfs leaves it. */
  ghost predicate ListMade(d: Disk, lists: nat, i: nat, free: nat)
    requires i < lists && HEAD + lists <= NUM_BLOCKS
  {
    Words(d[HEAD + i])[0] == NextList(lists, i) && SlotsMade(d[HEAD + i], K - 1, free)
  }

  /** All lists from i on are as mkfs leaves them. */
  ghost predicate AllMade(d: Disk, lists: nat, i: nat, free: nat)
    requires i <= lists && HEAD + lists <= NUM_BLOCKS
    decreases lists - i
  {
    i < lists ==> ListMade(d, lists, i, free) && AllMade(d, lists, i + 1, NextFirst(free))
  }

  lemma {:induction false} ListsKept(d: Disk, b: Block, lists: nat, i: nat, free: nat)
    requires i <= lists && HEAD + lists <= NUM_BLOCKS
    ensures forall x :: 0 <= x < NUM_BLOCKS && (x < HEAD + i || x >= HEAD + lists) ==>
      MakeLists(d, b, lists, i, free)[x] == d[x]
    decreases lists - i
  {
    if i < lists {
      var list := ListBlock(b, lists, i, free);
      ListsKept(d[HEAD + i := list], list, lists, i + 1, NextFirst(free));
    }
  }

  lemma {:induction false} ListsMade(d: Disk, b: Block, lists: nat, i: nat, free: nat, done: Disk)
    requires i <= lists && HEAD + lists <= NUM_BLOCKS && done == MakeLists(d, b, lists, i, free)
    ensures AllMade(done, lists, i, free)
    decreases lists - i
  {
    if i < lists {
      var list := ListBlock(b, lists, i, free);
      ListsMade(d[HEAD + i := list], list, lists, i + 1, NextFirst(free), done);
      ListsKept(d[HEAD + i := list], list, lists, i + 1, NextFirst(free));
      ListBlockMade(b, lists, i, free, done);
    }
  }

  lemma ListBlockMade(b: Block, lists: nat, i: nat, free: nat, done: Disk)
    requires i < lists && HEAD + lists <= NUM_BLOCKS && done[HEAD + i] == ListBlock(b, lists, i, free)
    ensures ListMade(done, lists, i, free)
  {
    FillSlotsWords(SetWord(b, 0, NextList(lists, i)), K - 1, free);
  }

  lemma {:induction false} SlotsRead(d: Disk, b: nat, j: nat, free: nat, below: Stack)
    requires b < NUM_BLOCKS && j < K && 0 < free <= NUM_BLOCKS
    requires SlotsMade(d[b], j, free) && Reads(d, b, 0, below)
    ensures Reads(d, b, j, Entries(free, Min(free + j, NUM_BLOCKS), below))
    decreases j
  {
    if j > 0 {
      assert Words(d[b])[j] == SlotValue(j, free, j);
      var next := if free < NUM_BLOCKS then free + 1 else free;
      assert SlotsMade(d[b], j - 1, next) by {
        forall t | 1 <= t <= j - 1 ensures Words(d[b])[t] == SlotValue(j - 1, next, t) {
          assert SlotValue(j, free, t) == SlotValue(j - 1, next, t);
        }
      }
      SlotsRead(d, b, j - 1, next, below);
    }
  }

  lemma {:induction false} MadeReads(d: Disk, lists: nat, i: nat, free: nat)
    requires i < lists && HEAD + lists <= NUM_BLOCKS && 0 < free <= NUM_BLOCKS && AllMade(d, lists, i, free)
    ensures Reads(d, HEAD + i, K - 1, FreshStack(lists, i, free))
    decreases lists - i
  {
    var next := NextFirst(free);
    if i + 1 < lists {
      MadeReads(d, lists, i + 1, next);
    }
    TailReads(d, lists, i, free, next);
    SlotsRead(d, HEAD + i, K - 1, free, TailStack(lists, i, next));
  }

  /** What the chain reads behind the entries of list i. */
  lemma TailReads(d: Disk, lists: nat, i: nat, free: nat, next: nat)
    requires i < lists && HEAD + lists <= NUM_BLOCKS && ListMade(d, lists, i, free)
    requires i + 1 < lists ==> Reads(d, HEAD + i + 1, K - 1, FreshStack(lists, i + 1, next))
    ensures Reads(d, HEAD + i, 0, TailStack(lists, i, next))
  {}

  /** As long as there are blocks for one more list, a list is full. */
  lemma {:induction false} FullLists(d: Disk, lists: nat, i: nat, free: nat, n: nat)
    requires i <= n < lists - 1 && HEAD + lists <= NUM_BLOCKS && AllMade(d, lists, i, free)
    requires 0 < free && free + Times(lists - 1 - i, K - 1) <= NUM_BLOCKS
    ensures FirstHole(Words(d[HEAD + n]), 1) == K
    decreases n - i
  {
    assert Times(lists - 1 - i, K - 1) == Times(lists - 2 - i, K - 1) + (K - 1);
    if i == n {
      var hole := FirstHole(Words(d[HEAD + n]), 1);
      assert hole < K ==> SlotValue(K - 1, free, hole) != 0;
    } else {
      FullLists(d, lists, i + 1, NextFirst(free), n);
    }
  }

  // ----- the theorems ----------------------------------------------------

  /** create_free_blocks makes ceil(D/K) chained lists; their entries and the list blocks
      behind the head are all data blocks but the head, each exactly once,
      num_free_blocks counts the entries, and block 0 holds the superblock. */
  lemma FormatFreeList(d: Disk, b: Block) returns (s: Stack)
    ensures var v := Format(d, b);
      && FreeInv(v.disk, s)
      && (forall x: word :: x in Ids(s) <==> IsData(x))
      && Listed(s) == v.freeBlocks && |Links(s)| == LISTS - 1 && Committed(v)
    ensures LISTS * K >= DATA_BLOCKS && (LISTS - 1) * K < DATA_BLOCKS
  {
    SizingLaws();
    ListsMade(WriteInodes(FreshSuper(d).disk, 1), b, LISTS, 0, FIRST_LISTED, Format(d, b).disk);
    s := ListsRead(Format(d, b).disk, LISTS, FIRST_LISTED);
    InodesFrame(FreshSuper(d).disk, 1);
    ListsKept(WriteInodes(FreshSuper(d).disk, 1), b, LISTS, 0, FIRST_LISTED);
  }

  /** What the lists of a fresh volume read. */
  lemma ListsRead(d: Disk, lists: nat, first: nat) returns (s: Stack)
    requires 1 <= lists && HEAD + lists == first <= NUM_BLOCKS && AllMade(d, lists, 0, first)
    requires NUM_BLOCKS - first <= Times(lists, K - 1)
    ensures FreeInv(d, s) && Listed(s) == NUM_BLOCKS - first && |Links(s)| == lists - 1
    ensures forall x: word :: x in Ids(s) <==> IsData(x)
  {
    s := FreshStack(lists, 0, first);
    FreshStackLaws(lists, 0, first);
    MadeReads(d, lists, 0, first);
    forall x: word ensures x in Ids(s) <==> IsData(x) {
      assert x in Ids(s) <==> InTail(lists, 0, first, x);
    }
    ListedOrLink(s);
    DataCard(HEAD + 1, NUM_BLOCKS, Ids(s));
  }

  lemma DataCard(a: nat, b: nat, ids: set<word>)
    requires a <= b && forall x: word :: x in ids <==> a <= x < b
    requires b < ID_LIMIT
    ensures |ids| == b - a
  {
    RangeCard(a);
    RangeCard(b);
    var low, data: set<int> := Range(a), ids;
    forall x ensures x in Range(b) <==> x in low || x in data {
      if a <= x < b {
        var w: word := x;
        assert w in ids;
      }
    }
    assert Range(b) == low + data && low !! data;
  }

  /** The counters of a fresh volume. */
  lemma FormatCounters(d: Disk, b: Block)
    ensures Format(d, b).freeBlocks == (NUM_BLOCKS - NUM_INODE_BLOCKS - 1) * (K - 1) / K
    ensures Format(d, b).freeInodes == NUM_INODES
  {
    hide MakeLists, WriteInodes;
    SizingLaws();
  }

  /** So every run of the allocator from mkfs keeps the promises of FreeRuns. */
  lemma FormatStartsRun(d: Disk, b: Block) returns (s: Stack)
    ensures RunInv(Client(Format(d, b), {}, 0), s)
  {
    s := FormatFreeList(d, b);
    assert Rem(LISTED_BLOCKS, ID_LIMIT) == LISTED_BLOCKS;
  }

  /** In every run of the allocator from mkfs, num_free_blocks is the number of listed
      blocks plus the frees so far that found the head full, and it never underflows. */
  lemma FormatRunCounts(d: Disk, b: Block, ops: seq<Op>) returns (s: Stack)
    requires Run(Client(Format(d, b), {}, 0), ops).spills + NUM_BLOCKS < ID_LIMIT
    ensures var c := Run(Client(Format(d, b), {}, 0), ops);
      && FreeInv(c.vol.disk, s) && c.vol.freeBlocks == Listed(s) + c.spills
      && (forall x: word :: IsData(x) ==> (x in Ids(s) <==> x !in c.held))
      && (LastUsed(Words(c.vol.disk[HEAD]), K - 1) > 0 ==> c.vol.freeBlocks > 0)
  {
    var s0 := FormatStartsRun(d, b);
    s := RunKeeps(Client(Format(d, b), {}, 0), s0, ops);
    CounterExact(Run(Client(Format(d, b), {}, 0), ops), s);
  }

  /** Every list but the last one is full. */
  lemma FormatFillsLists(d: Disk, b: Block, n: nat)
    requires n < LISTS - 1
    ensures FirstHole(Words(Format(d, b).disk[HEAD + n]), 1) == K
  {
    ListsMade(WriteInodes(FreshSuper(d).disk, 1), b, LISTS, 0, FIRST_LISTED, Format(d, b).disk);
    FullLists(Format(d, b).disk, LISTS, 0, FIRST_LISTED, n);
  }

  /** What list n of a fresh volume holds. */
  lemma {:induction false} ListHolds(d: Disk, lists: nat, i: nat, free: nat, n: nat)
    requires i <= n < lists && HEAD + lists <= NUM_BLOCKS && free <= NUM_BLOCKS && AllMade(d, lists, i, free)
    ensures Words(d[HEAD + n])[0] == NextList(lists, n)
    ensures SlotsMade(d[HEAD + n], K - 1, free + Times(n - i, K - 1))
    decreases n - i
  {
    if i < n {
      assert Times(n - i, K - 1) == Times(n - i - 1, K - 1) + (K - 1);
      ListHolds(d, lists, i + 1, NextFirst(free), n);
      if free + (K - 1) > NUM_BLOCKS {
        SlotsBeyond(d[HEAD + n], NUM_BLOCKS + Times(n - i - 1, K - 1), free + Times(n - i, K - 1));
      }
    }
  }

  /** Behind the last block it does not matter where a list starts. */
  lemma SlotsBeyond(b: Block, free: nat, more: nat)
    requires NUM_BLOCKS <= free && NUM_BLOCKS <= more && SlotsMade(b, K - 1, free)
    ensures SlotsMade(b, K - 1, more)
  {
    forall t | 1 <= t <= K - 1 ensures Words(b)[t] == SlotValue(K - 1, more, t) {
      assert Words(b)[t] == SlotValue(K - 1, free, t);
    }
  }

  /** The chain of a fresh volume, number by number: list i lies in block
      1 + NUM_INODE_BLOCKS + i and links the next one; the lists are filled from the last
      slot down with the blocks behind the lists, in ascending order, and with zeros when
      there are none left. */
  lemma FormatLists(d: Disk, b: Block, i: nat, t: nat, x: int)
    requires i < LISTS && 1 <= t < K
    requires x == 1 + NUM_INODE_BLOCKS + LISTS + i * (K - 1) + (K - 1 - t)
    ensures var list := Words(Format(d, b).disk[1 + NUM_INODE_BLOCKS + i]);
      && list[0] == (if i + 1 < LISTS then 1 + NUM_INODE_BLOCKS + i + 1 else 0)
      && list[t] == if x < NUM_BLOCKS then x else 0
  {
    var e := Format(d, b).disk;
    ListsMade(WriteInodes(FreshSuper(d).disk, 1), b, LISTS, 0, FIRST_LISTED, e);
    HeldAt(e, i, t, x);
  }

  lemma HeldAt(e: Disk, i: nat, t: nat, x: int)
    requires i < LISTS && 1 <= t < K && AllMade(e, LISTS, 0, FIRST_LISTED)
    requires x == 1 + NUM_INODE_BLOCKS + LISTS + i * (K - 1) + (K - 1 - t)
    ensures Words(e[HEAD + i])[0] == (if i + 1 < LISTS then 1 + NUM_INODE_BLOCKS + i + 1 else 0)
    ensures Words(e[HEAD + i])[t] == if x < NUM_BLOCKS then x else 0
  {
    ListHolds(e, LISTS, 0, FIRST_LISTED, i);
    TimesIsMul(i, K - 1);
    assert Words(e[HEAD + i])[t] == SlotValue(K - 1, FIRST_LISTED + Times(i, K - 1), t);
  }

  // ----- packed volumes --------------------------------------------------

  /** What the last list holds. */
  lemma {:induction false} LastList(d: Disk, lists: nat, i: nat, free: nat)
    requires i < lists && HEAD + lists <= NUM_BLOCKS && AllMade(d, lists, i, free)
    requires free + Times(lists - 1 - i, K - 1) <= NUM_BLOCKS
    ensures SlotsMade(d[HEAD + lists - 1], K - 1, free + Times(lists - 1 - i, K - 1))
    decreases lists - i
  {
    if i + 1 < lists {
      assert Times(lists - 1 - i, K - 1) == Times(lists - 2 - i, K - 1) + (K - 1);
      LastList(d, lists, i + 1, NextFirst(free));
    }
  }

  /** A list that is filled from the high end has no hole in front exactly when it is
      empty or full. */
  lemma FilledPacked(b: Block, free: nat)
    requires 0 < free <= NUM_BLOCKS <= free + (K - 1) && SlotsMade(b, K - 1, free)
    ensures PackedBlock(b) <==> free == NUM_BLOCKS || free + (K - 1) == NUM_BLOCKS
  {
    if free < NUM_BLOCKS < free + (K - 1) {
      assert Words(b)[K - 1] == SlotValue(K - 1, free, K - 1) && Words(b)[1] == SlotValue(K - 1, free, 1);
    } else {
      forall t | 1 <= t < K ensures Words(b)[t] != 0 <==> free < NUM_BLOCKS {
        assert Words(b)[t] == SlotValue(K - 1, free, t);
      }
    }
  }

  lemma {:induction false} EntriesLinks(a: nat, b: nat, below: Stack)
    requires b <= NUM_BLOCKS
    ensures Links(Entries(a, b, below)) == Links(below)
    decreases b - a
  {
    if a < b {
      EntriesLinks(a + 1, b, below);
    }
  }

  lemma {:induction false} FreshLinks(lists: nat, i: nat, free: nat)
    requires i < lists && HEAD + lists <= NUM_BLOCKS
    ensures forall x: word :: x in Links(FreshStack(lists, i, free)) <==> HEAD + i < x < HEAD + lists
    decreases lists - i
  {
    var next := NextFirst(free);
    EntriesLinks(free, next, TailStack(lists, i, next));
    if i + 1 < lists {
      FreshLinks(lists, i + 1, next);
    }
  }

  /** The last list is empty or full exactly when the lists behind the head can be filled
      without a rest. */
  lemma RestOfLists()
    ensures Times(LISTS - 1, K - 1) <= LISTED_BLOCKS <= Times(LISTS - 1, K - 1) + (K - 1)
    ensures LISTED_BLOCKS % (K - 1) == 0
      <==> LISTED_BLOCKS == Times(LISTS - 1, K - 1) || LISTED_BLOCKS == Times(LISTS - 1, K - 1) + (K - 1)
  {
    var q, rest := LISTS - 1, LISTED_BLOCKS - Times(LISTS - 1, K - 1);
    assert Times(LISTS, K - 1) == Times(LISTS - 1, K - 1) + (K - 1);
    TimesIsMul(q, K - 1);
    TimesIsMul(LISTS, K - 1);
    if rest == K - 1 {
      DivModUnique(LISTED_BLOCKS, K - 1, LISTS, 0);
    } else {
      DivModUnique(LISTED_BLOCKS, K - 1, q, rest);
    }
  }

  /** A fresh volume is packed, so that the stack laws hold of it, exactly when K - 1
      divides num_free_blocks: only then is its last list empty or full. */
  lemma FormatPacked(d: Disk, b: Block) returns (s: Stack)
    ensures FreeInv(Format(d, b).disk, s)
    ensures PackedChain(Format(d, b).disk, s) <==> LISTED_BLOCKS % (K - 1) == 0
  {
    hide PackedBlock;
    var e := Format(d, b).disk;
    ListsMade(WriteInodes(FreshSuper(d).disk, 1), b, LISTS, 0, FIRST_LISTED, e);
    s := FreshStack(LISTS, 0, FIRST_LISTED);
    FreshStackLaws(LISTS, 0, FIRST_LISTED);
    MadeReads(e, LISTS, 0, FIRST_LISTED);
    FreshLinks(LISTS, 0, FIRST_LISTED);
    PackedIffLast(d, b, s);
    LastPacked(e);
  }

  lemma LastPacked(e: Disk)
    requires AllMade(e, LISTS, 0, FIRST_LISTED)
    ensures PackedBlock(e[HEAD + LISTS - 1]) <==> LISTED_BLOCKS % (K - 1) == 0
  {
    RestOfLists();
    LastList(e, LISTS, 0, FIRST_LISTED);
    FilledPacked(e[HEAD + LISTS - 1], FIRST_LISTED + Times(LISTS - 1, K - 1));
  }

  lemma PackedIffLast(d: Disk, b: Block, s: Stack)
    requires forall x: word :: x in Links(s) <==> HEAD < x < HEAD + LISTS
    ensures PackedChain(Format(d, b).disk, s) <==> PackedBlock(Format(d, b).disk[HEAD + LISTS - 1])
  {
    hide Format;
    var e, last: word := Format(d, b).disk, HEAD + LISTS - 1;
    forall x | HEAD <= x < last ensures PackedBlock(e[x]) {
      FormatFillsLists(d, b, x - HEAD);
      FullIsPacked(e[x]);
    }
    assert last == HEAD || last in Links(s);
  }

  lemma FullIsPacked(b: Block)
    requires FirstHole(Words(b), 1) == K
    ensures PackedBlock(b)
  {}

  /** The inode table of a fresh volume: all inodes free; the slots behind the last one
      are as they were. */
  lemma FormatTable(d: Disk, b: Block)
    ensures NUM_INODES <= ALL_SLOTS
    ensures forall n :: 1 <= n <= ALL_SLOTS ==>
      SlotOf(Format(d, b).disk, n) == if n <= NUM_INODES then FreshInode(n) else SlotOf(d, n)
  {
    TableHoldsInodes();
    var d0 := FreshSuper(d).disk;
    var d1 := WriteInodes(d0, 1);
    ListsKept(d1, b, LISTS, 0, FIRST_LISTED);
    forall n | 1 <= n <= ALL_SLOTS
      ensures SlotOf(Format(d, b).disk, n) == if n <= NUM_INODES then FreshInode(n) else SlotOf(d, n)
    {
      WrittenInodes(d0, 1, n, d1);
      SlotFrame(d1, Format(d, b).disk, n);
      SlotFrame(d, d0, n);
    }
  }
}

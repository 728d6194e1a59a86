/** What the allocator promises over whole runs: stack order, exhaustion, conservation
    of the data blocks, and the meaning of superblock.num_free_blocks. */
module FreeRuns {
  import opened Geometry
  import opened Codec
  import opened FreeList

  // ----- stack order -----------------------------------------------------

  /** Every list block of the chain has its numbers at the front. */
  ghost predicate PackedChain(d: Disk, s: Stack) {
    && PackedBlock(d[HEAD])
    && forall x :: x in Links(s) && x < NUM_BLOCKS ==> PackedBlock(d[x])
  }

  /** The free list is packed and reads `s`. */
  ghost predicate PackedInv(d: Disk, s: Stack) {
    FreeInv(d, s) && PackedChain(d, s)
  }

  /** On a packed chain data_block_alloc is pop, also when it consumes a list block,
      and the chain stays packed. */
  lemma AllocIsPop(v: Vol, s: Stack)
    requires PackedInv(v.disk, s) && !s.Empty?
    ensures Alloc(v).ok && Alloc(v).id == Order(s)[0]
    ensures PackedInv(Alloc(v).vol.disk, s.below) && Order(s.below) == Order(s)[1..]
  {
    AllocPops(v, s);
    LinksAreIds(s.below);
    IdsAreData(s.below);
    var d, d' := v.disk, Alloc(v).vol.disk;
    assert PackedBlock(d'[HEAD]) by {
      var k := LastUsed(Words(d[HEAD]), K - 1);
      if k > 0 {
        assert d'[HEAD] == SetWord(d[HEAD], k, 0);
      } else {
        AllocConsumes(v, s);
        assert d'[HEAD] == d[s.id];
      }
    }
  }

  /** On a packed chain data_block_free is push, also when the head spills, and the
      chain stays packed. */
  lemma FreeIsPush(v: Vol, s: Stack, id: word)
    requires PackedInv(v.disk, s) && IsData(id) && id !in Ids(s)
    ensures Free(v, id).ok
    ensures PackedInv(Free(v, id).vol.disk, Push(s, 0, id, HeadFull(v.disk)))
    ensures Order(Push(s, 0, id, HeadFull(v.disk))) == [id] + Order(s)
  {
    var k := FreeInserts(v, s, id);
    FreeFrame(v, id);
    LinksAreIds(s);
    IdsAreData(s);
    var d, d' := v.disk, Free(v, id).vol.disk;
    if HeadFull(d) {
      assert d'[HEAD] == SetWord(ZERO, 0, id) && d'[id] == d[HEAD];
      ZeroWords();
    } else {
      assert d'[HEAD] == SetWord(d[HEAD], FirstHole(Words(d[HEAD]), 1), id);
    }
  }

  /** The volume as a free and an allocation of the same block leave it: the block is
      cleared, the superblock is written, and a head that was full has been counted. */
  function Restored(v: Vol, id: word): Vol
    requires id < NUM_BLOCKS
  {
    Commit(Vol(v.disk[id := ZERO], if HeadFull(v.disk) then Increment(v.freeBlocks) else v.freeBlocks, v.freeInodes))
  }

  /** Freeing a block and allocating again returns that block exactly when the head
      list is packed; the volume is then as it was, but for the cleared block and what
      the superblock says. */
  lemma FreeThenAlloc(v: Vol, s: Stack, id: word)
    requires FreeInv(v.disk, s) && IsData(id) && id !in Ids(s)
    ensures Alloc(Free(v, id).vol).ok
    ensures Alloc(Free(v, id).vol).id == id <==> PackedBlock(v.disk[HEAD])
    ensures PackedBlock(v.disk[HEAD]) ==> Alloc(Free(v, id).vol).vol == Restored(v, id)
  {
    var k := FreeInserts(v, s, id);
    AllocPops(Free(v, id).vol, Push(s, k, id, HeadFull(v.disk)));
    if HeadFull(v.disk) {
      RefillSpilled(v, id);
    } else {
      RefillHole(v, s, id);
    }
  }

  lemma RefillSpilled(v: Vol, id: word)
    requires IsData(id) && HeadFull(v.disk)
    ensures Alloc(Free(v, id).vol).id == id && PackedBlock(v.disk[HEAD])
    ensures Alloc(Free(v, id).vol).vol == Restored(v, id)
  {
    var f := Free(v, id).vol;
    assert f.disk[HEAD] == SetWord(ZERO, 0, id);
    ZeroWords();
    assert LastUsed(Words(f.disk[HEAD]), K - 1) == 0;
    assert f.disk[id] == v.disk[HEAD];
    assert Alloc(f).vol.disk == Restored(v, id).disk;
  }

  lemma RefillHole(v: Vol, s: Stack, id: word)
    requires FreeInv(v.disk, s) && IsData(id) && id !in Ids(s) && !HeadFull(v.disk)
    ensures Alloc(Free(v, id).vol).id == id <==> PackedBlock(v.disk[HEAD])
    ensures PackedBlock(v.disk[HEAD]) ==> Alloc(Free(v, id).vol).vol == Restored(v, id)
  {
    var ws, hole, f := Words(v.disk[HEAD]), FirstHole(Words(v.disk[HEAD]), 1), Free(v, id).vol;
    var ws' := Words(f.disk[HEAD]);
    var top := LastUsed(ws', K - 1);
    assert f.disk[HEAD] == SetWord(v.disk[HEAD], hole, id) && ws' == ws[hole := id];
    assert ws'[hole] == id && ws'[top] != 0;
    if top == hole {
      WordsInjective(SetWord(f.disk[HEAD], hole, 0), v.disk[HEAD]);
      assert Alloc(f).vol.disk == Restored(v, id).disk;
    } else {
      assert ws[top] != 0 && ws[hole] == 0 && hole < top;
      ListedInStack(v.disk, s, K - 1, top);
    }
  }

  /** A number listed in the head is on the stack. */
  lemma {:induction false} ListedInStack(d: Disk, s: Stack, i: nat, k: nat)
    requires 1 <= k <= i < K && Reads(d, HEAD, i, s) && Words(d[HEAD])[k] != 0
    ensures Words(d[HEAD])[k] in Ids(s)
    decreases i
  {
    if k < i {
      ListedInStack(d, if Words(d[HEAD])[i] == 0 then s else s.below, i - 1, k);
    }
  }

  // ----- exhaustion ------------------------------------------------------

  /** The volume after n allocations, and the numbers they returned; stops at a failure. */
  function AfterAllocs(v: Vol, n: nat): Vol
    decreases n
  {
    if n == 0 || !Alloc(v).ok then v else AfterAllocs(Alloc(v).vol, n - 1)
  }

  function AllocIds(v: Vol, n: nat): seq<word>
    decreases n
  {
    if n == 0 || !Alloc(v).ok then [] else [Alloc(v).id] + AllocIds(Alloc(v).vol, n - 1)
  }

  function Drop(s: Stack, n: nat): Stack
    requires n <= Size(s)
  {
    if n == 0 then s else Drop(s.below, n - 1)
  }

  /** The first n calls return the n topmost blocks, and leave the others. */
  lemma {:induction false} AllocsTakeFromTop(v: Vol, s: Stack, n: nat)
    requires FreeInv(v.disk, s) && n <= Size(s)
    ensures |Order(s)| == Size(s) && AllocIds(v, n) == Order(s)[..n]
    ensures FreeInv(AfterAllocs(v, n).disk, Drop(s, n)) && Size(Drop(s, n)) == Size(s) - n
    decreases n
  {
    OrderLength(s);
    if n > 0 {
      AllocPops(v, s);
      AllocsTakeFromTop(Alloc(v).vol, s.below, n - 1);
      assert Order(s)[..n] == [Order(s)[0]] + Order(s.below)[..n - 1];
    }
  }

  lemma {:induction false} OrderLength(s: Stack)
    ensures |Order(s)| == Size(s)
  {
    if !s.Empty? {
      OrderLength(s.below);
    }
  }

  lemma {:induction false} OrderIsIds(s: Stack)
    ensures |Order(s)| == Size(s)
    ensures forall x :: x in Order(s) <==> x in Ids(s)
    ensures Proper(s) ==> forall i, j :: 0 <= i < j < Size(s) ==> Order(s)[i] != Order(s)[j]
  {
    if !s.Empty? {
      OrderIsIds(s.below);
    }
  }

  /** data_block_alloc returns -1 exactly when the free set is empty, so from a free set
      of n blocks exactly n calls succeed; they return the whole set, each block once. */
  lemma AllocExhausts(v: Vol, s: Stack)
    requires FreeInv(v.disk, s)
    ensures Alloc(v).ok <==> Ids(s) != {}
    ensures forall n :: 0 <= n < |Ids(s)| ==> Alloc(AfterAllocs(v, n)).ok
    ensures !Alloc(AfterAllocs(v, |Ids(s)|)).ok
    ensures var ids := AllocIds(v, |Ids(s)|);
      && |ids| == |Ids(s)|
      && (forall x :: x in ids <==> x in Ids(s))
      && forall i, j :: 0 <= i < j < |ids| ==> ids[i] != ids[j]
  {
    hide Alloc;
    ListedOrLink(s);
    OrderIsIds(s);
    AllocPops(v, s);
    var size := Size(s);
    forall n | 0 <= n <= size ensures Alloc(AfterAllocs(v, n)).ok <==> n < size {
      AllocsTakeFromTop(v, s, n);
      AllocPops(AfterAllocs(v, n), Drop(s, n));
    }
    AllocsTakeFromTop(v, s, size);
    assert Order(s)[..size] == Order(s);
  }

  // ----- runs ------------------------------------------------------------

  /** A user of the allocator: the volume, the blocks it holds, and how often a free
      found the head full.  It frees and overwrites only blocks it holds. */
  datatype Client = Client(vol: Vol, held: set<word>, spills: nat)

  datatype Op = Take | Give(id: word) | Overwrite(id: word, data: Block)

  function Step(c: Client, op: Op): Client {
    match op
    case Take =>
      var a := Alloc(c.vol);
      Client(a.vol, if a.ok then c.held + {a.id} else c.held, c.spills)
    case Give(id) =>
      if id !in c.held then c
      else Client(Free(c.vol, id).vol, c.held - {id}, c.spills + if HeadFull(c.vol.disk) then 1 else 0)
    case Overwrite(id, data) =>
      if id !in c.held || id >= NUM_BLOCKS then c
      else Client(Vol(c.vol.disk[id := data], c.vol.freeBlocks, c.vol.freeInodes), c.held, c.spills)
  }

  function Run(c: Client, ops: seq<Op>): Client
    decreases |ops|
  {
    if ops == [] then c else Run(Step(c, ops[0]), ops[1..])
  }

  /** Every data block is either free or held, never both; the superblock counter equals,
      modulo 2^64, the listed numbers plus the spills so far; and block 0 holds the
      superblock. */
  ghost predicate RunInv(c: Client, s: Stack) {
    && FreeInv(c.vol.disk, s)
    && (forall x: word :: IsData(x) && x !in Ids(s) <==> x in c.held)
    && Counts(c.vol, s, c.spills)
    && Committed(c.vol)
  }

  lemma TakeKeeps(c: Client, s: Stack)
    requires RunInv(c, s)
    ensures RunInv(Step(c, Take), if s.Empty? then s else s.below)
  {
    AllocPops(c.vol, s);
  }

  lemma GiveKeeps(c: Client, s: Stack, id: word) returns (s': Stack)
    requires RunInv(c, s) && id in c.held
    ensures RunInv(Step(c, Give(id)), s')
  {
    var k := FreeInserts(c.vol, s, id);
    FreeFrame(c.vol, id);
    FreeCounts(c.vol, s, id, k, c.spills);
    s' := Push(s, k, id, HeadFull(c.vol.disk));
  }

  lemma OverwriteKeeps(c: Client, s: Stack, id: word, data: Block)
    requires RunInv(c, s) && id in c.held
    ensures RunInv(Step(c, Overwrite(id, data)), s)
  {
    LinksAreIds(s);
    ReadsFrame(c.vol.disk, HEAD, Step(c, Overwrite(id, data)).vol.disk, HEAD, K - 1, s);
  }

  lemma StepKeeps(c: Client, s: Stack, op: Op) returns (s': Stack)
    requires RunInv(c, s)
    ensures RunInv(Step(c, op), s')
  {
    s' := s;
    match op {
      case Take =>
        TakeKeeps(c, s);
        s' := if s.Empty? then s else s.below;
      case Give(id) =>
        if id in c.held {
          s' := GiveKeeps(c, s, id);
        }
      case Overwrite(id, data) =>
        if id in c.held {
          OverwriteKeeps(c, s, id, data);
        }
    }
  }

  /** In every run no data block is lost or handed out twice, and the counter keeps its meaning. */
  lemma {:induction false} RunKeeps(c: Client, s: Stack, ops: seq<Op>) returns (s': Stack)
    requires RunInv(c, s)
    ensures RunInv(Run(c, ops), s')
    decreases |ops|
  {
    if ops == [] {
      s' := s;
    } else {
      var t := StepKeeps(c, s, ops[0]);
      s' := RunKeeps(Step(c, ops[0]), t, ops[1..]);
    }
  }

  /** The operation frees or overwrites block x. */
  predicate Names(op: Op, x: word) {
    (op.Give? || op.Overwrite?) && op.id == x
  }

  /** A run leaves alone every inode block and every held block that none of its
      operations names. */
  lemma {:induction false} RunFrame(c: Client, s: Stack, ops: seq<Op>, x: word)
    requires RunInv(c, s)
    requires 1 <= x < HEAD || (x in c.held && forall i :: 0 <= i < |ops| ==> !Names(ops[i], x))
    ensures x < NUM_BLOCKS && Run(c, ops).vol.disk[x] == c.vol.disk[x]
    decreases |ops|
  {
    if ops != [] {
      var t := StepKeeps(c, s, ops[0]);
      StepFrame(c, s, ops[0], x);
      RunFrame(Step(c, ops[0]), t, ops[1..], x);
    }
  }

  lemma StepFrame(c: Client, s: Stack, op: Op, x: word)
    requires RunInv(c, s)
    requires 1 <= x < HEAD || (x in c.held && !Names(op, x))
    ensures Step(c, op).vol.disk[x] == c.vol.disk[x]
    ensures x in c.held && x > HEAD ==> x in Step(c, op).held
  {
    match op {
      case Take =>
        AllocPops(c.vol, s);
        IdsAreData(s);
      case Give(id) =>
        if id in c.held {
          FreeFrame(c.vol, id);
        }
      case Overwrite(id, _) =>
    }
  }

  /** At every point of a run init_superblock reads back the superblock as it is in memory. */
  lemma RunReadsBack(c: Client, s: Stack, ops: seq<Op>)
    requires RunInv(c, s)
    ensures InitSuperblock(Run(c, ops).vol.disk) == Run(c, ops).vol
  {
    var s' := RunKeeps(c, s, ops);
    InitReadsCommitted(Run(c, ops).vol);
  }

  /** Far from 2^64 the counter is exact. */
  lemma CountsExact(v: Vol, s: Stack, n: nat)
    requires FreeInv(v.disk, s) && Counts(v, s, n) && n + NUM_BLOCKS < ID_LIMIT
    ensures v.freeBlocks == Listed(s) + n
  {
    ListedOrLink(s);
    IdsAreData(s);
    RangeCard(NUM_BLOCKS);
    SubsetCard(Ids(s), Range(NUM_BLOCKS));
  }

  /** As long as the spills stay far from 2^64 the counter is exact, and it is positive
      whenever data_block_alloc is about to decrement it. */
  lemma CounterExact(c: Client, s: Stack)
    requires RunInv(c, s) && c.spills + NUM_BLOCKS < ID_LIMIT
    ensures c.vol.freeBlocks == Listed(s) + c.spills
    ensures LastUsed(Words(c.vol.disk[HEAD]), K - 1) > 0 ==> c.vol.freeBlocks > 0
  {
    CountsExact(c.vol, s, c.spills);
    if LastUsed(Words(c.vol.disk[HEAD]), K - 1) > 0 {
      AllocTakes(c.vol, s);
    }
  }

  function Range(n: nat): set<int> {
    if n == 0 then {} else Range(n - 1) + {n - 1}
  }

  lemma {:induction false} RangeCard(n: nat)
    ensures |Range(n)| == n && forall x :: x in Range(n) <==> 0 <= x < n
  {
    if n > 0 {
      RangeCard(n - 1);
    }
  }

  lemma SubsetCard(a: set<int>, b: set<int>)
    requires a <= b
    ensures |a| <= |b|
  {
    assert b == a + (b - a);
  }

  // ----- runs on a packed chain ------------------------------------------

  /** What the operations do to an ideal stack of free blocks. */
  function StackRun(pile: seq<word>, held: set<word>, ops: seq<Op>): (seq<word>, set<word>)
    decreases |ops|
  {
    if ops == [] then (pile, held)
    else
      match ops[0]
      case Take =>
        if pile == [] then StackRun(pile, held, ops[1..])
        else StackRun(pile[1..], held + {pile[0]}, ops[1..])
      case Give(id) =>
        if id in held then StackRun([id] + pile, held - {id}, ops[1..])
        else StackRun(pile, held, ops[1..])
      case Overwrite(_, _) => StackRun(pile, held, ops[1..])
  }

  /** Started packed, the on-disk free list behaves as a stack over any run. */
  lemma {:induction false} RunIsStack(c: Client, s: Stack, ops: seq<Op>) returns (s': Stack)
    requires PackedInv(c.vol.disk, s)
    requires forall x :: x in c.held ==> IsData(x) && x !in Ids(s)
    ensures PackedInv(Run(c, ops).vol.disk, s')
    ensures Order(s') == StackRun(Order(s), c.held, ops).0
    ensures Run(c, ops).held == StackRun(Order(s), c.held, ops).1
    decreases |ops|
  {
    if ops == [] {
      s' := s;
    } else {
      var t := PackedStep(c, s, ops[0]);
      s' := RunIsStack(Step(c, ops[0]), t, ops[1..]);
    }
  }

  lemma PackedStep(c: Client, s: Stack, op: Op) returns (t: Stack)
    requires PackedInv(c.vol.disk, s)
    requires forall x :: x in c.held ==> IsData(x) && x !in Ids(s)
    ensures PackedInv(Step(c, op).vol.disk, t)
    ensures forall x :: x in Step(c, op).held ==> IsData(x) && x !in Ids(t)
    ensures (Order(t), Step(c, op).held) == StackRun(Order(s), c.held, [op])
  {
    t := s;
    match op {
      case Take =>
        AllocPops(c.vol, s);
        if !s.Empty? {
          AllocIsPop(c.vol, s);
          t := s.below;
        }
      case Give(id) =>
        if id in c.held {
          FreeIsPush(c.vol, s, id);
          t := Push(s, 0, id, HeadFull(c.vol.disk));
        }
      case Overwrite(id, data) =>
        if id in c.held {
          var d' := Step(c, op).vol.disk;
          LinksAreIds(s);
          ReadsFrame(c.vol.disk, HEAD, d', HEAD, K - 1, s);
        }
    }
  }
}

/** The in-memory disk, the superblock counters, and the block allocator that works on
    them in place. */
module Volumes {
  import opened Geometry
  import opened Codec
  import opened FreeList

  // ----- scans of a list block -------------------------------------------

  /** has_at_least_one_datablock_number_left_without_pointer */
  method HasNumberLeft(b: Block) returns (r: bool)
    ensures r <==> exists i :: 1 <= i < K && Words(b)[i] != 0
  {
    var i: nat := K;
    while i >= 2
      invariant 1 <= i <= K
      invariant forall j :: i <= j < K ==> Words(b)[j] == 0
    {
      WordsAt(b, i - 1);
      if WordAt(b, i - 1) != 0 {
        return true;
      }
      i := i - 1;
    }
    return false;
  }

  /** is_datablock_full_of_free_datablock_numbers */
  method IsFull(b: Block) returns (r: bool)
    ensures r <==> forall i :: 1 <= i < K ==> Words(b)[i] != 0
  {
    var i: nat := 2;
    while i <= K
      invariant 2 <= i <= K + 1
      invariant forall j :: 1 <= j < i - 1 ==> Words(b)[j] != 0
    {
      WordsAt(b, i - 1);
      if WordAt(b, i - 1) == 0 {
        return false;
      }
      i := i + 1;
    }
    return true;
  }

  /** get_ith_position_of_free_spot_...: positions count from 1 and skip the pointer;
      -1 when every position is taken. */
  method FreeSpot(b: Block) returns (ith: int)
    ensures ith == -1 <==> forall i :: 1 <= i < K ==> Words(b)[i] != 0
    ensures ith != -1 ==> 2 <= ith <= K && Words(b)[ith - 1] == 0 && forall i :: 1 <= i < ith - 1 ==> Words(b)[i] != 0
  {
    var i: nat := 2;
    while i <= K
      invariant 2 <= i <= K + 1
      invariant forall j :: 1 <= j < i - 1 ==> Words(b)[j] != 0
    {
      WordsAt(b, i - 1);
      if WordAt(b, i - 1) == 0 {
        return i;
      }
      i := i + 1;
    }
    return -1;
  }

  /** get_first_free_datablock_starting_from_end_of_block_and_set_0 */
  method TakeLast(b: Block) returns (id: word, r: Block)
    ensures id == 0 ==> r == b && forall i :: 1 <= i < K ==> Words(b)[i] == 0
    ensures id != 0 ==> exists k :: 1 <= k < K && id == Words(b)[k] && Words(r) == Words(b)[k := 0]
                                    && forall j :: k < j < K ==> Words(b)[j] == 0
  {
    var i: nat := K;
    while i > 1
      invariant 1 <= i <= K
      invariant forall j :: i <= j < K ==> Words(b)[j] == 0
    {
      WordsAt(b, i - 1);
      id := WordAt(b, i - 1);
      if id != 0 {
        r := SetWord(b, i - 1, 0);
        return;
      }
      i := i - 1;
    }
    return 0, b;
  }

  lemma LastUsedIs(b: Block, k: nat)
    requires 1 <= k < K && Words(b)[k] != 0 && forall j :: k < j < K ==> Words(b)[j] == 0
    ensures LastUsed(Words(b), K - 1) == k
  {}

  lemma FirstHoleIs(b: Block, k: nat)
    requires 1 <= k < K && Words(b)[k] == 0 && forall j :: 1 <= j < k ==> Words(b)[j] != 0
    ensures FirstHole(Words(b), 1) == k
  {}

  /** The fields fill the front of the block. */
  lemma {:induction false} StoredTail(b: Block, i: nat, freeBlocks: word, freeInodes: word)
    requires i <= SUPER_FIELDS
    ensures StoreFields(b, i, freeBlocks, freeInodes)[8 * SUPER_FIELDS..] == b[8 * SUPER_FIELDS..]
    decreases SUPER_FIELDS - i
  {
    if i < SUPER_FIELDS {
      var w := SuperField(i, freeBlocks, freeInodes);
      PatchKeeps(b, 8 * i, Encode(w, 8), 8 * SUPER_FIELDS, BLOCK_SIZE);
      StoredTail(SetWord(b, i, w), i + 1, freeBlocks, freeInodes);
    }
  }

  // ----- the volume ------------------------------------------------------

  class Volume {
    /** block_data of the disk emulator. */
    const data: array<Block>

    /** num_free_blocks and num_free_inodes of the superblock. */
    var freeBlocks: word
    var freeInodes: word

    constructor (size: nat)
      requires size == NUM_BLOCKS
      ensures Valid() && fresh(data)
    {
      data := new Block[size](_ => ZERO);
      freeBlocks, freeInodes := 0, 0;
    }

    ghost predicate Valid() {
      data.Length == NUM_BLOCKS
    }

    ghost function State(): Vol
      requires Valid()
      reads this, data
    {
      Vol(data[..], freeBlocks, freeInodes)
    }

    /** read_block, bread */
    method ReadBlock(id: word) returns (ok: bool, b: Block)
      requires Valid()
      ensures ok <==> id < NUM_BLOCKS
      ensures b == if ok then State().disk[id] else ZERO
    {
      if id < NUM_BLOCKS {
        return true, data[id];
      }
      return false, ZERO;
    }

    /** write_block, bwrite: a short buffer is filled up with zeros, a long one is cut. */
    method WriteBlock(id: word, buffer: seq<byte>) returns (ok: bool)
      requires Valid()
      modifies this, data
      ensures ok <==> id < NUM_BLOCKS
      ensures State() == if ok then old(State()).(disk := old(State()).disk[id := FitToBlock(buffer)]) else old(State())
    {
      if id < NUM_BLOCKS {
        data[id] := FitToBlock(buffer);
        return true;
      }
      return false;
    }

    /** commit_superblock */
    method CommitSuperblock() returns (ok: bool)
      requires Valid()
      modifies this, data
      ensures ok && State() == Commit(old(State()))
    {
      ghost var image := SuperImage(freeBlocks, freeInodes);
      StoredTail(ZERO, 0, freeBlocks, freeInodes);
      ok := WriteBlock(0, SuperImage(freeBlocks, freeInodes)[..8 * SUPER_FIELDS]);
      assert data[0] == image;
    }

    /** init_superblock */
    method ReadSuperblock() returns (ok: bool)
      requires Valid()
      modifies this
      ensures ok && State() == InitSuperblock(old(State()).disk)
    {
      var b;
      ok, b := ReadBlock(0);
      WordsAt(b, 1);
      WordsAt(b, 3);
      freeBlocks, freeInodes := WordAt(b, 1), WordAt(b, 3);
    }

    /** data_block_alloc */
    method DataBlockAlloc() returns (ok: bool, id: word)
      requires Valid()
      modifies this, data
      ensures State() == Alloc(old(State())).vol && ok == Alloc(old(State())).ok && id == Alloc(old(State())).id
    {
      ghost var v := State();
      var read, head := ReadBlock(HEAD);
      var left := HasNumberLeft(head);
      id := 0;
      if left {
        var rest;
        id, rest := TakeLast(head);
        ghost var k :| 1 <= k < K && id == Words(head)[k] && Words(rest) == Words(head)[k := 0]
                       && forall j :: k < j < K ==> Words(head)[j] == 0;
        LastUsedIs(head, k);
        WordsInjective(rest, SetWord(head, k, 0));
        ok := WriteBlock(HEAD, rest);
        freeBlocks := Decrement(freeBlocks);
        assert State() == Vol(v.disk[HEAD := SetWord(head, k, 0)], Decrement(v.freeBlocks), v.freeInodes);
      } else {
        WordsAt(head, 0);
        var next := WordAt(head, 0);
        if next == 0 {
          return false, 0;
        }
        var follow;
        read, follow := ReadBlock(next);
        if !read {
          return false, 0;
        }
        ok := WriteBlock(HEAD, follow);
        id := next;
        assert State() == Vol(v.disk[HEAD := v.disk[next]], v.freeBlocks, v.freeInodes);
      }
      ok := WriteBlock(id, ZERO);
      if !ok {
        return false, 0;
      }
      ok := CommitSuperblock();
    }

    /** data_block_free */
    method DataBlockFree(id: word) returns (ok: bool)
      requires Valid()
      modifies this, data
      ensures State() == Free(old(State()), id).vol && ok == Free(old(State()), id).ok
    {
      var read, head := ReadBlock(HEAD);
      var full := IsFull(head);
      if full {
        ok := WriteBlock(id, head);
        if !ok {
          return false;
        }
        ok := WriteBlock(HEAD, SetWord(ZERO, 0, id));
      } else {
        ok := WriteBlock(id, ZERO);
        if !ok {
          return false;
        }
        var ith := FreeSpot(head);
        FirstHoleIs(head, ith - 1);
        ok := WriteBlock(HEAD, SetWord(head, ith - 1, id));
      }
      freeBlocks := Increment(freeBlocks);
      ok := CommitSuperblock();
    }
  }

  /** What write_block makes of a buffer of any size. */
  function FitToBlock(buffer: seq<byte>): (b: Block)
    ensures |buffer| == BLOCK_SIZE ==> b == buffer
    ensures |buffer| >= BLOCK_SIZE ==> b == buffer[..BLOCK_SIZE]
    ensures |buffer| < BLOCK_SIZE ==> b[..|buffer|] == buffer && forall i :: |buffer| <= i < BLOCK_SIZE ==> b[i] == 0
  {
    if |buffer| >= BLOCK_SIZE then buffer[..BLOCK_SIZE] else buffer + seq<byte>(BLOCK_SIZE - |buffer|, _ => 0)
  }
}

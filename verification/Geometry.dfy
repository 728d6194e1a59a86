/** Sizes of an FSTR volume and the elementary value types.

    Every size is symbolic: the constants below have a type that states what the
    sizes must satisfy, and no value.  In the shipped configuration
    NUM_DIRECT = 16, INODE_WIDTH = 32, SLOTS = 16, K = 512, BLOCK_SIZE = 4096. */
module Geometry {
  import opened Arithmetic

  type byte = n: nat | n < 0x100

  const ID_LIMIT: nat := 0x1_0000_0000_0000_0000

  /** A block number or any other 64-bit unsigned field (`big_int`). */
  type word = n: nat | n < ID_LIMIT

  /** Wrap-around increment and decrement of a 64-bit counter. */
  function Increment(n: word): word {
    if n + 1 == ID_LIMIT then 0 else n + 1
  }

  function Decrement(n: word): word {
    if n == 0 then ID_LIMIT - 1 else n - 1
  }

  type DirectCount = n: nat | 1 <= n <= 0x1000 witness 1
  type InodeWidth = n: nat | NUM_DIRECT + 9 <= n <= 0x1_0000 witness NUM_DIRECT + 9
  type ListLength = n: nat | INODE_WIDTH <= n <= 0x10_0000 && n % 8 == 0 witness 0x10_0000
  type SlotCount = n: nat | 1 <= n && forall j: nat :: Times(j, INODE_WIDTH) + INODE_WIDTH <= K <==> j < n
    witness FittingIn(K, INODE_WIDTH)

  /** Direct block numbers held by an inode. */
  const NUM_DIRECT: DirectCount

  /** Size of an inode slot, counted in 8-byte words (INODE_SIZE / 8). */
  const INODE_WIDTH: InodeWidth

  /** Block numbers that fit in one block (BLOCK_ID_LIST_LENGTH). */
  const K: ListLength

  /** Inode slots in one block (BLOCK_SIZE / INODE_SIZE): as many as fit. */
  const SLOTS: SlotCount

  const BLOCK_SIZE: nat := 8 * K

  type InodeCount = n: nat | 1 <= n < 0x8000_0000 witness 1
  type AreaSize = n: nat | 1 <= n <= NUM_INODES
      && (forall i: nat :: i < NUM_INODES ==> Quot(i, SLOTS) < n)
      && (exists i: nat :: i < NUM_INODES && Quot(i, SLOTS) == n - 1)
    witness BlocksFor(NUM_INODES, SLOTS)
  type VolumeSize = n: nat | Times(NUM_INODE_BLOCKS + 1, BLOCK_SIZE) + BLOCK_SIZE <= n < ID_LIMIT
    witness SmallestSize()
  type BlockCount = n: nat | NUM_INODE_BLOCKS + 2 <= n < ID_LIMIT
      && forall j: nat :: Times(j, BLOCK_SIZE) + BLOCK_SIZE <= FS_SIZE <==> j < n
    witness BlocksThatFit()

  const NUM_INODES: InodeCount

  /** Blocks for NUM_INODES slots: the ceiling of NUM_INODES / SLOTS. */
  const NUM_INODE_BLOCKS: AreaSize

  /** Size of the volume in bytes: room for the superblock, the inodes and the list head. */
  const FS_SIZE: VolumeSize

  /** Blocks of the volume (FS_SIZE / BLOCK_SIZE): as many as fit. */
  const NUM_BLOCKS: BlockCount

  function SmallestSize(): (n: nat)
    ensures n == Times(NUM_INODE_BLOCKS + 1, BLOCK_SIZE) + BLOCK_SIZE < ID_LIMIT
  {
    TimesIsMul(NUM_INODE_BLOCKS + 1, BLOCK_SIZE);
    MulMono(NUM_INODE_BLOCKS + 1, 0x8000_0000, BLOCK_SIZE);
    Times(NUM_INODE_BLOCKS + 1, BLOCK_SIZE) + BLOCK_SIZE
  }

  function BlocksThatFit(): (n: nat)
    ensures NUM_INODE_BLOCKS + 2 <= n < ID_LIMIT
    ensures forall j: nat :: Times(j, BLOCK_SIZE) + BLOCK_SIZE <= FS_SIZE <==> j < n
  {
    assert 0 <= Times(NUM_INODE_BLOCKS + 1, BLOCK_SIZE);
    var n := FittingIn(FS_SIZE, BLOCK_SIZE);
    assert NUM_INODE_BLOCKS + 1 < n;
    n
  }

  /** Block number of the first data block, the head of the free chain. */
  const HEAD: nat := 1 + NUM_INODE_BLOCKS

  /** Block numbers the allocator may hand out. */
  predicate IsData(id: nat) {
    HEAD < id < NUM_BLOCKS
  }

  type SquareSize = n: nat | n > 0 && forall i: nat :: Quot(i, K) < K <==> i < n witness Below(K, K)
  type CubeSize = n: nat | n > 0 && forall i: nat :: Quot(i, K2) < K <==> i < n witness Below(K, K2)

  /** K squared and cubed (see PowersOfK): block numbers below a double and a triple
      indirect field. */
  const K2: SquareSize
  const K3: CubeSize

  lemma PowersOfK()
    ensures K2 == K * K && K3 == K * K2
  {
    var k2, k3 := Below(K, K), Below(K, K2);
    assert Quot(K2, K) < K <==> K2 < k2;
    assert Quot(k2, K) < K <==> k2 < K2;
    assert Quot(K3, K2) < K <==> K3 < k3;
    assert Quot(k3, K2) < K <==> k3 < K3;
  }

  /** Number of block indices an inode can map. */
  const MAX_INDEX: nat := NUM_DIRECT + K + K2 + K3

  lemma MaxIndexFits()
    ensures MAX_INDEX < ID_LIMIT - 1
  {
    PowersOfK();
    CubeMono(K, 0x10_0000);
    assert K * (K * K) == K * K * K;
  }

  type Block = b: seq<byte> | |b| == BLOCK_SIZE witness seq(BLOCK_SIZE, _ => 0)

  type ZeroBlock = b: Block | forall i :: 0 <= i < BLOCK_SIZE ==> b[i] == 0 witness BlankBlock()

  /** The block of zeros. */
  const ZERO: ZeroBlock

  function BlankBlock(): (b: seq<byte>)
    ensures |b| == BLOCK_SIZE
    ensures forall i :: 0 <= i < BLOCK_SIZE ==> b[i] == 0
  {
    seq<byte>(BLOCK_SIZE, _ => 0)
  }

  function BlankDisk(): seq<Block> {
    seq<Block>(NUM_BLOCKS, _ => ZERO)
  }

  type Disk = d: seq<Block> | |d| == NUM_BLOCKS
    ghost witness BlankDisk()
}

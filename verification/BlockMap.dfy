/** The block map of an inode on values: which disk block holds the i-th block of a file.

    Direct numbers sit in the inode; beyond them, one tree of index blocks of depth
    1, 2 and 3 hangs off the single, double and triple indirect fields. */
module BlockMap {
  import opened Arithmetic
  import opened Geometry
  import opened Codec
  import opened FreeList

  datatype InodeFields = Inode(
    id: word,
    kind: word,
    links: word,
    direct: seq<word>,
    single: word,
    double: word,
    triple: word,
    numBlocks: word,
    used: word,
    numAllocated: word)

  /** `struct inode` without owner, mode and timestamps. */
  type Inode = i: InodeFields | |i.direct| == NUM_DIRECT
    ghost witness FreshInode(1)

  type NoBlocks = s: seq<word> | |s| == NUM_DIRECT && forall i :: 0 <= i < |s| ==> s[i] == 0
    witness seq<word>(NUM_DIRECT, _ => 0)

  /** Direct block numbers of a file without blocks. */
  const NO_BLOCKS: NoBlocks

  const TYPE_ORDINARY: word := 0
  const TYPE_DIRECTORY: word := 1
  const TYPE_FREE: word := 2

  /** The inode mkfs and ifree write: everything zero but the number and the type. */
  function FreshInode(id: word): InodeFields {
    Inode(id, TYPE_FREE, 0, NO_BLOCKS, 0, 0, 0, 0, 0, 0)
  }

  datatype MapResult = MapResult(vol: Vol, ok: bool)
  datatype ChildResult = ChildResult(vol: Vol, ok: bool, child: word)
  datatype InodeResult = InodeResult(vol: Vol, ino: Inode, ok: bool)

  // ----- lookups ---------------------------------------------------------

  /** get_single_indirect_block_id: one slot of one index block, 0 when there is no such block. */
  function GetSingle(d: Disk, list: word, index: nat): word {
    if list == 0 || list >= NUM_BLOCKS || index >= K then 0 else Words(d[list])[index]
  }

  /** get_double_indirect_block_id */
  function GetDouble(d: Disk, list: word, index: nat): word {
    GetSingle(d, GetSingle(d, list, Quot(index, K)), Rem(index, K))
  }

  /** get_triple_indirect_block_id */
  function GetTriple(d: Disk, list: word, index: nat): word
  {
    GetDouble(d, GetSingle(d, list, Quot(index, K2)), Rem(index, K2))
  }

  /** get_block_id */
  function GetBlockId(d: Disk, ino: Inode, index: nat): word {
    if index < NUM_DIRECT then ino.direct[index]
    else if index - NUM_DIRECT < K then GetSingle(d, ino.single, index - NUM_DIRECT)
    else if index - NUM_DIRECT - K < K2 then GetDouble(d, ino.double, index - NUM_DIRECT - K)
    else if index < MAX_INDEX then GetTriple(d, ino.triple, index - NUM_DIRECT - K - K2)
    else 0
  }

  /** The number in slot i of an index block. */
  predicate HoldsAt(d: Disk, list: word, i: int, id: word) {
    0 < list < NUM_BLOCKS && 0 <= i < K && Words(d[list])[i] == id
  }

  /** The way to a block, index by index: K, K squared and K cubed blocks hang off the three
      indirect fields, and each level splits an index by division. */
  lemma LookupPath(d: Disk, ino: Inode, index: nat, a: word, b: word, id: word)
    ensures index < NUM_DIRECT ==> GetBlockId(d, ino, index) == ino.direct[index]
    ensures var i := index - NUM_DIRECT;
      0 <= i < K && HoldsAt(d, ino.single, i, id) ==> GetBlockId(d, ino, index) == id
    ensures var i := index - NUM_DIRECT - K;
      0 <= i < K * K && HoldsAt(d, ino.double, i / K, a) && HoldsAt(d, a, i % K, id) ==>
        GetBlockId(d, ino, index) == id
    ensures var i := index - NUM_DIRECT - K - K * K;
      && 0 <= i < K * (K * K) && HoldsAt(d, ino.triple, i / (K * K), a)
      && HoldsAt(d, a, i % (K * K) / K, b) && HoldsAt(d, b, i % (K * K) % K, id) ==>
        GetBlockId(d, ino, index) == id
    ensures index >= NUM_DIRECT + K + K * K + K * (K * K) ==> GetBlockId(d, ino, index) == 0
  {
    PowersOfK();
    var i, j := index - NUM_DIRECT - K, index - NUM_DIRECT - K - K2;
    if i >= 0 {
      QuotIsDiv(i, K);
    }
    if j >= 0 {
      QuotIsDiv(j, K2);
      QuotIsDiv(Rem(j, K2), K);
    }
  }

  // ----- updates ---------------------------------------------------------

  /** set_single_indirect_block_id */
  function SetSingle(v: Vol, list: word, index: nat, id: word): MapResult
    requires index < K
  {
    if list == 0 || list >= NUM_BLOCKS then MapResult(v, false)
    else
      MapResult(Vol(v.disk[list := SetWord(v.disk[list], index, id)], v.freeBlocks, v.freeInodes), true)
  }

  /** The index block in a slot of `list`, allocated and linked when the slot is empty.
      The list block that is written back was read before the allocation. */
  function EnsureChild(v: Vol, list: word, bucket: nat): ChildResult
    requires list < NUM_BLOCKS && bucket < K
  {
    var child := Words(v.disk[list])[bucket];
    if child != 0 then ChildResult(v, true, child)
    else
      var a := Alloc(v);
      if !a.ok then ChildResult(a.vol, false, 0)
      else
        ChildResult(Vol(a.vol.disk[list := SetWord(v.disk[list], bucket, a.id)], a.vol.freeBlocks, a.vol.freeInodes),
                    true, a.id)
  }

  /** set_double_indirect_block_id */
  function SetDouble(v: Vol, list: word, index: nat, id: word): MapResult
    requires index < K2
  {
    if list == 0 || list >= NUM_BLOCKS then MapResult(v, false)
    else
      var e := EnsureChild(v, list, Quot(index, K));
      if !e.ok then MapResult(e.vol, false) else SetSingle(e.vol, e.child, Rem(index, K), id)
  }

  /** set_triple_indirect_block_id */
  function SetTriple(v: Vol, list: word, index: nat, id: word): MapResult
    requires index < K3
  {
    if list == 0 || list >= NUM_BLOCKS then MapResult(v, false)
    else
      var e := EnsureChild(v, list, Quot(index, K2));
      if !e.ok then MapResult(e.vol, false) else SetDouble(e.vol, e.child, Rem(index, K2), id)
  }

  /** A root index block, allocated when the inode field is 0. */
  function EnsureRoot(v: Vol, root: word): ChildResult {
    if root != 0 then ChildResult(v, true, root)
    else
      var a := Alloc(v);
      ChildResult(a.vol, a.ok, if a.ok then a.id else 0)
  }

  /** The single indirect branch of set_block_id. */
  function SetViaSingle(v: Vol, ino: Inode, i: nat, id: word): InodeResult
    requires i < K
  {
    var e := EnsureRoot(v, ino.single);
    if !e.ok then InodeResult(e.vol, ino, false)
    else
      var r := SetSingle(e.vol, e.child, i, id);
      InodeResult(r.vol, ino.(single := e.child), r.ok)
  }

  /** The double indirect branch of set_block_id. */
  function SetViaDouble(v: Vol, ino: Inode, i: nat, id: word): InodeResult
    requires i < K2
  {
    var e := EnsureRoot(v, ino.double);
    if !e.ok then InodeResult(e.vol, ino, false)
    else
      var r := SetDouble(e.vol, e.child, i, id);
      InodeResult(r.vol, ino.(double := e.child), r.ok)
  }

  /** The triple indirect branch of set_block_id. */
  function SetViaTriple(v: Vol, ino: Inode, i: nat, id: word): InodeResult
    requires i < K3
  {
    var e := EnsureRoot(v, ino.triple);
    if !e.ok then InodeResult(e.vol, ino, false)
    else
      var r := SetTriple(e.vol, e.child, i, id);
      InodeResult(r.vol, ino.(triple := e.child), r.ok)
  }

  /** set_block_id */
  function SetBlockId(v: Vol, ino: Inode, index: nat, id: word): (r: InodeResult)
    ensures r.ok ==> index < MAX_INDEX
  {
    if index < NUM_DIRECT then InodeResult(v, ino.(direct := ino.direct[index := id]), true)
    else if index - NUM_DIRECT < K then SetViaSingle(v, ino, index - NUM_DIRECT, id)
    else if index - NUM_DIRECT - K < K2 then SetViaDouble(v, ino, index - NUM_DIRECT - K, id)
    else if index - NUM_DIRECT - K - K2 < K3 then SetViaTriple(v, ino, index - NUM_DIRECT - K - K2, id)
    else InodeResult(v, ino, false)
  }

  // ----- cells -----------------------------------------------------------

  /** A place that can hold a block number: a field of the inode of a file, or a slot
      of the index block that another cell names.  Fields are numbered
      0..NUM_DIRECT-1 (direct), then single, double and triple indirect. */
  datatype Cell = Field(file: nat, root: nat) | Slot(list: Cell, index: nat)

  function FileOf(c: Cell): nat {
    if c.Field? then c.file else FileOf(c.list)
  }

  function RootOf(c: Cell): nat {
    if c.Field? then c.root else RootOf(c.list)
  }

  function Level(c: Cell): nat {
    if c.Field? then 0 else 1 + Level(c.list)
  }

  /** Index blocks to pass between a field and the data blocks below it. */
  function Depth(root: nat): nat {
    if root < NUM_DIRECT then 0 else root - NUM_DIRECT + 1
  }

  predicate IsCell(files: map<nat, Inode>, c: Cell) {
    match c
    case Field(file, root) => file in files && root < NUM_DIRECT + 3
    case Slot(list, _) => IsCell(files, list) && Level(list) < Depth(RootOf(list))
  }

  /** The cell names a data block, not an index block. */
  predicate IsLeaf(c: Cell) {
    Level(c) == Depth(RootOf(c))
  }

  function RootWord(ino: Inode, root: nat): word
    requires root < NUM_DIRECT + 3
  {
    if root < NUM_DIRECT then ino.direct[root]
    else if root == NUM_DIRECT then ino.single
    else if root == NUM_DIRECT + 1 then ino.double
    else ino.triple
  }

  lemma {:induction false} CellFile(files: map<nat, Inode>, c: Cell)
    requires IsCell(files, c)
    ensures FileOf(c) in files && RootOf(c) < NUM_DIRECT + 3 && Level(c) <= Depth(RootOf(c))
  {
    if c.Slot? {
      CellFile(files, c.list);
    }
  }

  /** The block number a cell holds, 0 for none. */
  function CellId(d: Disk, files: map<nat, Inode>, c: Cell): word
    requires IsCell(files, c)
  {
    match c
    case Field(file, root) => RootWord(files[file], root)
    case Slot(list, index) => GetSingle(d, CellId(d, files, list), index)
  }

  /** The cell of the i-th block of a file. */
  function LeafCell(file: nat, index: nat): Cell {
    if index < NUM_DIRECT then Field(file, index)
    else if index - NUM_DIRECT < K then Slot(Field(file, NUM_DIRECT), index - NUM_DIRECT)
    else if index - NUM_DIRECT - K < K2 then DoubleCell(Field(file, NUM_DIRECT + 1), index - NUM_DIRECT - K)
    else TripleCell(Field(file, NUM_DIRECT + 2), index - NUM_DIRECT - K - K2)
  }

  function DoubleCell(c: Cell, i: nat): Cell {
    Slot(Slot(c, Quot(i, K)), Rem(i, K))
  }

  function TripleCell(c: Cell, i: nat): Cell {
    DoubleCell(Slot(c, Quot(i, K2)), Rem(i, K2))
  }

  /** get_block_id reads the leaf cell of the index. */
  lemma GetIsCell(d: Disk, files: map<nat, Inode>, file: nat, index: nat)
    requires file in files && index < MAX_INDEX
    ensures IsCell(files, LeafCell(file, index)) && IsLeaf(LeafCell(file, index))
    ensures FileOf(LeafCell(file, index)) == file
    ensures GetBlockId(d, files[file], index) == CellId(d, files, LeafCell(file, index))
  {
    var double, triple := Field(file, NUM_DIRECT + 1), Field(file, NUM_DIRECT + 2);
    if index - NUM_DIRECT < K {
    } else if index - NUM_DIRECT - K < K2 {
      DoubleIsCell(d, files, double, index - NUM_DIRECT - K);
    } else {
      var i := index - NUM_DIRECT - K - K2;
      DoubleIsCell(d, files, Slot(triple, Quot(i, K2)), Rem(i, K2));
    }
  }

  lemma DoubleIsCell(d: Disk, files: map<nat, Inode>, c: Cell, i: nat)
    requires IsCell(files, c) && Level(c) + 2 <= Depth(RootOf(c))
    ensures var dc := DoubleCell(c, i);
      && IsCell(files, dc) && Level(dc) == Level(c) + 2 && RootOf(dc) == RootOf(c) && FileOf(dc) == FileOf(c)
      && CellId(d, files, dc) == GetDouble(d, CellId(d, files, c), i)
  {
    var mid := Slot(c, Quot(i, K));
    assert IsCell(files, mid) && Level(mid) == Level(c) + 1 && RootOf(mid) == RootOf(c) && FileOf(mid) == FileOf(c);
    assert CellId(d, files, mid) == GetSingle(d, CellId(d, files, c), Quot(i, K));
  }

  /** Different indices have different cells. */
  lemma LeafInjective(file: nat, i: nat, j: nat)
    requires LeafCell(file, i) == LeafCell(file, j)
    ensures i == j
  {
    if i - NUM_DIRECT >= K {
      if i - NUM_DIRECT - K < K2 {
        QuotRemInjective(i - NUM_DIRECT - K, j - NUM_DIRECT - K, K);
      } else {
        var x, y := i - NUM_DIRECT - K - K2, j - NUM_DIRECT - K - K2;
        QuotRemInjective(Rem(x, K2), Rem(y, K2), K);
        QuotRemInjective(x, y, K2);
      }
    }
  }
}

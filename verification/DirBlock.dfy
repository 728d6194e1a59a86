/** Directory blocks: a table of inode numbers followed by a table of fixed-size,
    zero-terminated names (`struct dir_block`). */
module DirBlock {
  import opened Geometry
  import opened Codec

  /** Entries of NAMEI_ENTRY_SIZE = 64 bytes that fill a block. */
  type EntryCount = n: nat | 8 * n == K witness K / 8

  const LEN: EntryCount

  /** Room for a name and its terminator. */
  const NAME_SIZE: nat := 60

  datatype DirEntry = DirEntry(id: int, name: seq<byte>)

  const UNUSED: DirEntry := DirEntry(0, [])

  /** A name that fits, as the callers of add_entry_to_parent ensure. */
  predicate IsName(s: seq<byte>) {
    |s| < NAME_SIZE && forall i :: 0 <= i < |s| ==> s[i] != 0
  }

  /** The bytes of a zero-terminated string. */
  function CString(s: seq<byte>): (name: seq<byte>)
    ensures forall i :: 0 <= i < |name| ==> name[i] != 0
  {
    if s == [] || s[0] == 0 then [] else [s[0]] + CString(s[1..])
  }

  lemma {:induction false} CStringOf(name: seq<byte>, rest: seq<byte>)
    requires forall i :: 0 <= i < |name| ==> name[i] != 0
    ensures CString(name + [0] + rest) == name
  {
    var s := name + [0] + rest;
    if name != [] {
      CStringOf(name[1..], rest);
      assert s[1..] == name[1..] + [0] + rest;
    }
  }

  function NameStart(i: nat): nat {
    4 * LEN + NAME_SIZE * i
  }

  /** DirEntry i of a directory block. */
  function EntryAt(b: Block, i: nat): DirEntry
    requires i < LEN
  {
    DirEntry(ToInt(Decode(b[4 * i..4 * i + 4])), CString(b[NameStart(i)..NameStart(i) + NAME_SIZE]))
  }

  /** Ids and names fill the block; a name is at most 59 bytes long. */
  lemma EntriesFill(s: seq<byte>)
    ensures LEN == BLOCK_SIZE / 64 && NameStart(LEN) == BLOCK_SIZE
    ensures IsName(s) <==> |s| <= 59 && forall i :: 0 <= i < |s| ==> s[i] != 0
  {}

  lemma {:induction false} CStringIsPrefix(s: seq<byte>)
    ensures CString(s) <= s && (|CString(s)| < |s| ==> s[|CString(s)|] == 0)
  {
    if s != [] && s[0] != 0 {
      CStringIsPrefix(s[1..]);
      assert s == [s[0]] + s[1..];
    }
  }

  /** Where an entry lies: its number is the i-th int of the block, its name the i-th array
      of 60 bytes behind the numbers, up to the first zero. */
  lemma EntryLayout(b: Block, i: nat)
    requires i < LEN
    ensures var e, at := Entries(b)[i], BLOCK_SIZE / 16 + 60 * i;
      && at + 60 <= BLOCK_SIZE && |e.name| <= 60
      && e.id == ToInt(FourBytes(b[4 * i], b[4 * i + 1], b[4 * i + 2], b[4 * i + 3]))
      && (forall k :: 0 <= k < |e.name| ==> b[at + k] == e.name[k] && e.name[k] != 0)
      && (|e.name| < 60 ==> b[at + |e.name|] == 0)
  {
    FirstEntriesAt(b, LEN, i);
    DecodeInt(b[4 * i..4 * i + 4]);
    var at := BLOCK_SIZE / 16 + 60 * i;
    assert at == NameStart(i) && at + 60 <= BLOCK_SIZE;
    var s := b[at..at + 60];
    CStringIsPrefix(s);
    var name := CString(s);
    forall k | 0 <= k < |name| ensures b[at + k] == name[k] {
      assert s[k] == b[at + k];
    }
  }

  /** The first n entries of a block. */
  function FirstEntries(b: Block, n: nat): (es: seq<DirEntry>)
    requires n <= LEN
    ensures |es| == n
  {
    if n == 0 then [] else FirstEntries(b, n - 1) + [EntryAt(b, n - 1)]
  }

  /** A block read as a `struct dir_block`. */
  function Entries(b: Block): (es: seq<DirEntry>)
    ensures |es| == LEN
  {
    FirstEntries(b, LEN)
  }

  lemma {:induction false} FirstEntriesAt(b: Block, n: nat, i: nat)
    requires i < n <= LEN
    ensures FirstEntries(b, n)[i] == EntryAt(b, i)
  {
    var shorter := FirstEntries(b, n - 1);
    assert FirstEntries(b, n) == shorter + [EntryAt(b, n - 1)];
    if i < n - 1 {
      FirstEntriesAt(b, n - 1, i);
      assert FirstEntries(b, n)[i] == shorter[i];
    }
  }

  /** Assigns inode_ids[i] and copies a string to names[i]; what is behind the
      terminator stays. */
  function PutEntry(b: Block, i: nat, id: nat, name: seq<byte>): (r: Block)
    requires i < LEN && id < 0x8000_0000 && IsName(name)
    ensures Entries(r) == Entries(b)[i := DirEntry(id, name)]
  {
    var r := Patch(Patch(b, 4 * i, Encode(id, 4)), NameStart(i), name + [0]);
    PutEntryReads(b, i, id, name, r);
    r
  }

  lemma PutEntryReads(b: Block, i: nat, id: nat, name: seq<byte>, r: Block)
    requires i < LEN && id < 0x8000_0000 && IsName(name)
    requires r == Patch(Patch(b, 4 * i, Encode(id, 4)), NameStart(i), name + [0])
    ensures Entries(r) == Entries(b)[i := DirEntry(id, name)]
  {
    forall j | 0 <= j < LEN ensures Entries(r)[j] == Entries(b)[i := DirEntry(id, name)][j] {
      FirstEntriesAt(r, LEN, j);
      FirstEntriesAt(b, LEN, j);
      if j == i {
        PutHere(b, i, id, name, r);
      } else {
        PutElsewhere(b, i, id, name, r, j);
      }
    }
  }

  /** Which bytes writing an entry changes: the number, and the name up to its terminator. */
  lemma PutEntryBytes(b: Block, i: nat, id: nat, name: seq<byte>, k: nat)
    requires i < LEN && id < 0x8000_0000 && IsName(name) && k < BLOCK_SIZE
    ensures var r, at := PutEntry(b, i, id, name), BLOCK_SIZE / 16 + 60 * i;
      && (at <= k < at + |name| ==> r[k] == name[k - at])
      && (k == at + |name| ==> r[k] == 0)
      && (!(4 * i <= k < 4 * i + 4) && !(at <= k <= at + |name|) ==> r[k] == b[k])
  {
    hide Entries;
    var code, at := Encode(id, 4), BLOCK_SIZE / 16 + 60 * i;
    assert at == NameStart(i);
    var r := Patch(Patch(b, 4 * i, code), at, name + [0]);
    assert at <= k <= at + |name| ==> r[k] == (name + [0])[k - at];
  }

  lemma PutHere(b: Block, i: nat, id: nat, name: seq<byte>, r: Block)
    requires i < LEN && id < 0x8000_0000 && IsName(name)
    requires r == Patch(Patch(b, 4 * i, Encode(id, 4)), NameStart(i), name + [0])
    ensures EntryAt(r, i) == DirEntry(id, name)
  {
    hide CString, Decode, Encode, ToInt;
    var code, b1 := Encode(id, 4), Patch(b, 4 * i, Encode(id, 4));
    PatchReads(b, 4 * i, code);
    PatchKeeps(b1, NameStart(i), name + [0], 4 * i, 4 * i + 4);
    assert r[4 * i..4 * i + 4] == code;
    DecodeId(id);
    PutName(b1, NameStart(i), name, r);
  }

  lemma DecodeId(id: nat)
    requires id < 0x8000_0000
    ensures ToInt(Decode(Encode(id, 4))) == id
  {
    LimitWord();
    DecodeEncode(id, 4);
  }

  lemma PutName(b: Block, at: nat, name: seq<byte>, r: Block)
    requires IsName(name) && at + NAME_SIZE <= BLOCK_SIZE && r == Patch(b, at, name + [0])
    ensures CString(r[at..at + NAME_SIZE]) == name
  {
    var n := |name| + 1;
    PatchReads(b, at, name + [0]);
    assert r[at..at + NAME_SIZE] == r[at..at + n] + r[at + n..at + NAME_SIZE];
    CStringOf(name, r[at + n..at + NAME_SIZE]);
  }

  lemma PutElsewhere(b: Block, i: nat, id: nat, name: seq<byte>, r: Block, j: nat)
    requires i < LEN && id < 0x8000_0000 && IsName(name) && j < LEN && j != i
    requires r == Patch(Patch(b, 4 * i, Encode(id, 4)), NameStart(i), name + [0])
    ensures EntryAt(r, j) == EntryAt(b, j)
  {
    hide CString, Decode, Encode, ToInt, Patch;
    var b1 := Patch(b, 4 * i, Encode(id, 4));
    PatchKeeps(b, 4 * i, Encode(id, 4), 4 * j, 4 * j + 4);
    PatchKeeps(b1, NameStart(i), name + [0], 4 * j, 4 * j + 4);
    PatchKeeps(b, 4 * i, Encode(id, 4), NameStart(j), NameStart(j) + NAME_SIZE);
    PatchKeeps(b1, NameStart(i), name + [0], NameStart(j), NameStart(j) + NAME_SIZE);
  }

  /** A cleared block has unused entries only. */
  lemma ZeroEntries(i: nat)
    requires i < LEN
    ensures Entries(ZERO)[i] == UNUSED
  {
    FirstEntriesAt(ZERO, LEN, i);
    DecodeZeros(ZERO[4 * i..4 * i + 4]);
  }

  // ----- scans -----------------------------------------------------------

  /** First entry at or after i without an inode number. */
  function FirstUnused(es: seq<DirEntry>, i: nat): (k: nat)
    requires i <= |es|
    ensures i <= k <= |es| && (k < |es| ==> es[k].id == 0)
    ensures forall j :: i <= j < k ==> es[j].id != 0
    decreases |es| - i
  {
    if i == |es| || es[i].id == 0 then i else FirstUnused(es, i + 1)
  }

  /** First entry at or after i with the inode number `id`. */
  function FirstWithId(es: seq<DirEntry>, i: nat, id: int): (k: nat)
    requires i <= |es|
    ensures i <= k <= |es| && (k < |es| ==> es[k].id == id)
    ensures forall j :: i <= j < k ==> es[j].id != id
    decreases |es| - i
  {
    if i == |es| || es[i].id == id then i else FirstWithId(es, i + 1, id)
  }

  /** First entry at or after i with the name `name`. */
  function FirstNamed(es: seq<DirEntry>, i: nat, name: seq<byte>): (k: nat)
    requires i <= |es|
    ensures i <= k <= |es| && (k < |es| ==> es[k].name == name)
    ensures forall j :: i <= j < k ==> es[j].name != name
    decreases |es| - i
  {
    if i == |es| || es[i].name == name then i else FirstNamed(es, i + 1, name)
  }

  // ----- one block -------------------------------------------------------

  datatype BlockResult = BlockResult(b: Block, ok: bool)

  /** add_entry_to_dir_block */
  function AddToBlock(b: Block, id: nat, name: seq<byte>): BlockResult
    requires id < 0x8000_0000 && IsName(name)
  {
    var k := FirstUnused(Entries(b), 0);
    if k == LEN then BlockResult(b, false) else BlockResult(PutEntry(b, k, id, name), true)
  }

  /** remove_entry_from_dir_block */
  function RemoveFromBlock(b: Block, id: int): BlockResult {
    var k := FirstWithId(Entries(b), 0, id);
    if k == LEN then BlockResult(b, false) else BlockResult(PutEntry(b, k, 0, []), true)
  }

  /** check_data_block_for_next_entry */
  function LookupInBlock(b: Block, name: seq<byte>): int {
    var k := FirstNamed(Entries(b), 0, name);
    if k == LEN then -1 else Entries(b)[k].id
  }

  /** The loop of init_dir_block that clears entries i, i+1, .. */
  function ClearEntries(b: Block, i: nat): Block
    requires i <= LEN
    decreases LEN - i, b
  {
    if i == LEN then b else ClearEntries(PutEntry(b, i, 0, []), i + 1)
  }

  lemma {:induction false} ClearedEntries(b: Block, i: nat)
    requires i <= LEN
    ensures forall j :: 0 <= j < LEN ==> Entries(ClearEntries(b, i))[j] == if j < i then Entries(b)[j] else UNUSED
    decreases LEN - i
  {
    if i < LEN {
      ClearedEntries(PutEntry(b, i, 0, []), i + 1);
    }
  }

  const DOT: seq<byte> := [46]
  const DOT_DOT: seq<byte> := [46, 46]

  /** init_dir_block */
  function InitDirBlock(b: Block, self: nat, parent: nat): Block
    requires self < 0x8000_0000 && parent < 0x8000_0000
  {
    AddToBlock(AddToBlock(ClearEntries(b, 0), self, DOT).b, parent, DOT_DOT).b
  }

  /** A formatted block holds "." and ".." and nothing else, whatever was there before. */
  lemma InitDirBlockEntries(b: Block, self: nat, parent: nat)
    requires 0 < self < 0x8000_0000 && 0 < parent < 0x8000_0000
    ensures var es := Entries(InitDirBlock(b, self, parent));
      && es[0] == DirEntry(self, [46]) && es[1] == DirEntry(parent, [46, 46])
      && forall j :: 2 <= j < LEN ==> es[j] == UNUSED
  {
    var c := ClearEntries(b, 0);
    ClearedEntries(b, 0);
    assert FirstUnused(Entries(c), 0) == 0;
    var c1 := PutEntry(c, 0, self, DOT);
    assert FirstUnused(Entries(c1), 0) == 1;
  }
}

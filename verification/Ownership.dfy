/** Who owns which data block.

    A world is a disk together with the inodes of the live files, the free stack and
    the blocks that belong to nobody any more.  In a sound world every data block has
    at most one owner: a cell of one file, the free list, or the lost blocks.  This is
    what makes the updates of the block map independent of each other. */
module Ownership {
  import opened Geometry
  import opened Codec
  import opened FreeList
  import opened BlockMap

  datatype World = World(disk: Disk, files: map<nat, Inode>, free: Stack, lost: set<word>)

  function Id(w: World, c: Cell): word
    requires IsCell(w.files, c)
  {
    CellId(w.disk, w.files, c)
  }

  ghost predicate Owned(w: World) {
    forall c :: IsCell(w.files, c) && Id(w, c) != 0 ==>
      IsData(Id(w, c)) && Id(w, c) !in Ids(w.free) && Id(w, c) !in w.lost
  }

  ghost predicate Exclusive(w: World) {
    forall a, b :: IsCell(w.files, a) && IsCell(w.files, b) && Id(w, a) == Id(w, b) && Id(w, a) != 0 ==> a == b
  }

  /** Every block has at most one owner and the free list is well formed. */
  ghost predicate Sound(w: World) {
    && FreeInv(w.disk, w.free)
    && (forall x :: x in w.lost ==> IsData(x) && x !in Ids(w.free))
    && Owned(w)
    && Exclusive(w)
  }

  ghost predicate Uses(w: World, x: word) {
    exists c :: IsCell(w.files, c) && Id(w, c) == x
  }

  /** Every data block has an owner, except those in `extra`. */
  ghost predicate Covered(w: World, extra: set<word>) {
    forall x: word :: IsData(x) ==> x in Ids(w.free) || x in w.lost || x in extra || Uses(w, x)
  }

  // ----- changes that touch no cell --------------------------------------

  /** Same files, same fields, and the index blocks are unchanged. */
  ghost predicate KeepsIndex(w: World, w': World) {
    && w'.files.Keys == w.files.Keys
    && (forall f, r :: f in w.files && 0 <= r < NUM_DIRECT + 3 ==> RootWord(w'.files[f], r) == RootWord(w.files[f], r))
    && (forall c :: IsCell(w.files, c) && !IsLeaf(c) && 0 < Id(w, c) < NUM_BLOCKS ==>
          w'.disk[Id(w, c)] == w.disk[Id(w, c)])
  }

  /** Both worlds have the same cells, holding the same numbers. */
  ghost predicate SameCells(w: World, w': World) {
    && (forall c :: IsCell(w'.files, c) <==> IsCell(w.files, c))
    && (forall c :: IsCell(w.files, c) ==> Id(w', c) == Id(w, c))
  }

  /** Cells that name a block keep naming it. */
  ghost predicate Persists(w: World, w': World) {
    forall c :: IsCell(w.files, c) ==> IsCell(w'.files, c) && (Id(w, c) != 0 ==> Id(w', c) == Id(w, c))
  }

  lemma PersistsTrans(a: World, b: World, c: World)
    requires Persists(a, b) && Persists(b, c)
    ensures Persists(a, c)
  {}

  lemma {:induction false} CellsDependOnKeys(f: map<nat, Inode>, f': map<nat, Inode>, c: Cell)
    requires f.Keys == f'.Keys
    ensures IsCell(f, c) <==> IsCell(f', c)
  {
    if c.Slot? {
      CellsDependOnKeys(f, f', c.list);
    }
  }

  lemma {:induction false} SameId(w: World, w': World, c: Cell)
    requires KeepsIndex(w, w') && IsCell(w.files, c)
    ensures IsCell(w'.files, c) && Id(w', c) == Id(w, c)
  {
    CellsDependOnKeys(w.files, w'.files, c);
    if c.Slot? {
      SameId(w, w', c.list);
      assert !IsLeaf(c.list);
    }
  }

  lemma KeepsIndexKeepsCells(w: World, w': World)
    requires KeepsIndex(w, w')
    ensures SameCells(w, w')
  {
    forall c ensures IsCell(w'.files, c) <==> IsCell(w.files, c) {
      CellsDependOnKeys(w.files, w'.files, c);
    }
    forall c | IsCell(w.files, c) ensures Id(w', c) == Id(w, c) {
      SameId(w, w', c);
    }
  }

  /** The free list survives changes outside the head and the free blocks. */
  lemma FreeKept(d: Disk, d': Disk, s: Stack)
    requires FreeInv(d, s) && d'[HEAD] == d[HEAD] && SameBlocks(d, d', Ids(s))
    ensures FreeInv(d', s)
  {
    LinksAreIds(s);
    ReadsFrame(d, HEAD, d', HEAD, K - 1, s);
  }

  /** An allocated block has no owner yet, is cleared, and no cell changed. */
  lemma AllocKeeps(v: Vol, w: World) returns (w': World)
    requires v.disk == w.disk && Sound(w) && !w.free.Empty?
    ensures Alloc(v).ok && Alloc(v).id == w.free.id
    ensures w' == World(Alloc(v).vol.disk, w.files, w.free.below, w.lost)
    ensures Sound(w') && KeepsIndex(w, w') && SameCells(w, w')
    ensures Fresh(w', w.free.id) && w'.disk[w.free.id] == ZERO
    ensures forall x :: 1 <= x < NUM_BLOCKS && x != HEAD && x !in Ids(w.free) ==> w'.disk[x] == w.disk[x]
    ensures Tallied(v, w.free, Alloc(v).vol, w'.free, 1)
  {
    AllocPops(v, w.free);
    IdsAreData(w.free);
    w' := World(Alloc(v).vol.disk, w.files, w.free.below, w.lost);
    KeepsIndexKeepsCells(w, w');
  }

  /** A data block nobody owns. */
  ghost predicate Fresh(w: World, x: word) {
    IsData(x) && x !in Ids(w.free) && x !in w.lost && !Uses(w, x)
  }

  // ----- writing one cell ------------------------------------------------

  /** The cell t now holds x; no other cell changed. */
  ghost predicate Updated(w: World, w': World, t: Cell, x: word) {
    && w'.free == w.free && w'.lost == w.lost
    && (forall c :: IsCell(w'.files, c) <==> IsCell(w.files, c))
    && (forall c :: IsCell(w.files, c) ==> Id(w', c) == if c == t then x else Id(w, c))
  }

  /** Nothing hangs below t, before or after it is set to x: it names data, or it was
      empty and x is a cleared block. */
  ghost predicate Hangless(w: World, t: Cell, x: word)
    requires IsCell(w.files, t)
  {
    IsLeaf(t) || (Id(w, t) == 0 && 0 < x < NUM_BLOCKS && w.disk[x] == ZERO)
  }

  /** Writing a slot of an index block changes one cell. */
  lemma LinkSlot(w: World, p: Cell, s: nat, x: word) returns (w': World)
    requires Sound(w) && IsCell(w.files, p) && Level(p) < Depth(RootOf(p)) && Id(w, p) != 0 && s < K
    requires Hangless(w, Slot(p, s), x) && (IsLeaf(Slot(p, s)) || x != Id(w, p))
    ensures Id(w, p) < NUM_BLOCKS
    ensures w' == w.(disk := w.disk[Id(w, p) := SetWord(w.disk[Id(w, p)], s, x)])
    ensures Updated(w, w', Slot(p, s), x)
  {
    w' := w.(disk := w.disk[Id(w, p) := SetWord(w.disk[Id(w, p)], s, x)]);
    forall c | IsCell(w.files, c) ensures Id(w', c) == if c == Slot(p, s) then x else Id(w, c) {
      LinkSlotAt(w, w', p, s, x, c);
    }
  }

  lemma {:induction false} LinkSlotAt(w: World, w': World, p: Cell, s: nat, x: word, c: Cell)
    requires Sound(w) && IsCell(w.files, p) && Level(p) < Depth(RootOf(p)) && 0 < Id(w, p) < NUM_BLOCKS && s < K
    requires Hangless(w, Slot(p, s), x) && (IsLeaf(Slot(p, s)) || x != Id(w, p))
    requires w' == w.(disk := w.disk[Id(w, p) := SetWord(w.disk[Id(w, p)], s, x)])
    requires IsCell(w.files, c)
    ensures Id(w', c) == if c == Slot(p, s) then x else Id(w, c)
  {
    if c.Slot? {
      LinkSlotAt(w, w', p, s, x, c.list);
      if c.list == Slot(p, s) {
        ZeroWords();
      } else if Id(w, c.list) == Id(w, p) {
        assert c.list == p;
      }
    }
  }

  /** Writing a field of an inode changes one cell. */
  lemma LinkField(w: World, f: nat, r: nat, ino: Inode, x: word) returns (w': World)
    requires Sound(w) && f in w.files && r < NUM_DIRECT + 3
    requires forall k :: 0 <= k < NUM_DIRECT + 3 ==> RootWord(ino, k) == if k == r then x else RootWord(w.files[f], k)
    requires Hangless(w, Field(f, r), x)
    ensures w' == w.(files := w.files[f := ino])
    ensures Updated(w, w', Field(f, r), x)
  {
    w' := w.(files := w.files[f := ino]);
    forall c ensures IsCell(w'.files, c) <==> IsCell(w.files, c) {
      CellsDependOnKeys(w.files, w'.files, c);
    }
    forall c | IsCell(w.files, c) ensures Id(w', c) == if c == Field(f, r) then x else Id(w, c) {
      LinkFieldAt(w, w', f, r, ino, x, c);
    }
  }

  lemma {:induction false} LinkFieldAt(w: World, w': World, f: nat, r: nat, ino: Inode, x: word, c: Cell)
    requires f in w.files && r < NUM_DIRECT + 3 && w' == w.(files := w.files[f := ino])
    requires forall k :: 0 <= k < NUM_DIRECT + 3 ==> RootWord(ino, k) == if k == r then x else RootWord(w.files[f], k)
    requires Hangless(w, Field(f, r), x)
    requires IsCell(w.files, c) && IsCell(w'.files, c)
    ensures Id(w', c) == if c == Field(f, r) then x else Id(w, c)
  {
    if c.Slot? {
      LinkFieldAt(w, w', f, r, ino, x, c.list);
      if c.list == Field(f, r) {
        ZeroWords();
      }
    }
  }

  /** Handing a fresh block to a cell keeps the world sound. */
  lemma UpdateSound(w: World, w': World, t: Cell, x: word)
    requires Sound(w) && IsCell(w.files, t) && Updated(w, w', t, x)
    requires x == 0 || Fresh(w, x)
    requires FreeInv(w'.disk, w'.free)
    ensures Sound(w')
  {
    assert forall c :: IsCell(w.files, c) ==> Id(w, c) != x || x == 0;
  }

  /** Handing over the last unowned block completes the coverage. */
  lemma UpdateCovers(w: World, w': World, t: Cell, x: word, extra: set<word>)
    requires IsCell(w.files, t) && Updated(w, w', t, x) && Id(w, t) == 0
    requires Covered(w, extra + {x})
    ensures Covered(w', extra)
  {
    forall y: word | IsData(y) && y !in Ids(w.free) && y !in w.lost && y !in extra ensures Uses(w', y) {
      if y == x {
        assert IsCell(w'.files, t) && Id(w', t) == y;
      } else {
        var c :| IsCell(w.files, c) && Id(w, c) == y;
        assert IsCell(w'.files, c) && Id(w', c) == y;
      }
    }
  }
}

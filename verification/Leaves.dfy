/** Data blocks of files: mapping a fresh block at an index, and overwriting a mapped
    block, concern one index of one file and nothing else. */
module Leaves {
  import opened Geometry
  import opened FreeList
  import opened BlockMap
  import opened Ownership
  import opened BlockMapLaws

  /** The block of file g at index j, 0 for a hole. */
  function Blk(w: World, g: nat, j: nat): word
    requires g in w.files
  {
    GetBlockId(w.disk, w.files[g], j)
  }

  lemma BlkIsCell(w: World, g: nat, j: nat)
    requires g in w.files && j < MAX_INDEX
    ensures IsCell(w.files, LeafCell(g, j)) && IsLeaf(LeafCell(g, j)) && FileOf(LeafCell(g, j)) == g
    ensures Blk(w, g, j) == Id(w, LeafCell(g, j))
  {
    GetIsCell(w.disk, w.files, g, j);
  }

  /** Apart from index `index` of file f, every file maps the same blocks with the same
      contents; the inode blocks are unchanged. */
  ghost predicate OthersKept(w: World, w': World, f: nat, index: nat) {
    && f in w.files && f in w'.files && w'.files == w.files[f := w'.files[f]]
    && w'.lost == w.lost
    && (forall g, j :: g in w.files && 0 <= j < MAX_INDEX && (g != f || j != index) ==> SameLeaf(w, w', g, j))
    && (forall x :: 1 <= x < HEAD ==> w'.disk[x] == w.disk[x])
  }

  ghost predicate SameLeaf(w: World, w': World, g: nat, j: nat)
    requires g in w.files && g in w'.files
  {
    && Blk(w', g, j) == Blk(w, g, j)
    && (0 < Blk(w, g, j) < NUM_BLOCKS ==> w'.disk[Blk(w, g, j)] == w.disk[Blk(w, g, j)])
  }

  lemma OthersKeptTrans(a: World, b: World, c: World, f: nat, index: nat)
    requires OthersKept(a, b, f, index) && OthersKept(b, c, f, index)
    ensures OthersKept(a, c, f, index)
  {
    forall g, j | g in a.files && 0 <= j < MAX_INDEX && (g != f || j != index) ensures SameLeaf(a, c, g, j) {
      assert SameLeaf(a, b, g, j) && SameLeaf(b, c, g, j);
    }
  }

  /** A leaf of a sound world is a data block, is no index block, and has one place. */
  lemma LeafFacts(w: World, g: nat, j: nat)
    requires Sound(w) && g in w.files && j < MAX_INDEX && Blk(w, g, j) != 0
    ensures IsData(Blk(w, g, j)) && Blk(w, g, j) !in Ids(w.free) && !Interior(w, Blk(w, g, j))
  {
    BlkIsCell(w, g, j);
  }

  lemma LeafDistinct(w: World, g: nat, j: nat, h: nat, k: nat)
    requires Sound(w) && g in w.files && h in w.files && j < MAX_INDEX && k < MAX_INDEX
    requires Blk(w, g, j) == Blk(w, h, k) != 0
    ensures g == h && j == k
  {
    BlkIsCell(w, g, j);
    BlkIsCell(w, h, k);
    assert LeafCell(g, j) == LeafCell(h, k);
    LeafInjective(g, j, k);
  }

  /** Index blocks are not below the head. */
  lemma BelowHead(w: World, x: nat)
    requires Sound(w) && x < HEAD
    ensures !Interior(w, x)
    ensures x !in Ids(w.free)
  {
    IdsAreData(w.free);
  }

  // ----- mapping a fresh block -------------------------------------------

  /** From w to w0 the top of the free stack was taken, and nothing else happened. */
  ghost predicate Taken(w: World, w0: World) {
    && Sound(w) && Sound(w0) && !w.free.Empty? && SameCells(w, w0)
    && w0 == World(w0.disk, w.files, w.free.below, w.lost)
    && forall x :: 1 <= x < NUM_BLOCKS && x != HEAD && x !in Ids(w.free) ==> w0.disk[x] == w.disk[x]
  }

  lemma TakenCovers(w: World, w0: World, extra: set<word>)
    requires Taken(w, w0) && Covered(w, extra)
    ensures Covered(w0, extra + {w.free.id})
  {
    forall y: word | IsData(y) && y !in Ids(w0.free) && y !in w.lost && y !in extra + {w.free.id} ensures Uses(w0, y) {
      var c :| IsCell(w.files, c) && Id(w, c) == y;
      assert Id(w0, c) == y;
    }
  }

  /** Growth above the leaf t changes no leaf and no inode block. */
  lemma GrownLeaf(w: World, w0: World, w1: World, t: Cell, g: nat, j: nat)
    requires Taken(w, w0) && Grown(w0, w1, t) && IsCell(w.files, t)
    requires g in w.files && g in w1.files && j < MAX_INDEX
    ensures SameLeaf(w, w1, g, j)
  {
    BlkIsCell(w, g, j);
    BlkIsCell(w1, g, j);
    AboveIsNoLeaf(w.files, LeafCell(g, j), t);
    if Blk(w, g, j) != 0 {
      LeafFacts(w, g, j);
      assert Id(w1, LeafCell(g, j)) == Id(w0, LeafCell(g, j)) == Blk(w, g, j);
      assert !Interior(w0, Blk(w, g, j));
    }
  }

  lemma GrownTable(w: World, w0: World, w1: World, t: Cell)
    requires Taken(w, w0) && Grown(w0, w1, t)
    ensures forall x :: 1 <= x < HEAD ==> w1.disk[x] == w.disk[x]
  {
    IdsAreData(w.free);
    forall x | 1 <= x < HEAD ensures w1.disk[x] == w.disk[x] {
      BelowHead(w0, x);
    }
  }

  /** Allocating a block and mapping it at a hole of a file. */
  lemma MapFreshBlock(v: Vol, w: World, f: nat, index: nat) returns (w': World)
    requires v.disk == w.disk && Sound(w) && f in w.files && index < MAX_INDEX && Blk(w, f, index) == 0
    requires Alloc(v).ok && SetBlockId(Alloc(v).vol, w.files[f], index, Alloc(v).id).ok
    ensures var a := Alloc(v); var r := SetBlockId(a.vol, w.files[f], index, a.id);
      && w'.disk == r.vol.disk && w'.files == w.files[f := r.ino] && Tallied(v, w.free, r.vol, w'.free, 4)
      && SameAttributes(w.files[f], r.ino)
      && OthersKept(w, w', f, index) && Blk(w', f, index) == a.id && IsData(a.id) && w'.disk[a.id] == ZERO
    ensures Sound(w') && forall extra :: Covered(w, extra) ==> Covered(w', extra)
    ensures Persists(w, w')
  {
    AllocPops(v, w.free);
    var a, x := Alloc(v), w.free.id;
    var w0 := AllocKeeps(v, w);
    var w1;
    w1, w' := SetBlockIdStores(a.vol, w0, f, index, x);
    TalliedTrans(v, w.free, a.vol, w0.free, SetBlockId(a.vol, w.files[f], index, x).vol, w'.free, 1, 3);
    var t := LeafCell(f, index);
    GrownFresh(w0, w1, t, x);
    UpdateSound(w1, w', t, x);
    BlkIsCell(w', f, index);
    assert !Interior(w1, x);
    MappedOthers(w, w0, w1, w', f, index);
    MappedCovers(w, w0, w1, w', f, index);
  }

  /** Allocating a block that then cannot be mapped: the block is lost, index blocks may
      have been linked, and no file maps anything else. */
  lemma MapFails(v: Vol, w: World, f: nat, index: nat) returns (w': World)
    requires v.disk == w.disk && Sound(w) && f in w.files
    requires Alloc(v).ok && !SetBlockId(Alloc(v).vol, w.files[f], index, Alloc(v).id).ok
    ensures var a := Alloc(v); var r := SetBlockId(a.vol, w.files[f], index, a.id);
      && w'.disk == r.vol.disk && w'.files == w.files[f := r.ino] && Tallied(v, w.free, r.vol, w'.free, 3)
      && SameAttributes(w.files[f], r.ino) && w'.lost == w.lost + {a.id}
    ensures w'.free == Empty || index >= MAX_INDEX
    ensures forall g, j :: g in w.files && 0 <= j < MAX_INDEX ==> SameLeaf(w, w', g, j)
    ensures forall x :: 1 <= x < HEAD ==> w'.disk[x] == w.disk[x]
    ensures Sound(w') && forall extra :: Covered(w, extra) ==> Covered(w', extra)
    ensures Persists(w, w')
  {
    AllocPops(v, w.free);
    var a, x, t := Alloc(v), w.free.id, LeafCell(f, if index < MAX_INDEX then index else 0);
    BlkIsCell(w, f, if index < MAX_INDEX then index else 0);
    var w0 := AllocKeeps(v, w);
    var w1 := w0;
    if index < MAX_INDEX {
      w1, w' := SetBlockIdStores(a.vol, w0, f, index, x);
      TalliedTrans(v, w.free, a.vol, w0.free, SetBlockId(a.vol, w.files[f], index, x).vol, w1.free, 1, 2);
    } else {
      GrownSelf(w0, t);
    }
    GrownFresh(w0, w1, t, x);
    w' := w1.(lost := w.lost + {x});
    forall g, j | g in w.files && 0 <= j < MAX_INDEX ensures SameLeaf(w, w', g, j) {
      GrownLeaf(w, w0, w1, t, g, j);
    }
    GrownTable(w, w0, w1, t);
    LostCovers(w, w0, w1, w', t);
    assert w'.files == w.files[f := w'.files[f]];
  }

  lemma LostCovers(w: World, w0: World, w1: World, w': World, t: Cell)
    requires Taken(w, w0) && Grown(w0, w1, t) && Fresh(w1, w.free.id) && w' == w1.(lost := w.lost + {w.free.id})
    ensures Sound(w') && SameCells(w1, w') && forall extra :: Covered(w, extra) ==> Covered(w', extra)
  {
    forall c | IsCell(w1.files, c) ensures Id(w', c) == Id(w1, c) {
      SameId(w1, w', c);
    }
    assert forall c :: IsCell(w1.files, c) && Id(w1, c) == w.free.id ==> Uses(w1, w.free.id);
    forall extra | Covered(w, extra) ensures Covered(w', extra) {
      TakenCovers(w, w0, extra);
      GrownCovers(w0, w1, t, extra + {w.free.id});
      forall y: word | IsData(y) && y !in Ids(w'.free) && y !in w'.lost && y !in extra ensures Uses(w', y) {
        var c :| IsCell(w1.files, c) && Id(w1, c) == y;
        assert Id(w', c) == y;
      }
    }
  }

  lemma MappedOthers(w: World, w0: World, w1: World, w': World, f: nat, index: nat)
    requires Taken(w, w0) && f in w.files && index < MAX_INDEX
    requires Stored(w0, w1, w', LeafCell(f, index), w.free.id, true)
    requires f in w'.files && w'.files == w.files[f := w'.files[f]]
    ensures OthersKept(w, w', f, index)
  {
    BlkIsCell(w, f, index);
    forall g, j | g in w.files && 0 <= j < MAX_INDEX && (g != f || j != index) ensures SameLeaf(w, w', g, j) {
      MappedSame(w, w0, w1, w', f, index, g, j);
    }
    GrownTable(w, w0, w1, LeafCell(f, index));
    forall x | 1 <= x < HEAD ensures w'.disk[x] == w.disk[x] {
      BelowHead(w1, x);
    }
  }

  lemma MappedSame(w: World, w0: World, w1: World, w': World, f: nat, index: nat, g: nat, j: nat)
    requires Taken(w, w0) && f in w.files && index < MAX_INDEX
    requires Stored(w0, w1, w', LeafCell(f, index), w.free.id, true)
    requires g in w.files && g in w'.files && j < MAX_INDEX && (g != f || j != index)
    ensures SameLeaf(w, w', g, j)
  {
    BlkIsCell(w, f, index);
    GrownLeaf(w, w0, w1, LeafCell(f, index), g, j);
    BlkIsCell(w1, g, j);
    BlkIsCell(w', g, j);
    if g == f && LeafCell(f, index) == LeafCell(g, j) {
      LeafInjective(f, index, j);
    }
    if Blk(w, g, j) != 0 {
      LeafFacts(w1, g, j);
      assert !Interior(w1, Blk(w1, g, j));
    }
  }

  lemma MappedCovers(w: World, w0: World, w1: World, w': World, f: nat, index: nat)
    requires Taken(w, w0) && f in w.files && index < MAX_INDEX && Blk(w, f, index) == 0
    requires Stored(w0, w1, w', LeafCell(f, index), w.free.id, true)
    ensures forall extra :: Covered(w, extra) ==> Covered(w', extra)
    ensures Persists(w, w')
  {
    var t, x := LeafCell(f, index), w.free.id;
    BlkIsCell(w, f, index);
    AboveIsNoLeaf(w.files, t, t);
    forall extra | Covered(w, extra) ensures Covered(w', extra) {
      TakenCovers(w, w0, extra);
      GrownCovers(w0, w1, t, extra + {x});
      UpdateCovers(w1, w', t, x, extra);
    }
  }

  /** Overwriting a mapped data block. */
  lemma WriteLeaf(w: World, f: nat, index: nat, b: Block) returns (w': World)
    requires Sound(w) && f in w.files && index < MAX_INDEX && Blk(w, f, index) != 0
    ensures Blk(w, f, index) < NUM_BLOCKS && w' == w.(disk := w.disk[Blk(w, f, index) := b])
    ensures Sound(w') && OthersKept(w, w', f, index) && Blk(w', f, index) == Blk(w, f, index)
    ensures forall extra :: Covered(w, extra) ==> Covered(w', extra)
    ensures Persists(w, w')
  {
    LeafFacts(w, f, index);
    w' := w.(disk := w.disk[Blk(w, f, index) := b]);
    assert KeepsIndex(w, w');
    KeepsIndexKeepsCells(w, w');
    FreeKept(w.disk, w'.disk, w.free);
    SameOwners(w, w');
    BlkIsCell(w, f, index);
    BlkIsCell(w', f, index);
    forall g, j | g in w.files && 0 <= j < MAX_INDEX && (g != f || j != index) ensures SameLeaf(w, w', g, j) {
      BlkIsCell(w, g, j);
      BlkIsCell(w', g, j);
      if Blk(w, g, j) == Blk(w, f, index) {
        LeafDistinct(w, g, j, f, index);
      }
    }
  }

  /** Soundness and coverage depend on the cells, the free list and the lost blocks only. */
  lemma SameOwners(w: World, w': World)
    requires Sound(w) && SameCells(w, w') && w'.free == w.free && w'.lost == w.lost && FreeInv(w'.disk, w.free)
    ensures Sound(w')
    ensures forall extra :: Covered(w, extra) ==> Covered(w', extra)
  {
    forall extra | Covered(w, extra) ensures Covered(w', extra) {
      forall y: word | IsData(y) && y !in Ids(w.free) && y !in w.lost && y !in extra ensures Uses(w', y) {
        var c :| IsCell(w.files, c) && Id(w, c) == y;
        assert IsCell(w'.files, c) && Id(w', c) == y;
      }
    }
  }
}

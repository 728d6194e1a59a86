/** set_block_id and get_block_id implement a map from block indices to block numbers,
    although the setter allocates and links index blocks on the way. */
module BlockMapLaws {
  import opened Arithmetic
  import opened Geometry
  import opened Codec
  import opened FreeList
  import opened BlockMap
  import opened Ownership

  // ----- growth: index blocks appear above a cell ------------------------

  /** Cell a names an index block on the way to t. */
  predicate Above(a: Cell, t: Cell) {
    t.Slot? && (a == t.list || Above(a, t.list))
  }

  ghost predicate Interior(w: World, x: word) {
    x != 0 && exists c :: IsCell(w.files, c) && !IsLeaf(c) && Id(w, c) == x
  }

  /** The inodes agree on everything but their block numbers. */
  predicate SameAttributes(a: Inode, b: Inode) {
    && a.id == b.id && a.kind == b.kind && a.links == b.links
    && a.numBlocks == b.numBlocks && a.used == b.used && a.numAllocated == b.numAllocated
  }

  /** Only file f differs between the two inode maps, and only in its block numbers. */
  ghost predicate SameFiles(files: map<nat, Inode>, files': map<nat, Inode>, f: nat) {
    && f in files && f in files'
    && files' == files[f := files'[f]]
    && SameAttributes(files[f], files'[f])
  }

  /** From w to w' some empty cells above t received fresh index blocks; nothing else changed. */
  ghost predicate Grown(w: World, w': World, t: Cell) {
    && Sound(w')
    && w'.lost == w.lost
    && Ids(w'.free) <= Ids(w.free)
    && SameFiles(w.files, w'.files, FileOf(t))
    && (forall c :: IsCell(w'.files, c) <==> IsCell(w.files, c))
    && (forall c :: IsCell(w.files, c) ==>
          Id(w', c) == Id(w, c) || (Above(c, t) && Id(w, c) == 0 && Id(w', c) in Ids(w.free)))
    && (forall x :: 1 <= x < NUM_BLOCKS && x != HEAD && x !in Ids(w.free) && !Interior(w, x) ==>
          w'.disk[x] == w.disk[x])
    && (forall x :: x in Ids(w.free) ==> x in Ids(w'.free) || Uses(w', x))
  }

  lemma GrownSelf(w: World, t: Cell)
    requires Sound(w) && FileOf(t) in w.files
    ensures Grown(w, w, t)
  {}

  lemma GrownTrans(a: World, b: World, c: World, t: Cell)
    requires Sound(a) && Grown(a, b, t) && Grown(b, c, t)
    ensures Grown(a, c, t)
  {
    GrownDisk(a, b, c, t);
    GrownIds(a, b, c, t);
    forall x | x in Ids(a.free) ensures x in Ids(c.free) || Uses(c, x) {
      IdsAreData(a.free);
      if x !in Ids(b.free) {
        UsesKept(a, b, c, t, x);
      }
    }
  }

  lemma GrownDisk(a: World, b: World, c: World, t: Cell)
    requires Sound(a) && Grown(a, b, t) && Grown(b, c, t)
    ensures forall x :: 1 <= x < NUM_BLOCKS && x != HEAD && x !in Ids(a.free) && !Interior(a, x) ==>
      c.disk[x] == a.disk[x]
  {
    forall x | 1 <= x < NUM_BLOCKS && x != HEAD && x !in Ids(a.free) && !Interior(a, x) ensures c.disk[x] == a.disk[x] {
      assert !Interior(b, x);
    }
  }

  lemma GrownIds(a: World, b: World, c: World, t: Cell)
    requires Sound(a) && Grown(a, b, t) && Grown(b, c, t)
    ensures forall e :: IsCell(a.files, e) ==>
      Id(c, e) == Id(a, e) || (Above(e, t) && Id(a, e) == 0 && Id(c, e) in Ids(a.free))
  {
    IdsAreData(a.free);
  }

  lemma UsesKept(a: World, b: World, c: World, t: Cell, x: word)
    requires Grown(a, b, t) && Grown(b, c, t) && x != 0 && Uses(b, x)
    ensures Uses(c, x)
  {
    var e :| IsCell(b.files, e) && Id(b, e) == x;
    assert IsCell(c.files, e) && Id(c, e) == x;
  }

  lemma GrownCovers(w: World, w': World, t: Cell, extra: set<word>)
    requires Grown(w, w', t) && Covered(w, extra)
    ensures Covered(w', extra)
  {
    forall y: word | IsData(y) && y !in Ids(w'.free) && y !in w.lost && y !in extra ensures Uses(w', y) {
      if y !in Ids(w.free) {
        var c :| IsCell(w.files, c) && Id(w, c) == y;
        assert IsCell(w'.files, c) && Id(w', c) == y;
      }
    }
  }

  /** Growth keeps fresh blocks fresh, and their contents. */
  lemma GrownFresh(w: World, w': World, t: Cell, x: word)
    requires Grown(w, w', t) && Fresh(w, x)
    ensures Fresh(w', x) && w'.disk[x] == w.disk[x]
  {
    assert !Interior(w, x);
  }

  // ----- one step of growth ----------------------------------------------

  /** The "make sure we have a valid block" step in an index block. */
  lemma EnsureChildGrows(v: Vol, w: World, p: Cell, s: nat, t: Cell) returns (w': World)
    requires v.disk == w.disk && Sound(w)
    requires IsCell(w.files, p) && Level(p) + 1 < Depth(RootOf(p)) && Id(w, p) != 0 && s < K
    requires Above(Slot(p, s), t) && FileOf(t) == FileOf(p)
    ensures Id(w, p) < NUM_BLOCKS && Grown(w, w', t) && w'.files == w.files
    ensures var e := EnsureChild(v, Id(w, p), s);
      && e.vol.disk == w'.disk && Tallied(v, w.free, e.vol, w'.free, if e.ok then 1 else 0)
      && (e.ok ==> IsCell(w'.files, Slot(p, s)) && Id(w', Slot(p, s)) == e.child && e.child != 0)
      && (!e.ok ==> w'.free == Empty)
  {
    CellFile(w.files, p);
    assert Id(w, Slot(p, s)) == Words(w.disk[Id(w, p)])[s];
    if Id(w, Slot(p, s)) != 0 {
      w' := w;
      GrownSelf(w, t);
    } else if w.free.Empty? {
      AllocPops(v, w.free);
      w' := w;
      GrownSelf(w, t);
    } else {
      AllocPops(v, w.free);
      w' := LinkNewChild(v, w, p, s, t, EnsureChild(v, Id(w, p), s));
    }
  }

  lemma LinkNewChild(v: Vol, w: World, p: Cell, s: nat, t: Cell, e: ChildResult) returns (w': World)
    requires v.disk == w.disk && Sound(w) && !w.free.Empty?
    requires IsCell(w.files, p) && Level(p) + 1 < Depth(RootOf(p)) && 0 < Id(w, p) < NUM_BLOCKS && s < K
    requires Id(w, Slot(p, s)) == 0 && Above(Slot(p, s), t) && FileOf(t) in w.files
    requires var a, list := Alloc(v), Id(w, p);
      e == ChildResult(Vol(a.vol.disk[list := SetWord(v.disk[list], s, a.id)], a.vol.freeBlocks, a.vol.freeInodes),
                       true, a.id)
    ensures Grown(w, w', t) && w'.files == w.files
    ensures e.vol.disk == w'.disk && Tallied(v, w.free, e.vol, w'.free, 1)
    ensures IsCell(w'.files, Slot(p, s)) && Id(w', Slot(p, s)) == e.child && e.child != 0
  {
    AllocPops(v, w.free);
    var w1 := AllocKeeps(v, w);
    assert Interior(w, Id(w, p));
    TalliedWrite(v, w.free, Alloc(v).vol, w1.free, 1, Id(w, p), SetWord(v.disk[Id(w, p)], s, Alloc(v).id));
    w' := LinkFresh(w, w1, p, s, t);
  }

  /** The block taken off the free stack is linked in an empty slot. */
  lemma LinkFresh(w: World, w1: World, p: Cell, s: nat, t: Cell) returns (w': World)
    requires Sound(w) && !w.free.Empty? && Sound(w1) && KeepsIndex(w, w1) && SameCells(w, w1)
    requires w1 == World(w1.disk, w.files, w.free.below, w.lost) && Fresh(w1, w.free.id) && w1.disk[w.free.id] == ZERO
    requires forall x :: 1 <= x < NUM_BLOCKS && x != HEAD && x != w.free.id ==> w1.disk[x] == w.disk[x]
    requires IsCell(w.files, p) && Level(p) + 1 < Depth(RootOf(p)) && 0 < Id(w, p) < NUM_BLOCKS && s < K
    requires Id(w, Slot(p, s)) == 0 && Above(Slot(p, s), t) && FileOf(t) in w.files
    ensures w' == w1.(disk := w1.disk[Id(w, p) := SetWord(w.disk[Id(w, p)], s, w.free.id)])
    ensures Grown(w, w', t) && IsCell(w'.files, Slot(p, s)) && Id(w', Slot(p, s)) == w.free.id
  {
    assert Interior(w, Id(w, p)) && w1.disk[Id(w, p)] == w.disk[Id(w, p)];
    w' := LinkSlot(w1, p, s, w.free.id);
    FreeKept(w1.disk, w'.disk, w1.free);
    NewIndexBlockGrows(w, w1, w', Slot(p, s), t);
  }

  /** Taking the top of the free stack and handing it to an empty cell above t is growth. */
  lemma NewIndexBlockGrows(w: World, w1: World, w': World, e: Cell, t: Cell)
    requires Sound(w) && !w.free.Empty? && Sound(w1) && KeepsIndex(w, w1) && SameCells(w, w1)
    requires w1 == World(w1.disk, w.files, w.free.below, w.lost) && Fresh(w1, w.free.id)
    requires forall x :: 1 <= x < NUM_BLOCKS && x != HEAD && x != w.free.id ==> w1.disk[x] == w.disk[x]
    requires IsCell(w.files, e) && Id(w, e) == 0 && Above(e, t) && Updated(w1, w', e, w.free.id)
    requires FreeInv(w'.disk, w'.free) && SameFiles(w.files, w'.files, FileOf(t))
    requires forall x :: 0 <= x < NUM_BLOCKS && !Interior(w, x) ==> w'.disk[x] == w1.disk[x]
    ensures Grown(w, w', t)
  {
    UpdateSound(w1, w', e, w.free.id);
    assert IsCell(w'.files, e) && Id(w', e) == w.free.id;
    assert Uses(w', w.free.id);
  }

  /** The "make sure we have a valid block" step in an inode field. */
  lemma EnsureRootGrows(v: Vol, w: World, f: nat, r: nat, ino: Inode, t: Cell) returns (w': World)
    requires v.disk == w.disk && Sound(w)
    requires f in w.files && NUM_DIRECT <= r < NUM_DIRECT + 3
    requires Above(Field(f, r), t) && FileOf(t) == f
    requires var e := EnsureRoot(v, RootWord(w.files[f], r));
      && SameAttributes(w.files[f], ino)
      && forall k :: 0 <= k < NUM_DIRECT + 3 ==>
           RootWord(ino, k) == if k == r && e.ok then e.child else RootWord(w.files[f], k)
    ensures Grown(w, w', t) && w'.files == w.files[f := ino]
    ensures var e := EnsureRoot(v, RootWord(w.files[f], r));
      && e.vol.disk == w'.disk && Tallied(v, w.free, e.vol, w'.free, if e.ok then 1 else 0)
      && (e.ok ==> Id(w', Field(f, r)) == e.child && e.child != 0)
      && (!e.ok ==> w'.free == Empty)
  {
    AllocPops(v, w.free);
    if RootWord(w.files[f], r) != 0 || w.free.Empty? {
      w' := w.(files := w.files[f := ino]);
      KeepsIndexKeepsCells(w, w');
    } else {
      var x := w.free.id;
      var w1 := AllocKeeps(v, w);
      w' := LinkField(w1, f, r, ino, x);
      NewIndexBlockGrows(w, w1, w', Field(f, r), t);
    }
  }

  // ----- the whole setter ------------------------------------------------

  /** From w to w': index blocks grew above t (w1), and on success t was set to id. */
  ghost predicate Stored(w: World, w1: World, w': World, t: Cell, id: word, ok: bool) {
    && Grown(w, w1, t) && IsCell(w1.files, t)
    && if ok then
         && Updated(w1, w', t, id)
         && SameFiles(w1.files, w'.files, FileOf(t))
         && FreeInv(w'.disk, w'.free)
         && (forall x :: 0 <= x < NUM_BLOCKS && !Interior(w1, x) ==> w'.disk[x] == w1.disk[x])
       else w' == w1 && w1.free == Empty
  }

  lemma DoubleShape(c: Cell, i: nat)
    ensures var t, mid := DoubleCell(c, i), Slot(c, Quot(i, K));
      && FileOf(t) == FileOf(mid) == FileOf(c) && RootOf(t) == RootOf(mid) == RootOf(c)
      && Level(t) == Level(c) + 2 && Above(mid, t) && Above(c, t)
  {
    assert DoubleCell(c, i) == Slot(Slot(c, Quot(i, K)), Rem(i, K));
    assert Above(c, Slot(c, Quot(i, K)));
  }

  lemma TripleShape(c: Cell, i: nat)
    ensures var t, mid := TripleCell(c, i), Slot(c, Quot(i, K2));
      && FileOf(t) == FileOf(mid) == FileOf(c) && RootOf(t) == RootOf(mid) == RootOf(c)
      && Level(t) == Level(c) + 3 && Above(mid, t) && Above(c, t)
  {
    var mid := Slot(c, Quot(i, K2));
    DoubleShape(mid, Rem(i, K2));
    AboveTrans(c, mid, TripleCell(c, i));
  }

  lemma {:induction false} AboveTrans(a: Cell, b: Cell, t: Cell)
    requires Above(a, b) && Above(b, t)
    ensures Above(a, t)
  {
    if b != t.list {
      AboveTrans(a, b, t.list);
    }
  }

  lemma SetSingleStores(v: Vol, w: World, p: Cell, s: nat, id: word) returns (w': World)
    requires v.disk == w.disk && Sound(w) && s < K
    requires IsCell(w.files, p) && Level(p) + 1 == Depth(RootOf(p)) && Id(w, p) != 0
    ensures var r := SetSingle(v, Id(w, p), s, id);
      r.ok && w'.disk == r.vol.disk && Tallied(v, w.free, r.vol, w'.free, 0) && w'.files == w.files
    ensures Stored(w, w, w', Slot(p, s), id, true)
  {
    CellFile(w.files, p);
    w' := LinkSlot(w, p, s, id);
    FreeKept(w.disk, w'.disk, w.free);
    assert Interior(w, Id(w, p));
    GrownSelf(w, Slot(p, s));
  }

  lemma SetDoubleStores(v: Vol, w: World, p: Cell, i: nat, id: word) returns (w1: World, w': World)
    requires v.disk == w.disk && Sound(w) && i < K2
    requires IsCell(w.files, p) && Level(p) + 2 == Depth(RootOf(p)) && Id(w, p) != 0
    ensures var r := SetDouble(v, Id(w, p), i, id);
      && w'.disk == r.vol.disk && Tallied(v, w.free, r.vol, w'.free, if r.ok then 1 else 0) && w'.files == w.files
      && Stored(w, w1, w', DoubleCell(p, i), id, r.ok)
  {
    CellFile(w.files, p);
    var t, mid := DoubleCell(p, i), Slot(p, Quot(i, K));
    DoubleShape(p, i);
    assert IsCell(w.files, mid) && IsCell(w.files, t);
    var e := EnsureChild(v, Id(w, p), Quot(i, K));
    w1 := EnsureChildGrows(v, w, p, Quot(i, K), t);
    w' := w1;
    if e.ok {
      w' := SetSingleStores(e.vol, w1, mid, Rem(i, K), id);
      TalliedTrans(v, w.free, e.vol, w1.free, SetDouble(v, Id(w, p), i, id).vol, w'.free, 1, 0);
    }
  }

  lemma SetTripleStores(v: Vol, w: World, p: Cell, i: nat, id: word) returns (w1: World, w': World)
    requires v.disk == w.disk && Sound(w) && i < K3
    requires IsCell(w.files, p) && Level(p) + 3 == Depth(RootOf(p)) && Id(w, p) != 0
    ensures var r := SetTriple(v, Id(w, p), i, id);
      && w'.disk == r.vol.disk && Tallied(v, w.free, r.vol, w'.free, if r.ok then 2 else 1) && w'.files == w.files
      && Stored(w, w1, w', TripleCell(p, i), id, r.ok)
  {
    CellFile(w.files, p);
    var t, mid := TripleCell(p, i), Slot(p, Quot(i, K2));
    TripleShape(p, i);
    assert IsCell(w.files, mid);
    var e := EnsureChild(v, Id(w, p), Quot(i, K2));
    w1 := EnsureChildGrows(v, w, p, Quot(i, K2), t);
    w' := w1;
    if e.ok {
      var w2;
      w2, w' := SetDoubleStores(e.vol, w1, mid, Rem(i, K2), id);
      TalliedTrans(v, w.free, e.vol, w1.free, SetTriple(v, Id(w, p), i, id).vol, w'.free, 1,
                   if SetTriple(v, Id(w, p), i, id).ok then 1 else 0);
      GrownTrans(w, w1, w2, t);
      w1 := w2;
    } else {
      assert IsCell(w1.files, Slot(mid, Quot(Rem(i, K2), K)));
    }
  }

  /** set_block_id: what it does to the world, whatever number is stored. */
  lemma SetBlockIdStores(v: Vol, w: World, f: nat, index: nat, id: word) returns (w1: World, w': World)
    requires v.disk == w.disk && Sound(w) && f in w.files && index < MAX_INDEX
    ensures var r := SetBlockId(v, w.files[f], index, id);
      && w'.disk == r.vol.disk && w'.files == w.files[f := r.ino]
      && Tallied(v, w.free, r.vol, w'.free, if r.ok then 3 else 2)
      && Stored(w, w1, w', LeafCell(f, index), id, r.ok)
  {
    if index < NUM_DIRECT {
      w1 := w;
      w' := SetDirect(v, w, f, index, id);
    } else if index - NUM_DIRECT < K {
      w1, w' := SetUnderSingle(v, w, f, index - NUM_DIRECT, id);
    } else if index - NUM_DIRECT - K < K2 {
      w1, w' := SetUnderDouble(v, w, f, index - NUM_DIRECT - K, id);
    } else {
      w1, w' := SetUnderTriple(v, w, f, index - NUM_DIRECT - K - K2, id);
    }
  }

  lemma SetDirect(v: Vol, w: World, f: nat, i: nat, id: word) returns (w': World)
    requires v.disk == w.disk && Sound(w) && f in w.files && i < NUM_DIRECT
    ensures var r := SetBlockId(v, w.files[f], i, id);
      && w'.disk == r.vol.disk && r.vol == v && w'.files == w.files[f := r.ino]
      && Stored(w, w, w', Field(f, i), id, r.ok)
  {
    var ino := w.files[f];
    GrownSelf(w, Field(f, i));
    w' := LinkField(w, f, i, ino.(direct := ino.direct[i := id]), id);
  }

  lemma SetUnderSingle(v: Vol, w: World, f: nat, i: nat, id: word) returns (w1: World, w': World)
    requires v.disk == w.disk && Sound(w) && f in w.files && i < K
    ensures var r := SetBlockId(v, w.files[f], NUM_DIRECT + i, id);
      && w'.disk == r.vol.disk && Tallied(v, w.free, r.vol, w'.free, 1) && w'.files == w.files[f := r.ino]
      && Stored(w, w1, w', Slot(Field(f, NUM_DIRECT), i), id, r.ok)
  {
    var ino, p := w.files[f], Field(f, NUM_DIRECT);
    var e := EnsureRoot(v, ino.single);
    w1 := EnsureRootGrows(v, w, f, NUM_DIRECT, if e.ok then ino.(single := e.child) else ino, Slot(p, i));
    w' := w1;
    if e.ok {
      w' := SetSingleStores(e.vol, w1, p, i, id);
      TalliedTrans(v, w.free, e.vol, w1.free, SetBlockId(v, ino, NUM_DIRECT + i, id).vol, w'.free, 1, 0);
    }
  }

  lemma SetUnderDouble(v: Vol, w: World, f: nat, i: nat, id: word) returns (w1: World, w': World)
    requires v.disk == w.disk && Sound(w) && f in w.files && i < K2
    ensures var r := SetBlockId(v, w.files[f], NUM_DIRECT + K + i, id);
      && w'.disk == r.vol.disk && w'.files == w.files[f := r.ino]
      && Tallied(v, w.free, r.vol, w'.free, if r.ok then 2 else 1)
      && Stored(w, w1, w', DoubleCell(Field(f, NUM_DIRECT + 1), i), id, r.ok)
  {
    var ino, p := w.files[f], Field(f, NUM_DIRECT + 1);
    var t := DoubleCell(p, i);
    DoubleShape(p, i);
    var e := EnsureRoot(v, ino.double);
    w1 := EnsureRootGrows(v, w, f, NUM_DIRECT + 1, if e.ok then ino.(double := e.child) else ino, t);
    w' := w1;
    if e.ok {
      var w2;
      w2, w' := SetDoubleStores(e.vol, w1, p, i, id);
      TalliedTrans(v, w.free, e.vol, w1.free, SetBlockId(v, ino, NUM_DIRECT + K + i, id).vol, w'.free, 1,
                   if SetBlockId(v, ino, NUM_DIRECT + K + i, id).ok then 1 else 0);
      GrownTrans(w, w1, w2, t);
      w1 := w2;
    } else {
      DoubleIsCell(w1.disk, w1.files, p, i);
    }
  }

  lemma SetUnderTriple(v: Vol, w: World, f: nat, i: nat, id: word) returns (w1: World, w': World)
    requires v.disk == w.disk && Sound(w) && f in w.files && i < K3
    ensures var r := SetBlockId(v, w.files[f], NUM_DIRECT + K + K2 + i, id);
      && w'.disk == r.vol.disk && w'.files == w.files[f := r.ino]
      && Tallied(v, w.free, r.vol, w'.free, if r.ok then 3 else 2)
      && Stored(w, w1, w', TripleCell(Field(f, NUM_DIRECT + 2), i), id, r.ok)
  {
    var ino, p := w.files[f], Field(f, NUM_DIRECT + 2);
    var t, mid := TripleCell(p, i), Slot(p, Quot(i, K2));
    TripleShape(p, i);
    var e := EnsureRoot(v, ino.triple);
    w1 := EnsureRootGrows(v, w, f, NUM_DIRECT + 2, if e.ok then ino.(triple := e.child) else ino, t);
    w' := w1;
    if e.ok {
      var w2;
      w2, w' := SetTripleStores(e.vol, w1, p, i, id);
      TalliedTrans(v, w.free, e.vol, w1.free, SetBlockId(v, ino, NUM_DIRECT + K + K2 + i, id).vol, w'.free, 1,
                   if SetBlockId(v, ino, NUM_DIRECT + K + K2 + i, id).ok then 2 else 1);
      GrownTrans(w, w1, w2, t);
      w1 := w2;
    } else {
      DoubleIsCell(w1.disk, w1.files, mid, Rem(i, K2));
    }
  }

  /** set_block_id and get_block_id are map update and map lookup, for every index.  After
      success the index reads back the number, whatever it is, and no other index changed;
      after a failure, which needs an index out of range or an empty free list, no index
      changed at all. */
  lemma SetThenGet(v: Vol, w: World, f: nat, index: nat, id: word, j: nat)
    requires v.disk == w.disk && Sound(w) && f in w.files
    ensures var r := SetBlockId(v, w.files[f], index, id);
      && GetBlockId(r.vol.disk, r.ino, j)
         == (if r.ok && j == index then id else GetBlockId(v.disk, w.files[f], j))
      && (!r.ok ==> index >= MAX_INDEX || FreeInv(r.vol.disk, Empty))
  {
    if index < MAX_INDEX && j < MAX_INDEX {
      SetThenGetInRange(v, w, f, index, id, j);
    } else if index < MAX_INDEX {
      SetThenGetInRange(v, w, f, index, id, 0);
    }
  }

  lemma SetThenGetInRange(v: Vol, w: World, f: nat, index: nat, id: word, j: nat)
    requires v.disk == w.disk && Sound(w) && f in w.files && index < MAX_INDEX && j < MAX_INDEX
    ensures var r := SetBlockId(v, w.files[f], index, id);
      && GetBlockId(r.vol.disk, r.ino, j)
         == (if r.ok && j == index then id else GetBlockId(v.disk, w.files[f], j))
      && (!r.ok ==> FreeInv(r.vol.disk, Empty))
  {
    var w1, w' := SetBlockIdStores(v, w, f, index, id);
    GetIsCell(w.disk, w.files, f, j);
    GetIsCell(w'.disk, w'.files, f, j);
    GetIsCell(w.disk, w.files, f, index);
    if LeafCell(f, index) == LeafCell(f, j) {
      LeafInjective(f, index, j);
    }
    AboveIsNoLeaf(w.files, LeafCell(f, j), LeafCell(f, index));
  }

  /** The map of every other file is unchanged too. */
  lemma SetKeepsOthers(v: Vol, w: World, f: nat, index: nat, id: word, g: nat, j: nat)
    requires v.disk == w.disk && Sound(w) && f in w.files && index < MAX_INDEX
    requires g in w.files && g != f && j < MAX_INDEX
    ensures GetBlockId(SetBlockId(v, w.files[f], index, id).vol.disk, w.files[g], j)
         == GetBlockId(v.disk, w.files[g], j)
  {
    var w1, w' := SetBlockIdStores(v, w, f, index, id);
    GetIsCell(w.disk, w.files, g, j);
    GetIsCell(w'.disk, w'.files, g, j);
    GetIsCell(w.disk, w.files, f, index);
    AboveIsNoLeaf(w.files, LeafCell(g, j), LeafCell(f, index));
  }

  /** A cell above another one of its file is not a leaf. */
  lemma {:induction false} AboveIsNoLeaf(files: map<nat, Inode>, a: Cell, t: Cell)
    requires IsCell(files, t)
    ensures Above(a, t) ==> FileOf(a) == FileOf(t) && RootOf(a) == RootOf(t) && Level(a) < Level(t) && !IsLeaf(a)
  {
    CellFile(files, t);
    if t.Slot? {
      AboveIsNoLeaf(files, a, t.list);
    }
  }
}

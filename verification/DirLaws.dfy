/** A directory of any number of blocks behaves as a finite map from names to inode
    numbers, and changing it leaves every other file alone. */
module DirLaws {
  import opened Geometry
  import opened FreeList
  import opened BlockMap
  import opened Ownership
  import opened Leaves
  import opened WriteLaws
  import opened DirBlock
  import opened DirPages
  import opened Directory

  function PageAt(d: Disk, ino: Inode, j: nat): Page {
    var at := GetBlockId(d, ino, j);
    if at < NUM_BLOCKS then Entries(d[at]) else []
  }

  /** The entries of a directory, block by block. */
  function Pages(d: Disk, ino: Inode): (pages: seq<Page>)
    ensures |pages| == ino.numBlocks
  {
    seq(ino.numBlocks, j requires 0 <= j < ino.numBlocks => PageAt(d, ino, j))
  }

  ghost predicate AllMapped(d: Disk, ino: Inode) {
    ino.numBlocks <= MAX_INDEX && forall j :: 0 <= j < ino.numBlocks ==> 0 < GetBlockId(d, ino, j) < NUM_BLOCKS
  }

  /** A directory: no holes, no block beyond num_blocks, and tidy entries. */
  ghost predicate DirInv(d: Disk, ino: Inode) {
    AllMapped(d, ino) && NothingBeyond(d, ino) && Tidy(Pages(d, ino))
  }

  /** What a directory holds. */
  function Dir(d: Disk, ino: Inode): map<seq<byte>, int> {
    Listing(Pages(d, ino))
  }

  // ----- lookup ----------------------------------------------------------

  /** The scan of namei resolves the name in the pages. */
  lemma {:induction false} LookupResolves(d: Disk, ino: Inode, i: nat, name: seq<byte>, b: Block)
    requires AllMapped(d, ino)
    ensures DirLookup(d, ino, i, name, b) == Resolve(Pages(d, ino), i, name)
    decreases ino.numBlocks - i
  {
    hide GetBlockId;
    if i < ino.numBlocks {
      var at := GetBlockId(d, ino, i);
      LookupResolves(d, ino, i + 1, name, d[at]);
      assert Pages(d, ino)[i] == Entries(d[at]);
    }
  }

  /** namei finds exactly the names of the map, and their inode numbers. */
  lemma LookupIsMap(d: Disk, ino: Inode, name: seq<byte>, b: Block)
    requires DirInv(d, ino) && name != []
    ensures DirLookup(d, ino, 0, name, b) == if name in Dir(d, ino) then Dir(d, ino)[name] else -1
    ensures name in Dir(d, ino) ==> Dir(d, ino)[name] > 0
  {
    var pages := Pages(d, ino);
    LookupResolves(d, ino, 0, name, b);
    if name in Names(pages) {
      var k, l :| 0 <= k < |pages| && 0 <= l < |pages[k]| && pages[k][l].name == name;
      assert TidyEntry(pages[k][l]);
      ResolveFinds(pages, 0, k, l);
    } else {
      ResolveMisses(pages, 0, name);
    }
  }

  // ----- changing one page -----------------------------------------------

  /** The inodes differ in the block numbers and num_blocks at most. */
  predicate SameStatus(a: Inode, b: Inode) {
    && b.id == a.id && b.kind == a.kind && b.links == a.links
    && b.used == a.used && b.numAllocated == a.numAllocated
  }

  /** No entry of the block is unused. */
  predicate FullPage(page: Page) {
    forall i :: 0 <= i < |page| ==> page[i].id != 0
  }

  /** No entry of the last block is unused, or there is no block. */
  predicate LastFull(pages: seq<Page>) {
    |pages| > 0 ==> FullPage(pages[|pages| - 1])
  }

  /** Only the page at index j differs. */
  lemma PagesChanged(w: World, w': World, f: nat, j: nat)
    requires f in w.files && OthersKept(w, w', f, j) && AllMapped(w.disk, w.files[f])
    requires j < w.files[f].numBlocks == w'.files[f].numBlocks && 0 < Blk(w', f, j) < NUM_BLOCKS
    ensures AllMapped(w'.disk, w'.files[f])
    ensures Pages(w'.disk, w'.files[f]) == Pages(w.disk, w.files[f])[j := Entries(w'.disk[Blk(w', f, j)])]
  {
    var p, p' := Pages(w.disk, w.files[f]), Pages(w'.disk, w'.files[f]);
    forall k | 0 <= k < |p'| ensures 0 < GetBlockId(w'.disk, w'.files[f], k) < NUM_BLOCKS
                                  && p'[k] == if k == j then Entries(w'.disk[Blk(w', f, j)]) else p[k] {
      PageKept(w, w', f, j, k);
    }
  }

  lemma PageKept(w: World, w': World, f: nat, j: nat, k: nat)
    requires f in w.files && OthersKept(w, w', f, j) && AllMapped(w.disk, w.files[f]) && k < w.files[f].numBlocks
    ensures k != j ==> Blk(w', f, k) == Blk(w, f, k) && PageAt(w'.disk, w'.files[f], k) == PageAt(w.disk, w.files[f], k)
    ensures 0 < Blk(w, f, k) < NUM_BLOCKS
  {
    assert 0 < GetBlockId(w.disk, w.files[f], k) < NUM_BLOCKS;
    if k != j {
      assert SameLeaf(w, w', f, k);
    }
  }

  /** Nothing appears beyond the last block when index j changes. */
  lemma BeyondKept(w: World, w': World, f: nat, j: nat)
    requires f in w.files && OthersKept(w, w', f, j) && NothingBeyond(w.disk, w.files[f])
    requires j < w'.files[f].numBlocks && w.files[f].numBlocks <= w'.files[f].numBlocks
    ensures NothingBeyond(w'.disk, w'.files[f])
  {
    forall k | w'.files[f].numBlocks <= k < MAX_INDEX ensures GetBlockId(w'.disk, w'.files[f], k) == 0 {
      assert SameLeaf(w, w', f, k);
      assert GetBlockId(w.disk, w.files[f], k) == 0;
    }
  }

  /** A directory block is overwritten. */
  lemma RewritePage(w: World, f: nat, j: nat, b: Block) returns (w': World)
    requires Sound(w) && f in w.files && AllMapped(w.disk, w.files[f]) && j < w.files[f].numBlocks
    requires NothingBeyond(w.disk, w.files[f])
    ensures 0 < Blk(w, f, j) < NUM_BLOCKS && w' == w.(disk := w.disk[Blk(w, f, j) := b])
    ensures Sound(w') && ForeignKept(w, w', f) && forall extra :: Covered(w, extra) ==> Covered(w', extra)
    ensures AllMapped(w'.disk, w.files[f]) && NothingBeyond(w'.disk, w.files[f])
    ensures Pages(w'.disk, w.files[f]) == Pages(w.disk, w.files[f])[j := Entries(b)]
  {
    assert 0 < GetBlockId(w.disk, w.files[f], j) < NUM_BLOCKS;
    w' := WriteLeaf(w, f, j, b);
    PagesChanged(w, w', f, j);
    BeyondKept(w, w', f, j);
    OthersAreSpared(w, w', f, j);
  }

  /** A block is appended to a directory, in three steps: it is mapped, counted and
      written. */
  lemma AppendPage(v: Vol, w: World, f: nat, b: Block) returns (w': World)
    requires v.disk == w.disk && Sound(w) && f in w.files
    requires AllMapped(w.disk, w.files[f]) && NothingBeyond(w.disk, w.files[f])
    requires Alloc(v).ok && SetBlockId(Alloc(v).vol, w.files[f], w.files[f].numBlocks, Alloc(v).id).ok
    ensures var a := Alloc(v); var r := SetBlockId(a.vol, w.files[f], w.files[f].numBlocks, a.id);
      && a.id < NUM_BLOCKS && w'.disk == r.vol.disk[a.id := b] && Tallied(v, w.free, r.vol, w'.free, 4)
      && w'.files == w.files[f := r.ino.(numBlocks := Increment(r.ino.numBlocks))]
    ensures Sound(w') && ForeignKept(w, w', f) && forall extra :: Covered(w, extra) ==> Covered(w', extra)
    ensures AllMapped(w'.disk, w'.files[f]) && NothingBeyond(w'.disk, w'.files[f])
    ensures Pages(w'.disk, w'.files[f]) == Pages(w.disk, w.files[f]) + [Entries(b)]
    ensures var x, y := w.files[f], w'.files[f];
      SameStatus(x, y) && y.numBlocks == x.numBlocks + 1
  {
    var n := w.files[f].numBlocks;
    var a := Alloc(v);
    var w1 := MapFreshBlock(v, w, f, n);
    MaxIndexFits();
    var w2 := w1.(files := w1.files[f := w1.files[f].(numBlocks := n + 1)]);
    Relabel(w1, w2, f, n);
    OthersKeptTrans(w, w1, w2, f, n);
    w' := WriteLeaf(w2, f, n, b);
    OthersKeptTrans(w, w2, w', f, n);
    TalliedWrite(v, w.free, SetBlockId(a.vol, w.files[f], n, a.id).vol, w1.free, 4, a.id, b);
    AppendedPages(w, w', f, b);
    BeyondKept(w, w', f, n);
    OthersAreSpared(w, w', f, n);
  }

  lemma AppendedPages(w: World, w': World, f: nat, b: Block)
    requires f in w.files && AllMapped(w.disk, w.files[f]) && w.files[f].numBlocks < MAX_INDEX
    requires OthersKept(w, w', f, w.files[f].numBlocks)
    requires w'.files[f].numBlocks == w.files[f].numBlocks + 1
    requires 0 < Blk(w', f, w.files[f].numBlocks) < NUM_BLOCKS && w'.disk[Blk(w', f, w.files[f].numBlocks)] == b
    ensures AllMapped(w'.disk, w'.files[f])
    ensures Pages(w'.disk, w'.files[f]) == Pages(w.disk, w.files[f]) + [Entries(b)]
  {
    var n := w.files[f].numBlocks;
    var p, p' := Pages(w.disk, w.files[f]), Pages(w'.disk, w'.files[f]);
    forall k | 0 <= k < |p'| ensures 0 < GetBlockId(w'.disk, w'.files[f], k) < NUM_BLOCKS
                                  && p'[k] == (p + [Entries(b)])[k] {
      if k < n {
        PageKept(w, w', f, n, k);
      }
    }
  }

  // ----- the theorems ----------------------------------------------------

  /** A successful add_entry_to_parent of a new name adds that name to the map; the
      directory grows by a block exactly when no entry of its last block is unused.  Other
      names, other fields of the inode and other files are untouched. */
  lemma DirAddRefines(v: Vol, w: World, f: nat, id: nat, name: seq<byte>) returns (w': World)
    requires v.disk == w.disk && Sound(w) && f in w.files && DirInv(w.disk, w.files[f])
    requires 0 < id < 0x8000_0000 && IsName(name) && name != [] && name !in Dir(w.disk, w.files[f])
    requires DirAdd(v, w.files[f], id, name).ok
    ensures var r := DirAdd(v, w.files[f], id, name);
      && w'.disk == r.vol.disk && w'.files == w.files[f := r.ino] && Tallied(v, w.free, r.vol, w'.free, 4)
      && DirInv(w'.disk, r.ino) && Dir(w'.disk, r.ino) == Dir(w.disk, w.files[f])[name := id]
      && SameStatus(w.files[f], r.ino)
      && r.ino.numBlocks == w.files[f].numBlocks + if LastFull(Pages(w.disk, w.files[f])) then 1 else 0
    ensures Sound(w') && ForeignKept(w, w', f) && forall extra :: Covered(w, extra) ==> Covered(w', extra)
  {
    var ino, n := w.files[f], w.files[f].numBlocks;
    hide GetBlockId, AddToBlock, DirAdd, DirGrow, Sound, Tidy, Dir, Pages, LastFull, ForeignKept, Tallied;
    AddsInPlace(v, ino, id, name);
    if !LastFull(Pages(w.disk, ino)) {
      w' := AddInPlace(v, w, f, id, name);
      assert w.files[f := ino] == w.files;
    } else {
      w' := AddGrows(v, w, f, id, name);
    }
  }

  /** An entry can be added to the last block unless it is full. */
  lemma AddsInPlace(v: Vol, ino: Inode, id: nat, name: seq<byte>)
    requires AllMapped(v.disk, ino) && id < 0x8000_0000 && IsName(name)
    ensures ino.numBlocks > 0 ==> 0 < GetBlockId(v.disk, ino, ino.numBlocks - 1) < NUM_BLOCKS
    ensures LastFull(Pages(v.disk, ino)) ==> DirAdd(v, ino, id, name) == DirGrow(v, ino, id, name)
    ensures LastFull(Pages(v.disk, ino))
      <==> !(ino.numBlocks > 0 && AddToBlock(v.disk[GetBlockId(v.disk, ino, ino.numBlocks - 1)], id, name).ok)
  {
    hide GetBlockId, DirGrow;
    var n := ino.numBlocks;
    if n > 0 {
      assert 0 < GetBlockId(v.disk, ino, n - 1) < NUM_BLOCKS;
      assert Pages(v.disk, ino)[n - 1] == Entries(v.disk[GetBlockId(v.disk, ino, n - 1)]);
    }
  }

  /** The first unused entry of a block is filled. */
  lemma FilledPage(b: Block, id: nat, name: seq<byte>) returns (k: nat)
    requires id < 0x8000_0000 && IsName(name) && AddToBlock(b, id, name).ok
    ensures k < LEN && Entries(b)[k].id == 0
    ensures Entries(AddToBlock(b, id, name).b) == Entries(b)[k := DirEntry(id, name)]
  {
    k := FirstUnused(Entries(b), 0);
  }

  /** The last block has an unused entry. */
  lemma AddInPlace(v: Vol, w: World, f: nat, id: nat, name: seq<byte>) returns (w': World)
    requires v.disk == w.disk && Sound(w) && f in w.files && DirInv(w.disk, w.files[f]) && w.files[f].numBlocks > 0
    requires 0 < id < 0x8000_0000 && IsName(name) && name != [] && name !in Dir(w.disk, w.files[f])
    requires var last := GetBlockId(v.disk, w.files[f], w.files[f].numBlocks - 1);
      last < NUM_BLOCKS && AddToBlock(v.disk[last], id, name).ok
    ensures var r := DirAdd(v, w.files[f], id, name);
      && r.ok && r.ino == w.files[f] && w'.disk == r.vol.disk && w'.files == w.files
      && Tallied(v, w.free, r.vol, w'.free, 0)
      && DirInv(w'.disk, r.ino) && Dir(w'.disk, r.ino) == Dir(w.disk, w.files[f])[name := id]
    ensures Sound(w') && ForeignKept(w, w', f) && forall extra :: Covered(w, extra) ==> Covered(w', extra)
  {
    hide DirGrow, GetBlockId, AddToBlock, Tidy, Names, Sound, Resolve;
    var ino, j := w.files[f], w.files[f].numBlocks - 1;
    var last := GetBlockId(v.disk, ino, j);
    var pages, page := Pages(w.disk, ino), Entries(w.disk[last]);
    assert pages[j] == page;
    var k := FilledPage(w.disk[last], id, name);
    w' := RewritePage(w, f, j, AddToBlock(v.disk[last], id, name).b);
    assert Pages(w'.disk, ino) == Put(pages, j, k, DirEntry(id, name));
    PutAdds(pages, j, k, id, name);
  }

  /** There is no block, or the last one is full. */
  lemma AddGrows(v: Vol, w: World, f: nat, id: nat, name: seq<byte>) returns (w': World)
    requires v.disk == w.disk && Sound(w) && f in w.files && DirInv(w.disk, w.files[f])
    requires 0 < id < 0x8000_0000 && IsName(name) && name != [] && name !in Dir(w.disk, w.files[f])
    requires DirGrow(v, w.files[f], id, name).ok
    ensures var r := DirGrow(v, w.files[f], id, name);
      && w'.disk == r.vol.disk && w'.files == w.files[f := r.ino] && Tallied(v, w.free, r.vol, w'.free, 4)
      && DirInv(w'.disk, r.ino) && Dir(w'.disk, r.ino) == Dir(w.disk, w.files[f])[name := id]
      && SameStatus(w.files[f], r.ino) && r.ino.numBlocks == w.files[f].numBlocks + 1
    ensures Sound(w') && ForeignKept(w, w', f) && forall extra :: Covered(w, extra) ==> Covered(w', extra)
  {
    var pages, b := Pages(w.disk, w.files[f]), AddToBlock(ZERO, id, name).b;
    w' := AppendPage(v, w, f, b);
    NewPage(pages, id, name);
  }

  /** A new page that holds one name. */
  lemma NewPage(pages: seq<Page>, id: nat, name: seq<byte>)
    requires Tidy(pages) && 0 < id < 0x8000_0000 && IsName(name) && name != [] && name !in Names(pages)
    ensures var p := pages + [Entries(AddToBlock(ZERO, id, name).b)];
      Tidy(p) && Listing(p) == Listing(pages)[name := id]
  {
    var blank, j := Entries(ZERO), |pages|;
    forall i | 0 <= i < |blank| ensures blank[i] == UNUSED {
      ZeroEntries(i);
    }
    AppendBlank(pages, blank);
    AppendNames(pages, blank, name);
    assert FirstUnused(blank, 0) == 0;
    PutAdds(pages + [blank], j, 0, id, name);
    assert Put(pages + [blank], j, 0, DirEntry(id, name)) == pages + [blank[0 := DirEntry(id, name)]];
  }

  /** No entry of the page has the inode number. */
  predicate NoneOn(page: Page, id: int) {
    forall l :: 0 <= l < |page| ==> page[l].id != id
  }

  /** No entry from page `from` on has the inode number. */
  predicate NoneFrom(pages: seq<Page>, from: nat, id: int) {
    forall k :: from <= k < |pages| ==> NoneOn(pages[k], id)
  }

  /** Entry i is the first one of the page with inode number id. */
  predicate FirstOn(page: Page, id: int, i: nat) {
    i < |page| && page[i].id == id && forall l :: 0 <= l < i ==> page[l].id != id
  }

  /** Entry i of page j is the first one with inode number id, from page `from` on. */
  predicate FirstAt(pages: seq<Page>, from: nat, id: int, j: nat, i: nat) {
    && from <= j < |pages| && FirstOn(pages[j], id, i)
    && forall k :: from <= k < j ==> NoneOn(pages[k], id)
  }

  /** remove_entry_from_parent removes the first entry with the inode number and the name
      it had; it fails exactly when there is none. */
  lemma DirRemoveRefines(v: Vol, w: World, f: nat, id: nat) returns (w': World, j: nat, i: nat)
    requires v.disk == w.disk && Sound(w) && f in w.files && DirInv(w.disk, w.files[f]) && id > 0
    ensures var r, ino := DirRemove(v, w.files[f], 0, id), w.files[f]; var pages := Pages(w.disk, ino);
      && w'.disk == r.vol.disk && w'.files == w.files && Tallied(v, w.free, r.vol, w'.free, 0)
      && DirInv(w'.disk, ino)
      && if r.ok then FirstAt(pages, 0, id, j, i) && Dir(w'.disk, ino) == Dir(w.disk, ino) - {pages[j][i].name}
         else w' == w && NoneFrom(pages, 0, id)
    ensures Sound(w') && ForeignKept(w, w', f) && forall extra :: Covered(w, extra) ==> Covered(w', extra)
  {
    var ino := w.files[f];
    var pages := Pages(w.disk, ino);
    j, i := RemoveFinds(v, ino, 0, id, pages, DirRemove(v, ino, 0, id));
    w' := w;
    if DirRemove(v, ino, 0, id).ok {
      w' := RewritePage(w, f, j, RemoveFromBlock(w.disk[GetBlockId(w.disk, ino, j)], id).b);
      assert Pages(w'.disk, ino) == Put(pages, j, i, UNUSED);
      PutRemoves(pages, j, i);
    }
  }

  /** What a successful remove from block j of the directory does. */
  ghost predicate RemovedAt(v: Vol, ino: Inode, id: int, pages: seq<Page>, j: nat, i: nat, r: RemoveResult) {
    && j < |pages| && i < |pages[j]|
    && var at := GetBlockId(v.disk, ino, j);
       0 < at < NUM_BLOCKS && r.vol == WriteTo(v, at, RemoveFromBlock(v.disk[at], id).b)
       && Entries(RemoveFromBlock(v.disk[at], id).b) == pages[j][i := UNUSED]
  }

  lemma {:induction false} RemoveFinds(v: Vol, ino: Inode, from: nat, id: nat, pages: seq<Page>, r: RemoveResult)
    returns (j: nat, i: nat)
    requires AllMapped(v.disk, ino) && id > 0 && pages == Pages(v.disk, ino) && r == DirRemove(v, ino, from, id)
    ensures if r.ok then FirstAt(pages, from, id, j, i) && RemovedAt(v, ino, id, pages, j, i, r)
            else r.vol == v && NoneFrom(pages, from, id)
    decreases ino.numBlocks - from
  {
    hide RemoveFromBlock, GetBlockId, NoneOn, FirstOn, RemovedAt, Pages;
    j, i := 0, 0;
    if from < ino.numBlocks {
      j := from;
      i := RemoveStep(v, ino, from, id, pages, r);
      if NoneOn(pages[from], id) {
        j, i := RemoveFinds(v, ino, from + 1, id, pages, r);
      }
    }
  }

  /** One block of the scan. */
  lemma RemoveStep(v: Vol, ino: Inode, from: nat, id: nat, pages: seq<Page>, r: RemoveResult) returns (i: nat)
    requires AllMapped(v.disk, ino) && id > 0 && pages == Pages(v.disk, ino) && r == DirRemove(v, ino, from, id)
    requires from < ino.numBlocks
    ensures if NoneOn(pages[from], id) then r == DirRemove(v, ino, from + 1, id)
            else r.ok && FirstOn(pages[from], id, i) && RemovedAt(v, ino, id, pages, from, i, r)
  {
    var at := GetBlockId(v.disk, ino, from);
    assert pages[from] == Entries(v.disk[at]);
    i := RemoveHere(v.disk[at], id);
  }

  lemma RemoveHere(b: Block, id: int) returns (i: nat)
    ensures var es, r := Entries(b), RemoveFromBlock(b, id);
      if r.ok then FirstOn(es, id, i) && Entries(r.b) == es[i := UNUSED] else NoneOn(es, id)
  {
    i := FirstWithId(Entries(b), 0, id);
  }

  /** The only name of `id` is `name`. */
  ghost predicate NamedOnce(dir: map<seq<byte>, int>, id: int, name: seq<byte>) {
    name in dir && dir[name] == id && forall n :: n in dir && n != name ==> dir[n] != id
  }

  /** When the inode number occurs once, exactly its name is removed. */
  lemma DirRemoveOnce(v: Vol, w: World, f: nat, id: nat, name: seq<byte>) returns (w': World)
    requires v.disk == w.disk && Sound(w) && f in w.files && DirInv(w.disk, w.files[f]) && id > 0
    requires NamedOnce(Dir(w.disk, w.files[f]), id, name)
    ensures var r := DirRemove(v, w.files[f], 0, id);
      r.ok && w'.disk == r.vol.disk && w'.files == w.files && Tallied(v, w.free, r.vol, w'.free, 0)
    ensures Sound(w') && ForeignKept(w, w', f) && forall extra :: Covered(w, extra) ==> Covered(w', extra)
    ensures DirInv(w'.disk, w.files[f]) && Dir(w'.disk, w.files[f]) == Dir(w.disk, w.files[f]) - {name}
  {
    var ino := w.files[f];
    var pages := Pages(w.disk, ino);
    var j, i;
    w', j, i := DirRemoveRefines(v, w, f, id);
    NameHasEntry(pages, name);
    if DirRemove(v, ino, 0, id).ok {
      EntryHasName(pages, j, i);
    }
  }

  lemma EntryHasName(pages: seq<Page>, j: nat, i: nat)
    requires Tidy(pages) && j < |pages| && i < |pages[j]| && pages[j][i].id > 0
    ensures pages[j][i].name in Listing(pages) && Listing(pages)[pages[j][i].name] == pages[j][i].id
  {
    assert TidyEntry(pages[j][i]) && pages[j][i].name in Names(pages);
    ResolveFinds(pages, 0, j, i);
  }

  lemma NameHasEntry(pages: seq<Page>, name: seq<byte>)
    requires Tidy(pages) && name in Listing(pages)
    ensures exists k, l :: 0 <= k < |pages| && 0 <= l < |pages[k]| && pages[k][l].id == Listing(pages)[name]
  {
    var k, l :| 0 <= k < |pages| && 0 <= l < |pages[k]| && pages[k][l].name == name;
    ResolveFinds(pages, 0, k, l);
  }
}

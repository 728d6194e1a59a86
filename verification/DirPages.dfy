/** Pages of directory entries as a finite map from names to inode numbers. */
module DirPages {
  import opened Geometry
  import opened DirBlock

  type Page = seq<DirEntry>

  // ----- pages -----------------------------------------------------------

  /** The names in use. */
  function Names(pages: seq<Page>): set<seq<byte>> {
    set j, i | 0 <= j < |pages| && 0 <= i < |pages[j]| && pages[j][i].name != [] :: pages[j][i].name
  }

  predicate TidyEntry(e: DirEntry) {
    0 <= e.id && (e.id == 0 <==> e.name == [])
  }

  /** An entry has a name exactly when it is in use, and no name occurs twice. */
  ghost predicate Tidy(pages: seq<Page>) {
    && (forall j, i :: 0 <= j < |pages| && 0 <= i < |pages[j]| ==> TidyEntry(pages[j][i]))
    && forall j, i, k, l :: 0 <= j < |pages| && 0 <= i < |pages[j]| && 0 <= k < |pages| && 0 <= l < |pages[k]| ==>
         pages[j][i].name == pages[k][l].name ==> pages[j][i].name == [] || (j == k && i == l)
  }

  /** The first entry with the name, scanning from page j on. */
  function Resolve(pages: seq<Page>, j: nat, name: seq<byte>): int
    decreases |pages| - j
  {
    if j >= |pages| then -1
    else
      var k := FirstNamed(pages[j], 0, name);
      if k < |pages[j]| && pages[j][k].id != -1 then pages[j][k].id else Resolve(pages, j + 1, name)
  }

  lemma {:induction false} ResolveFinds(pages: seq<Page>, from: nat, j: nat, i: nat)
    requires Tidy(pages) && from <= j < |pages| && i < |pages[j]| && pages[j][i].name != []
    ensures Resolve(pages, from, pages[j][i].name) == pages[j][i].id
    decreases |pages| - from
  {
    var k := FirstNamed(pages[from], 0, pages[j][i].name);
    assert k < |pages[from]| ==> TidyEntry(pages[from][k]);
    if from < j {
      ResolveFinds(pages, from + 1, j, i);
    }
  }

  lemma {:induction false} ResolveMisses(pages: seq<Page>, from: nat, name: seq<byte>)
    requires name != [] && name !in Names(pages)
    ensures Resolve(pages, from, name) == -1
    decreases |pages| - from
  {
    if from < |pages| {
      ResolveMisses(pages, from + 1, name);
      assert forall i :: 0 <= i < |pages[from]| && pages[from][i].name != [] ==> pages[from][i].name in Names(pages);
    }
  }

  /** The directory as a finite map. */
  function Listing(pages: seq<Page>): map<seq<byte>, int> {
    map name | name in Names(pages) :: Resolve(pages, 0, name)
  }

  function Put(pages: seq<Page>, j: nat, i: nat, e: DirEntry): seq<Page>
    requires j < |pages| && i < |pages[j]|
  {
    pages[j := pages[j][i := e]]
  }

  /** Filling an unused entry adds a name. */
  lemma PutAdds(pages: seq<Page>, j: nat, i: nat, id: nat, name: seq<byte>)
    requires Tidy(pages) && j < |pages| && i < |pages[j]| && pages[j][i].id == 0
    requires id != 0 && name != [] && name !in Names(pages)
    ensures Tidy(Put(pages, j, i, DirEntry(id, name)))
    ensures Listing(Put(pages, j, i, DirEntry(id, name))) == Listing(pages)[name := id]
  {
    var p := Put(pages, j, i, DirEntry(id, name));
    PutNames(pages, j, i, DirEntry(id, name));
    assert TidyEntry(pages[j][i]);
    PutTidy(pages, j, i, DirEntry(id, name));
    forall n | n in Names(pages) ensures Resolve(p, 0, n) == Resolve(pages, 0, n) {
      PutKeepsOther(pages, j, i, DirEntry(id, name), n);
    }
    assert p[j][i] == DirEntry(id, name);
    ResolveFinds(p, 0, j, i);
  }

  /** Clearing a used entry removes its name. */
  lemma PutRemoves(pages: seq<Page>, j: nat, i: nat)
    requires Tidy(pages) && j < |pages| && i < |pages[j]| && pages[j][i].id != 0
    ensures Tidy(Put(pages, j, i, UNUSED))
    ensures Listing(Put(pages, j, i, UNUSED)) == Listing(pages) - {pages[j][i].name}
  {
    var p, name := Put(pages, j, i, UNUSED), pages[j][i].name;
    PutNames(pages, j, i, UNUSED);
    PutTidy(pages, j, i, UNUSED);
    forall n | n in Names(p) ensures n in Names(pages) && Resolve(p, 0, n) == Resolve(pages, 0, n) {
      PutKeepsOther(pages, j, i, UNUSED, n);
    }
    SameListing(p, pages, name);
  }

  lemma SameListing(p: seq<Page>, pages: seq<Page>, name: seq<byte>)
    requires forall n :: n in Names(p) <==> n in Names(pages) && n != name
    requires forall n :: n in Names(p) ==> Resolve(p, 0, n) == Resolve(pages, 0, n)
    ensures Listing(p) == Listing(pages) - {name}
  {}

  lemma PutNames(pages: seq<Page>, j: nat, i: nat, e: DirEntry)
    requires Tidy(pages) && j < |pages| && i < |pages[j]|
    ensures forall n :: n in Names(Put(pages, j, i, e)) <==>
      (n == e.name && n != []) || (n in Names(pages) && n != pages[j][i].name)
  {
    var p := Put(pages, j, i, e);
    forall n ensures n in Names(p) <==> (n == e.name && n != []) || (n in Names(pages) && n != pages[j][i].name) {
      if n in Names(p) {
        var k, l :| 0 <= k < |p| && 0 <= l < |p[k]| && p[k][l].name == n;
        if k != j || l != i {
          assert pages[k][l] == p[k][l];
        }
      }
      if n == e.name && n != [] {
        assert p[j][i].name == n;
      }
      if n in Names(pages) && n != pages[j][i].name {
        var k, l :| 0 <= k < |pages| && 0 <= l < |pages[k]| && pages[k][l].name == n;
        assert p[k][l] == pages[k][l];
      }
    }
  }

  lemma PutTidy(pages: seq<Page>, j: nat, i: nat, e: DirEntry)
    requires Tidy(pages) && j < |pages| && i < |pages[j]| && TidyEntry(e)
    requires e.name == [] || e.name !in Names(pages)
    ensures Tidy(Put(pages, j, i, e))
  {
    var p := Put(pages, j, i, e);
    forall k, l | 0 <= k < |p| && 0 <= l < |p[k]| && (k != j || l != i)
      ensures p[k][l] == pages[k][l] && (e.name != [] ==> p[k][l].name != e.name) {
      if pages[k][l].name != [] {
        assert pages[k][l].name in Names(pages);
      }
    }
  }

  lemma PutKeepsOther(pages: seq<Page>, j: nat, i: nat, e: DirEntry, n: seq<byte>)
    requires Tidy(pages) && j < |pages| && i < |pages[j]| && Tidy(Put(pages, j, i, e))
    requires n in Names(pages) && n != pages[j][i].name
    ensures Resolve(Put(pages, j, i, e), 0, n) == Resolve(pages, 0, n)
  {
    var p := Put(pages, j, i, e);
    var k, l :| 0 <= k < |pages| && 0 <= l < |pages[k]| && pages[k][l].name == n;
    assert p[k][l] == pages[k][l];
    ResolveFinds(pages, 0, k, l);
    ResolveFinds(p, 0, k, l);
  }

  /** A new page of unused entries changes nothing. */
  lemma AppendBlank(pages: seq<Page>, blank: Page)
    requires Tidy(pages) && forall i :: 0 <= i < |blank| ==> blank[i] == UNUSED
    ensures Tidy(pages + [blank]) && Listing(pages + [blank]) == Listing(pages)
  {
    var p := pages + [blank];
    AppendTidy(pages, blank);
    forall n ensures n in Names(p) <==> n in Names(pages) {
      AppendNames(pages, blank, n);
    }
    forall n | n in Names(pages) ensures Resolve(p, 0, n) == Resolve(pages, 0, n) {
      var k, l :| 0 <= k < |pages| && 0 <= l < |pages[k]| && pages[k][l].name == n;
      assert p[k] == pages[k];
      ResolveFinds(pages, 0, k, l);
      ResolveFinds(p, 0, k, l);
    }
  }

  lemma AppendTidy(pages: seq<Page>, blank: Page)
    requires Tidy(pages) && forall i :: 0 <= i < |blank| ==> blank[i] == UNUSED
    ensures Tidy(pages + [blank])
  {
    var p := pages + [blank];
    forall j, i | 0 <= j < |p| && 0 <= i < |p[j]| ensures TidyEntry(p[j][i]) && (j == |pages| ==> p[j][i].name == []) {
      if j < |pages| {
        assert p[j] == pages[j];
      }
    }
  }

  lemma AppendNames(pages: seq<Page>, blank: Page, n: seq<byte>)
    requires forall i :: 0 <= i < |blank| ==> blank[i] == UNUSED
    ensures n in Names(pages + [blank]) <==> n in Names(pages)
  {
    var p := pages + [blank];
    if n in Names(p) {
      var k, l :| 0 <= k < |p| && 0 <= l < |p[k]| && p[k][l].name == n;
      assert k < |pages| && p[k] == pages[k];
    }
    if n in Names(pages) {
      var k, l :| 0 <= k < |pages| && 0 <= l < |pages[k]| && pages[k][l].name == n;
      assert p[k][l].name == n;
    }
  }

  /** A freshly formatted directory block. */
  lemma FormattedPage(b: Block, self: nat, parent: nat)
    requires 0 < self < 0x8000_0000 && 0 < parent < 0x8000_0000
    ensures var pages := [Entries(InitDirBlock(b, self, parent))];
      Tidy(pages) && Listing(pages) == map[DOT := self, DOT_DOT := parent]
  {
    InitDirBlockEntries(b, self, parent);
    TwoEntries(Entries(InitDirBlock(b, self, parent)), self, parent);
  }

  lemma TwoEntries(page: Page, self: nat, parent: nat)
    requires |page| >= 2 && self > 0 && parent > 0
    requires page[0] == DirEntry(self, DOT) && page[1] == DirEntry(parent, DOT_DOT)
    requires forall i :: 2 <= i < |page| ==> page[i] == UNUSED
    ensures Tidy([page]) && Listing([page]) == map[DOT := self, DOT_DOT := parent]
  {
    var pages := [page];
    assert Tidy(pages);
    ResolveFinds(pages, 0, 0, 0);
    ResolveFinds(pages, 0, 0, 1);
    TwoNames(page);
  }

  lemma TwoNames(page: Page)
    requires |page| >= 2 && page[0].name == DOT && page[1].name == DOT_DOT
    requires forall i :: 2 <= i < |page| ==> page[i] == UNUSED
    ensures Names([page]) == {DOT, DOT_DOT}
  {
    forall name ensures name in Names([page]) <==> name in {DOT, DOT_DOT} {
      if name in Names([page]) {
        var i :| 0 <= i < |page| && page[i].name == name;
      }
      assert [page][0][0].name == DOT && [page][0][1].name == DOT_DOT;
    }
  }
}

/**
 User memory as the copies see it, read off the page tables.
 */
module UserViews {
  import opened Common
  import opened Paging
  import opened PageTree
  import opened AddressSpaces
  import opened AddressSpaceRuns
  import opened UserMemory
  import opened UserCopy

  const LOW_PAGES := LOW_HALF_LIMIT / PAGE_SIZE

  /** A page number in the low half has a leaf entry that the kernel can walk to. */
  ghost predicate Walkable(m: PageTables, root: Frame, page: nat)
    reads m, m.meta
    requires Weak(m.Img())
  {
    var p := PathOf(page * PAGE_SIZE);
    page < LOW_PAGES && LowPath(p) && Trans(m.Img(), root, p).Some? && m.PathDirect(root, p)
  }

  ghost function View(m: PageTables, root: Frame): Space
    reads m, m.meta
    requires Weak(m.Img())
  {
    Space(map page | 0 <= page < LOW_PAGES && Walkable(m, root, page) ::
        Trans(m.Img(), root, PathOf(page * PAGE_SIZE)).value,
          m.direct)
  }

  /** The four indices do not depend on the offset in the page. */
  lemma PathOfPage(v: nat)
    requires v < LOW_HALF_LIMIT
    ensures v / PAGE_SIZE < LOW_PAGES && LowPage(v / PAGE_SIZE * PAGE_SIZE)
    ensures PathOf(v) == PathOf(v / PAGE_SIZE * PAGE_SIZE) && LowPath(PathOf(v))
  {
    var base := v / PAGE_SIZE * PAGE_SIZE;
    DropIndex(v);
    DropIndex(base);
    assert base / PAGE_SIZE == v / PAGE_SIZE;
    PathIsBijective(base, PathOf(base));
  }

  /** Walking the tables from the root finds exactly the entries of the view. */
  method LeafOf(m: PageTables, root: Frame, v: nat) returns (e: Option<Entry>)
    requires m.Ok() && m.UserRoot(root) && v < LOW_HALF_LIMIT
    ensures e == if v / PAGE_SIZE in View(m, root).pages then Some(View(m, root).pages[v / PAGE_SIZE]) else None
  {
    PathOfPage(v);
    var p := PathOf(v);
    ghost var k := Key(root, p[..3]);
    assert Placed(m.Img(), Key(root, [])) && p[..0] == [];
    var found, way := m.RootPte(root, p, [root]);
    if !found { return None; }
    assert k in m.at && Placed(m.Img(), k) && way[3] == m.at[k];
    if !Present(m.tables[way[3]][p[3]]) { return None; }
    e := Some(m.tables[way[3]][p[3]]);
  }

  /** The view of a root is its part of the plain map. */
  lemma ViewIsPlainMap(m: PageTables, root: Frame, a: Spaces)
    requires m.Ok() && m.Readable() && Represents(m.Img(), a)
    ensures forall page: nat :: page in View(m, root).pages <==> page < LOW_PAGES && (root, page * PAGE_SIZE) in a
    ensures forall page :: page in View(m, root).pages ==> View(m, root).pages[page] == a[(root, page * PAGE_SIZE)]
  {
    forall page: nat | page < LOW_PAGES
      ensures Walkable(m, root, page) <==> (root, page * PAGE_SIZE) in a
      ensures Walkable(m, root, page) ==>
                Trans(m.Img(), root, PathOf(page * PAGE_SIZE)).value == a[(root, page * PAGE_SIZE)]
    {
      var v := page * PAGE_SIZE;
      assert LowPage(v);
      assert PageAgrees(m.Img(), a, root, v);
    }
  }

  /** Under copy-on-write isolation the pages of a range that can be written are
      all on frames of their own, so the copies always come back. */
  lemma IsolatedRangesAreApart(m: PageTables, root: Frame, l: Life, addr: nat, n: nat)
    requires m.Ok() && m.Readable() && Represents(m.Img(), l.pages) && Isolated(l)
    requires AllWritable(View(m, root), addr, n)
    ensures FramesDistinct(View(m, root), addr, n) && FramesApart(View(m, root), addr, n)
  {
    var s := View(m, root);
    ViewIsPlainMap(m, root, l.pages);
    forall p: nat, q: nat ensures !SameFrame(s, addr, n, p, q) {
      if Touches(addr, n, p) {
        var v := FirstOn(addr, p);
        assert v / PAGE_SIZE == p && addr <= v < addr + n && Writable(s, p);
        assert !Shared(l, (root, p * PAGE_SIZE));
        assert q in s.pages ==> s.pages[q] == l.pages[(root, q * PAGE_SIZE)];
      }
    }
  }
}

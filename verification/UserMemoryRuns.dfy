/**
 User memory as the kernel runs it, on page tables and reference counts
 together: every event keeps the two in step with the plain account, and no
 frame is ever lost, given back twice or given back while a page maps it.
 */
module UserMemoryRuns {
  import opened Common
  import opened Paging
  import opened PageTree
  import opened AddressSpaces
  import opened AddressSpaceRuns
  import opened FrameRefs
  import opened TeardownSpec
  import opened Teardown
  import opened UserMemory
  import FrameRuns

  /** `x` is a page that maps `f`. */
  ghost predicate Maps(s: Image, x: Holder, f: Frame)
    requires Weak(s)
  {
    x.Page? && MapsTo(s, x.root, x.path, f)
  }

  /** The holders of a frame are exactly the pages that map it. */
  ghost predicate Exact(s: Image, h: Holders)
    requires Weak(s)
  {
    forall f, x {:trigger Maps(s, x, f)} :: x in HoldersOf(h, f) <==> Maps(s, x, f)
  }

  /** Every page belongs to a root that exists. */
  predicate Rooted(l: Life) { forall key :: key in l.pages ==> LowPage(key.1) && key.0 in l.surplus }

  ghost predicate HasRoots(s: Image) {
    forall root {:trigger Key(root, [])} :: root in s.reclaimed ==> Key(root, []) in s.at
  }

  /** The tables and the counts stand for the plain account. */
  ghost predicate Stands(s: Image, h: Holders, l: Life) {
    && Valid(s) && Represents(s, l.pages) && Rooted(l)
    && s.reclaimed == l.surplus && HasRoots(s)
    && Apart(s, h) && Exact(s, h)
  }

  ghost predicate Good(m: PageTables, refs: RefTable, l: Life)
    reads m, m.meta, m.meta.slots, refs, refs.slots
  {
    Ready(m, refs) && m.Readable() && Stands(m.Img(), refs.holders, l)
  }

  /** Frames that nobody holds any more have gone to the free ones, and frames
      newly held have come from them. */
  ghost predicate Exchange(free: set<Frame>, h: Holders, free': set<Frame>, g: Holders) {
    (forall f :: f in h && f !in g ==> f in free') && (forall f :: f in g && f !in h ==> f in free)
  }

  // Frames that are held are neither free nor page tables.

  lemma ApartFromPool(s: Image, h: Holders)
    requires Weak(s)
    ensures Apart(s, h) <==> 0 !in h && FrameRuns.Owned(h) && h.Keys !! Pool(s)
  {
    if Apart(s, h) {
      forall f | f in h ensures h[f] != {} && f !in Pool(s) { assert ApartFrame(s, h, f); }
    }
    if 0 !in h && FrameRuns.Owned(h) && h.Keys !! Pool(s) {
      forall f ensures ApartFrame(s, h, f) {
        if f in h && f in s.keyOf { TableInUse(s, f); }
      }
    }
  }

  lemma TableInUse(s: Image, f: Frame)
    requires Weak(s) && f in s.keyOf
    ensures f in s.tables
  {
    assert Keyed(s, f);
    assert Placed(s, s.keyOf[f]);
  }

  /** The free frames change, and nothing else. */
  ghost function Refree(s: Image, free: set<Frame>): Image { s.(free := free) }

  lemma RefreeStands(s: Image, h: Holders, l: Life, free: set<Frame>)
    requires Stands(s, h, l) && 0 !in free && free !! s.tables.Keys && free !! h.Keys
    ensures Stands(Refree(s, free), h, l)
  {
    var t := Refree(s, free);
    RefreeValid(s, free);
    forall root, p | LowPath(p) ensures Trans(t, root, p) == Trans(s, root, p) { RefreeTrans(s, free, root, p); }
    Unchanged(s, t, l.pages);
    ApartFromPool(s, h);
    ApartFromPool(t, h);
    SameMappings(s, t, h);
  }

  lemma RefreeValid(s: Image, free: set<Frame>)
    requires Valid(s) && 0 !in free && free !! s.tables.Keys
    ensures Valid(Refree(s, free))
  {
    var t := Refree(s, free);
    forall f ensures Keyed(t, f) { assert Keyed(s, f); }
    forall k | k in t.at ensures Placed(t, k) { assert Placed(s, k); }
    forall k | k in t.at && Placed(t, k) ensures CountAgrees(t, k) && Occupied(t, k) {
      assert Placed(s, k) && CountAgrees(s, k) && Occupied(s, k);
    }
    forall k, i | k in t.at && Placed(t, k) && 0 <= i < Limit(k) ensures SlotAgrees(t, k, i) {
      assert Placed(s, k) && SlotAgrees(s, k, i);
    }
  }

  lemma RefreeTrans(s: Image, free: set<Frame>, root: Frame, p: Path)
    requires Weak(s) && Weak(Refree(s, free)) && LowPath(p)
    ensures Trans(Refree(s, free), root, p) == Trans(s, root, p)
  {
    var leaf := Key(root, p[..3]);
    if leaf in s.at { assert Placed(s, leaf); }
  }

  lemma SameMappings(s: Image, t: Image, h: Holders)
    requires SameTranslations(s, t) && Exact(s, h)
    ensures Exact(t, h)
  {
    forall f, x ensures x in HoldersOf(h, f) <==> Maps(t, x, f) {
      assert x in HoldersOf(h, f) <==> Maps(s, x, f);
      if x.Page? && LowPath(x.path) { assert Trans(t, x.root, x.path) == Trans(s, x.root, x.path); }
    }
  }

  /** A failed mapping leaves user bits at most. */
  lemma RolledBackStands(s: Image, h: Holders, l: Life, t: Image)
    requires Stands(s, h, l) && RolledBack(s, t)
    ensures Stands(t, h, l) && Pool(t) == Pool(s)
  {
    Unchanged(s, t, l.pages);
    ApartFromPool(s, h);
    ApartFromPool(t, h);
    SameMappings(s, t, h);
  }

  // One page changes.

  /** `g` is `h` except that `x` now holds exactly the frame of `value`. */
  ghost predicate Rehold(h: Holders, g: Holders, x: Holder, value: Option<Entry>) {
    forall f, y {:trigger y in HoldersOf(g, f)} ::
      y in HoldersOf(g, f) <==> if y == x then value.Some? && value.value.frame == f else y in HoldersOf(h, f)
  }

  function Write(a: Spaces, key: (Frame, nat), value: Option<Entry>): Spaces {
    if value.None? then a - {key} else a[key := value.value]
  }

  lemma PageChanges(s: Image, h: Holders, l: Life, t: Image, g: Holders, root: Frame, vaddr: nat, value: Option<Entry>)
    requires Stands(s, h, l) && root in l.surplus && LowPage(vaddr) && LowPath(PathOf(vaddr))
    requires Valid(t) && Updates(s, t, root, PathOf(vaddr), value) && (value.Some? ==> Present(value.value))
    requires t.reclaimed.Keys == s.reclaimed.Keys && RootsKept(s, t)
    requires Rehold(h, g, Page(root, PathOf(vaddr)), value)
    requires 0 !in g && FrameRuns.Owned(g) && g.Keys !! Pool(t)
    ensures Stands(t, g, Life(Write(l.pages, (root, vaddr), value), t.reclaimed))
  {
    var op := if value.None? then UnmapOp(root, vaddr) else MapOp(root, vaddr, value.value.frame, value.value.attr);
    Refined(s, t, l.pages, op, value);
    ApartFromPool(t, g);
    forall f, x ensures x in HoldersOf(g, f) <==> Maps(t, x, f) {
      OneMapping(s, h, t, g, root, PathOf(vaddr), value, f, x);
    }
  }

  lemma OneMapping(s: Image, h: Holders, t: Image, g: Holders, root: Frame, p: Path, value: Option<Entry>, f: Frame,
                   x: Holder)
    requires Updates(s, t, root, p, value) && Exact(s, h) && Rehold(h, g, Page(root, p), value)
    ensures x in HoldersOf(g, f) <==> Maps(t, x, f)
  {
    assert x in HoldersOf(h, f) <==> Maps(s, x, f);
    assert x in HoldersOf(g, f) <==>
           if x == Page(root, p) then value.Some? && value.value.frame == f else x in HoldersOf(h, f);
    if x.Page? && LowPath(x.path) {
      assert Trans(t, x.root, x.path) == if x.root == root && x.path == p then value else Trans(s, x.root, x.path);
    }
  }

  /** What the account says of a page is what the tables and the counts say. */
  lemma PageOf(s: Image, h: Holders, l: Life, root: Frame, vaddr: nat)
    requires Stands(s, h, l) && LowPage(vaddr)
    ensures LowPath(PathOf(vaddr)) && Trans(s, root, PathOf(vaddr)) == Lookup(l.pages, root, vaddr)
    ensures (root, vaddr) in l.pages ==>
              && l.pages[(root, vaddr)].frame in h && Page(root, PathOf(vaddr)) in h[l.pages[(root, vaddr)].frame]
              && Present(l.pages[(root, vaddr)])
    ensures forall f :: (root, vaddr) in l.pages && l.pages[(root, vaddr)].frame == f <==>
            Page(root, PathOf(vaddr)) in HoldersOf(h, f)
  {
    assert PageAgrees(s, l.pages, root, vaddr);
    var x := Page(root, PathOf(vaddr));
    forall f ensures (root, vaddr) in l.pages && l.pages[(root, vaddr)].frame == f <==> x in HoldersOf(h, f) {
      assert x in HoldersOf(h, f) <==> Maps(s, x, f);
    }
    if (root, vaddr) in l.pages {
      var f := l.pages[(root, vaddr)].frame;
      assert x in HoldersOf(h, f);
      assert Present(l.pages[(root, vaddr)]) by {
        var k := Key(root, PathOf(vaddr)[..3]);
        assert k in s.at && Placed(s, k);
      }
    }
  }

  /** A frame that nobody holds is mapped by no page. */
  lemma UnheldIsUnmapped(s: Image, h: Holders, l: Life, f: Frame)
    requires Stands(s, h, l) && f !in h
    ensures Unmapped(l, f)
  {
    forall key | key in l.pages ensures l.pages[key].frame != f { PageOf(s, h, l, key.0, key.1); }
  }

  /** Holders come in with the pages, so they can be found again. */
  lemma HolderIsPage(s: Image, h: Holders, l: Life, f: Frame, x: Holder) returns (key: (Frame, nat))
    requires Stands(s, h, l) && f in h && x in h[f]
    ensures key in l.pages && l.pages[key].frame == f && x == Page(key.0, PathOf(key.1))
  {
    assert x in HoldersOf(h, f) && Maps(s, x, f);
    key := (x.root, AddressOf(x.path));
    PathIsBijective(0, x.path);
    PageOf(s, h, l, key.0, key.1);
  }

  /** A page shares its frame exactly when the frame has a second holder. */
  lemma SharedIffCounted(s: Image, h: Holders, l: Life, key: (Frame, nat))
    requires Stands(s, h, l) && key in l.pages
    ensures Shared(l, key) <==> |HoldersOf(h, l.pages[key].frame)| >= 2
  {
    var f, x := l.pages[key].frame, Page(key.0, PathOf(key.1));
    PageOf(s, h, l, key.0, key.1);
    var rest := h[f] - {x};
    assert h[f] == rest + {x};
    if rest != {} {
      var y :| y in rest;
      var other := HolderIsPage(s, h, l, f, y);
      assert Shared(l, key);
    }
    if Shared(l, key) {
      var other :| other in l.pages && other != key && l.pages[other].frame == f;
      PageOf(s, h, l, other.0, other.1);
      PathIsBijective(key.1, PathOf(key.1));
      PathIsBijective(other.1, PathOf(other.1));
      assert Page(other.0, PathOf(other.1)) in rest;
    }
  }

  // The events.

  /** A frame for user data, if there is one that the direct map reaches. */
  method TakeFrame(m: PageTables, refs: RefTable, ghost l: Life) returns (f: Frame)
    requires Good(m, refs, l)
    modifies m`free
    ensures Good(m, refs, l)
    ensures f == 0 ==> m.free == old(m.free)
    ensures f != 0 ==> f in old(m.free) && m.free == old(m.free) - {f}
    ensures f != 0 ==> f !in Pool(m.Img()) && f !in refs.holders && Unmapped(l, f)
    ensures f != 0 ==> Frames(m, refs) + {f} == old(Frames(m, refs))
  {
    ghost var s := m.Img();
    ApartFromPool(s, refs.holders);
    f := m.AllocFrame();
    if f == 0 { return; }
    if f !in m.direct {
      PutBack(s.free, f);
      m.free := m.free + {f};
      return 0;
    }
    RefreeStands(s, refs.holders, l, m.free);
    UnheldIsUnmapped(s, refs.holders, l, f);
  }

  method GiveFrame(m: PageTables, refs: RefTable, f: Frame, ghost l: Life)
    requires Good(m, refs, l) && f != 0 && f !in Pool(m.Img()) && f !in refs.holders
    modifies m`free
    ensures Good(m, refs, l) && m.free == old(m.free) + {f} && Frames(m, refs) == old(Frames(m, refs)) + {f}
  {
    ApartFromPool(m.Img(), refs.holders);
    RefreeStands(m.Img(), refs.holders, l, m.free + {f});
    m.free := m.free + {f};
  }

  /** The page was absent, and now maps to `e`. */
  ghost predicate Filled(s: Image, t: Image, root: Frame, vaddr: nat, e: Entry) {
    && Valid(s) && Valid(t) && LowPage(vaddr) && LowPath(PathOf(vaddr)) && Present(e)
    && Trans(s, root, PathOf(vaddr)).None? && Updates(s, t, root, PathOf(vaddr), Some(e)) && RootsKept(s, t)
    && t.reclaimed == s.reclaimed && Pool(t) == Pool(s)
  }

  method FillPage(m: PageTables, refs: RefTable, root: Frame, vaddr: nat, frame: Frame, attr: Attr, ghost h: Holders,
                  ghost l: Life)
    returns (ok: bool)
    requires Ready(m, refs) && m.Readable() && Stands(m.Img(), h, l) && root in l.surplus && LowPage(vaddr)
             && attr.present
    modifies m`tables, m`free, m`at, m`keyOf, m.meta, m.meta.slots
    ensures Ready(m, refs) && m.Readable() && Pool(m.Img()) == old(Pool(m.Img()))
    ensures ok ==> Filled(old(m.Img()), m.Img(), root, vaddr, Entry(frame, attr))
    ensures !ok ==> Stands(m.Img(), h, l)
  {
    ghost var s := m.Img();
    PageOf(s, h, l, root, vaddr);
    ok := m.MapRootPage(root, vaddr, frame, attr);
    if !ok { RolledBackStands(s, h, l, m.Img()); }
  }

  /** A fresh frame is mapped at a page, or nothing happens. */
  method MaterializePage(m: PageTables, refs: RefTable, root: Frame, vaddr: nat, attr: Attr, ghost l: Life)
    returns (o: Outcome, ghost n: Life)
    requires Good(m, refs, l) && root in l.surplus && LowPage(vaddr) && attr.present
    modifies m`tables, m`free, m`at, m`keyOf, m.meta, m.meta.slots, refs
    ensures Good(m, refs, n)
    ensures o.Failed? ==> n == l && refs.holders == old(refs.holders)
    ensures o.Done? ==> (root, vaddr) !in l.pages && Unmapped(l, o.frame)
    ensures o.Done? ==> n == l.(pages := l.pages[(root, vaddr) := Entry(o.frame, attr)])
    ensures Frames(m, refs) == old(Frames(m, refs))
    ensures Exchange(old(m.free), old(refs.holders), m.free, refs.holders)
  {
    o, n := Failed, l;
    ghost var h := refs.holders;
    var f := TakeFrame(m, refs, l);
    if f == 0 { return; }
    ghost var s := m.Img();
    var ok := FillPage(m, refs, root, vaddr, f, attr, h, l);
    if !ok {
      GiveFrame(m, refs, f, l);
      return;
    }
    AdoptPage(m, refs, root, vaddr, f, attr, s, l);
    o, n := Done(f), l.(pages := l.pages[(root, vaddr) := Entry(f, attr)]);
  }

  ghost method AdoptPage(m: PageTables, refs: RefTable, root: Frame, vaddr: nat, f: Frame, attr: Attr, s: Image,
                         l: Life)
    requires Ready(m, refs) && m.Readable() && Filled(s, m.Img(), root, vaddr, Entry(f, attr))
    requires Stands(s, refs.holders, l) && root in l.surplus && f != 0 && f !in refs.holders && f !in Pool(s)
    modifies refs
    ensures Good(m, refs, l.(pages := l.pages[(root, vaddr) := Entry(f, attr)])) && (root, vaddr) !in l.pages
    ensures refs.holders.Keys == old(refs.holders).Keys + {f}
  {
    var x, t := Page(root, PathOf(vaddr)), m.Img();
    Adopted(s, refs.holders, l, t, root, vaddr, f, attr);
    refs.Adopt(f, x);
    assert m.Img() == t;
  }

  lemma Adopted(s: Image, h: Holders, l: Life, t: Image, root: Frame, vaddr: nat, f: Frame, attr: Attr)
    requires Stands(s, h, l) && root in l.surplus && f != 0 && f !in h && f !in Pool(s)
    requires Filled(s, t, root, vaddr, Entry(f, attr))
    ensures Stands(t, h[f := {Page(root, PathOf(vaddr))}], l.(pages := l.pages[(root, vaddr) := Entry(f, attr)]))
    ensures (root, vaddr) !in l.pages
  {
    var x, value := Page(root, PathOf(vaddr)), Some(Entry(f, attr));
    var g := h[f := {x}];
    ApartFromPool(s, h);
    PageOf(s, h, l, root, vaddr);
    forall f', y ensures y in HoldersOf(g, f') <==> if y == x then f == f' else y in HoldersOf(h, f') {
      if y == x { assert x !in HoldersOf(h, f'); }
    }
    PageChanges(s, h, l, t, g, root, vaddr, value);
  }

  /** The entry of a page, if it is a user page. */
  method ReadPage(m: PageTables, refs: RefTable, root: Frame, vaddr: nat, ghost l: Life) returns (found: bool, e: Entry)
    requires Good(m, refs, l) && root in l.surplus && LowPage(vaddr)
    ensures found <==> UserPage(l, root, vaddr)
    ensures found ==> e == l.pages[(root, vaddr)] && Present(e) && e.frame in refs.holders
  {
    PageOf(m.Img(), refs.holders, l, root, vaddr);
    found, e := m.ReadUserLeaf(root, vaddr);
  }

  // Sharing a frame with another page.

  ghost predicate Joined(h: Holders, g: Holders, f: Frame, x: Holder) {
    f in h && x !in h[f] && g == h[f := h[f] + {x}]
  }

  /** One more page maps a frame that is held already. */
  lemma PageJoins(s: Image, h: Holders, l: Life, t: Image, g: Holders, root: Frame, vaddr: nat, e: Entry)
    requires Stands(s, h, l) && root in l.surplus && Filled(s, t, root, vaddr, e) && e.frame in h
    requires g == h[e.frame := h[e.frame] + {Page(root, PathOf(vaddr))}]
    ensures (root, vaddr) !in l.pages && Joined(h, g, e.frame, Page(root, PathOf(vaddr)))
    ensures Stands(t, g, l.(pages := l.pages[(root, vaddr) := e]))
  {
    var x := Page(root, PathOf(vaddr));
    PageOf(s, h, l, root, vaddr);
    assert x !in HoldersOf(h, e.frame);
    ApartFromPool(s, h);
    forall f, y ensures y in HoldersOf(g, f) <==> if y == x then e.frame == f else y in HoldersOf(h, f) {
      if y == x { assert x !in HoldersOf(h, f); }
    }
    PageChanges(s, h, l, t, g, root, vaddr, Some(e));
  }

  lemma NoKernelHolds(s: Image, h: Holders, l: Life, f: Frame, id: nat)
    requires Stands(s, h, l)
    ensures Kernel(id) !in HoldersOf(h, f)
  {
    assert Kernel(id) in HoldersOf(h, f) <==> Maps(s, Kernel(id), f);
  }

  /** Count a new owner, then map the page; if that fails, count it off again. */
  method ShareFrame(m: PageTables, refs: RefTable, root: Frame, vaddr: nat, frame: Frame, attr: Attr, ghost l: Life)
    returns (ok: bool)
    requires Good(m, refs, l) && root in l.surplus && LowPage(vaddr) && attr.present && frame in refs.holders
    modifies m`tables, m`free, m`at, m`keyOf, m.meta, m.meta.slots, refs, refs.slots
    ensures Frames(m, refs) == old(Frames(m, refs))
    ensures !ok ==> Good(m, refs, l) && refs.holders == old(refs.holders)
    ensures ok ==> (root, vaddr) !in l.pages && Good(m, refs, l.(pages := l.pages[(root, vaddr) := Entry(frame, attr)]))
    ensures refs.holders.Keys == old(refs.holders).Keys
  {
    ok := false;
    ghost var h, s := refs.holders, m.Img();
    NoKernelHolds(s, h, l, frame, 0);
    var counted := refs.Increment(frame, Kernel(0));
    if !counted { return; }
    ok := FillPage(m, refs, root, vaddr, frame, attr, h, l);
    if !ok {
      Uncount(m, refs, frame, h);
    } else {
      JoinPage(m, refs, root, vaddr, Entry(frame, attr), s, h, l);
    }
  }

  method Uncount(m: PageTables, refs: RefTable, frame: Frame, ghost h: Holders)
    requires Ready(m, refs) && frame in h && h[frame] != {} && Kernel(0) !in h[frame]
    requires refs.holders == h[frame := h[frame] + {Kernel(0)}]
    modifies refs, refs.slots
    ensures Ready(m, refs) && refs.holders == h
  {
    var freed := refs.Decrement(frame, Kernel(0));
    ghost var x :| x in h[frame];
    assert h[frame] + {Kernel(0)} - {Kernel(0)} == h[frame];
    assert refs.holders == h;
  }

  ghost method JoinPage(m: PageTables, refs: RefTable, root: Frame, vaddr: nat, e: Entry, s: Image, h: Holders, l: Life)
    requires Ready(m, refs) && m.Readable() && Stands(s, h, l) && root in l.surplus
    requires Filled(s, m.Img(), root, vaddr, e) && e.frame in h && Kernel(0) !in h[e.frame]
    requires refs.holders == h[e.frame := h[e.frame] + {Kernel(0)}] && e.frame < refs.slots.Length
             && |h[e.frame]| < REFCOUNT_MAX
    modifies refs
    ensures (root, vaddr) !in l.pages && Good(m, refs, l.(pages := l.pages[(root, vaddr) := e]))
    ensures refs.holders.Keys == h.Keys
  {
    var x, t, f := Page(root, PathOf(vaddr)), m.Img(), e.frame;
    var g := h[f := h[f] + {x}];
    PageJoins(s, h, l, t, g, root, vaddr, e);
    refs.Transfer(f, Kernel(0), x);
    assert h[f] + {Kernel(0)} - {Kernel(0)} + {x} == h[f] + {x};
    assert refs.holders == g && m.Img() == t;
  }

  // Other attributes for a page, on the frame that it has.

  lemma SameFrame(s: Image, h: Holders, l: Life, t: Image, root: Frame, vaddr: nat, attr: Attr)
    requires Stands(s, h, l) && LowPage(vaddr) && LowPath(PathOf(vaddr)) && (root, vaddr) in l.pages && attr.present
    requires Valid(t) && Updates(s, t, root, PathOf(vaddr), Some(Entry(l.pages[(root, vaddr)].frame, attr)))
             && RootsKept(s, t)
    requires t.reclaimed == s.reclaimed && Pool(t) == Pool(s)
    ensures Stands(t, h, l.(pages := l.pages[(root, vaddr) := Entry(l.pages[(root, vaddr)].frame, attr)]))
  {
    var e, x := Entry(l.pages[(root, vaddr)].frame, attr), Page(root, PathOf(vaddr));
    PageOf(s, h, l, root, vaddr);
    ApartFromPool(s, h);
    forall f, y ensures y in HoldersOf(h, f) <==> if y == x then e.frame == f else y in HoldersOf(h, f) {
      if y == x { assert x in HoldersOf(h, f) <==> e.frame == f; }
    }
    PageChanges(s, h, l, t, h, root, vaddr, Some(e));
  }

  method RewritePage(m: PageTables, refs: RefTable, root: Frame, vaddr: nat, frame: Frame, attr: Attr, ghost l: Life)
    requires Good(m, refs, l) && LowPage(vaddr) && UserPage(l, root, vaddr) && frame == l.pages[(root, vaddr)].frame
             && attr.present
    modifies m`tables
    ensures Good(m, refs, l.(pages := l.pages[(root, vaddr) := Entry(frame, attr)]))
            && Frames(m, refs) == old(Frames(m, refs))
  {
    ghost var s := m.Img();
    PageOf(s, refs.holders, l, root, vaddr);
    var ok := m.RemapUserPage(root, vaddr, frame, attr);
    SameFrame(s, refs.holders, l, m.Img(), root, vaddr, attr);
  }

  /** Fork's treatment of one present anonymous page. */
  method ClonePage(m: PageTables, refs: RefTable, parent: Frame, child: Frame, vaddr: nat, ghost l: Life)
    returns (o: Outcome, ghost n: Life)
    requires Good(m, refs, l) && parent in l.surplus && child in l.surplus && LowPage(vaddr)
    modifies m`tables, m`free, m`at, m`keyOf, m.meta, m.meta.slots, refs, refs.slots
    ensures Good(m, refs, n) && Frames(m, refs) == old(Frames(m, refs))
    ensures o.Failed? ==> n == l && refs.holders == old(refs.holders)
    ensures o.Done? ==>
              UserPage(l, parent, vaddr) && (child, vaddr) !in l.pages && o.frame == l.pages[(parent, vaddr)].frame
    ensures o.Done? ==>
              var y := Entry(o.frame, Cloned(l.pages[(parent, vaddr)].attr));
              n == l.(pages := l.pages[(child, vaddr) := y][(parent, vaddr) := y])
    ensures Exchange(old(m.free), old(refs.holders), m.free, refs.holders)
  {
    o, n := Failed, l;
    var found, e := ReadPage(m, refs, parent, vaddr, l);
    if !found { return; }
    var ok := ShareFrame(m, refs, child, vaddr, e.frame, Cloned(e.attr), l);
    if !ok { return; }
    n := l.(pages := l.pages[(child, vaddr) := Entry(e.frame, Cloned(e.attr))]);
    if e.attr.writable {
      RewritePage(m, refs, parent, vaddr, e.frame, Cloned(e.attr), n);
      n := n.(pages := n.pages[(parent, vaddr) := Entry(e.frame, Cloned(e.attr))]);
    }
    o := Done(e.frame);
  }

  // A page made private.

  /** A page moves from a frame that others hold too to one of its own. */
  lemma PageMoves(s: Image, h: Holders, l: Life, t: Image, root: Frame, vaddr: nat, f: Frame, attr: Attr)
    requires Stands(s, h, l) && LowPage(vaddr) && LowPath(PathOf(vaddr)) && (root, vaddr) in l.pages && attr.present
    requires f != 0 && f !in h && f !in Pool(s)
    requires Valid(t) && Updates(s, t, root, PathOf(vaddr), Some(Entry(f, attr))) && RootsKept(s, t)
    requires t.reclaimed == s.reclaimed && Pool(t) == Pool(s)
    requires Shared(l, (root, vaddr))
    ensures var x, was := Page(root, PathOf(vaddr)), l.pages[(root, vaddr)].frame;
            && was in h && x in h[was] && h[was] != {x}
            && Stands(t, Without(h[f := {x}], was, x), l.(pages := l.pages[(root, vaddr) := Entry(f, attr)]))
  {
    var x, was := Page(root, PathOf(vaddr)), l.pages[(root, vaddr)].frame;
    PageOf(s, h, l, root, vaddr);
    SharedIffCounted(s, h, l, (root, vaddr));
    ApartFromPool(s, h);
    var k := h[f := {x}];
    var g := Without(k, was, x);
    assert k[was] == h[was] && h[was] != {x};
    assert h[was] == h[was] - {x} + {x};
    forall f', y ensures y in HoldersOf(g, f') <==> if y == x then f == f' else y in HoldersOf(h, f') {
      WithoutHolders(k, was, x, f', y);
      if y == x { assert x in HoldersOf(h, f') <==> was == f'; }
    }
    PageChanges(s, h, l, t, g, root, vaddr, Some(Entry(f, attr)));
  }

  method MovePage(m: PageTables, refs: RefTable, root: Frame, vaddr: nat, was: Frame, f: Frame, attr: Attr,
                  ghost l: Life)
    requires Good(m, refs, l) && LowPage(vaddr) && UserPage(l, root, vaddr) && attr.present
             && was == l.pages[(root, vaddr)].frame
    requires f != 0 && f !in refs.holders && f !in Pool(m.Img()) && Shared(l, (root, vaddr))
    modifies m`tables, refs, refs.slots
    ensures Good(m, refs, l.(pages := l.pages[(root, vaddr) := Entry(f, attr)]))
    ensures Frames(m, refs) == old(Frames(m, refs)) + {f}
    ensures refs.holders.Keys == old(refs.holders).Keys + {f}
  {
    ghost var s, h, x := m.Img(), refs.holders, Page(root, PathOf(vaddr));
    PageOf(s, h, l, root, vaddr);
    var ok := m.RemapUserPage(root, vaddr, f, attr);
    ghost var t := m.Img();
    PageMoves(s, h, l, t, root, vaddr, f, attr);
    SwapHold(refs, was, f, x);
    assert m.Img() == t;
  }

  /** The page takes up the new frame and lets go of the old one. */
  method SwapHold(refs: RefTable, was: Frame, f: Frame, ghost x: Holder)
    requires refs.Valid() && was in refs.holders && x in refs.holders[was] && refs.holders[was] != {x}
    requires f !in refs.holders
    modifies refs, refs.slots
    ensures refs.Valid() && refs.holders == Without(old(refs.holders)[f := {x}], was, x)
    ensures refs.holders.Keys == old(refs.holders).Keys + {f}
  {
    refs.Adopt(f, x);
    var freed := refs.Decrement(was, x);
  }

  /** A write to a page marked copy-on-write. */
  method SplitPage(m: PageTables, refs: RefTable, root: Frame, vaddr: nat, allowed: bool, ghost l: Life)
    returns (o: Outcome, ghost n: Life)
    requires Good(m, refs, l) && root in l.surplus && LowPage(vaddr)
    modifies m`tables, m`free, refs, refs.slots
    ensures Good(m, refs, n) && Frames(m, refs) == old(Frames(m, refs))
    ensures RightSplit(l, (root, vaddr), allowed, o)
    ensures o.Failed? ==> n == l && refs.holders == old(refs.holders)
    ensures o.Done? ==> (root, vaddr) in l.pages
    ensures o.Done? ==> n == l.(pages := l.pages[(root, vaddr) := Entry(o.frame, Private(l.pages[(root, vaddr)].attr))])
    ensures Exchange(old(m.free), old(refs.holders), m.free, refs.holders)
  {
    o, n := Failed, l;
    var found, e := ReadPage(m, refs, root, vaddr, l);
    if !found || !e.attr.cow || e.attr.writable || !allowed { return; }
    SharedIffCounted(m.Img(), refs.holders, l, (root, vaddr));
    var shared := refs.IsShared(e.frame);
    if !shared {
      RewritePage(m, refs, root, vaddr, e.frame, Private(e.attr), l);
      o := Done(e.frame);
    } else {
      var f := TakeFrame(m, refs, l);
      if f == 0 { return; }
      if e.frame !in m.direct {
        GiveFrame(m, refs, f, l);
        return;
      }
      MovePage(m, refs, root, vaddr, e.frame, f, Private(e.attr), l);
      o := Done(f);
    }
    n := l.(pages := l.pages[(root, vaddr) := Entry(o.frame, Private(e.attr))]);
  }

  /** Other access rights for a present page. */
  method ProtectPage(m: PageTables, refs: RefTable, root: Frame, vaddr: nat, policy: Attr, ghost l: Life)
    returns (o: Outcome, ghost n: Life)
    requires Good(m, refs, l) && root in l.surplus && LowPage(vaddr) && policy.present
    modifies m`tables
    ensures Good(m, refs, n) && Frames(m, refs) == old(Frames(m, refs))
    ensures o.Done? <==> UserPage(l, root, vaddr)
    ensures o.Failed? ==> n == l
    ensures o.Done? ==> o.frame == l.pages[(root, vaddr)].frame
    ensures o.Done? ==>
              n == l.(pages := l.pages[(root, vaddr) := Entry(o.frame, Protected(l.pages[(root, vaddr)].attr, policy))])
  {
    o, n := Failed, l;
    var found, e := ReadPage(m, refs, root, vaddr, l);
    if !found { return; }
    RewritePage(m, refs, root, vaddr, e.frame, Protected(e.attr, policy), l);
    o, n := Done(e.frame), l.(pages := l.pages[(root, vaddr) := Entry(e.frame, Protected(e.attr, policy))]);
  }

  // A page given up.

  /** The account after the page is gone: a vacated entry of the root table adds to the surplus. */
  ghost function Discarded(l: Life, root: Frame, vaddr: nat): Life
    requires root in l.surplus
  {
    var pages := l.pages - {(root, vaddr)};
    Life(pages, if Below(pages, root, PathOf(vaddr)[..1]) then l.surplus else l.surplus[root := l.surplus[root] + 1])
  }

  lemma PageLeaves(s: Image, h: Holders, l: Life, t: Image, root: Frame, vaddr: nat)
    requires Stands(s, h, l) && root in l.surplus && LowPage(vaddr) && LowPath(PathOf(vaddr))
             && (root, vaddr) in l.pages
    requires Valid(t) && Updates(s, t, root, PathOf(vaddr), None) && RootsKept(s, t) && Pool(t) == Pool(s)
    requires t.reclaimed == if Key(root, PathOf(vaddr)[..1]) in t.at then s.reclaimed
             else s.reclaimed[root := s.reclaimed[root] + 1]
    ensures var x, f := Page(root, PathOf(vaddr)), l.pages[(root, vaddr)].frame;
            f in h && x in h[f] && f !in Pool(t) && f != 0 && Stands(t, Without(h, f, x), Discarded(l, root, vaddr))
  {
    var x, f := Page(root, PathOf(vaddr)), l.pages[(root, vaddr)].frame;
    PageOf(s, h, l, root, vaddr);
    ApartFromPool(s, h);
    var g := Without(h, f, x);
    FrameRuns.KeepsOwned(h, FrameRuns.Drop(f, x), 0);
    forall f', y ensures y in HoldersOf(g, f') <==> if y == x then false else y in HoldersOf(h, f') {
      WithoutHolders(h, f, x, f', y);
      if y == x { assert x in HoldersOf(h, f') <==> f == f'; }
    }
    PageChanges(s, h, l, t, g, root, vaddr, None);
    TableIffPage(t, Write(l.pages, (root, vaddr), None), Key(root, PathOf(vaddr)[..1]));
  }

  /** Unmap a page and drop its hold on its frame. */
  method DiscardPage(m: PageTables, refs: RefTable, root: Frame, vaddr: nat, ghost l: Life)
    returns (o: Outcome, ghost n: Life)
    requires Good(m, refs, l) && root in l.surplus && LowPage(vaddr)
    modifies m, m.meta, m.meta.slots, refs, refs.slots
    ensures Good(m, refs, n) && Frames(m, refs) == old(Frames(m, refs))
    ensures o.Done? <==> UserPage(l, root, vaddr)
    ensures o.Failed? ==> n == l && refs.holders == old(refs.holders)
    ensures o.Done? ==> n == Discarded(l, root, vaddr) && o.frame == l.pages[(root, vaddr)].frame
    ensures Exchange(old(m.free), old(refs.holders), m.free, refs.holders)
  {
    o, n := Failed, l;
    ghost var s, h := m.Img(), refs.holders;
    PageOf(s, h, l, root, vaddr);
    var ok, frame := m.UnmapUserPage(root, vaddr);
    if !ok { return; }
    n := Discarded(l, root, vaddr);
    PageLeaves(s, h, l, m.Img(), root, vaddr);
    DropHold(m, refs, frame, Page(root, PathOf(vaddr)), n);
    o := Done(frame);
  }

  /** Drop a hold, and give the frame back if it was the last one. */
  method DropHold(m: PageTables, refs: RefTable, frame: Frame, ghost x: Holder, ghost n: Life)
    requires Ready(m, refs) && m.Readable() && frame in refs.holders && x in refs.holders[frame]
    requires Stands(m.Img(), Without(refs.holders, frame, x), n) && frame !in Pool(m.Img()) && frame != 0
    modifies m`free, refs, refs.slots
    ensures Good(m, refs, n) && Frames(m, refs) == old(Frames(m, refs))
    ensures refs.holders.Keys <= old(refs.holders).Keys && old(refs.holders).Keys - refs.holders.Keys <= m.free
  {
    ghost var t := m.Img();
    var freed := refs.Decrement(frame, x);
    assert m.Img() == t;
    if freed { GiveFrame(m, refs, frame, n); }
  }

  // Address spaces come and go.

  lemma RootIsNew(s: Image, h: Holders, l: Life, root: Frame)
    requires Stands(s, h, l) && root in s.free
    ensures root !in l.surplus && Unmapped(l, root) && root !in h
  {
    ApartFromPool(s, h);
    UnheldIsUnmapped(s, h, l, root);
    FreshRoot(s, root);
    assert Key(root, []) !in s.at;
  }

  method DeriveSpace(m: PageTables, refs: RefTable, kernelHalf: seq<Entry>, ghost l: Life)
    returns (o: Outcome, ghost n: Life)
    requires Good(m, refs, l) && |kernelHalf| == ENTRIES - LOW_HALF_ENTRIES
    modifies m, m.meta, m.meta.slots
    ensures Good(m, refs, n) && Frames(m, refs) == old(Frames(m, refs))
    ensures o.Failed? ==> n == l
    ensures o.Done? ==> o.frame !in l.surplus && Unmapped(l, o.frame) && n == l.(surplus := l.surplus[o.frame := 0])
  {
    o, n := Failed, l;
    ghost var s, h := m.Img(), refs.holders;
    var root := m.DeriveRoot(kernelHalf);
    if root == 0 { return; }
    RootIsNew(s, h, l, root);
    o, n := Done(root), l.(surplus := l.surplus[root := 0]);
    DerivedStands(s, h, l, m.Img(), root);
  }

  lemma DerivedStands(s: Image, h: Holders, l: Life, t: Image, root: Frame)
    requires Stands(s, h, l) && Valid(t) && SameTranslations(s, t) && Pool(t) == Pool(s)
    requires t.reclaimed == s.reclaimed[root := 0] && t.at == s.at[Key(root, []) := root]
    ensures Stands(t, h, l.(surplus := l.surplus[root := 0]))
  {
    Unchanged(s, t, l.pages);
    ApartFromPool(s, h);
    ApartFromPool(t, h);
    SameMappings(s, t, h);
  }

  /** `t` and `g` are `s` and `h` without the pages of `root`. */
  ghost predicate Swept(s: Image, h: Holders, t: Image, g: Holders, root: Frame) {
    && Valid(s) && Valid(t) && Apart(t, g)
    && (forall r, p {:trigger Trans(t, r, p)} | LowPath(p) ::
         Trans(t, r, p) == if r == root then None else Trans(s, r, p))
    && (forall f, x {:trigger DestroyedHold(s, h, g, root, f, x)} :: DestroyedHold(s, h, g, root, f, x))
  }

  lemma SweptStands(s: Image, h: Holders, l: Life, t: Image, g: Holders, root: Frame, n: Life)
    requires Stands(s, h, l) && Swept(s, h, t, g, root) && HasRoots(t)
    requires n.pages == WithoutRoot(l.pages, root) && t.reclaimed == n.surplus
    requires forall r :: r in l.surplus && r != root ==> r in n.surplus
    ensures Stands(t, g, n)
  {
    forall r, vaddr ensures PageAgrees(t, n.pages, r, vaddr) {
      assert PageAgrees(s, l.pages, r, vaddr);
    }
    forall f, x ensures x in HoldersOf(g, f) <==> Maps(t, x, f) {
      assert DestroyedHold(s, h, g, root, f, x);
      assert x in HoldersOf(h, f) <==> Maps(s, x, f);
      if x.Page? && LowPath(x.path) {
        assert Trans(t, x.root, x.path) == if x.root == root then None else Trans(s, x.root, x.path);
      }
    }
  }

  lemma TornIsSwept(s: Image, h: Holders, t: Image, g: Holders, root: Frame)
    requires Torn(s, h, t, g, Key(root, []), LOW_HALF_ENTRIES) && Valid(s) && Valid(t) && HasRoots(s)
    ensures Swept(s, h, t, g, root) && HasRoots(t)
  {
    var k := Key(root, []);
    forall r, p | LowPath(p) ensures Trans(t, r, p) == if r == root then None else Trans(s, r, p) {
      TornTrans(s, h, t, g, k, LOW_HALF_ENTRIES, r, p);
      assert p[..0] == [];
    }
    forall f, x ensures DestroyedHold(s, h, g, root, f, x) {
      assert TornHold(s, h, g, k, LOW_HALF_ENTRIES, f, x);
      if x.Page? && LowPath(x.path) { assert x.path[..0] == []; }
    }
    forall r | r in t.reclaimed ensures Key(r, []) in t.at { assert TornKey(s, t, k, LOW_HALF_ENTRIES, Key(r, [])); }
  }

  lemma DestroyedIsSwept(s: Image, h: Holders, t: Image, g: Holders, root: Frame)
    requires Destroyed(s, h, t, g, root) && Valid(s) && Valid(t) && HasRoots(s)
    ensures Swept(s, h, t, g, root) && HasRoots(t)
  {
    forall r | r in t.reclaimed ensures Key(r, []) in t.at { assert DestroyedKey(s, t, root, Key(r, [])); }
  }

  lemma AllHeld(s: Image, h: Holders, root: Frame)
    requires Weak(s) && Exact(s, h)
    ensures Held(s, h, Key(root, []))
  {
    forall p, f | MapsTo(s, root, p, f) ensures Page(root, p) in HoldersOf(h, f) { assert Maps(s, Page(root, p), f); }
  }

  /** Tear down an address space.  This succeeds exactly when no discard ever
      vacated an entry of its root table; its pages are gone either way. */
  method DestroySpace(m: PageTables, refs: RefTable, root: Frame, cr3: Frame, ghost l: Life)
    returns (o: Outcome, ghost n: Life)
    requires Good(m, refs, l)
    modifies m, m.meta, m.meta.slots, refs, refs.slots
    ensures Good(m, refs, n) && Frames(m, refs) == old(Frames(m, refs))
    ensures o.Done? <==> root in l.surplus && root != cr3 && l.surplus[root] == 0
    ensures n == Ended(l, Destroy(root, cr3), o)
    ensures Exchange(old(m.free), old(refs.holders), m.free, refs.holders)
  {
    ghost var s, h := m.Img(), refs.holders;
    AllHeld(s, h, root);
    OwnedRoot(s, root);
    o, n := Failed, l;
    var ok := TeardownUserAddressSpace(m, refs, root, cr3);
    if ok { o := Done(root); }
    if root in l.surplus && root != cr3 {
      n := Ended(l, Destroy(root, cr3), o);
      EndStands(s, h, l, m.Img(), refs.holders, root, ok, n);
      SweptExchange(s, h, l, m.Img(), refs.holders, root, ok);
      StillReadable(m, s, h, refs.holders, root, ok);
    }
  }

  ghost predicate TornDown(s: Image, h: Holders, t: Image, g: Holders, root: Frame, ok: bool) {
    if ok then Destroyed(s, h, t, g, root) else Torn(s, h, t, g, Key(root, []), LOW_HALF_ENTRIES)
  }

  lemma EndStands(s: Image, h: Holders, l: Life, t: Image, g: Holders, root: Frame, ok: bool, n: Life)
    requires Stands(s, h, l) && Valid(t) && TornDown(s, h, t, g, root, ok)
    requires n == Life(WithoutRoot(l.pages, root), if ok then l.surplus - {root} else l.surplus)
    ensures Stands(t, g, n)
  {
    if ok { DestroyedIsSwept(s, h, t, g, root); } else { TornIsSwept(s, h, t, g, root); }
    SweptStands(s, h, l, t, g, root, n);
  }

  /** Frames that the pages of `root` alone held are free, and no frame is newly held. */
  lemma SweptExchange(s: Image, h: Holders, l: Life, t: Image, g: Holders, root: Frame, ok: bool)
    requires Stands(s, h, l) && Apart(t, g) && TornDown(s, h, t, g, root, ok)
    ensures Exchange(s.free, h, t.free, g)
  {
    forall f | f in h && f !in g ensures f in t.free {
      if ok {
        assert DestroyedFrame(s, h, t, g, root, f);
      } else {
        assert TornFrame(s, h, t, g, Key(root, []), LOW_HALF_ENTRIES, f);
      }
    }
    forall f | f in g ensures f in h {
      assert ApartFrame(t, g, f);
      var x :| x in g[f];
      assert x in HoldersOf(g, f);
      if ok {
        assert DestroyedHold(s, h, g, root, f, x);
      } else {
        assert TornHold(s, h, g, Key(root, []), LOW_HALF_ENTRIES, f, x);
      }
    }
  }

  lemma StillReadable(m: PageTables, s: Image, h: Holders, g: Holders, root: Frame, ok: bool)
    requires TornDown(s, h, m.Img(), g, root, ok) && forall k :: k in s.at ==> s.at[k] in m.direct
    ensures m.Readable()
  {
    forall k | k in m.at ensures m.at[k] in m.direct {
      if ok {
        assert DestroyedKey(s, m.Img(), root, k);
      } else {
        assert TornKey(s, m.Img(), Key(root, []), LOW_HALF_ENTRIES, k);
      }
    }
  }

  // Any event, and any run of events.

  method IsLive(m: PageTables, refs: RefTable, root: Frame, ghost l: Life) returns (live: bool)
    requires Good(m, refs, l)
    ensures live <==> root in l.surplus
  {
    OwnedRoot(m.Img(), root);
    assert Key(root, []) in m.at ==> Placed(m.Img(), Key(root, []));
    live := m.meta.OwnedBy(root, root, UserAddressSpace, 4);
  }

  method AllLive(m: PageTables, refs: RefTable, e: Event, ghost l: Life) returns (live: bool)
    requires Good(m, refs, l)
    ensures live <==> Live(l, e)
  {
    if e.Derive? || e.Destroy? { return true; }
    live := IsLive(m, refs, if e.Clone? then e.parent else e.root, l);
    if live && e.Clone? { live := IsLive(m, refs, e.child, l); }
  }

  /** The outcome is right for the account, and `n` is the account after it. */
  ghost predicate Takes(l: Life, e: Event, o: Outcome, n: Life) { Right(l, e, o) && n == Step(l, e, o) }

  lemma CloneTakes(l: Life, parent: Frame, child: Frame, vaddr: nat, o: Outcome, n: Life)
    requires parent in l.surplus && child in l.surplus && (o.Failed? ==> n == l)
    requires o.Done? ==>
               && UserPage(l, parent, vaddr) && (child, vaddr) !in l.pages && o.frame == l.pages[(parent, vaddr)].frame
               && var y := Entry(o.frame, Cloned(l.pages[(parent, vaddr)].attr));
                  n == l.(pages := l.pages[(child, vaddr) := y][(parent, vaddr) := y])
    ensures Takes(l, Clone(parent, child, vaddr), o, n)
  {
  }

  lemma SplitTakes(l: Life, root: Frame, vaddr: nat, allowed: bool, o: Outcome, n: Life)
    requires root in l.surplus && RightSplit(l, (root, vaddr), allowed, o) && (o.Failed? ==> n == l)
    requires o.Done? ==>
               && (root, vaddr) in l.pages
               && n == l.(pages := l.pages[(root, vaddr) := Entry(o.frame, Private(l.pages[(root, vaddr)].attr))])
    ensures Takes(l, Split(root, vaddr, allowed), o, n)
  {
  }

  lemma DiscardTakes(l: Life, root: Frame, vaddr: nat, o: Outcome, n: Life)
    requires root in l.surplus && (o.Done? <==> UserPage(l, root, vaddr)) && (o.Failed? ==> n == l)
    requires o.Done? ==> n == Discarded(l, root, vaddr) && o.frame == l.pages[(root, vaddr)].frame
    ensures Takes(l, Discard(root, vaddr), o, n)
  {
  }

  /** One event on the page tables and the counts.  An event for a root that
      does not exist is ignored. */
  method Perform(m: PageTables, refs: RefTable, e: Event, ghost l: Life)
    returns (o: Outcome, ghost n: Life)
    requires Good(m, refs, l) && Admitted(e)
    modifies m, m.meta, m.meta.slots, refs, refs.slots
    ensures Good(m, refs, n) && Takes(l, e, o, n) && Frames(m, refs) == old(Frames(m, refs))
    ensures Turns(l, old(m.free), n, m.free)
  {
    o, n := Failed, l;
    ghost var s, h := m.Img(), refs.holders;
    TurnsOf(s, h, l, s, h, l);
    var live := AllLive(m, refs, e, l);
    if !live { return; }
    match e {
      case Derive(kernelHalf) =>
        o, n := DeriveSpace(m, refs, kernelHalf, l);
      case Materialize(root, vaddr, attr) =>
        o, n := MaterializePage(m, refs, root, vaddr, attr, l);
      case Clone(parent, child, vaddr) =>
        o, n := ClonePage(m, refs, parent, child, vaddr, l);
        CloneTakes(l, parent, child, vaddr, o, n);
      case Split(root, vaddr, allowed) =>
        o, n := SplitPage(m, refs, root, vaddr, allowed, l);
        SplitTakes(l, root, vaddr, allowed, o, n);
      case Protect(root, vaddr, policy) =>
        o, n := ProtectPage(m, refs, root, vaddr, policy, l);
      case Discard(root, vaddr) =>
        o, n := DiscardPage(m, refs, root, vaddr, l);
        DiscardTakes(l, root, vaddr, o, n);
      case Destroy(root, cr3) =>
        o, n := DestroySpace(m, refs, root, cr3, l);
    }
    TurnsOf(s, h, l, m.Img(), refs.holders, n);
  }

  // Frames taken up and given back.

  ghost predicate Mapped(l: Life, f: Frame) { PagesOn(l, f) != {} }

  /** How one event moves frame `f`: a frame that was mapped is free exactly when
      no page maps it any more, and a frame newly mapped was free. */
  ghost predicate Turn(l: Life, free: set<Frame>, n: Life, free': set<Frame>, f: Frame) {
    && (Mapped(l, f) ==> f !in free && (f in free' <==> !Mapped(n, f)))
    && (!Mapped(l, f) && Mapped(n, f) ==> f in free && f !in free')
  }

  ghost predicate Turns(l: Life, free: set<Frame>, n: Life, free': set<Frame>) {
    forall f {:trigger Turn(l, free, n, free', f)} :: Turn(l, free, n, free', f)
  }

  lemma MappedIffHeld(s: Image, h: Holders, l: Life, f: Frame)
    requires Stands(s, h, l)
    ensures Mapped(l, f) <==> f in h
    ensures f in h ==> f !in s.free
  {
    OwnersArePages(s, h, l, f);
    assert ApartFrame(s, h, f);
  }

  lemma TurnsOf(s: Image, h: Holders, l: Life, t: Image, g: Holders, n: Life)
    requires Stands(s, h, l) && Stands(t, g, n) && Exchange(s.free, h, t.free, g)
    ensures Turns(l, s.free, n, t.free)
  {
    forall f ensures Turn(l, s.free, n, t.free, f) {
      MappedIffHeld(s, h, l, f);
      MappedIffHeld(t, g, n, f);
    }
  }

  /** The i-th account of a run. */
  ghost function Nth(l: Life, es: seq<Event>, os: seq<Outcome>, i: nat): Life
    requires i <= |es| == |os|
  {
    After(l, es[..i], os[..i])
  }

  /** `frees[i]` are the free frames after `i` events. */
  ghost predicate AllTurns(l: Life, es: seq<Event>, os: seq<Outcome>, frees: seq<set<Frame>>) {
    && |es| == |os| && |frees| == |es| + 1
    && forall i {:trigger TurnsAt(l, es, os, frees, i)} :: 0 <= i < |es| ==> TurnsAt(l, es, os, frees, i)
  }

  ghost predicate TurnsAt(l: Life, es: seq<Event>, os: seq<Outcome>, frees: seq<set<Frame>>, i: nat)
    requires i < |es| == |os| && |frees| == |es| + 1
  {
    Turns(Nth(l, es, os, i), frees[i], Nth(l, es, os, i + 1), frees[i + 1])
  }

  lemma AllTurnsNext(l: Life, es: seq<Event>, os: seq<Outcome>, frees: seq<set<Frame>>, n: nat, o: Outcome,
                     free: set<Frame>)
    requires n < |es| && AllTurns(l, es[..n], os, frees)
    requires Turns(After(l, es[..n], os), frees[n], After(l, es[..n + 1], os + [o]), free)
    ensures AllTurns(l, es[..n + 1], os + [o], frees + [free])
  {
    var es', os', fs := es[..n + 1], os + [o], frees + [free];
    forall i | 0 <= i < n + 1 ensures TurnsAt(l, es', os', fs, i) {
      assert es'[..i] == es[..n][..i] && os'[..i] == os[..i];
      if i < n {
        assert TurnsAt(l, es[..n], os, frees, i);
        assert es'[..i + 1] == es[..n][..i + 1] && os'[..i + 1] == os[..i + 1];
      } else {
        assert es'[..i] == es[..n] && os'[..i] == os && es'[..i + 1] == es' && os'[..i + 1] == os';
      }
    }
  }

  /** How often in the first `i` events a mapped frame went to the free ones. */
  ghost function Returns(l: Life, es: seq<Event>, os: seq<Outcome>, frees: seq<set<Frame>>, f: Frame, i: nat): nat
    requires i <= |es| == |os| && |frees| == |es| + 1
  {
    if i == 0 then 0
    else Returns(l, es, os, frees, f, i - 1) + if Mapped(Nth(l, es, os, i - 1), f) && f in frees[i] then 1 else 0
  }

  /** How often a free frame was mapped. */
  ghost function Takings(l: Life, es: seq<Event>, os: seq<Outcome>, frees: seq<set<Frame>>, f: Frame, i: nat): nat
    requires i <= |es| == |os| && |frees| == |es| + 1
  {
    if i == 0 then 0
    else Takings(l, es, os, frees, f, i - 1) + if f in frees[i - 1] && Mapped(Nth(l, es, os, i), f) then 1 else 0
  }

  /** Over any run a frame goes back to the allocator once for every time it was
      taken from it for user data, but for the time it is still mapped. */
  lemma {:induction false} ReturnedOncePerTaking(l: Life, es: seq<Event>, os: seq<Outcome>, frees: seq<set<Frame>>,
                                                 f: Frame, i: nat)
    requires AllTurns(l, es, os, frees) && i <= |es|
    ensures Returns(l, es, os, frees, f, i) + (if Mapped(Nth(l, es, os, i), f) then 1 else 0)
            == Takings(l, es, os, frees, f, i) + if Mapped(l, f) then 1 else 0
  {
    if i > 0 {
      ReturnedOncePerTaking(l, es, os, frees, f, i - 1);
      assert TurnsAt(l, es, os, frees, i - 1);
      assert Turn(Nth(l, es, os, i - 1), frees[i - 1], Nth(l, es, os, i), frees[i], f);
    }
  }

  /** Any run of events, whatever allocation does.  The page tables and the
      counts stand for the plain account throughout; every outcome is right;
      no frame is lost; and with every event the frames of user data come out of
      the free ones and go back to them exactly with their first and last page. */
  method Run(m: PageTables, refs: RefTable, es: seq<Event>, ghost l: Life)
    returns (os: seq<Outcome>, ghost frees: seq<set<Frame>>)
    requires Good(m, refs, l) && forall e :: e in es ==> Admitted(e)
    modifies m, m.meta, m.meta.slots, refs, refs.slots
    ensures |os| == |es| && Good(m, refs, After(l, es, os)) && AllRight(l, es, os)
    ensures Frames(m, refs) == old(Frames(m, refs))
    ensures AllTurns(l, es, os, frees) && frees[0] == old(m.free) && frees[|es|] == m.free
  {
    os, frees := [], [m.free];
    ghost var n := l;
    for i := 0 to |es|
      invariant |os| == i && n == After(l, es[..i], os) && Good(m, refs, n) && AllRight(l, es[..i], os)
      invariant Frames(m, refs) == old(Frames(m, refs))
      invariant AllTurns(l, es[..i], os, frees) && frees[0] == old(m.free) && frees[i] == m.free
    {
      var o; ghost var k;
      o, k := Perform(m, refs, es[i], n);
      Extends(l, es, i, os, o);
      AllTurnsNext(l, es, os, frees, i, o, m.free);
      n, os, frees := k, os + [o], frees + [m.free];
    }
    assert es[..|es|] == es;
  }

  lemma Extends(l: Life, es: seq<Event>, i: nat, os: seq<Outcome>, o: Outcome)
    requires i < |es| && |os| == i && AllRight(l, es[..i], os) && Right(After(l, es[..i], os), es[i], o)
    ensures AllRight(l, es[..i + 1], os + [o])
    ensures After(l, es[..i + 1], os + [o]) == Step(After(l, es[..i], os), es[i], o)
  {
    assert es[..i + 1][..i] == es[..i] && (os + [o])[..i] == os;
  }

  /** The machine at start-up: nothing derived, nothing mapped. */
  method Boot(direct: set<Frame>, free: set<Frame>, frames: nat) returns (m: PageTables, refs: RefTable)
    requires 0 !in free
    ensures fresh(m) && fresh(m.meta) && fresh(m.meta.slots) && fresh(refs) && fresh(refs.slots)
    ensures Good(m, refs, Life(map[], map[])) && Frames(m, refs) == free
  {
    m := new PageTables(direct, free);
    refs := new RefTable(frames);
    StartStands(m.Img());
  }

  lemma StartStands(s: Image)
    requires Valid(s) && s.at == map[] && s.reclaimed == map[]
    ensures Stands(s, map[], Life(map[], map[]))
  {
    forall root, vaddr ensures PageAgrees(s, map[], root, vaddr) {
      if LowPage(vaddr) { PathIsBijective(vaddr, PathOf(vaddr)); }
    }
  }

  // What this says of a frame.

  function PagesOn(l: Life, f: Frame): set<(Frame, nat)> { set key | key in l.pages && l.pages[key].frame == f }

  function HolderOf(key: (Frame, nat)): Holder { Page(key.0, PathOf(key.1)) }

  lemma HolderNamesPage(key: (Frame, nat), other: (Frame, nat))
    requires LowPage(key.1) && LowPage(other.1) && HolderOf(key) == HolderOf(other)
    ensures key == other
  {
    PathIsBijective(key.1, PathOf(key.1));
    PathIsBijective(other.1, PathOf(other.1));
  }

  lemma {:induction false} AsManyHolders(keys: set<(Frame, nat)>, holders: set<Holder>)
    requires forall key :: key in keys ==> LowPage(key.1)
    requires holders == set key | key in keys :: HolderOf(key)
    ensures |holders| == |keys|
  {
    if keys == {} {
      assert holders == {};
    } else {
      var key :| key in keys;
      var rest := keys - {key};
      forall other | other in rest ensures HolderOf(other) != HolderOf(key) {
        if HolderOf(other) == HolderOf(key) { HolderNamesPage(other, key); }
      }
      assert holders - {HolderOf(key)} == set other | other in rest :: HolderOf(other);
      AsManyHolders(rest, holders - {HolderOf(key)});
    }
  }

  /** A frame has as many owners as there are pages that map it, so that its
      count slot reads the number of those pages. */
  lemma OwnersArePages(s: Image, h: Holders, l: Life, f: Frame)
    requires Stands(s, h, l)
    ensures |HoldersOf(h, f)| == |PagesOn(l, f)|
  {
    var keys, holders := PagesOn(l, f), HoldersOf(h, f);
    forall x | x in holders ensures exists key :: key in keys && x == HolderOf(key) {
      var key := HolderIsPage(s, h, l, f, x);
      assert key in keys && x == HolderOf(key);
    }
    forall key | key in keys ensures HolderOf(key) in holders { PageOf(s, h, l, key.0, key.1); }
    AsManyHolders(keys, holders);
  }

  /** Every frame is at all times exactly one of free, a page table, or mapped
      by some page; and its count slot reads the number of pages that map it. */
  lemma EveryFrameAccountedFor(m: PageTables, refs: RefTable, l: Life, f: Frame)
    requires Good(m, refs, l) && f in Frames(m, refs)
    ensures f in m.free <==> f !in m.tables && PagesOn(l, f) == {}
    ensures f in m.tables ==> PagesOn(l, f) == {}
    ensures f < refs.slots.Length ==> refs.slots[f] == Encode(|PagesOn(l, f)|)
  {
    OwnersArePages(m.Img(), refs.holders, l, f);
    ApartFromPool(m.Img(), refs.holders);
    if f in refs.holders { assert |refs.holders[f]| > 0; }
  }

  lemma LonePageVacates(l: Life, root: Frame, vaddr: nat, e: Entry, first: Life, mapped: Life)
    requires Rooted(l) && root !in l.surplus && first == l.(surplus := l.surplus[root := 0])
    requires mapped == first.(pages := first.pages[(root, vaddr) := e])
    ensures !Below(mapped.pages - {(root, vaddr)}, root, PathOf(vaddr)[..1])
    ensures mapped.surplus[root := mapped.surplus[root] + 1] == l.surplus[root := 1]
  {
    assert forall v :: (root, v) !in l.pages;
  }

  method DiscardThenDestroy(m: PageTables, refs: RefTable, root: Frame, vaddr: nat, cr3: Frame, ghost l: Life)
    returns (discarded: Outcome, destroyed: Outcome, ghost n: Life)
    requires Good(m, refs, l) && root in l.surplus && LowPage(vaddr) && UserPage(l, root, vaddr)
    requires !Below(l.pages - {(root, vaddr)}, root, PathOf(vaddr)[..1])
    modifies m, m.meta, m.meta.slots, refs, refs.slots
    ensures discarded.Done? && destroyed.Failed? && Good(m, refs, n)
    ensures n.surplus == l.surplus[root := l.surplus[root] + 1]
  {
    ghost var k;
    discarded, k := DiscardPage(m, refs, root, vaddr, l);
    destroyed, n := DestroySpace(m, refs, root, cr3, k);
  }

  method DeriveOnePage(m: PageTables, refs: RefTable, kernelHalf: seq<Entry>, vaddr: nat, attr: Attr, ghost l: Life)
    returns (derived: Outcome, mapped: Outcome, ghost n: Life)
    requires Good(m, refs, l) && |kernelHalf| == ENTRIES - LOW_HALF_ENTRIES && LowPage(vaddr) && attr.present
    modifies m, m.meta, m.meta.slots, refs
    ensures Good(m, refs, n)
    ensures derived.Done? && mapped.Done? ==>
              && derived.frame in n.surplus
              && n.surplus[derived.frame := n.surplus[derived.frame] + 1] == l.surplus[derived.frame := 1]
              && (derived.frame, vaddr) in n.pages && n.pages[(derived.frame, vaddr)].attr == attr
              && !Below(n.pages - {(derived.frame, vaddr)}, derived.frame, PathOf(vaddr)[..1])
  {
    mapped := Failed;
    derived, n := DeriveSpace(m, refs, kernelHalf, l);
    if derived.Done? {
      ghost var first := n;
      mapped, n := MaterializePage(m, refs, derived.frame, vaddr, attr, first);
      if mapped.Done? { LonePageVacates(l, derived.frame, vaddr, Entry(mapped.frame, attr), first, n); }
    }
  }

  /** An address space is derived, one page of it is materialised and
      discarded, and then it can never be torn down: the root stays behind. */
  method RootIsNeverGivenBack(m: PageTables, refs: RefTable, kernelHalf: seq<Entry>, vaddr: nat, attr: Attr,
                              cr3: Frame, ghost l: Life)
    returns (derived: Outcome, mapped: Outcome, discarded: Outcome, destroyed: Outcome, ghost n: Life)
    requires Good(m, refs, l) && |kernelHalf| == ENTRIES - LOW_HALF_ENTRIES && LowPage(vaddr) && attr.present
             && attr.user
    modifies m, m.meta, m.meta.slots, refs, refs.slots
    ensures Good(m, refs, n)
    ensures derived.Done? && mapped.Done? ==>
              discarded.Done? && destroyed.Failed? && n.surplus == l.surplus[derived.frame := 1]
  {
    discarded, destroyed := Failed, Failed;
    derived, mapped, n := DeriveOnePage(m, refs, kernelHalf, vaddr, attr, l);
    if derived.Done? && mapped.Done? {
      discarded, destroyed, n := DiscardThenDestroy(m, refs, derived.frame, vaddr, cr3, n);
    }
  }
}

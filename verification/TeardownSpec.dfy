/**
 What tearing down part of a user address space amounts to: which tables go,
 which stay as they were, which references are dropped and which frames return
 to the allocator.  `Torn` is the state after the first `i` slots of the table
 at `k` have been cleared; the lemmas move it one slot on.
 */
module TeardownSpec {
  import opened Common
  import opened Paging
  import opened PageTree
  import opened FrameRefs

  /** `q` leads through one of the first `i` slots of the table at `k`. */
  predicate Under(k: Key, i: nat, q: Path) {
    |q| > |k.path| && q[..|k.path|] == k.path && q[|k.path|] < i
  }

  ghost predicate Gone(k: Key, i: nat, k': Key) { k'.root == k.root && Under(k, i, k'.path) }

  ghost predicate MapsTo(s: Image, root: Frame, p: Path, f: Frame)
    requires Weak(s)
  {
    LowPath(p) && Trans(s, root, p).Some? && Trans(s, root, p).value.frame == f
  }

  /** `k'` is gone exactly when it lies below a cleared slot, and else is where it was. */
  ghost predicate TornKey(s: Image, t: Image, k: Key, i: nat, k': Key) {
    && (k' in t.at <==> k' in s.at && !Gone(k, i, k'))
    && (k' in t.at && k' in s.at ==> t.at[k'] == s.at[k'])
    && (k' in t.at && k' in s.at && k' != k ==>
          s.at[k'] in s.tables && t.at[k'] in t.tables && t.tables[t.at[k']] == s.tables[s.at[k']])
  }

  /** Slot `j` of the table at `k` is cleared below `i` and as it was from there on. */
  ghost predicate TornSlot(s: Image, t: Image, k: Key, i: nat, j: nat)
    requires k in s.at && k in t.at && s.at[k] in s.tables && t.at[k] in t.tables
    requires j < |s.tables[s.at[k]]| && j < |t.tables[t.at[k]]|
  {
    if j < i then !Present(t.tables[t.at[k]][j]) else t.tables[t.at[k]][j] == s.tables[s.at[k]][j]
  }

  /** A frame outside the user forest keeps its contents and its record. */
  ghost predicate ForeignFrame(s: Image, t: Image, f: Frame) {
    f !in s.keyOf ==>
      && f !in t.keyOf
      && (f in s.tables ==> f in t.tables && t.tables[f] == s.tables[f])
      && (f in s.meta ==> f in t.meta && t.meta[f] == s.meta[f])
  }

  /** Tables below the cleared slots are gone; all others are untouched, but
      for the cleared slots of the table at `k`. */
  ghost predicate TornTables(s: Image, t: Image, k: Key, i: nat)
    requires k in s.at && Placed(s, k) && k in t.at && Placed(t, k)
  {
    && (forall k' {:trigger TornKey(s, t, k, i, k')} :: TornKey(s, t, k, i, k'))
    && (forall j {:trigger TornSlot(s, t, k, i, j)} :: 0 <= j < ENTRIES ==> TornSlot(s, t, k, i, j))
    && (forall f {:trigger ForeignFrame(s, t, f)} :: ForeignFrame(s, t, f))
    && t.reclaimed == s.reclaimed
  }

  /** Each cleared page has given up its own hold on its frame, and nobody else. */
  ghost predicate TornHolders(s: Image, h: Holders, g: Holders, k: Key, i: nat)
    requires Weak(s)
  {
    forall f, x {:trigger TornHold(s, h, g, k, i, f, x)} :: TornHold(s, h, g, k, i, f, x)
  }

  ghost predicate TornHold(s: Image, h: Holders, g: Holders, k: Key, i: nat, f: Frame, x: Holder)
    requires Weak(s)
  {
    x in HoldersOf(g, f) <==>
    x in HoldersOf(h, f) && !(x.Page? && x.root == k.root && Under(k, i, x.path) && MapsTo(s, k.root, x.path, f))
  }

  /** The frames returned are those of the tables that are gone and those whose
      last holder is gone. */
  ghost predicate TornFree(s: Image, h: Holders, t: Image, g: Holders, k: Key, i: nat) {
    forall f {:trigger TornFrame(s, h, t, g, k, i, f)} :: TornFrame(s, h, t, g, k, i, f)
  }

  ghost predicate TornFrame(s: Image, h: Holders, t: Image, g: Holders, k: Key, i: nat, f: Frame) {
    f in t.free <==> f in s.free || (f in s.keyOf && Gone(k, i, s.keyOf[f])) || (f in h && f !in g)
  }

  /** Frames that are held are neither free nor page tables. */
  ghost predicate Apart(s: Image, h: Holders) {
    0 !in h && forall f {:trigger ApartFrame(s, h, f)} :: ApartFrame(s, h, f)
  }

  ghost predicate ApartFrame(s: Image, h: Holders, f: Frame) {
    f in h ==> h[f] != {} && f !in s.free && f !in s.tables && f !in s.keyOf
  }

  ghost predicate Torn(s: Image, h: Holders, t: Image, g: Holders, k: Key, i: nat) {
    && Weak(s) && Weak(t) && k in s.at && Placed(s, k) && k in t.at && Placed(t, k)
    && Apart(s, h) && Apart(t, g)
    && TornTables(s, t, k, i) && TornHolders(s, h, g, k, i) && TornFree(s, h, t, g, k, i)
  }

  /** Every page mapped below `k` holds the frame it maps. */
  ghost predicate Held(s: Image, h: Holders, k: Key)
    requires Weak(s)
  {
    forall p, f {:trigger MapsTo(s, k.root, p, f)} ::
      MapsTo(s, k.root, p, f) && Under(k, ENTRIES, p) ==> Page(k.root, p) in HoldersOf(h, f)
  }

  lemma TornStart(s: Image, h: Holders, k: Key)
    requires Weak(s) && k in s.at && Placed(s, k) && Apart(s, h)
    ensures Torn(s, h, s, h, k, 0)
  {
    forall k' ensures TornKey(s, s, k, 0, k') {
      if k' in s.at { assert Placed(s, k'); }
    }
  }

  /** Nothing lies below an absent slot. */
  lemma NothingUnder(s: Image, k: Key, i: nat, q: Path)
    requires Weak(s) && k in s.at && Placed(s, k) && i < Limit(k) && !Present(s.tables[s.at[k]][i])
    requires |q| > |k.path| && q[..|k.path|] == k.path && q[|k.path|] == i
    ensures Key(k.root, q) !in s.at
    ensures forall f :: !MapsTo(s, k.root, q, f)
  {
    var n := |k.path|;
    if Key(k.root, q) in s.at {
      Prefixes(s, Key(k.root, q), n);
    }
    if LowPath(q) {
      if n < 3 {
        NoPathBelow(s, k, q);
      } else {
        assert q[..3] == k.path;
      }
    }
  }

  lemma TornSkip(s: Image, h: Holders, t: Image, g: Holders, k: Key, i: nat)
    requires Torn(s, h, t, g, k, i) && i < Limit(k) && !Present(t.tables[t.at[k]][i])
    ensures Torn(s, h, t, g, k, i + 1)
  {
    assert TornSlot(s, t, k, i, i);
    forall q | Under(k, i + 1, q) && !Under(k, i, q)
      ensures Key(k.root, q) !in s.at && forall f :: !MapsTo(s, k.root, q, f)
    {
      NothingUnder(s, k, i, q);
    }
    var n := i + 1;
    forall k' ensures TornKey(s, t, k, n, k') { assert TornKey(s, t, k, i, k'); }
    forall j | 0 <= j < ENTRIES ensures TornSlot(s, t, k, n, j) { assert TornSlot(s, t, k, i, j); }
    forall f, x ensures TornHold(s, h, g, k, n, f, x) { assert TornHold(s, h, g, k, i, f, x); }
    SkipFree(s, h, t, g, k, i);
  }

  lemma SkipFree(s: Image, h: Holders, t: Image, g: Holders, k: Key, i: nat)
    requires Weak(s) && TornFree(s, h, t, g, k, i)
    requires forall q | Under(k, i + 1, q) && !Under(k, i, q) :: Key(k.root, q) !in s.at
    ensures TornFree(s, h, t, g, k, i + 1)
  {
    var n := i + 1;
    forall f ensures TornFrame(s, h, t, g, k, n, f) {
      assert TornFrame(s, h, t, g, k, i, f) && Keyed(s, f);
      if f in s.keyOf {
        var q := s.keyOf[f].path;
        if Under(k, n, q) && !Under(k, i, q) { assert s.keyOf[f] == Key(s.keyOf[f].root, q); }
      }
    }
  }

  ghost function Freed(s: Image, f: Frame): Image {
    Image(s.tables, s.meta, s.free + {f}, s.at, s.keyOf, s.reclaimed)
  }

  lemma FreedKeepsForest(s: Image, f: Frame)
    requires Weak(s) && f !in s.tables && f != 0
    ensures Weak(Freed(s, f))
  {
    var t := Freed(s, f);
    forall f' ensures Keyed(t, f') { assert Keyed(s, f'); }
    forall k | k in t.at ensures Placed(t, k) && CountAgrees(t, k) {
      assert Placed(s, k) && CountAgrees(s, k);
    }
    forall k, i | k in t.at && 0 <= i < Limit(k) ensures SlotAgrees(t, k, i) {
      assert Placed(s, k) && SlotAgrees(s, k, i);
    }
  }

  /** The page in slot `i` of a leaf table still holds its frame. */
  lemma LeafHeld(s: Image, h: Holders, t: Image, g: Holders, k: Key, i: nat)
    requires Torn(s, h, t, g, k, i) && |k.path| == 3 && i < ENTRIES && Present(t.tables[t.at[k]][i]) && Held(s, h, k)
    ensures var f := t.tables[t.at[k]][i].frame;
            f in g && Page(k.root, k.path + [i]) in g[f] && MapsTo(s, k.root, k.path + [i], f)
    ensures t.meta[t.at[k]].count > 0
  {
    var p, f := k.path + [i], t.tables[t.at[k]][i].frame;
    assert p[..3] == k.path;
    assert TornSlot(s, t, k, i, i);
    assert MapsTo(s, k.root, p, f);
    assert Page(k.root, p) in HoldersOf(h, f);
    assert TornHold(s, h, g, k, i, f, Page(k.root, p));
    assert CountAgrees(t, k);
    CountZero(t.tables[t.at[k]], ENTRIES);
  }

  /** The state after the leaf in slot `i` is cleared and its hold dropped. */
  ghost function LeafCleared(t: Image, g: Holders, k: Key, i: nat): Image
    requires HasSlot(t, k, i) && t.meta[t.at[k]].count > 0 && t.tables[t.at[k]][i].frame in g
  {
    var f := t.tables[t.at[k]][i].frame;
    var u := SetSlot(t, k, i, ZERO, -1);
    if g[f] == {Page(k.root, k.path + [i])} then Freed(u, f) else u
  }

  lemma LeafForest(t: Image, g: Holders, k: Key, i: nat)
    requires Weak(t) && k in t.at && Placed(t, k) && |k.path| == 3 && i < ENTRIES && Present(t.tables[t.at[k]][i])
    requires Apart(t, g) && t.tables[t.at[k]][i].frame in g && t.meta[t.at[k]].count > 0
    ensures Weak(LeafCleared(t, g, k, i))
  {
    var f := t.tables[t.at[k]][i].frame;
    assert ApartFrame(t, g, f);
    SetSlotKeepsForest(t, k, i, ZERO);
    var u := SetSlot(t, k, i, ZERO, -1);
    assert u.tables.Keys == t.tables.Keys;
    FreedKeepsForest(u, f);
  }

  lemma LeafApart(t: Image, g: Holders, k: Key, i: nat)
    requires HasSlot(t, k, i) && t.meta[t.at[k]].count > 0 && Apart(t, g) && t.tables[t.at[k]][i].frame in g
    ensures Apart(LeafCleared(t, g, k, i), Without(g, t.tables[t.at[k]][i].frame, Page(k.root, k.path + [i])))
  {
    var f, x := t.tables[t.at[k]][i].frame, Page(k.root, k.path + [i]);
    assert ApartFrame(t, g, f);
    if g[f] - {x} == {} { assert g[f] == {x}; }
    forall f' ensures ApartFrame(LeafCleared(t, g, k, i), Without(g, f, x), f') { assert ApartFrame(t, g, f'); }
  }

  lemma WithoutHolders(g: Holders, f: Frame, x: Holder, f': Frame, x': Holder)
    requires f in g
    ensures x' in HoldersOf(Without(g, f, x), f') <==> x' in HoldersOf(g, f') && !(f' == f && x' == x)
  {
  }

  lemma LeafHolders(s: Image, h: Holders, g: Holders, k: Key, i: nat, f: Frame)
    requires Weak(s) && TornHolders(s, h, g, k, i) && |k.path| == 3
    requires f in g && Page(k.root, k.path + [i]) in g[f] && MapsTo(s, k.root, k.path + [i], f)
    ensures TornHolders(s, h, Without(g, f, Page(k.root, k.path + [i])), k, i + 1)
  {
    var x := Page(k.root, k.path + [i]);
    var g' := Without(g, f, x);
    var n := i + 1;
    forall f', x' ensures TornHold(s, h, g', k, n, f', x') {
      WithoutHolders(g, f, x, f', x');
      assert TornHold(s, h, g, k, i, f', x');
      if x'.Page? && x'.root == k.root && Under(k, i + 1, x'.path) && !Under(k, i, x'.path) && LowPath(x'.path) {
        assert x'.path == k.path + [i];
      }
    }
  }

  /** No table lies below a leaf table. */
  lemma NoTableUnderLeaf(s: Image, k: Key, i: nat, k': Key)
    requires AllPlaced(s) && |k.path| == 3 && k' in s.at
    ensures !Gone(k, i, k')
  {
    assert Placed(s, k');
  }

  lemma LeafTables(s: Image, t: Image, u: Image, k: Key, i: nat)
    requires AllPlaced(s) && k in s.at && Placed(s, k) && k in t.at && AllPlaced(t) && Placed(t, k) && |k.path| == 3
             && i < ENTRIES
    requires TornTables(s, t, k, i)
    requires u.at == t.at && u.keyOf == t.keyOf && u.reclaimed == t.reclaimed && Placed(u, k)
    requires u.tables == t.tables[t.at[k] := t.tables[t.at[k]][i := ZERO]]
    requires forall f :: f in t.meta && f != t.at[k] ==> f in u.meta && u.meta[f] == t.meta[f]
    ensures TornTables(s, u, k, i + 1)
  {
    var n := i + 1;
    forall k' ensures TornKey(s, u, k, n, k') {
      assert TornKey(s, t, k, i, k');
      if k' in s.at {
        NoTableUnderLeaf(s, k, i, k');
        NoTableUnderLeaf(s, k, n, k');
        assert Placed(t, k') && Placed(s, k');
      }
    }
    forall j | 0 <= j < ENTRIES ensures TornSlot(s, u, k, n, j) { assert TornSlot(s, t, k, i, j); }
    forall f ensures ForeignFrame(s, u, f) {
      assert ForeignFrame(s, t, f) && TornKey(s, t, k, i, k);
    }
  }

  lemma LeafFree(s: Image, h: Holders, t: Image, g: Holders, k: Key, i: nat)
    requires Weak(s) && |k.path| == 3 && HasSlot(t, k, i) && t.tables[t.at[k]][i].frame in g
             && t.meta[t.at[k]].count > 0
    requires TornFree(s, h, t, g, k, i) && TornHolders(s, h, g, k, i)
    requires Page(k.root, k.path + [i]) in g[t.tables[t.at[k]][i].frame]
    ensures TornFree(s, h, LeafCleared(t, g, k, i),
              Without(g, t.tables[t.at[k]][i].frame, Page(k.root, k.path + [i])), k, i + 1)
  {
    var u := LeafCleared(t, g, k, i);
    var f := t.tables[t.at[k]][i].frame;
    var g' := Without(g, f, Page(k.root, k.path + [i]));
    assert TornHold(s, h, g, k, i, f, Page(k.root, k.path + [i]));
    var n := i + 1;
    forall f' ensures TornFrame(s, h, u, g', k, n, f') {
      assert Keyed(s, f');
      if f' in s.keyOf { NoTableUnderLeaf(s, k, i, s.keyOf[f']); NoTableUnderLeaf(s, k, i + 1, s.keyOf[f']); }
      assert TornFrame(s, h, t, g, k, i, f');
    }
  }

  lemma TornLeaf(s: Image, h: Holders, t: Image, g: Holders, k: Key, i: nat)
    requires Torn(s, h, t, g, k, i) && |k.path| == 3 && i < ENTRIES && Present(t.tables[t.at[k]][i]) && Held(s, h, k)
    ensures t.tables[t.at[k]][i].frame in g && t.meta[t.at[k]].count > 0
    ensures Torn(s, h, LeafCleared(t, g, k, i), Without(g, t.tables[t.at[k]][i].frame, Page(k.root, k.path + [i])),
              k, i + 1)
  {
    LeafHeld(s, h, t, g, k, i);
    var f := t.tables[t.at[k]][i].frame;
    LeafForest(t, g, k, i);
    LeafApart(t, g, k, i);
    LeafHolders(s, h, g, k, i, f);
    LeafTables(s, t, LeafCleared(t, g, k, i), k, i);
    LeafFree(s, h, t, g, k, i);
    assert Placed(LeafCleared(t, g, k, i), k);
  }

  /** Clearing slots makes the pages below them, and no others, untranslated. */
  lemma TornTrans(s: Image, h: Holders, t: Image, g: Holders, k: Key, i: nat, root: Frame, p: Path)
    requires Torn(s, h, t, g, k, i) && LowPath(p)
    ensures Trans(t, root, p) == if root == k.root && Under(k, i, p) then None else Trans(s, root, p)
  {
    var leaf := Key(root, p[..3]);
    assert TornKey(s, t, k, i, leaf);
    if leaf in s.at { assert Placed(s, leaf); }
    if leaf in t.at { assert Placed(t, leaf); }
    if leaf == k {
      assert p[..3] == k.path;
      assert TornSlot(s, t, k, i, p[3]);
    } else if |k.path| < 3 {
      assert p[..3][..|k.path|] == p[..|k.path|];
    } else {
      assert Position(k) && |k.path| == 3;
    }
  }

  /** Below slot `i` of `k` lie its child and what lies below the child. */
  lemma UnderSplit(k: Key, i: nat, q: Path)
    requires |q| <= 4 && forall j :: 1 <= j < |q| ==> q[j] < ENTRIES
    ensures Under(k, i + 1, q) <==> Under(k, i, q) || q == k.path + [i] || Under(Child(k, i), ENTRIES, q)
  {
    var n := |k.path|;
    if |q| > n && q[..n] == k.path {
      if q[n] == i {
        assert q[..n + 1] == k.path + [i];
        if |q| == n + 1 { assert q == q[..n + 1]; }
      }
      if |q| > n + 1 && q[..n + 1] == k.path + [i] { assert q[n] == i; }
    }
    if |q| > n + 1 && q[..n + 1] == k.path + [i] {
      assert q[..n] == q[..n + 1][..n] == k.path && q[n] == q[..n + 1][n];
    }
  }

  /** Nobody comes to hold a frame by tearing down. */
  lemma HoldersShrink(s: Image, h: Holders, g: Holders, k: Key, i: nat, f: Frame)
    requires Weak(s) && TornHolders(s, h, g, k, i) && f in g && g[f] != {}
    ensures f in h
  {
    var x :| x in g[f];
    assert TornHold(s, h, g, k, i, f, x);
  }

  /** The child table, once cleared, can be unlinked. */
  lemma ChildReady(t: Image, g: Holders, u: Image, g': Holders, k: Key, i: nat)
    requires Torn(t, g, u, g', Child(k, i), ENTRIES) && k in t.at && Placed(t, k) && |k.path| < 3 && i < Limit(k)
    ensures Unlinkable(u, k, i) && u.meta[u.at[k]].count > 0 && u.at[k] != u.at[Child(k, i)]
    ensures u.at[k] == t.at[k] && u.tables[u.at[k]] == t.tables[t.at[k]] && u.at[Child(k, i)] == t.at[Child(k, i)]
  {
    var c := Child(k, i);
    assert TornKey(t, u, c, ENTRIES, k) && TornKey(t, u, c, ENTRIES, c);
    assert Placed(u, k) && CountAgrees(u, c);
    forall j | 0 <= j < ENTRIES ensures !Present(u.tables[u.at[c]][j]) { assert TornSlot(t, u, c, ENTRIES, j); }
    CountZero(u.tables[u.at[c]], ENTRIES);
    UnlinkCountPositive(u, k, i);
  }

  lemma ChildKeys(s: Image, t: Image, u: Image, k: Key, i: nat, n: nat, k': Key)
    requires AllPlaced(s) && n == i + 1 && |k.path| < 3 && HasSlot(u, k, i) && Child(k, i) in u.at
             && u.meta[u.at[k]].count > 0 && k.root in u.reclaimed
    requires TornKey(s, t, k, i, k') && TornKey(t, u, Child(k, i), ENTRIES, k')
    requires k' in u.at ==>
             u.at[k'] in u.tables && (k' != Child(k, i) ==> u.at[k'] != u.at[Child(k, i)])
               && (k' != k ==> u.at[k'] != u.at[k])
    ensures TornKey(s, Unlink(u, k, i, false), k, n, k')
  {
    if k' in s.at {
      assert Placed(s, k');
      UnderSplit(k, i, k'.path);
      if k'.root == k.root && k'.path == k.path + [i] { assert k' == Child(k, i); }
      assert Gone(k, n, k') <==> Gone(k, i, k') || k' == Child(k, i) || Gone(Child(k, i), ENTRIES, k');
    }
  }

  lemma ChildTables(s: Image, h: Holders, t: Image, g: Holders, u: Image, g': Holders, k: Key, i: nat)
    requires Torn(s, h, t, g, k, i) && |k.path| < 3 && i < Limit(k) && Torn(t, g, u, g', Child(k, i), ENTRIES)
    requires Unlinkable(u, k, i) && u.meta[u.at[k]].count > 0 && u.at[k] == t.at[k]
             && u.tables[u.at[k]] == t.tables[t.at[k]]
    requires Weak(Unlink(u, k, i, false))
    ensures k in Unlink(u, k, i, false).at && Placed(Unlink(u, k, i, false), k)
    ensures TornTables(s, Unlink(u, k, i, false), k, i + 1)
  {
    var v, n := Unlink(u, k, i, false), i + 1;
    UnlinkCountPositive(u, k, i);
    assert k in v.at && Placed(v, k);
    forall k' ensures TornKey(s, v, k, n, k') {
      assert TornKey(s, t, k, i, k') && TornKey(t, u, Child(k, i), ENTRIES, k');
      if k' in u.at { assert Placed(u, k'); }
      ChildKeys(s, t, u, k, i, n, k');
    }
    forall j | 0 <= j < ENTRIES ensures TornSlot(s, v, k, n, j) { assert TornSlot(s, t, k, i, j); }
    forall f ensures ForeignFrame(s, v, f) {
      assert ForeignFrame(s, t, f) && ForeignFrame(t, u, f);
    }
  }

  lemma ChildHolders(s: Image, h: Holders, t: Image, g: Holders, u: Image, g': Holders, k: Key, i: nat)
    requires Torn(s, h, t, g, k, i) && |k.path| < 3 && Torn(t, g, u, g', Child(k, i), ENTRIES)
    ensures TornHolders(s, h, g', k, i + 1)
  {
    var n := i + 1;
    forall f, x ensures TornHold(s, h, g', k, n, f, x) {
      assert TornHold(s, h, g, k, i, f, x) && TornHold(t, g, g', Child(k, i), ENTRIES, f, x);
      if x.Page? && x.root == k.root && LowPath(x.path) {
        UnderSplit(k, i, x.path);
        TornTrans(s, h, t, g, k, i, k.root, x.path);
        assert Under(Child(k, i), ENTRIES, x.path) ==> !Under(k, i, x.path) by {
          if Under(Child(k, i), ENTRIES, x.path) { assert x.path[..|k.path| + 1][|k.path|] == i; }
        }
      }
    }
  }

  lemma ChildFree(s: Image, h: Holders, t: Image, g: Holders, u: Image, g': Holders, k: Key, i: nat)
    requires Torn(s, h, t, g, k, i) && |k.path| < 3 && i < Limit(k) && Torn(t, g, u, g', Child(k, i), ENTRIES)
    requires Unlinkable(u, k, i) && u.meta[u.at[k]].count > 0 && u.at[Child(k, i)] == t.at[Child(k, i)]
    ensures TornFree(s, h, Unlink(u, k, i, false), g', k, i + 1)
  {
    var v, c := Unlink(u, k, i, false), Child(k, i);
    var n := i + 1;
    forall f ensures TornFrame(s, h, v, g', k, n, f) {
      assert TornFrame(s, h, t, g, k, i, f) && TornFrame(t, g, u, g', c, ENTRIES, f);
      assert ApartFrame(t, g, f) && ApartFrame(u, g', f);
      if f in g { HoldersShrink(s, h, g, k, i, f); }
      if f in g' { HoldersShrink(t, g, g', c, ENTRIES, f); }
      SameKey(s, t, k, i, f);
      assert Keyed(s, f) && Keyed(t, f) && Placed(t, c);
      if f in s.keyOf {
        assert Placed(s, s.keyOf[f]);
        UnderSplit(k, i, s.keyOf[f].path);
      }
    }
  }

  /** A table that survives has the key it had. */
  lemma SameKey(s: Image, t: Image, k: Key, i: nat, f: Frame)
    requires AllPlaced(s) && AllPlaced(t) && k in s.at && Placed(s, k) && k in t.at && Placed(t, k)
             && TornTables(s, t, k, i)
    ensures f in t.keyOf ==> f in s.keyOf && s.keyOf[f] == t.keyOf[f]
    ensures f in s.keyOf && !Gone(k, i, s.keyOf[f]) ==> f in t.keyOf && s.keyOf[f] == t.keyOf[f]
  {
    assert Keyed(s, f) && Keyed(t, f);
    if f in t.keyOf {
      assert TornKey(s, t, k, i, t.keyOf[f]);
      assert Placed(s, t.keyOf[f]);
    }
    if f in s.keyOf && !Gone(k, i, s.keyOf[f]) {
      assert TornKey(s, t, k, i, s.keyOf[f]);
      assert Placed(t, s.keyOf[f]);
    }
  }

  lemma ChildApart(u: Image, g': Holders, k: Key, i: nat)
    requires Unlinkable(u, k, i) && u.meta[u.at[k]].count > 0 && Apart(u, g')
    ensures Apart(Unlink(u, k, i, false), g')
  {
    forall f ensures ApartFrame(Unlink(u, k, i, false), g', f) { assert ApartFrame(u, g', f); }
  }

  lemma TornChild(s: Image, h: Holders, t: Image, g: Holders, u: Image, g': Holders, k: Key, i: nat)
    requires Torn(s, h, t, g, k, i) && |k.path| < 3 && i < Limit(k) && Torn(t, g, u, g', Child(k, i), ENTRIES)
    ensures HasSlot(u, k, i) && Child(k, i) in u.at && k.root in u.reclaimed && u.meta[u.at[k]].count > 0
    ensures u.at[k] == t.at[k] && u.at[Child(k, i)] == t.at[Child(k, i)] && u.at[k] != u.at[Child(k, i)]
            && u.at[Child(k, i)] !in u.free && u.at[Child(k, i)] in u.tables
    ensures Torn(s, h, Unlink(u, k, i, false), g', k, i + 1)
  {
    ChildReady(t, g, u, g', k, i);
    UnlinkKeepsForest(u, k, i, false);
    ChildTables(s, h, t, g, u, g', k, i);
    ChildHolders(s, h, t, g, u, g', k, i);
    ChildFree(s, h, t, g, u, g', k, i);
    ChildApart(u, g', k, i);
  }

  /** The pages below a child still hold their frames when its turn comes. */
  lemma HeldBelow(s: Image, h: Holders, t: Image, g: Holders, k: Key, i: nat)
    requires Torn(s, h, t, g, k, i) && Held(s, h, k) && |k.path| < 3 && i < ENTRIES
    ensures Held(t, g, Child(k, i))
  {
    forall p, f | MapsTo(t, k.root, p, f) && Under(Child(k, i), ENTRIES, p) ensures Page(k.root, p) in HoldersOf(g, f) {
      UnderSplit(k, i, p);
      TornTrans(s, h, t, g, k, i, k.root, p);
      assert p[..|k.path| + 1][|k.path|] == i && p[..|k.path| + 1][..|k.path|] == p[..|k.path|];
      assert MapsTo(s, k.root, p, f);
      assert TornHold(s, h, g, k, i, f, Page(k.root, p));
    }
  }

  // The whole address space.

  ghost function RootGone(t: Image, root: Frame): Image {
    Image(t.tables - {root}, t.meta - {root}, t.free
        + {root}, t.at - {Key(root, [])}, t.keyOf - {root}, t.reclaimed - {root})
  }

  ghost predicate DestroyedKey(s: Image, v: Image, root: Frame, k: Key) {
    && (k in v.at <==> k in s.at && k.root != root)
    && (k in v.at ==>
         k in s.at && v.at[k] == s.at[k] && s.at[k] in s.tables && v.at[k] in v.tables
           && v.tables[v.at[k]] == s.tables[s.at[k]])
  }

  ghost predicate DestroyedFrame(s: Image, h: Holders, v: Image, g: Holders, root: Frame, f: Frame) {
    f in v.free <==> f in s.free || (f in s.keyOf && s.keyOf[f].root == root) || (f in h && f !in g)
  }

  ghost predicate DestroyedHold(s: Image, h: Holders, g: Holders, root: Frame, f: Frame, x: Holder)
    requires Weak(s)
  {
    x in HoldersOf(g, f) <==> x in HoldersOf(h, f) && !(x.Page? && x.root == root && MapsTo(s, root, x.path, f))
  }

  /** `root` and everything below it is gone: each of its tables is free, each
      of its pages has dropped its one reference, a frame is free as well once
      nobody holds it, and no other root has changed. */
  ghost predicate Destroyed(s: Image, h: Holders, v: Image, g: Holders, root: Frame) {
    && Weak(s) && Weak(v) && Apart(v, g) && v.reclaimed == s.reclaimed - {root}
    && (forall k {:trigger DestroyedKey(s, v, root, k)} :: DestroyedKey(s, v, root, k))
    && (forall f {:trigger DestroyedFrame(s, h, v, g, root, f)} :: DestroyedFrame(s, h, v, g, root, f))
    && (forall f, x {:trigger DestroyedHold(s, h, g, root, f, x)} :: DestroyedHold(s, h, g, root, f, x))
    && (forall r, p {:trigger Trans(v, r, p)} | LowPath(p) ::
         Trans(v, r, p) == if r == root then None else Trans(s, r, p))
  }

  lemma RootEmpty(s: Image, h: Holders, t: Image, g: Holders, root: Frame)
    requires Torn(s, h, t, g, Key(root, []), LOW_HALF_ENTRIES)
    ensures root in t.meta && root in s.reclaimed && t.meta[root].count == s.reclaimed[root]
    ensures forall k :: k in t.at && k.root == root ==> k == Key(root, [])
    ensures t.at[Key(root, [])] == root && root !in t.free && root in t.tables
  {
    var k0 := Key(root, []);
    assert Placed(t, k0) && CountAgrees(t, k0);
    forall j | 0 <= j < LOW_HALF_ENTRIES ensures !Present(t.tables[root][j]) {
      assert TornSlot(s, t, k0, LOW_HALF_ENTRIES, j);
    }
    CountZero(t.tables[root], LOW_HALF_ENTRIES);
    forall k | k in t.at && k.root == root ensures k == k0 {
      assert TornKey(s, t, k0, LOW_HALF_ENTRIES, k) && Placed(t, k);
      if k.path != [] { assert k.path[..0] == []; assert Gone(k0, LOW_HALF_ENTRIES, k); }
    }
  }

  lemma RootGoneKeepsForest(t: Image, root: Frame)
    requires Weak(t) && Key(root, []) in t.at && (forall k :: k in t.at && k.root == root ==> k == Key(root, []))
    ensures Weak(RootGone(t, root))
    ensures forall k :: k in t.at && k.root != root ==> t.at[k] != root
  {
    var v, k0 := RootGone(t, root), Key(root, []);
    assert Placed(t, k0);
    forall k | k in t.at && k.root != root ensures t.at[k] != root { assert Placed(t, k); }
    forall f ensures Keyed(v, f) { assert Keyed(t, f); }
    forall k | k in v.at ensures Placed(v, k) {
      assert Placed(t, k);
      if k.path != [] { assert Placed(t, Parent(k)); }
    }
    forall k | k in v.at && Placed(v, k) ensures CountAgrees(v, k) { assert Placed(t, k) && CountAgrees(t, k); }
    forall k, i | k in v.at && Placed(v, k) && 0 <= i < Limit(k) ensures SlotAgrees(v, k, i) {
      assert Placed(t, k) && SlotAgrees(t, k, i);
    }
  }

  lemma RootGoneTrans(s: Image, h: Holders, t: Image, g: Holders, root: Frame, r: Frame, p: Path)
    requires Torn(s, h, t, g, Key(root, []), LOW_HALF_ENTRIES) && Weak(RootGone(t, root)) && LowPath(p)
    requires forall k :: k in t.at && k.root != root ==> t.at[k] != root
    requires forall k :: k in t.at && k.root == root ==> k == Key(root, [])
    ensures Trans(RootGone(t, root), r, p) == if r == root then None else Trans(s, r, p)
  {
    TornTrans(s, h, t, g, Key(root, []), LOW_HALF_ENTRIES, r, p);
    var leaf := Key(r, p[..3]);
    assert p[..0] == [];
    if leaf in t.at { assert Placed(t, leaf); }
  }

  lemma TornRoot(s: Image, h: Holders, t: Image, g: Holders, root: Frame)
    requires Torn(s, h, t, g, Key(root, []), LOW_HALF_ENTRIES)
    ensures Destroyed(s, h, RootGone(t, root), g, root)
    ensures Valid(s) ==> Valid(RootGone(t, root))
  {
    var v, k0 := RootGone(t, root), Key(root, []);
    RootEmpty(s, h, t, g, root);
    RootGoneKeepsForest(t, root);
    forall r, p | LowPath(p) ensures Trans(v, r, p) == if r == root then None else Trans(s, r, p) {
      RootGoneTrans(s, h, t, g, root, r, p);
    }
    forall k ensures DestroyedKey(s, v, root, k) {
      assert TornKey(s, t, k0, LOW_HALF_ENTRIES, k);
      if k in t.at { assert Placed(t, k); }
    }
    forall f ensures DestroyedFrame(s, h, v, g, root, f) { RootFrames(s, h, t, g, root, f); }
    forall f ensures ApartFrame(v, g, f) { assert ApartFrame(t, g, f); }
    forall f, x ensures DestroyedHold(s, h, g, root, f, x) {
      assert TornHold(s, h, g, k0, LOW_HALF_ENTRIES, f, x);
      if x.Page? && LowPath(x.path) { assert x.path[..0] == []; }
    }
    if Valid(s) { RootGoneOccupied(s, h, t, g, root); }
  }

  lemma RootFrames(s: Image, h: Holders, t: Image, g: Holders, root: Frame, f: Frame)
    requires Torn(s, h, t, g, Key(root, []), LOW_HALF_ENTRIES)
    ensures DestroyedFrame(s, h, RootGone(t, root), g, root, f)
  {
    var k0 := Key(root, []);
    assert TornFrame(s, h, t, g, k0, LOW_HALF_ENTRIES, f) && Keyed(s, f);
    assert Placed(s, k0);
    if f in s.keyOf {
      var q := s.keyOf[f].path;
      assert Placed(s, s.keyOf[f]) && q[..0] == [];
      if q == [] { assert s.keyOf[f] == Key(s.keyOf[f].root, []); }
    }
  }

  /** A root whose low half has been cleared leaves no table empty but itself. */
  lemma TornOccupied(s: Image, h: Holders, t: Image, g: Holders, root: Frame)
    requires Torn(s, h, t, g, Key(root, []), LOW_HALF_ENTRIES) && Valid(s)
    requires forall k :: k in t.at && k.root == root ==> k == Key(root, [])
    ensures Valid(t)
  {
    forall k | k in t.at && Placed(t, k) ensures Occupied(t, k) {
      assert TornKey(s, t, Key(root, []), LOW_HALF_ENTRIES, k);
      assert Placed(s, k) && Occupied(s, k) && CountAgrees(s, k) && CountAgrees(t, k);
    }
  }

  lemma RootGoneOccupied(s: Image, h: Holders, t: Image, g: Holders, root: Frame)
    requires Torn(s, h, t, g, Key(root, []), LOW_HALF_ENTRIES) && Valid(s) && Weak(RootGone(t, root))
    requires forall k :: k in t.at && k.root == root ==> k == Key(root, [])
    ensures Valid(RootGone(t, root))
  {
    var v, k0 := RootGone(t, root), Key(root, []);
    forall k | k in v.at && Placed(v, k) ensures Occupied(v, k) {
      assert TornKey(s, t, k0, LOW_HALF_ENTRIES, k);
      assert Placed(s, k) && Occupied(s, k) && CountAgrees(s, k) && Placed(t, k) && CountAgrees(t, k);
    }
  }
}

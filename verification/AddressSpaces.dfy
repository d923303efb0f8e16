/**
 User address spaces: mapping, unmapping and remapping one page in a root, with
 the roll back of a failed mapping and the reclaim of emptied tables.
 */
module AddressSpaces {
  import opened Common
  import opened Paging
  import opened PageTree
  import opened PageTableMetadata

  /** A descriptor published by the mapping in progress. */
  datatype Change = Change(parent: Frame, index: nat, child: Frame)

  /** Two forests with the same translations, page by page and root by root. */
  ghost predicate SameTranslations(s: Image, t: Image) {
    Weak(s) && Weak(t) && forall root, p {:trigger Trans(t, root, p)} | LowPath(p) ::
      Trans(t, root, p) == Trans(s, root, p)
  }

  /** `t` translates every page as `s` does, except `p` in `root`. */
  ghost predicate Updates(s: Image, t: Image, root: Frame, p: Path, value: Option<Entry>) {
    && Weak(s) && Weak(t) && LowPath(p)
    && forall r, q {:trigger Trans(t, r, q)} | LowPath(q) ::
         Trans(t, r, q) == if r == root && q == p then value else Trans(s, r, q)
  }

  /** Page tables that belong to no user root keep their contents, and user
      roots stay user roots. */
  ghost predicate ForeignKept(s: Image, t: Image) {
    && (forall f | f in s.tables && f !in s.keyOf :: f in t.tables && t.tables[f] == s.tables[f] && f !in t.keyOf)
    && (forall root {:trigger Key(root, [])} :: Key(root, []) in s.at ==> Key(root, []) in t.at)
  }

  /** The frames under this module's control: free, or in use as page tables. */
  ghost function Pool(s: Image): set<Frame> { s.free + s.tables.Keys }

  /** Tables stay where they were, and those that are new lie in `frames`. */
  ghost predicate Grown(before: map<Key, Frame>, after: map<Key, Frame>, frames: set<Frame>) {
    forall k :: k in after ==> after[k] in frames || (k in before && after[k] == before[k])
  }

  /** Every table but the one at `k` is occupied. */
  ghost predicate OccupiedBut(s: Image, k: Key) {
    Weak(s) && forall k' {:trigger Occupied(s, k')} :: k' in s.at && Placed(s, k') && k' != k ==> Occupied(s, k')
  }

  ghost predicate UserBitAdded(s: Image, f: Frame, before: Entry, after: Entry) {
    f in s.keyOf && |s.keyOf[f].path| < 3 && Present(before) && after == Entry(before.frame, TableAttr(true))
  }

  /** Nothing differs but user bits added to descriptors of lower tables. */
  ghost predicate UserBitsOnly(s: Image, t: Image) {
    && t.meta == s.meta && t.free == s.free && t.at == s.at && t.keyOf == s.keyOf && t.reclaimed == s.reclaimed
    && t.tables.Keys == s.tables.Keys
    && forall f | f in s.tables :: && |t.tables[f]| == |s.tables[f]|
                                   && forall i | 0 <= i < |s.tables[f]| ::
                                        t.tables[f][i] == s.tables[f][i]
                                          || UserBitAdded(s, f, s.tables[f][i], t.tables[f][i])
  }

  ghost predicate LinkedBy(s: Image, c: Change, t: Image) {
    && c.parent in s.keyOf && Linkable(s, s.keyOf[c.parent], c.index, c.child)
    && exists user :: t == Link(s, s.keyOf[c.parent], c.index, c.child, user)
  }

  /** `hist` leads from a base image to the current one, one link per change. */
  ghost predicate Trail(hist: seq<Image>, changes: seq<Change>) {
    |hist| == |changes| + 1 && forall j {:trigger Hop(hist, changes, j)} | 0 <= j < |changes| :: Hop(hist, changes, j)
  }

  ghost predicate Hop(hist: seq<Image>, changes: seq<Change>, j: nat)
    requires |hist| == |changes| + 1 && j < |changes|
  {
    LinkedBy(hist[j], changes[j], hist[j + 1])
  }

  lemma GrantUser(s: Image, k: Key, i: nat)
    requires Weak(s) && k in s.at && Placed(s, k) && |k.path| < 3 && i < Limit(k) && Present(s.tables[s.at[k]][i])
    ensures var t := SetSlot(s, k, i, Entry(s.tables[s.at[k]][i].frame, TableAttr(true)), 0);
            && SameTranslations(s, t) && UserBitsOnly(s, t)
            && (Valid(s) ==> Valid(t))
  {
    var e := Entry(s.tables[s.at[k]][i].frame, TableAttr(true));
    var t := SetSlot(s, k, i, e, 0);
    SetSlotKeepsForest(s, k, i, e);
    assert t.meta == s.meta;
    forall root, p | LowPath(p) ensures Trans(t, root, p) == Trans(s, root, p) {
      SetSlotTranslation(s, k, i, e, root, p);
    }
    if Valid(s) {
      forall k' | k' in t.at && Placed(t, k') ensures Occupied(t, k') { assert Placed(s, k') && Occupied(s, k'); }
    }
  }

  lemma PutBack(free: set<Frame>, page: Frame)
    requires page in free
    ensures free - {page} + {page} == free
  {
  }

  lemma DropAdded<V>(m: map<Frame, V>, page: Frame, v: V)
    requires page !in m
    ensures m[page := v] - {page} == m
  {
  }

  lemma RestoreAdded<V>(m: map<Frame, V>, page: Frame, v: V, f: Frame, w: V)
    requires page !in m && f in m
    ensures m[page := v][f := w][f := m[f]] - {page} == m
  {
  }

  lemma DropCommutes<V>(m: map<Frame, V>, page: Frame, f: Frame, w: V)
    requires f != page
    ensures m[f := w] - {page} == (m - {page})[f := w]
  {
  }

  lemma NextKey(root: Frame, p: Path, d: nat)
    requires d < |p|
    ensures Child(Key(root, p[..d]), p[d]) == Key(root, p[..d + 1])
  {
  }

  lemma RecountSame(view: map<Frame, Meta>, f: Frame)
    requires f in view
    ensures view[f := Recount(view[f], view[f].count + 0)] == view
  {
  }

  lemma UserBitsCompose(s: Image, t: Image, u: Image)
    requires UserBitsOnly(s, t) && UserBitsOnly(t, u)
    ensures UserBitsOnly(s, u)
  {
    forall f | f in s.tables
      ensures |u.tables[f]| == |s.tables[f]|
      ensures forall i | 0 <= i < |s.tables[f]| ::
                u.tables[f][i] == s.tables[f][i] || UserBitAdded(s, f, s.tables[f][i], u.tables[f][i])
    {
      assert f in t.tables;
    }
  }

  lemma LinkEffects(s: Image, k: Key, i: nat, page: Frame, user: bool)
    requires Linkable(s, k, i, page)
    ensures SameTranslations(s, Link(s, k, i, page, user))
    ensures OccupiedBut(s, k) ==> OccupiedBut(Link(s, k, i, page, user), Child(k, i))
  {
    var t := Link(s, k, i, page, user);
    LinkKeepsForest(s, k, i, page, user);
    forall root, p | LowPath(p) ensures Trans(t, root, p) == Trans(s, root, p) {
      LinkKeepsTranslation(s, k, i, page, user, root, p);
    }
    if OccupiedBut(s, k) {
      forall k' | k' in t.at && Placed(t, k') && k' != Child(k, i) ensures Occupied(t, k') {
        assert Placed(s, k') && (k' != k ==> Occupied(s, k'));
      }
    }
  }

  /** A table with a present entry is occupied. */
  lemma PresentOccupies(s: Image, k: Key, i: nat)
    requires OccupiedBut(s, k) && k in s.at && Placed(s, k) && i < Limit(k) && Present(s.tables[s.at[k]][i])
    ensures Valid(s)
  {
    assert CountAgrees(s, k);
    CountZero(s.tables[s.at[k]], Limit(k));
  }

  /** What making sure of one level does to the forest: the descriptor was
      there and may have gained the user bit, or a fresh table was linked. */
  ghost predicate Descends(s: Image, t: Image, k: Key, i: nat, user: bool, added: seq<Change>) {
    && Weak(s) && k in s.at && Placed(s, k) && |k.path| < 3 && i < Limit(k)
    && var e := s.tables[s.at[k]][i];
       if Present(e) then
         added == [] && (t == s || (user && t == SetSlot(s, k, i, Entry(e.frame, TableAttr(true)), 0)))
       else
         && |added| == 1 && added[0] == Change(s.at[k], i, added[0].child)
         && Linkable(s, k, i, added[0].child) && t == Link(s, k, i, added[0].child, user)
  }

  lemma DescendKeeps(s: Image, t: Image, k: Key, i: nat, user: bool, added: seq<Change>)
    requires Descends(s, t, k, i, user, added)
    ensures SameTranslations(s, t) && ForeignKept(s, t)
    ensures OccupiedBut(s, k) ==> OccupiedBut(t, Child(k, i))
    ensures added == [] ==> UserBitsOnly(s, t) && (OccupiedBut(s, k) ==> Valid(t))
    ensures added != [] ==> LinkedBy(s, added[0], t)
    ensures Child(k, i) in t.at && Placed(t, Child(k, i)) && t.at[k] == s.at[k] && t.at[k] in t.tables
    ensures i < |t.tables[t.at[k]]| && t.at[Child(k, i)] == t.tables[t.at[k]][i].frame
    ensures added != [] ==> t.at[Child(k, i)] == added[0].child
  {
    assert SlotAgrees(s, k, i);
    if added == [] {
      if t != s { GrantUser(s, k, i); }
      if OccupiedBut(s, k) {
        PresentOccupies(s, k, i);
      }
    } else {
      LinkEffects(s, k, i, added[0].child, user);
    }
    assert Placed(t, Child(k, i));
  }

  /** The state of a mapping that has come `d` levels down: `hist` records how
      to get back to `hist[0]`, which differs from `s0` in user bits only. */
  ghost predicate Descending(s0: Image, cur: Image, k: Key, changes: seq<Change>, hist: seq<Image>) {
    && SameTranslations(s0, cur) && ForeignKept(s0, cur) && OccupiedBut(cur, k) && k in cur.at && Placed(cur, k)
    && Trail(hist, changes) && hist[|changes|] == cur
    && RolledBack(s0, hist[0])
    && (changes != [] ==> cur.tables[cur.at[k]] == EmptyTable())
  }

  /** What a failed mapping leaves behind. */
  ghost predicate RolledBack(s: Image, t: Image) {
    UserBitsOnly(s, t) && Valid(t) && SameTranslations(s, t)
  }

  /** The way down to an existing leaf table is there already. */
  lemma LeadsDown(s: Image, root: Frame, p: Path, d: nat)
    requires Weak(s) && LowPath(p) && d < 3 && Key(root, p[..d]) in s.at && Placed(s, Key(root, p[..d]))
    ensures Key(root, p[..3]) in s.at ==> Present(s.tables[s.at[Key(root, p[..d])]][p[d]])
  {
    if Key(root, p[..3]) in s.at {
      Prefixes(s, Key(root, p[..3]), d);
      assert p[..3][..d] == p[..d] && p[..3][d] == p[d];
    }
  }

  /** New tables come out of the free frames. */
  lemma {:induction false} TrailPool(hist: seq<Image>, changes: seq<Change>)
    requires Trail(hist, changes)
    ensures Pool(hist[|changes|]) == Pool(hist[0])
  {
    var n := |changes|;
    if n > 0 {
      assert Hop(hist, changes, n - 1);
      TrailUpTo(hist, changes, n - 1);
      TrailPool(hist[..n], changes[..n - 1]);
    }
  }

  lemma TrailUpTo(hist: seq<Image>, changes: seq<Change>, n: nat)
    requires Trail(hist, changes) && n <= |changes|
    ensures Trail(hist[..n + 1], changes[..n])
  {
    forall j {:trigger Hop(hist[..n + 1], changes[..n], j)} | 0 <= j < n ensures Hop(hist[..n + 1], changes[..n], j) {
      assert Hop(hist, changes, j);
    }
  }

  lemma DescendStep(s0: Image, cur: Image, k: Key, i: nat, user: bool, changes: seq<Change>, hist: seq<Image>,
                    t: Image, added: seq<Change>) returns (hist': seq<Image>)
    requires Descending(s0, cur, k, changes, hist) && Descends(cur, t, k, i, user, added)
    ensures changes != [] ==> added != []
    ensures Descending(s0, t, Child(k, i), changes + added, hist')
    ensures t.at[k] in t.tables && i < |t.tables[t.at[k]]| && t.at[Child(k, i)] == t.tables[t.at[k]][i].frame
  {
    DescendKeeps(cur, t, k, i, user, added);
    if added == [] {
      hist' := [t];
      UserBitsCompose(s0, cur, t);
      assert changes + added == [];
    } else {
      hist' := hist + [t];
      forall j | 0 <= j < |changes + added| ensures Hop(hist', changes + added, j) {
        if j < |changes| { assert Hop(hist, changes, j); }
      }
    }
  }

  ghost function Undone(t: Image, c: Change, k: Key): Image
    requires HasSlot(t, k, c.index) && t.at[k] == c.parent && t.meta[c.parent].count > 0
  {
    Image((t.tables - {c.child})[c.parent := t.tables[c.parent][c.index := ZERO]],
          (t.meta - {c.child})[c.parent := Recount(t.meta[c.parent], t.meta[c.parent].count - 1)],
          t.free + {c.child}, t.at - {Child(k, c.index)}, t.keyOf - {c.child}, t.reclaimed)
  }

  lemma WriteLeaf(s: Image, k: Key, i: nat, e: Entry)
    requires Weak(s) && Leaf(s, k) && i < ENTRIES && (Present(e) || e == ZERO)
    ensures var delta := Delta(s.tables[s.at[k]][i], e);
            && s.meta[s.at[k]].count + delta >= 0
            && var t := SetSlot(s, k, i, e, delta);
            && LowPath(k.path + [i])
            && Updates(s, t, k.root, k.path + [i], if Present(e) then Some(e) else None) && ForeignKept(s, t)
            && (OccupiedBut(s, k) ==> if Present(e) then Valid(t) else OccupiedBut(t, k))
  {
    SetSlotKeepsForest(s, k, i, e);
    var t := SetSlot(s, k, i, e, Delta(s.tables[s.at[k]][i], e));
    forall root, p | LowPath(p)
      ensures Trans(t, root, p) == if root == k.root && p == k.path + [i]
                                   then (if Present(e) then Some(e) else None) else Trans(s, root, p)
    {
      SetSlotTranslation(s, k, i, e, root, p);
    }
    if OccupiedBut(s, k) {
      forall k' | k' in t.at && Placed(t, k') && k' != k ensures Occupied(t, k') {
        assert Placed(s, k') && Occupied(s, k');
      }
      if Present(e) { PresentOccupies(t, k, i); }
    }
  }

  lemma UndoStep(s: Image, c: Change, t: Image) returns (k: Key)
    requires LinkedBy(s, c, t)
    ensures HasSlot(t, k, c.index) && t.at[k] == c.parent && t.meta[c.parent].count > 0
    ensures c.parent != c.child && c.child !in t.free
    ensures Undone(t, c, k) == s
  {
    var user :| t == Link(s, s.keyOf[c.parent], c.index, c.child, user);
    k := s.keyOf[c.parent];
    InForest(s, c.parent);
    assert Keyed(s, c.parent);
    UnlinkUndoesLink(s, k, c.index, c.child, user);
  }

  /** Writing the leaf at the end of the way down adds that one translation. */
  lemma MapEffects(s0: Image, cur: Image, root: Frame, p: Path, e: Entry, changes: seq<Change>, hist: seq<Image>)
    requires LowPath(p) && Descending(s0, cur, Key(root, p[..3]), changes, hist) && Present(e)
    requires !Present(cur.tables[cur.at[Key(root, p[..3])]][p[3]])
    ensures var t := SetSlot(cur, Key(root, p[..3]), p[3], e, 1);
            Valid(t) && ForeignKept(s0, t) && Trans(s0, root, p).None? && Updates(s0, t, root, p, Some(e))
  {
    var k := Key(root, p[..3]);
    WriteLeaf(cur, k, p[3], e);
    assert p == p[..3] + [p[3]];
    assert Trans(cur, root, p).None?;
    var t := SetSlot(cur, k, p[3], e, 1);
    forall r, q | LowPath(q) ensures Trans(t, r, q) == if r == root && q == p then Some(e) else Trans(s0, r, q) {
      assert Trans(cur, r, q) == Trans(s0, r, q);
    }
  }

  lemma UnlinkEffects(s: Image, k: Key, i: nat, leak: bool)
    requires Unlinkable(s, k, i) && OccupiedBut(s, Child(k, i)) && (leak <==> k.path == [])
    ensures s.meta[s.at[k]].count > 0 && s.at[k] != s.at[Child(k, i)]
    ensures var t := Unlink(s, k, i, leak);
            && SameTranslations(s, t) && ForeignKept(s, t) && OccupiedBut(t, k) && k in t.at && Placed(t, k)
            && Pool(t) == Pool(s) && Grown(s.at, t.at, {})
  {
    UnlinkKeepsForest(s, k, i, leak);
    UnlinkCountPositive(s, k, i);
    var t := Unlink(s, k, i, leak);
    forall root, p | LowPath(p) ensures Trans(t, root, p) == Trans(s, root, p) {
      UnlinkKeepsTranslation(s, k, i, leak, root, p);
    }
    forall k' | k' in t.at && Placed(t, k') && k' != k ensures Occupied(t, k') {
      assert Placed(s, k') && Occupied(s, k');
    }
    assert Placed(s, k) && Placed(t, k);
  }

  /** Reclaiming changes no translation; it adds to the root's leak count at
      most once, when it frees a PDPT. */
  ghost predicate Reclaims(s: Image, t: Image, pdpt: Key) {
    && SameTranslations(s, t) && ForeignKept(s, t) && pdpt.root in s.reclaimed
    && Pool(t) == Pool(s) && Grown(s.at, t.at, {})
    && t.reclaimed == if pdpt in t.at then s.reclaimed else s.reclaimed[pdpt.root := s.reclaimed[pdpt.root] + 1]
  }

  lemma ReclaimsFurther(s: Image, t: Image, u: Image, pdpt: Key)
    requires SameTranslations(s, t) && ForeignKept(s, t) && t.reclaimed == s.reclaimed && Reclaims(t, u, pdpt)
    requires Pool(t) == Pool(s) && Grown(s.at, t.at, {})
    ensures Reclaims(s, u, pdpt)
  {
    forall root, p | LowPath(p) ensures Trans(u, root, p) == Trans(s, root, p) {
      assert Trans(t, root, p) == Trans(s, root, p);
    }
  }

  /** A table that is not empty leaves nothing to reclaim above it. */
  lemma NothingToReclaim(s: Image, k: Key)
    requires OccupiedBut(s, k) && k in s.at && s.at[k] in s.meta && (k.path == [] || s.meta[s.at[k]].count != 0)
    ensures Valid(s)
  {
  }

  /** `way` lists the tables on the way to `p`, down to level `n`. */
  ghost predicate IsWay(s: Image, root: Frame, p: Path, way: seq<Frame>, n: nat) {
    n <= 3 && |p| == 4 && |way| == 4 && forall d | 0 <= d <= n ::
      Key(root, p[..d]) in s.at && way[d] == s.at[Key(root, p[..d])]
  }

  lemma ReclaimStep(s: Image, root: Frame, p: Path, way: seq<Frame>, n: nat)
    requires LowPath(p) && 1 <= n && IsWay(s, root, p, way, n)
    requires OccupiedBut(s, Key(root, p[..n])) && way[n] in s.meta && s.meta[way[n]].count == 0
    ensures var k := Key(root, p[..n - 1]);
            && Unlinkable(s, k, p[n - 1]) && Child(k, p[n - 1]) == Key(root, p[..n])
            && s.meta[way[n - 1]].count > 0 && way[n - 1] != way[n]
            && var t := Unlink(s, k, p[n - 1], n == 1);
            && OccupiedBut(t, k) && IsWay(t, root, p, way, n - 1)
            && (n == 1 ==> Valid(t) && Reclaims(s, t, Key(root, p[..1])))
            && (n > 1 ==> SameTranslations(s, t) && ForeignKept(s, t) && t.reclaimed == s.reclaimed)
            && Pool(t) == Pool(s) && Grown(s.at, t.at, {})
  {
    var k := Key(root, p[..n - 1]);
    NextKey(root, p, n - 1);
    assert Key(root, p[..n]) in s.at && k in s.at;
    assert Placed(s, Key(root, p[..n])) && Placed(s, k);
    UnlinkEffects(s, k, p[n - 1], n == 1);
    var t := Unlink(s, k, p[n - 1], n == 1);
    if n == 1 { NothingToReclaim(t, k); }
  }

  lemma ClearEffects(s: Image, root: Frame, p: Path, way: seq<Frame>)
    requires Valid(s) && LowPath(p) && IsWay(s, root, p, way, 3)
    requires Trans(s, root, p).Some?
    ensures var k := Key(root, p[..3]);
            && HasSlot(s, k, p[3]) && Leaf(s, k) && s.meta[way[3]].count > 0
            && var t := SetSlot(s, k, p[3], ZERO, -1);
            && Updates(s, t, root, p, None) && OccupiedBut(t, k) && ForeignKept(s, t)
            && IsWay(t, root, p, way, 3)
  {
    var k := Key(root, p[..3]);
    assert k in s.at && Placed(s, k);
    assert p == p[..3] + [p[3]];
    WriteLeaf(s, k, p[3], ZERO);
  }

  lemma UnmapCompose(s: Image, t: Image, u: Image, root: Frame, p: Path, pdpt: Key)
    requires Updates(s, t, root, p, None) && ForeignKept(s, t) && Reclaims(t, u, pdpt)
    ensures Updates(s, u, root, p, None) && ForeignKept(s, u)
    ensures s.at == t.at && Pool(s) == Pool(t) ==> Pool(u) == Pool(s) && Grown(s.at, u.at, {})
  {
    forall r, q | LowPath(q) ensures Trans(u, r, q) == if r == root && q == p then None else Trans(s, r, q) {
      assert Trans(t, r, q) == if r == root && q == p then None else Trans(s, r, q);
    }
  }

  lemma RemapEffects(s: Image, root: Frame, p: Path, way: seq<Frame>, e: Entry)
    requires Valid(s) && LowPath(p) && IsWay(s, root, p, way, 3) && Present(e)
    requires Trans(s, root, p).Some?
    ensures var k := Key(root, p[..3]);
            && HasSlot(s, k, p[3])
            && var t := SetSlot(s, k, p[3], e, 0);
            && t.meta == s.meta && Updates(s, t, root, p, Some(e)) && Valid(t) && ForeignKept(s, t)
  {
    var k := Key(root, p[..3]);
    assert k in s.at && Placed(s, k);
    assert p == p[..3] + [p[3]];
    RecountSame(s.meta, way[3]);
    WriteLeaf(s, k, p[3], e);
  }

  /** A root table with nothing in its low half. */
  function RootTable(kernelHalf: seq<Entry>): (t: Table)
    ensures |t| == LOW_HALF_ENTRIES + |kernelHalf| && t[LOW_HALF_ENTRIES..] == kernelHalf
    ensures forall i :: 0 <= i < LOW_HALF_ENTRIES ==> t[i] == ZERO
  {
    seq(LOW_HALF_ENTRIES, _ => ZERO) + kernelHalf
  }

  ghost function Derived(s: Image, root: Frame, t: Table): Image {
    Image(s.tables[root := t], s.meta[root := Meta(UserAddressSpace, 4, root, 0)], s.free - {root},
          s.at[Key(root, []) := root], s.keyOf[root := Key(root, [])], s.reclaimed[root := 0])
  }

  /** A frame that is free belongs to no tree, so no key mentions it as root. */
  lemma FreshRoot(s: Image, root: Frame)
    requires Weak(s) && root in s.free
    ensures root !in s.keyOf && forall k :: k in s.at ==> k.root != root && s.at[k] != root
  {
    if root in s.keyOf { InForest(s, root); }
    forall k | k in s.at ensures k.root != root && s.at[k] != root {
      assert Placed(s, k);
      Prefixes(s, k, 0);
      assert k.path[..0] == [];
      assert Placed(s, Key(k.root, []));
    }
  }

  lemma DerivePlaces(s: Image, root: Frame, t: Table, k: Key)
    requires Weak(s) && root in s.free && root !in s.meta && |t| == ENTRIES && root !in s.keyOf
    requires k in Derived(s, root, t).at && (k != Key(root, []) ==> k.root != root && s.at[k] != root)
    requires k in s.at && k.path != [] && Parent(k) in s.at ==> s.at[Parent(k)] != root
    ensures Placed(Derived(s, root, t), k)
  {
    if k != Key(root, []) { assert Placed(s, k); }
  }

  lemma DeriveForest(s: Image, root: Frame, t: Table)
    requires Weak(s) && root in s.free && root !in s.meta && |t| == ENTRIES
    requires forall i :: 0 <= i < LOW_HALF_ENTRIES ==> t[i] == ZERO
    ensures Weak(Derived(s, root, t))
  {
    var u, k0 := Derived(s, root, t), Key(root, []);
    FreshRoot(s, root);
    CountZero(t, LOW_HALF_ENTRIES);
    forall f ensures Keyed(u, f) { assert Keyed(s, f); }
    forall k | k in u.at ensures Placed(u, k) { DerivePlaces(s, root, t, k); }
    forall k | k in u.at && Placed(u, k) ensures CountAgrees(u, k) {
      if k != k0 { DeriveAgrees(s, root, t, k, 0); }
    }
    forall k, i | k in u.at && Placed(u, k) && 0 <= i < Limit(k) ensures SlotAgrees(u, k, i) {
      if k != k0 { DeriveAgrees(s, root, t, k, i); }
    }
  }

  lemma DeriveAgrees(s: Image, root: Frame, t: Table, k: Key, i: nat)
    requires Weak(s) && k in s.at && k.root != root && s.at[k] != root && i < Limit(k) && Placed(Derived(s, root, t), k)
    ensures CountAgrees(Derived(s, root, t), k) && SlotAgrees(Derived(s, root, t), k, i)
  {
    assert Placed(s, k) && CountAgrees(s, k) && SlotAgrees(s, k, i);
  }

  lemma DeriveEffects(s: Image, root: Frame, t: Table)
    requires Valid(s) && root in s.free && root !in s.meta && |t| == ENTRIES
    requires forall i :: 0 <= i < LOW_HALF_ENTRIES ==> t[i] == ZERO
    ensures Valid(Derived(s, root, t)) && SameTranslations(s, Derived(s, root, t))
            && ForeignKept(s, Derived(s, root, t))
    ensures Pool(Derived(s, root, t)) == Pool(s)
  {
    var u := Derived(s, root, t);
    DeriveForest(s, root, t);
    FreshRoot(s, root);
    forall k | k in u.at && Placed(u, k) ensures Occupied(u, k) {
      if k != Key(root, []) { assert Placed(s, k) && Occupied(s, k); }
    }
    forall r, p | LowPath(p) ensures Trans(u, r, p) == Trans(s, r, p) {
      var leaf := Key(r, p[..3]);
      if leaf in s.at { assert Placed(s, leaf); }
    }
  }

  class PageTables {
    /** Frames reachable through the kernel's direct map. */
    const direct: set<Frame>
    const meta: MetadataTable
    var tables: map<Frame, Table>
    var free: set<Frame>
    ghost var at: map<Key, Frame>
    ghost var keyOf: map<Frame, Key>
    ghost var reclaimed: map<Frame, nat>

    ghost function Img(): Image
      reads this, meta
    {
      Image(tables, meta.view, free, at, keyOf, reclaimed)
    }

    /** `user` tables registered under `root`. */
    ghost predicate UserRoot(root: Frame)
      reads this
    {
      Key(root, []) in at
    }

    ghost predicate Ok()
      reads this, meta, meta.slots
    {
      meta.Valid() && Valid(Img())
    }

    /** Every table can be read through the direct map. */
    ghost predicate Readable()
      reads this
    {
      forall k :: k in at ==> at[k] in direct
    }

    constructor (direct: set<Frame>, free: set<Frame>)
      requires 0 !in free
      ensures Ok() && Readable() && tables == map[] && this.free == free && at == map[] && this.direct == direct
      ensures reclaimed == map[]
      ensures fresh(meta) && fresh(meta.slots)
    {
      this.direct := direct;
      meta := new MetadataTable();
      tables := map[];
      this.free := free;
      at, keyOf, reclaimed := map[], map[], map[];
    }

    /** Slot `i` of the table at `k` is absent and the table's count is saturated. */
    ghost predicate Exhausted(k: Key, i: nat)
      reads this, meta
    {
      k in at && at[k] in tables && at[k] in meta.view && i < |tables[at[k]]|
      && !Present(tables[at[k]][i]) && meta.view[at[k]].count == ENTRIES
    }

    /** The physical allocator: any free frame, or failure. */
    method AllocFrame() returns (page: Frame)
      requires 0 !in free
      modifies this`free
      ensures page != 0 ==> page in old(free) && free == old(free) - {page}
      ensures page == 0 ==> free == old(free)
    {
      if free == {} { return 0; }
      if * { return 0; }
      page :| page in free;
      free := free - {page};
    }

    /** Returning a table frame forgets its contents. */
    method FreeTable(page: Frame)
      requires page !in free
      modifies this`free, this`tables
      ensures free == old(free) + {page} && tables == old(tables) - {page}
    {
      free := free + {page};
      tables := tables - {page};
    }

    /** A zeroed, registered table frame, or 0 with nothing changed. */
    method NewTable(root: Frame, level: nat) returns (page: Frame)
      requires meta.Valid() && 0 !in free && tables.Keys !! free
      modifies this`tables, this`free, meta, meta.slots
      ensures meta.Valid()
      ensures page == 0 ==> tables == old(tables) && free == old(free) && meta.view == old(meta.view)
      ensures page != 0 ==>
                && page in direct && page in old(free) && page !in old(meta.view)
                && tables == old(tables)[page := EmptyTable()] && free == old(free) - {page}
                && meta.view == old(meta.view)[page := Meta(UserAddressSpace, level, root, 0)]
    {
      page := AllocFrame();
      if page == 0 { return 0; }
      PutBack(old(free), page);
      DropAdded(old(tables), page, EmptyTable());
      if page !in direct {
        free := free + {page};
        return 0;
      }
      tables := tables[page := EmptyTable()];
      var registered := meta.Register(root, page, UserAddressSpace, level);
      if !registered {
        FreeTable(page);
        return 0;
      }
    }

    method GrantUserBit(entry: Frame, index: nat)
      requires entry in tables && index < |tables[entry]|
      modifies this`tables
      ensures var e := old(tables)[entry][index];
              tables == old(tables)[entry := old(tables)[entry][index := Entry(e.frame, e.attr.(user := true))]]
    {
      var e := tables[entry][index];
      tables := tables[entry := tables[entry][index := Entry(e.frame, e.attr.(user := true))]];
    }

    /** A new table is published in the absent slot `index` of `entry`, or nothing changes. */
    method PublishTable(entry: Frame, index: nat, user: bool, root: Frame, level: nat) returns (page: Frame)
      requires meta.Valid() && 0 !in free && tables.Keys !! free && entry in meta.view
      requires entry in tables && index < |tables[entry]| && tables[entry][index] == ZERO
      modifies this`tables, this`free, meta, meta.slots
      ensures meta.Valid()
      ensures page == 0 ==> tables == old(tables) && free == old(free) && meta.view == old(meta.view)
      ensures old(meta.view)[entry].count == ENTRIES ==> page == 0
      ensures page != 0 ==>
                && page in direct && page in old(free) && page !in old(meta.view)
                && free == old(free) - {page}
                && tables == old(tables)[page := EmptyTable()]
                                        [entry := old(tables)[entry][index := Entry(page, TableAttr(user))]]
                && meta.view == old(meta.view)[page := Meta(UserAddressSpace, level, root, 0)]
                                              [entry := Recount(old(meta.view)[entry], old(meta.view)[entry].count + 1)]
    {
      page := NewTable(root, level);
      if page != 0 {
        tables := tables[entry := tables[entry][index := Entry(page, TableAttr(user))]];
        var counted := meta.Increment(entry);
        if !counted {
          UndoPublish(entry, index, page, old(tables), old(meta.view), old(free), tables[entry][index],
              meta.view[page]);
          page := 0;
        }
      }
    }

    method UndoPublish(entry: Frame, index: nat, page: Frame, ghost t: map<Frame, Table>, ghost v: map<Frame, Meta>,
                       ghost f: set<Frame>,
                       ghost e: Entry, ghost r: Meta)
      requires meta.Valid() && page in f && page !in t && page !in v && entry in t && index < |t[entry]|
               && t[entry][index] == ZERO
      requires tables == t[page := EmptyTable()][entry := t[entry][index := e]]
      requires free == f - {page} && meta.view == v[page := r]
      modifies this`tables, this`free, meta, meta.slots
      ensures meta.Valid() && tables == t && free == f && meta.view == v
    {
      assert t[entry][index := e][index := ZERO] == t[entry];
      RestoreAdded(t, page, EmptyTable(), entry, t[entry][index := e]);
      DropAdded(v, page, r);
      PutBack(f, page);
      tables := tables[entry := tables[entry][index := ZERO]];
      meta.Unregister(page);
      FreeTable(page);
    }

    /** Make sure slot `index` of the table in frame `entry` leads to a lower table. */
    method EnsureOwned(entry: Frame, index: nat, user: bool, root: Frame, level: nat, ghost k: Key,
                       changes: seq<Change>)
      returns (ok: bool, changes': seq<Change>)
      requires meta.Valid() && 0 !in free && tables.Keys !! free
      requires HasSlot(Img(), k, index) && |k.path| < 3
               && (Present(tables[at[k]][index]) || tables[at[k]][index] == ZERO)
      requires entry == at[k] && root == k.root && level == 3 - |k.path|
      requires Present(tables[at[k]][index]) ==> tables[at[k]][index].attr == TableAttr(tables[at[k]][index].attr.user)
      modifies this`tables, this`free, this`at, this`keyOf, meta, meta.slots
      ensures meta.Valid()
      ensures old(Present(tables[entry][index])) ==>
                && ok && changes' == changes
                && (user && !old(tables)[entry][index].attr.user ==>
                      Img() == SetSlot(old(Img()), k, index, Entry(old(tables)[entry][index].frame, TableAttr(true)),
                          0))
                && (!user || old(tables)[entry][index].attr.user ==> Img() == old(Img()))
      ensures !old(Present(tables[entry][index])) && ok ==>
                && |changes'| == |changes| + 1
                && var page := changes'[|changes|].child;
                && changes' == changes + [Change(entry, index, page)]
                && page in direct && page in old(free) && page !in old(meta.view)
                && Img() == Link(old(Img()), k, index, page, user)
      ensures !ok ==> changes' == changes && Img() == old(Img())
      ensures !old(Present(tables[entry][index])) && old(meta.view)[entry].count == ENTRIES ==> !ok
    {
      ok, changes' := true, changes;
      if Present(tables[entry][index]) {
        if user && !tables[entry][index].attr.user {
          GrantUserBit(entry, index);
          RecountSame(meta.view, entry);
        }
      } else {
        var page := PublishTable(entry, index, user, root, level);
        if page == 0 {
          ok := false;
        } else {
          at := at[Child(k, index) := page];
          keyOf := keyOf[page := Child(k, index)];
          changes' := changes + [Change(entry, index, page)];
        }
      }
    }

    /** Clear a descriptor, give up its count, and forget and free the table it led to. */
    method RemoveTable(parent: Frame, index: nat, child: Frame)
      requires meta.Valid() && parent in tables && index < |tables[parent]| && parent != child && child !in free
      requires parent in meta.view && meta.view[parent].count > 0
      modifies this`tables, this`free, meta, meta.slots
      ensures meta.Valid() && free == old(free) + {child}
      ensures tables == (old(tables) - {child})[parent := old(tables)[parent][index := ZERO]]
      ensures meta.view == (old(meta.view) - {child})[parent := Recount(old(meta.view)[parent],
                old(meta.view)[parent].count - 1)]
    {
      DropCommutes(tables, child, parent, tables[parent][index := ZERO]);
      DropCommutes(meta.view, child, parent, Recount(meta.view[parent], meta.view[parent].count - 1));
      tables := tables[parent := tables[parent][index := ZERO]];
      var counted := meta.Decrement(parent);
      meta.Unregister(child);
      FreeTable(child);
    }

    /** Undo the changes, newest first, returning every new table. */
    method ClearOwned(changes: seq<Change>, ghost hist: seq<Image>)
      requires meta.Valid() && Trail(hist, changes) && Img() == hist[|changes|]
      modifies this`tables, this`free, this`at, this`keyOf, meta, meta.slots
      ensures meta.Valid() && Img() == hist[0]
    {
      var n := |changes|;
      while n > 0
        invariant 0 <= n <= |changes| && meta.Valid() && Img() == hist[n]
      {
        n := n - 1;
        assert Hop(hist, changes, n);
        ghost var k := UndoStep(hist[n], changes[n], hist[n + 1]);
        UndoOne(changes[n], k);
      }
    }

    method UndoOne(c: Change, ghost k: Key)
      requires meta.Valid() && HasSlot(Img(), k, c.index) && at[k] == c.parent && c.parent != c.child
               && c.child !in free
      requires meta.view[c.parent].count > 0
      modifies this`tables, this`free, this`at, this`keyOf, meta, meta.slots
      ensures meta.Valid()
      ensures Img() == Undone(old(Img()), c, k)
    {
      RemoveTable(c.parent, c.index, c.child);
      at := at - {Child(k, c.index)};
      keyOf := keyOf - {c.child};
    }

    /** One level down: the slot of `entry` leads to a lower table, or all
        the changes so far are undone. */
    method DescendOne(entry: Frame, index: nat, user: bool, root: Frame, level: nat, changes: seq<Change>,
                      ghost s0: Image, ghost k: Key, ghost hist: seq<Image>)
      returns (ok: bool, next: Frame, changes': seq<Change>, ghost hist': seq<Image>)
      requires meta.Valid() && Descending(s0, Img(), k, changes, hist)
      requires |k.path| < 3 && index < Limit(k) && entry == at[k] && root == k.root && level == 3 - |k.path|
      modifies this`tables, this`free, this`at, this`keyOf, meta, meta.slots
      ensures meta.Valid()
      ensures ok ==> Descending(s0, Img(), Child(k, index), changes', hist')
      ensures ok ==>
              next == at[Child(k, index)] && (changes' != changes ==> next in direct)
                && (changes != [] ==> changes' != changes)
      ensures !ok ==> Img() == hist[0]
      ensures entry in old(tables) && index < |old(tables)[entry]| && entry in old(meta.view)
      ensures !Present(old(tables)[entry][index]) && old(meta.view)[entry].count == ENTRIES ==> !ok
      ensures Present(old(tables)[entry][index]) ==> ok && at == old(at)
      ensures ok ==> Grown(old(at), at, direct)
    {
      ghost var cur := Img();
      assert SlotAgrees(cur, k, index);
      ok, changes' := EnsureOwned(entry, index, user, root, level, k, changes);
      hist' := hist;
      next := 0;
      if !ok {
        ClearOwned(changes', hist);
      } else {
        ghost var added := changes'[|changes|..];
        hist' := DescendStep(s0, cur, k, index, user, changes, hist, Img(), added);
        next := tables[entry][index].frame;
      }
    }

    /** The rest of the way down to the leaf table of `p`, creating the tables
        that are missing; an unreachable table stops it only while nothing is new. */
    method Descend(entry: Frame, p: Path, d: nat, user: bool, root: Frame, changes: seq<Change>, ghost s0: Image,
                   ghost hist: seq<Image>)
      returns (ok: bool, leaf: Frame, changes': seq<Change>, ghost hist': seq<Image>)
      requires meta.Valid() && LowPath(p) && d <= 3 && Descending(s0, Img(), Key(root, p[..d]), changes, hist)
      requires entry == at[Key(root, p[..d])] && (changes != [] ==> entry in direct)
      modifies this`tables, this`free, this`at, this`keyOf, meta, meta.slots
      ensures meta.Valid()
      ensures ok ==> Descending(s0, Img(), Key(root, p[..3]), changes', hist') && leaf == at[Key(root, p[..3])]
      ensures !ok ==> RolledBack(s0, Img())
      ensures d < 3 && old(Exhausted(Key(root, p[..d]), p[d])) ==> !ok
      ensures old(Key(root, p[..3]) in at && PathDirect(root, p)) ==> ok && at == old(at)
      ensures ok ==> Grown(old(at), at, direct)
      decreases 3 - d
    {
      leaf, changes', hist' := entry, changes, hist;
      if entry !in direct {
        ok := false;
      } else if d == 3 {
        ok := true;
      } else {
        LeadsDown(Img(), root, p, d);
        ok, leaf, changes', hist' := DescendOne(entry, p[d], user, root, 3 - d, changes, s0, Key(root, p[..d]), hist);
        if ok {
          NextKey(root, p, d);
          ok, leaf, changes', hist' := Descend(leaf, p, d + 1, user, root, changes', s0, hist');
        }
      }
    }

    method InstallLeaf(leaf: Frame, i: nat, e: Entry, ghost k: Key)
      requires meta.Valid() && Weak(Img()) && Leaf(Img(), k) && leaf == at[k] && i < ENTRIES
      requires !Present(tables[leaf][i]) && Present(e)
      modifies this`tables, meta, meta.slots
      ensures meta.Valid() && Img() == SetSlot(old(Img()), k, i, e, 1)
    {
      assert CountAgrees(Img(), k);
      CountSkipsAbsent(tables[leaf], ENTRIES, i);
      tables := tables[leaf := tables[leaf][i := e]];
      var counted := meta.Increment(leaf);
      if !counted { assert false; }
    }

    /** Map one page.  Success adds exactly the named translation; failure
        leaves everything but user bits of descriptors as it was. */
    method MapRootPage(root: Frame, vaddr: nat, frame: Frame, attr: Attr) returns (ok: bool)
      requires Ok() && UserRoot(root) && LowPage(vaddr) && attr.present
      modifies this`tables, this`free, this`at, this`keyOf, meta, meta.slots
      ensures Ok()
      ensures ok ==> old(Trans(Img(), root, PathOf(vaddr))).None? && ForeignKept(old(Img()), Img())
      ensures ok ==> Updates(old(Img()), Img(), root, PathOf(vaddr), Some(Entry(frame, attr)))
      ensures !ok ==> RolledBack(old(Img()), Img())
      ensures old(Exhausted(Key(root, []), PathOf(vaddr)[0])) ==> !ok
      ensures old(Key(root, PathOf(vaddr)[..3]) in at && PathDirect(root, PathOf(vaddr))) ==>
                (ok <==> old(Trans(Img(), root, PathOf(vaddr))).None?)
      ensures Pool(Img()) == old(Pool(Img())) && Grown(old(at), at, direct)
    {
      PathIsBijective(vaddr, PathOf(vaddr));
      var p := PathOf(vaddr);
      ghost var s0 := Img();
      assert Placed(s0, Key(root, [])) && p[..0] == [];
      var descended, leaf, changes, hist := Descend(root, p, 0, attr.user, root, [], s0, [s0]);
      if !descended { return false; }
      ok := FillLeaf(root, p, leaf, Entry(frame, attr), changes, s0, hist);
    }

    /** Write the absent leaf slot of `p`, or undo the changes of the descent
        because the page is mapped already. */
    method FillLeaf(root: Frame, p: Path, leaf: Frame, e: Entry, changes: seq<Change>, ghost s0: Image,
                    ghost hist: seq<Image>)
      returns (ok: bool)
      requires meta.Valid() && LowPath(p) && Descending(s0, Img(), Key(root, p[..3]), changes, hist)
      requires leaf == at[Key(root, p[..3])] && Present(e)
      modifies this`tables, this`free, this`at, this`keyOf, meta, meta.slots
      ensures Ok() && (ok <==> Trans(s0, root, p).None?)
      ensures ok ==> Updates(s0, Img(), root, p, Some(e)) && ForeignKept(s0, Img()) && at == old(at)
      ensures !ok ==> RolledBack(s0, Img())
      ensures Pool(Img()) == Pool(s0)
    {
      ghost var cur := Img();
      TrailPool(hist, changes);
      assert Trans(cur, root, p) == Trans(s0, root, p);
      if Present(tables[leaf][p[3]]) {
        ClearOwned(changes, hist);
        return false;
      }
      MapEffects(s0, cur, root, p, e, changes, hist);
      InstallLeaf(leaf, p[3], e, Key(root, p[..3]));
      return true;
    }

    /** The entry point: addresses that are not page-aligned are refused. */
    method MapPageInRoot(root: Frame, vaddr: nat, phys: nat, attr: Attr) returns (ok: bool)
      requires Ok() && UserRoot(root) && vaddr < LOW_HALF_LIMIT && attr.present
      modifies this`tables, this`free, this`at, this`keyOf, meta, meta.slots
      ensures Ok()
      ensures vaddr % PAGE_SIZE != 0 || phys % PAGE_SIZE != 0 ==> !ok && Img() == old(Img())
      ensures vaddr % PAGE_SIZE == 0 && phys % PAGE_SIZE == 0 && LowPath(PathOf(vaddr))
              && old(Key(root, PathOf(vaddr)[..3]) in at && PathDirect(root, PathOf(vaddr))) ==>
                (ok <==> old(Trans(Img(), root, PathOf(vaddr))).None?)
      ensures ok ==> Updates(old(Img()), Img(), root, PathOf(vaddr), Some(Entry(phys / PAGE_SIZE, attr)))
      ensures !ok ==> RolledBack(old(Img()), Img())
    {
      if vaddr % PAGE_SIZE != 0 || phys % PAGE_SIZE != 0 { return false; }
      ok := MapRootPage(root, vaddr, phys / PAGE_SIZE, attr);
    }

    /** A fresh root: its low half is empty, its high half shared with the kernel. */
    method DeriveRoot(kernelHalf: seq<Entry>) returns (root: Frame)
      requires Ok() && |kernelHalf| == ENTRIES - LOW_HALF_ENTRIES
      modifies this`tables, this`free, this`at, this`keyOf, this`reclaimed, meta, meta.slots
      ensures Ok()
      ensures root == 0 ==> Img() == old(Img())
      ensures root != 0 ==>
                && root in old(free) && free == old(free) - {root}
                && at == old(at)[Key(root, []) := root] && reclaimed == old(reclaimed)[root := 0]
                && root in tables && tables[root] == RootTable(kernelHalf)
                && SameTranslations(old(Img()), Img()) && ForeignKept(old(Img()), Img())
                && Pool(Img()) == old(Pool(Img())) && root in direct
    {
      ghost var s := Img();
      root := NewRoot(kernelHalf);
      if root != 0 {
        at := at[Key(root, []) := root];
        keyOf := keyOf[root := Key(root, [])];
        reclaimed := reclaimed[root := 0];
        DeriveEffects(s, root, RootTable(kernelHalf));
      }
    }

    method NewRoot(kernelHalf: seq<Entry>) returns (root: Frame)
      requires meta.Valid() && 0 !in free && tables.Keys !! free
      modifies this`tables, this`free, meta, meta.slots
      ensures meta.Valid()
      ensures root == 0 ==> tables == old(tables) && free == old(free) && meta.view == old(meta.view)
      ensures root != 0 ==>
                && root in old(free) && root !in old(meta.view) && root in direct
                && tables == old(tables)[root := RootTable(kernelHalf)] && free == old(free) - {root}
                && meta.view == old(meta.view)[root := Meta(UserAddressSpace, 4, root, 0)]
    {
      root := AllocFrame();
      if root == 0 { return; }
      PutBack(old(free), root);
      if root !in direct {
        free := free + {root};
        return 0;
      }
      DropAdded(old(tables), root, RootTable(kernelHalf));
      tables := tables[root := RootTable(kernelHalf)];
      var registered := meta.Register(root, root, UserAddressSpace, 4);
      if !registered {
        FreeTable(root);
        return 0;
      }
    }

    /** Every table on the way to `p` can be read through the direct map. */
    ghost predicate PathDirect(root: Frame, p: Path)
      reads this
      requires |p| == 4
    {
      forall n | 0 <= n <= 3 && Key(root, p[..n]) in at :: at[Key(root, p[..n])] in direct
    }

    /** The frames of the tables on the way to the leaf slot of `p`, if all are there. */
    method RootPte(root: Frame, p: Path, above: seq<Frame>) returns (found: bool, way: seq<Frame>)
      requires Ok() && LowPath(p) && 1 <= |above| <= 4
      requires forall n | 0 <= n < |above| :: Key(root, p[..n]) in at && above[n] == at[Key(root, p[..n])]
      requires forall n | 0 <= n < |above| - 1 :: above[n] in direct
      ensures found <==> Key(root, p[..3]) in at && PathDirect(root, p)
      ensures found ==> IsWay(Img(), root, p, way, 3)
      decreases 4 - |above|
    {
      var d := |above| - 1;
      var f := above[d];
      way := above;
      ghost var k := Key(root, p[..d]);
      assert Placed(Img(), k) && k in at;
      if f !in direct { return false, above; }
      if d == 3 { return true, above; }
      assert SlotAgrees(Img(), k, p[d]);
      NextKey(root, p, d);
      if !Present(tables[f][p[d]]) {
        NoPathBelow(Img(), k, p);
        return false, above;
      }
      if d == 2 && tables[f][p[d]].attr.large { return false, above; }
      found, way := RootPte(root, p, above + [tables[f][p[d]].frame]);
    }

    /** The PML4 descriptor of an emptied PDPT is cleared without giving up its count. */
    method RemovePdpt(root: Frame, index: nat, child: Frame)
      requires meta.Valid() && root in tables && index < |tables[root]| && root != child && child !in free
               && root in meta.view
      modifies this`tables, this`free, meta, meta.slots
      ensures meta.Valid() && free == old(free) + {child}
      ensures tables == (old(tables) - {child})[root := old(tables)[root][index := ZERO]]
      ensures meta.view == (old(meta.view) - {child})[root := old(meta.view)[root]]
    {
      DropCommutes(tables, child, root, tables[root][index := ZERO]);
      DropCommutes(meta.view, child, root, meta.view[root]);
      assert meta.view[root := meta.view[root]] == meta.view;
      tables := tables[root := tables[root][index := ZERO]];
      meta.Unregister(child);
      FreeTable(child);
    }

    method ReclaimOne(root: Frame, parent: Frame, index: nat, child: Frame, leak: bool, ghost k: Key)
      requires meta.Valid() && HasSlot(Img(), k, index) && Child(k, index) in at && k.root == root && root in reclaimed
      requires parent == at[k] && child == at[Child(k, index)] && parent != child && child !in free
               && meta.view[parent].count > 0
      modifies this`tables, this`free, this`at, this`keyOf, this`reclaimed, meta, meta.slots
      ensures meta.Valid() && Img() == Unlink(old(Img()), k, index, leak)
    {
      if leak {
        RemovePdpt(parent, index, child);
        reclaimed := reclaimed[root := reclaimed[root] + 1];
      } else {
        RemoveTable(parent, index, child);
      }
      at := at - {Child(k, index)};
      keyOf := keyOf - {child};
    }

    /** Give back the table `n` levels down if it is empty, and go on with its parent. */
    method ReclaimEmpty(root: Frame, p: Path, way: seq<Frame>, n: nat)
      requires meta.Valid() && LowPath(p) && 1 <= n && IsWay(Img(), root, p, way, n)
      requires OccupiedBut(Img(), Key(root, p[..n]))
      modifies this`tables, this`free, this`at, this`keyOf, this`reclaimed, meta, meta.slots
      ensures Ok() && Reclaims(old(Img()), Img(), Key(root, p[..1]))
      decreases n
    {
      ghost var s, k := Img(), Key(root, p[..n]);
      assert k in at && Key(root, p[..1]) in at && Placed(s, k);
      var owned := meta.OwnedBy(way[n], root, UserAddressSpace, 4 - n);
      var empty := meta.Empty(way[n]);
      if !owned || !empty {
        NothingToReclaim(s, k);
      } else {
        ReclaimStep(s, root, p, way, n);
        ReclaimOne(root, way[n - 1], p[n - 1], way[n], n == 1, Key(root, p[..n - 1]));
        if n > 1 {
          ghost var t := Img();
          ReclaimEmpty(root, p, way, n - 1);
          ReclaimsFurther(s, t, Img(), Key(root, p[..1]));
        }
      }
    }

    method ClearLeaf(leaf: Frame, i: nat, ghost k: Key)
      requires meta.Valid() && HasSlot(Img(), k, i) && leaf == at[k] && meta.view[leaf].count > 0
      modifies this`tables, meta, meta.slots
      ensures meta.Valid() && Img() == SetSlot(old(Img()), k, i, ZERO, -1)
    {
      tables := tables[leaf := tables[leaf][i := ZERO]];
      var counted := meta.Decrement(leaf);
    }

    /** The leaf slot of a present user page, through tables that can be read. */
    method FindUserLeaf(root: Frame, vaddr: nat) returns (found: bool, way: seq<Frame>)
      requires Ok() && UserRoot(root) && LowPage(vaddr)
      ensures found <==> MappedUser(root, vaddr)
      ensures found ==> IsWay(Img(), root, PathOf(vaddr), way, 3)
    {
      PathIsBijective(vaddr, PathOf(vaddr));
      var p := PathOf(vaddr);
      ghost var k := Key(root, p[..3]);
      assert Placed(Img(), Key(root, [])) && p[..0] == [];
      found, way := RootPte(root, p, [root]);
      if !found { return; }
      assert k in at && Placed(Img(), k);
      found := Present(tables[way[3]][p[3]]) && tables[way[3]][p[3]].attr.user;
    }

    /** What a present user page maps to, and with which attributes. */
    method ReadUserLeaf(root: Frame, vaddr: nat) returns (found: bool, e: Entry)
      requires Ok() && UserRoot(root) && LowPage(vaddr)
      ensures LowPath(PathOf(vaddr)) && (found <==> MappedUser(root, vaddr))
      ensures found ==> Trans(Img(), root, PathOf(vaddr)) == Some(e)
    {
      PathIsBijective(vaddr, PathOf(vaddr));
      var p, way := PathOf(vaddr), [];
      found, way := FindUserLeaf(root, vaddr);
      if !found { return false, ZERO; }
      ghost var k := Key(root, p[..3]);
      assert k in at && Placed(Img(), k) && way[3] == at[k];
      e := tables[way[3]][p[3]];
    }

    ghost predicate MappedUser(root: Frame, vaddr: nat)
      reads this, meta
      requires Weak(Img()) && LowPath(PathOf(vaddr))
    {
      var e := Trans(Img(), root, PathOf(vaddr));
      e.Some? && e.value.attr.user && PathDirect(root, PathOf(vaddr))
    }

    /** Unmap one page, giving back the frame it mapped and every table it leaves empty. */
    method UnmapUserPage(root: Frame, vaddr: nat) returns (ok: bool, frame: Frame)
      requires Ok() && UserRoot(root) && LowPage(vaddr)
      modifies this`tables, this`free, this`at, this`keyOf, this`reclaimed, meta, meta.slots
      ensures Ok()
      ensures LowPath(PathOf(vaddr)) && (ok <==> old(MappedUser(root, vaddr)))
      ensures ok ==>
              old(Trans(Img(), root, PathOf(vaddr))).Some?
                && frame == old(Trans(Img(), root, PathOf(vaddr))).value.frame
      ensures ok ==> Updates(old(Img()), Img(), root, PathOf(vaddr), None) && ForeignKept(old(Img()), Img())
      ensures ok ==>
                && root in old(reclaimed)
                && reclaimed == if Key(root, PathOf(vaddr)[..1]) in at then old(reclaimed)
                                else old(reclaimed)[root := old(reclaimed)[root] + 1]
      ensures Pool(Img()) == old(Pool(Img())) && Grown(old(at), at, {})
      ensures !ok ==> Img() == old(Img())
    {
      PathIsBijective(vaddr, PathOf(vaddr));
      var p := PathOf(vaddr);
      var found, way := FindUserLeaf(root, vaddr);
      if !found { return false, 0; }
      frame := ClearPage(root, p, way);
      ok := true;
    }

    /** Clear the leaf slot of `p` and give back the tables that this empties. */
    method ClearPage(root: Frame, p: Path, way: seq<Frame>) returns (frame: Frame)
      requires Ok() && LowPath(p) && IsWay(Img(), root, p, way, 3) && Trans(Img(), root, p).Some?
      modifies this`tables, this`free, this`at, this`keyOf, this`reclaimed, meta, meta.slots
      ensures Ok() && frame == old(Trans(Img(), root, p)).value.frame
      ensures Updates(old(Img()), Img(), root, p, None) && ForeignKept(old(Img()), Img())
      ensures root in old(reclaimed)
      ensures reclaimed == if Key(root, p[..1]) in at then old(reclaimed)
                           else old(reclaimed)[root := old(reclaimed)[root] + 1]
      ensures Pool(Img()) == old(Pool(Img())) && Grown(old(at), at, {})
    {
      ghost var s := Img();
      ClearEffects(s, root, p, way);
      frame := tables[way[3]][p[3]].frame;
      ClearLeaf(way[3], p[3], Key(root, p[..3]));
      ghost var t := Img();
      ReclaimEmpty(root, p, way, 3);
      UnmapCompose(s, t, Img(), root, p, Key(root, p[..1]));
    }

    /** Point an existing user page at another frame or with other attributes. */
    method RemapUserPage(root: Frame, vaddr: nat, frame: Frame, attr: Attr) returns (ok: bool)
      requires Ok() && UserRoot(root) && LowPage(vaddr) && attr.present
      modifies this`tables
      ensures Ok()
      ensures LowPath(PathOf(vaddr)) && (ok <==> old(MappedUser(root, vaddr)))
      ensures ok ==>
              Updates(old(Img()), Img(), root, PathOf(vaddr), Some(Entry(frame, attr)))
                && ForeignKept(old(Img()), Img())
      ensures Pool(Img()) == old(Pool(Img()))
      ensures !ok ==> Img() == old(Img())
    {
      PathIsBijective(vaddr, PathOf(vaddr));
      var p := PathOf(vaddr);
      var found, way := FindUserLeaf(root, vaddr);
      if !found { return false; }
      RemapEffects(Img(), root, p, way, Entry(frame, attr));
      tables := tables[way[3] := tables[way[3]][p[3] := Entry(frame, attr)]];
      ok := true;
    }
  }
}

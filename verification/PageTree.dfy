/**
 User page tables as a forest: the pure state that map, unmap, remap, reclaim
 and teardown act on, the invariant they keep, and the elementary changes they
 are made of.  `at` places every user-owned table in the tree of its root and
 `keyOf` is its inverse; both are proof state only.
 */
module PageTree {
  import opened Common
  import opened Paging

  datatype Owner = KernelVmem | UserAddressSpace

  /** One ownership record: level 4 is a root (PML4), level 1 a leaf table (PT). */
  datatype Meta = Meta(owner: Owner, level: nat, root: Frame, count: nat)

  function Recount(m: Meta, n: nat): Meta { Meta(m.owner, m.level, m.root, n) }

  /** The position of a table: the root it belongs to and the indices leading to it. */
  datatype Key = Key(root: Frame, path: Path)

  /** `tables` holds the contents of every frame in use as a page table, `meta`
      the ownership records, `free` the physical allocator's free frames;
      `reclaimed` counts, per root, the PDPTs that unmap has given back. */
  datatype Image = Image(tables: map<Frame, Table>, meta: map<Frame, Meta>, free: set<Frame>,
                         at: map<Key, Frame>, keyOf: map<Frame, Key>, reclaimed: map<Frame, nat>)

  function Child(k: Key, i: nat): Key { Key(k.root, k.path + [i]) }

  function Parent(k: Key): Key
    requires k.path != []
  {
    Key(k.root, k.path[..|k.path| - 1])
  }

  function LastIndex(k: Key): nat
    requires k.path != []
  {
    k.path[|k.path| - 1]
  }

  function Limit(k: Key): nat { if k.path == [] then LOW_HALF_ENTRIES else ENTRIES }

  predicate Position(k: Key) {
    |k.path| <= 3 && forall j :: 0 <= j < |k.path| ==> k.path[j] < if j == 0 then LOW_HALF_ENTRIES else ENTRIES
  }

  // The invariant.

  ghost predicate Linked(s: Image, k: Key)
    requires k.path != []
  {
    && Parent(k) in s.at && s.at[Parent(k)] in s.tables
    && LastIndex(k) < |s.tables[s.at[Parent(k)]]|
    && Present(s.tables[s.at[Parent(k)]][LastIndex(k)])
  }

  ghost predicate Placed(s: Image, k: Key)
    requires k in s.at
  {
    var f := s.at[k];
    && Position(k)
    && f in s.keyOf && s.keyOf[f] == k
    && f != 0 && f !in s.free
    && f in s.tables && |s.tables[f]| == ENTRIES
    && f in s.meta && s.meta[f].owner == UserAddressSpace
    && s.meta[f].level == 4 - |k.path| && s.meta[f].root == k.root
    && k.root in s.reclaimed
    && (k.path == [] ==> f == k.root)
    && (k.path != [] ==> Linked(s, k))
  }

  /** Slot `i` of the table at `k` points exactly at the child table, if there is one. */
  ghost predicate SlotAgrees(s: Image, k: Key, i: nat)
    requires k in s.at && s.at[k] in s.tables && |s.tables[s.at[k]]| == ENTRIES && i < Limit(k)
  {
    var e := s.tables[s.at[k]][i];
    && (!Present(e) ==> e == ZERO)
    && (Present(e) && |k.path| < 3 ==>
          Child(k, i) in s.at && e.frame == s.at[Child(k, i)] && e.attr == TableAttr(e.attr.user))
  }

  ghost predicate CountAgrees(s: Image, k: Key)
    requires k in s.at && Placed(s, k)
  {
    s.meta[s.at[k]].count == CountPresent(s.tables[s.at[k]], Limit(k))
                             + (if k.path == [] then s.reclaimed[k.root] else 0)
  }

  ghost predicate AllPlaced(s: Image) {
    && (forall k {:trigger Placed(s, k)} :: k in s.at ==> Placed(s, k))
    && Indexed(s)
  }

  /** `keyOf` inverts `at` and covers every user-owned record. */
  ghost predicate Indexed(s: Image) {
    && (forall f {:trigger Keyed(s, f)} :: Keyed(s, f))
    && s.tables.Keys !! s.free
    && 0 !in s.free
  }

  ghost predicate Keyed(s: Image, f: Frame) {
    && (f in s.keyOf ==> s.keyOf[f] in s.at && s.at[s.keyOf[f]] == f)
    && (f in s.meta && s.meta[f].owner == UserAddressSpace ==> f in s.keyOf)
  }

  /** The forest is well formed; tables just linked, or just emptied, may be empty. */
  ghost predicate Weak(s: Image) {
    && AllPlaced(s)
    && (forall k, i {:trigger SlotAgrees(s, k, i)} :: k in s.at && Placed(s, k) && 0 <= i < Limit(k) ==>
         SlotAgrees(s, k, i))
    && (forall k {:trigger CountAgrees(s, k)} :: k in s.at && Placed(s, k) ==> CountAgrees(s, k))
  }

  ghost predicate Occupied(s: Image, k: Key)
    requires k in s.at && s.at[k] in s.meta
  {
    k.path != [] ==> s.meta[s.at[k]].count >= 1
  }

  /** The invariant between operations: no table below a root is empty. */
  ghost predicate Valid(s: Image) {
    Weak(s) && forall k {:trigger Occupied(s, k)} :: k in s.at && Placed(s, k) ==> Occupied(s, k)
  }

  // Translation.

  /** What `root` translates the page at `p` to, read off the forest. */
  ghost function Trans(s: Image, root: Frame, p: Path): Option<Entry>
    requires Weak(s) && LowPath(p)
  {
    var k := Key(root, p[..3]);
    if k !in s.at then None
    else
      assert Placed(s, k);
      var e := s.tables[s.at[k]][p[3]];
      if Present(e) then Some(e) else None
  }

  /** The leaf entry reached by walking the tables in memory from `f`. */
  ghost function Walk(tables: map<Frame, Table>, f: Frame, p: Path): Option<Entry>
    decreases |p|
  {
    if p == [] || f !in tables || p[0] >= |tables[f]| || !Present(tables[f][p[0]]) then None
    else if |p| == 1 then Some(tables[f][p[0]])
    else if |p| == 2 && tables[f][p[0]].attr.large then None
    else Walk(tables, tables[f][p[0]].frame, p[1..])
  }

  /** Walking memory level by level finds exactly what the forest says. */
  lemma {:induction false} WalkFrom(s: Image, k: Key, p: Path)
    requires Weak(s) && LowPath(p) && |k.path| <= 3 && k.path == p[..|k.path|] && k in s.at
    ensures Walk(s.tables, s.at[k], p[|k.path|..]) == Trans(s, k.root, p)
    decreases 4 - |k.path|
  {
    var n := |k.path|;
    assert Placed(s, k);
    assert SlotAgrees(s, k, p[n]);
    assert p[n..][0] == p[n] && p[n..][1..] == p[n + 1..];
    if n < 3 {
      assert p[..n + 1] == p[..n] + [p[n]];
      if Present(s.tables[s.at[k]][p[n]]) {
        WalkFrom(s, Child(k, p[n]), p);
      } else {
        NoPathBelow(s, k, p);
      }
    } else {
      assert k == Key(k.root, p[..3]);
    }
  }

  /** A key of the forest has all its prefixes in the forest. */
  lemma {:induction false} Prefixes(s: Image, k: Key, n: nat)
    requires AllPlaced(s) && k in s.at && n <= |k.path|
    ensures Key(k.root, k.path[..n]) in s.at
    ensures n < |k.path| ==>
            Placed(s, Key(k.root, k.path[..n])) && Position(k)
              && Present(s.tables[s.at[Key(k.root, k.path[..n])]][k.path[n]])
    decreases |k.path|
  {
    assert Placed(s, k);
    if n < |k.path| - 1 {
      Prefixes(s, Parent(k), n);
      assert Parent(k).path[..n] == k.path[..n];
    } else if n == |k.path| {
      assert k.path[..n] == k.path;
    }
  }

  lemma NoPathBelow(s: Image, k: Key, p: Path)
    requires Weak(s) && LowPath(p) && |k.path| < 3 && k.path == p[..|k.path|] && k in s.at && Placed(s, k)
    requires !Present(s.tables[s.at[k]][p[|k.path|]])
    ensures Key(k.root, p[..3]) !in s.at
  {
    var full := Key(k.root, p[..3]);
    assert full.path[..|k.path|] == k.path;
    if full in s.at {
      Prefixes(s, full, |k.path|);
    }
  }

  lemma WalkIsTrans(s: Image, root: Frame, p: Path)
    requires Weak(s) && LowPath(p) && Key(root, []) in s.at
    ensures Walk(s.tables, root, p) == Trans(s, root, p)
  {
    assert Placed(s, Key(root, []));
    WalkFrom(s, Key(root, []), p);
    assert p[0..] == p;
  }

  // The elementary changes.

  function EmptyTable(): (t: Table)
    ensures |t| == ENTRIES && forall i :: 0 <= i < ENTRIES ==> t[i] == ZERO
  {
    seq(ENTRIES, _ => ZERO)
  }

  /** Slot `i` of the table at `k` is there to be written. */
  ghost predicate HasSlot(s: Image, k: Key, i: nat) {
    k in s.at && |k.path| <= 3 && s.at[k] in s.tables && i < |s.tables[s.at[k]]| && s.at[k] in s.meta
  }

  ghost predicate Linkable(s: Image, k: Key, i: nat, page: Frame) {
    && Weak(s) && k in s.at && Placed(s, k) && |k.path| < 3 && i < Limit(k)
    && !Present(s.tables[s.at[k]][i]) && page in s.free && page !in s.meta
  }

  /** A fresh empty table `page` is published in slot `i` of the table at `k`. */
  ghost function Link(s: Image, k: Key, i: nat, page: Frame, user: bool): Image
    requires HasSlot(s, k, i) && |k.path| < 3
  {
    var f := s.at[k];
    Image(s.tables[page := EmptyTable()][f := s.tables[f][i := Entry(page, TableAttr(user))]],
          s.meta[page := Meta(UserAddressSpace, 3 - |k.path|, k.root, 0)][f := Recount(s.meta[f], s.meta[f].count + 1)],
          s.free - {page}, s.at[Child(k, i) := page], s.keyOf[page := Child(k, i)], s.reclaimed)
  }

  ghost predicate Unlinkable(s: Image, k: Key, i: nat) {
    && Weak(s) && k in s.at && Placed(s, k) && |k.path| < 3 && i < Limit(k)
    && Child(k, i) in s.at && Placed(s, Child(k, i)) && s.meta[s.at[Child(k, i)]].count == 0
  }

  /** The empty child table in slot `i` is cleared, forgotten and freed.  With
      `leak` the parent's count is left as it was, as unmap does for a PDPT. */
  ghost function Unlink(s: Image, k: Key, i: nat, leak: bool): Image
    requires HasSlot(s, k, i) && Child(k, i) in s.at && s.meta[s.at[k]].count > 0 && k.root in s.reclaimed
  {
    var f, c := s.at[k], s.at[Child(k, i)];
    var m := s.meta[f];
    Image((s.tables - {c})[f := s.tables[f][i := ZERO]],
          (s.meta - {c})[f := if leak then m else Recount(m, m.count - 1)],
          s.free + {c}, s.at - {Child(k, i)}, s.keyOf - {c},
          if leak then s.reclaimed[k.root := s.reclaimed[k.root] + 1] else s.reclaimed)
  }

  /** A table of the forest is in use and registered. */
  lemma InForest(s: Image, f: Frame)
    requires AllPlaced(s) && f in s.keyOf
    ensures f !in s.free && f in s.meta
  {
    assert Keyed(s, f);
    assert Placed(s, s.keyOf[f]);
  }

  lemma ChildIsLinked(s: Image, k: Key, i: nat)
    requires AllPlaced(s) && k in s.at && Placed(s, k) && i < ENTRIES && Child(k, i) in s.at
    ensures Present(s.tables[s.at[k]][i])
  {
    assert Parent(Child(k, i)) == k;
    assert Placed(s, Child(k, i));
  }

  lemma LinkPlaces(s: Image, k: Key, i: nat, page: Frame, user: bool, k': Key)
    requires Linkable(s, k, i, page) && k' in Link(s, k, i, page, user).at
    ensures Placed(Link(s, k, i, page, user), k')
  {
    if k' == Child(k, i) {
      assert Parent(k') == k && LastIndex(k') == i;
    } else {
      assert Placed(s, k');
      if k'.path != [] && Parent(k') != k { assert Placed(s, Parent(k')); }
    }
  }

  lemma LinkCounts(s: Image, k: Key, i: nat, page: Frame, user: bool, k': Key)
    requires Linkable(s, k, i, page) && k' in Link(s, k, i, page, user).at
    requires Placed(Link(s, k, i, page, user), k')
    ensures CountAgrees(Link(s, k, i, page, user), k')
  {
    if k' == Child(k, i) {
      CountZero(EmptyTable(), ENTRIES);
    } else {
      assert Placed(s, k') && CountAgrees(s, k');
      if k' == k { CountUpdate(s.tables[s.at[k]], Limit(k), i, Entry(page, TableAttr(user))); }
    }
  }

  lemma LinkSlots(s: Image, k: Key, i: nat, page: Frame, user: bool, k': Key, i': nat)
    requires Linkable(s, k, i, page) && k' in Link(s, k, i, page, user).at
    requires Placed(Link(s, k, i, page, user), k') && i' < Limit(k')
    ensures SlotAgrees(Link(s, k, i, page, user), k', i')
  {
    if k' != Child(k, i) {
      assert Placed(s, k') && SlotAgrees(s, k', i');
      if Child(k', i') == Child(k, i) {
        assert Parent(Child(k', i')) == k' && Parent(Child(k, i)) == k;
        assert LastIndex(Child(k', i')) == i' && LastIndex(Child(k, i)) == i;
      }
    }
  }

  lemma LinkKeepsIndex(s: Image, k: Key, i: nat, page: Frame, user: bool)
    requires Linkable(s, k, i, page)
    ensures Indexed(Link(s, k, i, page, user)) && Child(k, i) !in s.at && page !in s.keyOf
  {
    if Child(k, i) in s.at { ChildIsLinked(s, k, i); }
    if page in s.keyOf { InForest(s, page); }
    forall f ensures Keyed(Link(s, k, i, page, user), f) { assert Keyed(s, f); }
  }

  lemma LinkKeepsForest(s: Image, k: Key, i: nat, page: Frame, user: bool)
    requires Linkable(s, k, i, page)
    ensures Weak(Link(s, k, i, page, user))
  {
    var t := Link(s, k, i, page, user);
    LinkKeepsIndex(s, k, i, page, user);
    forall k' | k' in t.at ensures Placed(t, k') && CountAgrees(t, k') {
      LinkPlaces(s, k, i, page, user, k');
      LinkCounts(s, k, i, page, user, k');
    }
    forall k', i' | k' in t.at && 0 <= i' < Limit(k') ensures SlotAgrees(t, k', i') {
      LinkSlots(s, k, i, page, user, k', i');
    }
  }

  lemma LinkKeepsTranslation(s: Image, k: Key, i: nat, page: Frame, user: bool, root: Frame, p: Path)
    requires Linkable(s, k, i, page) && LowPath(p)
    ensures Weak(Link(s, k, i, page, user))
    ensures Trans(Link(s, k, i, page, user), root, p) == Trans(s, root, p)
  {
    LinkKeepsForest(s, k, i, page, user);
    var leaf := Key(root, p[..3]);
    if leaf in s.at { assert Placed(s, leaf); }
    assert Placed(s, k);
  }

  lemma UnlinkCountPositive(s: Image, k: Key, i: nat)
    requires Unlinkable(s, k, i)
    ensures s.at[k] != s.at[Child(k, i)] && Present(s.tables[s.at[k]][i])
    ensures s.meta[s.at[k]].count > 0
    ensures forall i' :: 0 <= i' < ENTRIES ==> !Present(s.tables[s.at[Child(k, i)]][i'])
  {
    assert Parent(Child(k, i)) == k && LastIndex(Child(k, i)) == i;
    assert CountAgrees(s, k) && CountAgrees(s, Child(k, i));
    CountZero(s.tables[s.at[k]], Limit(k));
    CountZero(s.tables[s.at[Child(k, i)]], ENTRIES);
  }

  lemma UnlinkPlaces(s: Image, k: Key, i: nat, leak: bool, k': Key)
    requires Unlinkable(s, k, i) && s.meta[s.at[k]].count > 0 && k' in Unlink(s, k, i, leak).at
    ensures Placed(Unlink(s, k, i, leak), k')
  {
    UnlinkCountPositive(s, k, i);
    assert Placed(s, k');
    if k'.path != [] {
      assert Placed(s, Parent(k'));
      assert k' == Child(Parent(k'), LastIndex(k'));
    }
  }

  lemma UnlinkCounts(s: Image, k: Key, i: nat, leak: bool, k': Key)
    requires Unlinkable(s, k, i) && s.meta[s.at[k]].count > 0 && k' in Unlink(s, k, i, leak).at
    requires Placed(Unlink(s, k, i, leak), k') && (leak ==> k.path == [])
    ensures CountAgrees(Unlink(s, k, i, leak), k')
  {
    UnlinkCountPositive(s, k, i);
    assert Placed(s, k') && CountAgrees(s, k');
    if k' == k { CountUpdate(s.tables[s.at[k]], Limit(k), i, ZERO); }
  }

  lemma UnlinkSlots(s: Image, k: Key, i: nat, leak: bool, k': Key, i': nat)
    requires Unlinkable(s, k, i) && s.meta[s.at[k]].count > 0 && k' in Unlink(s, k, i, leak).at
    requires Placed(Unlink(s, k, i, leak), k') && i' < Limit(k')
    ensures SlotAgrees(Unlink(s, k, i, leak), k', i')
  {
    UnlinkCountPositive(s, k, i);
    assert Placed(s, k') && SlotAgrees(s, k', i');
    if Child(k', i') == Child(k, i) {
      assert Parent(Child(k', i')) == k' && Parent(Child(k, i)) == k;
      assert LastIndex(Child(k', i')) == i' && LastIndex(Child(k, i)) == i;
    }
  }

  lemma UnlinkKeepsIndex(s: Image, k: Key, i: nat, leak: bool)
    requires Unlinkable(s, k, i) && s.meta[s.at[k]].count > 0
    ensures Indexed(Unlink(s, k, i, leak))
  {
    UnlinkCountPositive(s, k, i);
    forall f ensures Keyed(Unlink(s, k, i, leak), f) { assert Keyed(s, f); }
  }

  lemma UnlinkKeepsForest(s: Image, k: Key, i: nat, leak: bool)
    requires Unlinkable(s, k, i) && (leak ==> k.path == [])
    ensures s.meta[s.at[k]].count > 0
    ensures Weak(Unlink(s, k, i, leak))
  {
    UnlinkCountPositive(s, k, i);
    var t := Unlink(s, k, i, leak);
    UnlinkKeepsIndex(s, k, i, leak);
    forall k' | k' in t.at ensures Placed(t, k') && CountAgrees(t, k') {
      UnlinkPlaces(s, k, i, leak, k');
      UnlinkCounts(s, k, i, leak, k');
    }
    forall k', i' | k' in t.at && 0 <= i' < Limit(k') ensures SlotAgrees(t, k', i') {
      UnlinkSlots(s, k, i, leak, k', i');
    }
  }

  lemma UnlinkKeepsTranslation(s: Image, k: Key, i: nat, leak: bool, root: Frame, p: Path)
    requires Unlinkable(s, k, i) && (leak ==> k.path == []) && LowPath(p)
    ensures s.meta[s.at[k]].count > 0
    ensures Weak(Unlink(s, k, i, leak))
    ensures Trans(Unlink(s, k, i, leak), root, p) == Trans(s, root, p)
  {
    UnlinkKeepsForest(s, k, i, leak);
    var c := s.at[Child(k, i)];
    assert Placed(s, k) && Placed(s, Child(k, i)) && CountAgrees(s, Child(k, i));
    CountZero(s.tables[c], ENTRIES);
    var leaf := Key(root, p[..3]);
    if leaf in s.at { assert Placed(s, leaf); }
  }

  /** Undoing a link restores the state exactly. */
  lemma UnlinkUndoesLink(s: Image, k: Key, i: nat, page: Frame, user: bool)
    requires Linkable(s, k, i, page)
    ensures Unlinkable(Link(s, k, i, page, user), k, i)
    ensures Unlink(Link(s, k, i, page, user), k, i, false) == s
  {
    LinkKeepsForest(s, k, i, page, user);
    var t := Link(s, k, i, page, user);
    var f := s.at[k];
    assert Placed(s, k) && SlotAgrees(s, k, i);
    if Child(k, i) in s.at { ChildIsLinked(s, k, i); }
    if page in s.keyOf { InForest(s, page); }
    var u := Unlink(t, k, i, false);
    assert u.tables[f] == s.tables[f];
    assert u.tables == s.tables;
    assert u.meta == s.meta;
    assert u.free == s.free;
    assert u.at == s.at && u.keyOf == s.keyOf;
  }

  /** Slot `i` of the table at `k` is overwritten, keeping what it points at. */
  ghost function SetSlot(s: Image, k: Key, i: nat, e: Entry, delta: int): Image
    requires HasSlot(s, k, i) && s.meta[s.at[k]].count + delta >= 0
  {
    var f := s.at[k];
    Image(s.tables[f := s.tables[f][i := e]],
          s.meta[f := Recount(s.meta[f], s.meta[f].count + delta)],
          s.free, s.at, s.keyOf, s.reclaimed)
  }

  ghost predicate Leaf(s: Image, k: Key) { k in s.at && Placed(s, k) && |k.path| == 3 }

  ghost predicate Settable(s: Image, k: Key, i: nat, e: Entry) {
    && Weak(s) && k in s.at && Placed(s, k) && i < Limit(k)
    && var before := s.tables[s.at[k]][i];
       if |k.path| < 3 then Present(before) && e == Entry(before.frame, TableAttr(true)) else Present(e) || e == ZERO
  }

  lemma SetSlotCount(s: Image, k: Key, i: nat, e: Entry)
    requires Settable(s, k, i, e)
    ensures var delta := Delta(s.tables[s.at[k]][i], e);
            s.meta[s.at[k]].count + delta >= 0
              && CountPresent(s.tables[s.at[k]][i := e], Limit(k)) == CountPresent(s.tables[s.at[k]], Limit(k)) + delta
  {
    CountUpdate(s.tables[s.at[k]], Limit(k), i, e);
    assert CountAgrees(s, k);
  }

  lemma SetSlotPlaces(s: Image, k: Key, i: nat, e: Entry, k': Key)
    requires Settable(s, k, i, e) && k' in s.at && s.meta[s.at[k]].count + Delta(s.tables[s.at[k]][i], e) >= 0
    ensures Placed(SetSlot(s, k, i, e, Delta(s.tables[s.at[k]][i], e)), k')
  {
    assert Placed(s, k');
    if k'.path != [] { assert Placed(s, Parent(k')); }
  }

  lemma SetSlotAgrees(s: Image, k: Key, i: nat, e: Entry, k': Key, i': nat)
    requires Settable(s, k, i, e) && k' in s.at && s.meta[s.at[k]].count + Delta(s.tables[s.at[k]][i], e) >= 0
    requires Placed(SetSlot(s, k, i, e, Delta(s.tables[s.at[k]][i], e)), k') && i' < Limit(k')
    ensures SlotAgrees(SetSlot(s, k, i, e, Delta(s.tables[s.at[k]][i], e)), k', i')
    ensures CountAgrees(SetSlot(s, k, i, e, Delta(s.tables[s.at[k]][i], e)), k')
  {
    assert Placed(s, k') && SlotAgrees(s, k', i') && CountAgrees(s, k') && SlotAgrees(s, k, i);
    SetSlotCount(s, k, i, e);
  }

  /** Replacing an entry without moving what it points at keeps the forest. */
  lemma SetSlotKeepsForest(s: Image, k: Key, i: nat, e: Entry)
    requires Settable(s, k, i, e)
    ensures var delta := Delta(s.tables[s.at[k]][i], e);
            s.meta[s.at[k]].count + delta >= 0 && Weak(SetSlot(s, k, i, e, delta))
  {
    SetSlotCount(s, k, i, e);
    var t := SetSlot(s, k, i, e, Delta(s.tables[s.at[k]][i], e));
    forall f ensures Keyed(t, f) { assert Keyed(s, f); }
    forall k' | k' in t.at ensures Placed(t, k') && CountAgrees(t, k') {
      SetSlotPlaces(s, k, i, e, k');
      SetSlotAgrees(s, k, i, e, k', 0);
    }
    forall k', i' | k' in t.at && 0 <= i' < Limit(k') ensures SlotAgrees(t, k', i') {
      SetSlotAgrees(s, k, i, e, k', i');
    }
  }

  /** How the count of a table moves when one of its entries is replaced. */
  function Delta(before: Entry, after: Entry): int {
    (if Present(after) then 1 else 0) - (if Present(before) then 1 else 0)
  }

  /** Writing a leaf changes one translation, that of its own page in its own
      root; adding the user bit to a descriptor changes none. */
  lemma SetSlotTranslation(s: Image, k: Key, i: nat, e: Entry, root: Frame, p: Path)
    requires Settable(s, k, i, e) && LowPath(p)
    ensures var delta := Delta(s.tables[s.at[k]][i], e);
            && s.meta[s.at[k]].count + delta >= 0
            && var t := SetSlot(s, k, i, e, delta);
            && Weak(t)
            && Trans(t, root, p) == if |k.path| == 3 && root == k.root && p == k.path + [i]
                                    then (if Present(e) then Some(e) else None) else Trans(s, root, p)
  {
    SetSlotKeepsForest(s, k, i, e);
    var leaf := Key(root, p[..3]);
    assert p == p[..3] + [p[3]];
    if leaf in s.at { assert Placed(s, leaf); }
  }

  // No table is kept without need.

  lemma {:induction false} FirstPresent(t: Table, n: nat) returns (i: nat)
    requires n <= |t| && CountPresent(t, n) > 0
    ensures i < n && Present(t[i])
  {
    if Present(t[n - 1]) { i := n - 1; } else { i := FirstPresent(t, n - 1); }
  }

  lemma {:induction false} SomePageBelow(s: Image, k: Key) returns (p: Path)
    requires Valid(s) && k in s.at && k.path != []
    ensures |k.path| <= 3 && LowPath(p) && p[..|k.path|] == k.path && Trans(s, k.root, p).Some?
    decreases 3 - |k.path|
  {
    assert Placed(s, k) && Occupied(s, k) && CountAgrees(s, k);
    var i := FirstPresent(s.tables[s.at[k]], ENTRIES);
    assert SlotAgrees(s, k, i);
    if |k.path| == 3 {
      p := k.path + [i];
      assert p[..3] == k.path;
    } else {
      p := SomePageBelow(s, Child(k, i));
      assert p[..|k.path|] == p[..|k.path| + 1][..|k.path|];
    }
  }

  /** Between operations a lower table exists exactly when some page below it
      is mapped: tables are created when first needed and reclaimed when last. */
  lemma TablesAreNeeded(s: Image, k: Key)
    requires Valid(s) && 1 <= |k.path| <= 3
    ensures k in s.at <==> exists p :: LowPath(p) && p[..|k.path|] == k.path && Trans(s, k.root, p).Some?
  {
    if k in s.at {
      var p := SomePageBelow(s, k);
    }
    if exists p :: LowPath(p) && p[..|k.path|] == k.path && Trans(s, k.root, p).Some? {
      var p :| LowPath(p) && p[..|k.path|] == k.path && Trans(s, k.root, p).Some?;
      Prefixes(s, Key(k.root, p[..3]), |k.path|);
      assert p[..3][..|k.path|] == k.path;
    }
  }
}

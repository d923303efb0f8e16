/**
 Tearing down an inactive user address space: every owned table below the root
 goes back to the allocator and every present leaf drops one reference.
 */
module Teardown {
  import opened Paging
  import opened PageTree
  import opened AddressSpaces
  import opened FrameRefs
  import opened TeardownSpec

  ghost predicate Ready(m: PageTables, refs: RefTable)
    reads m, m.meta, m.meta.slots, refs, refs.slots
  {
    m.meta.Valid() && refs.Valid() && m.meta.slots as object != refs.slots as object
  }

  /** Every frame in the system's hands: free, a page table, or held by a page. */
  ghost function Frames(m: PageTables, refs: RefTable): set<Frame>
    reads m, m.meta, refs
  {
    Pool(m.Img()) + refs.holders.Keys
  }

  /** Every table of `root` can be read through the direct map. */
  ghost predicate AllDirect(m: PageTables, s: Image, root: Frame) {
    forall k :: k in s.at && k.root == root ==> s.at[k] in m.direct
  }

  /** Clear the leaf in slot `i` and drop the reference its page held. */
  method ClearLeafSlot(m: PageTables, refs: RefTable, table: Frame, i: nat, ghost k: Key)
    requires Ready(m, refs) && HasSlot(m.Img(), k, i) && table == m.at[k] && m.meta.view[table].count > 0
    requires m.tables[table][i].frame in refs.holders
             && Page(k.root, k.path + [i]) in refs.holders[m.tables[table][i].frame]
    modifies m`tables, m`free, m.meta, m.meta.slots, refs, refs.slots
    ensures Ready(m, refs)
    ensures m.Img() == LeafCleared(old(m.Img()), old(refs.holders), k, i)
    ensures refs.holders == Without(old(refs.holders), old(m.tables)[table][i].frame, Page(k.root, k.path + [i]))
    ensures Frames(m, refs) == old(Frames(m, refs))
  {
    var frame := m.tables[table][i].frame;
    m.ClearLeaf(table, i, k);
    var freed := refs.Decrement(frame, Page(k.root, k.path + [i]));
    if freed { m.free := m.free + {frame}; }
  }

  /** Deal with slot `i` of a table, whatever it holds. */
  method TeardownSlot(m: PageTables, refs: RefTable, table: Frame, level: nat, root: Frame, i: nat,
                      ghost k: Key, ghost s: Image, ghost h: Holders) returns (ok: bool)
    requires Ready(m, refs) && Torn(s, h, m.Img(), refs.holders, k, i) && Held(s, h, k)
    requires table == m.at[k] && root == k.root && level == 4 - |k.path| && i < Limit(k)
    modifies m, m.meta, m.meta.slots, refs, refs.slots
    ensures Ready(m, refs)
    ensures ok ==> Torn(s, h, m.Img(), refs.holders, k, i + 1)
    ensures AllDirect(m, s, root) ==> ok
    ensures Frames(m, refs) == old(Frames(m, refs))
    decreases level, 0, 1
  {
    ghost var t, g := m.Img(), refs.holders;
    assert SlotAgrees(t, k, i);
    var e := m.tables[table][i];
    if !Present(e) {
      TornSkip(s, h, t, g, k, i);
      return true;
    }
    if level == 1 {
      LeafHeld(s, h, t, g, k, i);
      TornLeaf(s, h, t, g, k, i);
      ClearLeafSlot(m, refs, table, i, k);
      return true;
    }
    assert TornKey(s, t, k, i, Child(k, i));
    var owned := m.meta.OwnedBy(e.frame, root, UserAddressSpace, level - 1);
    assert Placed(t, Child(k, i));
    if !owned { return false; }
    if e.frame !in m.direct { return false; }
    if level == 2 && e.attr.large { return false; }
    ok := TeardownChild(m, refs, table, level, root, i, e.frame, k, s, h);
  }

  /** Clear the table in slot `i`, then unlink and free it. */
  method TeardownChild(m: PageTables, refs: RefTable, table: Frame, level: nat, root: Frame, i: nat, child: Frame,
                       ghost k: Key, ghost s: Image, ghost h: Holders) returns (ok: bool)
    requires Ready(m, refs) && Torn(s, h, m.Img(), refs.holders, k, i) && Held(s, h, k)
    requires table == m.at[k] && root == k.root && level == 4 - |k.path| && level > 1 && i < Limit(k)
    requires Child(k, i) in m.at && child == m.at[Child(k, i)]
    modifies m, m.meta, m.meta.slots, refs, refs.slots
    ensures Ready(m, refs)
    ensures ok ==> Torn(s, h, m.Img(), refs.holders, k, i + 1)
    ensures AllDirect(m, s, root) ==> ok
    ensures Frames(m, refs) == old(Frames(m, refs))
    decreases level, 0, 0
  {
    ghost var t, g, c := m.Img(), refs.holders, Child(k, i);
    ChildBegins(m, s, h, t, g, k, i);
    ok := TeardownFrom(m, refs, child, level - 1, root, 0, ENTRIES, c, t, g);
    if ok { UnlinkTable(m, refs, table, i, child, k, s, h, t, g); }
  }

  lemma ChildBegins(m: PageTables, s: Image, h: Holders, t: Image, g: Holders, k: Key, i: nat)
    requires Torn(s, h, t, g, k, i) && Held(s, h, k) && |k.path| < 3 && i < Limit(k) && Child(k, i) in t.at
    ensures Torn(t, g, t, g, Child(k, i), 0) && Held(t, g, Child(k, i))
    ensures AllDirect(m, s, k.root) ==> AllDirect(m, t, k.root)
  {
    assert Placed(t, Child(k, i));
    HeldBelow(s, h, t, g, k, i);
    StillDirect(m, s, h, t, g, k, i);
    TornStart(t, g, Child(k, i));
  }

  method UnlinkTable(m: PageTables, refs: RefTable, table: Frame, i: nat, child: Frame,
                     ghost k: Key, ghost s: Image, ghost h: Holders, ghost t: Image, ghost g: Holders)
    requires Ready(m, refs) && Torn(s, h, t, g, k, i) && Torn(t, g, m.Img(), refs.holders, Child(k, i), ENTRIES)
    requires |k.path| < 3 && i < Limit(k) && table == t.at[k] && child == t.at[Child(k, i)]
    modifies m`tables, m`free, m`at, m`keyOf, m.meta, m.meta.slots
    ensures Ready(m, refs) && Torn(s, h, m.Img(), refs.holders, k, i + 1)
    ensures Frames(m, refs) == old(Frames(m, refs))
  {
    ghost var u := m.Img();
    TornChild(s, h, t, g, u, refs.holders, k, i);
    UnlinkChild(m, refs, table, i, child, k);
  }

  method UnlinkChild(m: PageTables, refs: RefTable, parent: Frame, index: nat, child: Frame, ghost k: Key)
    requires Ready(m, refs) && HasSlot(m.Img(), k, index) && Child(k, index) in m.at && k.root in m.reclaimed
             && child in m.tables
    requires parent == m.at[k] && child == m.at[Child(k, index)] && parent != child && child !in m.free
             && m.meta.view[parent].count > 0
    modifies m`tables, m`free, m`at, m`keyOf, m.meta, m.meta.slots
    ensures Ready(m, refs) && m.Img() == Unlink(old(m.Img()), k, index, false)
    ensures Frames(m, refs) == old(Frames(m, refs))
  {
    m.RemoveTable(parent, index, child);
    m.at := m.at - {Child(k, index)};
    m.keyOf := m.keyOf - {child};
  }

  lemma StillDirect(m: PageTables, s: Image, h: Holders, t: Image, g: Holders, k: Key, i: nat)
    requires Torn(s, h, t, g, k, i)
    ensures AllDirect(m, s, k.root) ==> AllDirect(m, t, k.root)
  {
    forall k' | AllDirect(m, s, k.root) && k' in t.at && k'.root == k.root ensures t.at[k'] in m.direct {
      assert TornKey(s, t, k, i, k');
    }
  }

  /** Clear slots `i` to `limit` of a table, everything below them included. */
  method TeardownFrom(m: PageTables, refs: RefTable, table: Frame, level: nat, root: Frame, i: nat, limit: nat,
                      ghost k: Key, ghost s: Image, ghost h: Holders) returns (ok: bool)
    requires Ready(m, refs) && Torn(s, h, m.Img(), refs.holders, k, i) && Held(s, h, k)
    requires table == s.at[k] && root == k.root && level == 4 - |k.path| && i <= limit == Limit(k)
    modifies m, m.meta, m.meta.slots, refs, refs.slots
    ensures Ready(m, refs)
    ensures ok ==> Torn(s, h, m.Img(), refs.holders, k, limit)
    ensures AllDirect(m, s, root) ==> ok
    ensures Frames(m, refs) == old(Frames(m, refs))
    decreases level, 1, limit - i
  {
    ok := true;
    if i < limit {
      StillAt(s, h, m.Img(), refs.holders, k, i);
      ok := TeardownSlot(m, refs, table, level, root, i, k, s, h);
      if ok { ok := TeardownFrom(m, refs, table, level, root, i + 1, limit, k, s, h); }
    }
  }

  lemma StillAt(s: Image, h: Holders, t: Image, g: Holders, k: Key, i: nat)
    requires Torn(s, h, t, g, k, i)
    ensures t.at[k] == s.at[k]
  {
    assert TornKey(s, t, k, i, k);
  }

  /** Tear down a user address space that is not the active one.  It succeeds
      exactly when the root's count has no surplus over its present entries;
      which histories leave one is the matter of `UserMemory`. */
  method TeardownUserAddressSpace(m: PageTables, refs: RefTable, root: Frame, cr3: Frame) returns (ok: bool)
    requires Ready(m, refs) && m.Ok() && Apart(m.Img(), refs.holders)
    requires Key(root, []) in m.at ==> Held(m.Img(), refs.holders, Key(root, []))
    modifies m, m.meta, m.meta.slots, refs, refs.slots
    ensures Ready(m, refs)
    ensures root == cr3 || Key(root, []) !in old(m.at) ==>
              !ok && m.Img() == old(m.Img()) && refs.holders == old(refs.holders)
    ensures root != cr3 && Key(root, []) in old(m.at) && AllDirect(m, old(m.Img()), root) ==>
              && root in old(m.reclaimed) && (ok <==> old(m.reclaimed)[root] == 0)
              && (!ok ==> m.Ok() && Torn(old(m.Img()), old(refs.holders), m.Img(), refs.holders, Key(root, []),
                   LOW_HALF_ENTRIES))
    ensures Frames(m, refs) == old(Frames(m, refs))
    ensures ok ==> m.Ok() && Destroyed(old(m.Img()), old(refs.holders), m.Img(), refs.holders, root)
  {
    ghost var s, h, k0 := m.Img(), refs.holders, Key(root, []);
    if root == cr3 { return false; }
    var owned := m.meta.OwnedBy(root, root, UserAddressSpace, 4);
    OwnedRoot(s, root);
    if !owned { return false; }
    if root !in m.direct { return false; }
    TornStart(s, h, k0);
    ok := TeardownFrom(m, refs, root, 4, root, 0, LOW_HALF_ENTRIES, k0, s, h);
    if !ok { return false; }
    ok := FreeEmptyRoot(m, refs, root, s, h);
  }

  /** The root goes back to the allocator if its count says that it is empty. */
  method FreeEmptyRoot(m: PageTables, refs: RefTable, root: Frame, ghost s: Image, ghost h: Holders) returns (ok: bool)
    requires Ready(m, refs) && Valid(s) && Torn(s, h, m.Img(), refs.holders, Key(root, []), LOW_HALF_ENTRIES)
    modifies m, m.meta, m.meta.slots
    ensures Ready(m, refs) && m.Ok() && Frames(m, refs) == old(Frames(m, refs))
    ensures root in s.reclaimed && (ok <==> s.reclaimed[root] == 0)
    ensures ok ==> Destroyed(s, h, m.Img(), refs.holders, root)
    ensures !ok ==> Torn(s, h, m.Img(), refs.holders, Key(root, []), LOW_HALF_ENTRIES)
  {
    ghost var t, g := m.Img(), refs.holders;
    RootEmpty(s, h, t, g, root);
    TornOccupied(s, h, t, g, root);
    ok := m.meta.Empty(root);
    if ok {
      TornRoot(s, h, t, g, root);
      FreeRoot(m, refs, root);
    }
  }

  lemma OwnedRoot(s: Image, root: Frame)
    requires Weak(s)
    ensures root in s.meta && s.meta[root] == Meta(UserAddressSpace, 4, root, s.meta[root].count) <==>
            Key(root, []) in s.at
    ensures Key(root, []) in s.at ==> Placed(s, Key(root, [])) && s.at[Key(root, [])] == root
  {
    assert Keyed(s, root);
    if root in s.meta && s.meta[root] == Meta(UserAddressSpace, 4, root, s.meta[root].count) {
      assert Placed(s, s.keyOf[root]);
      assert s.keyOf[root] == Key(root, []);
    }
    if Key(root, []) in s.at { assert Placed(s, Key(root, [])); }
  }

  method FreeRoot(m: PageTables, refs: RefTable, root: Frame)
    requires Ready(m, refs) && root !in m.free && root in m.tables
    modifies m, m.meta, m.meta.slots
    ensures Ready(m, refs) && m.Img() == RootGone(old(m.Img()), root)
    ensures Frames(m, refs) == old(Frames(m, refs))
  {
    m.meta.Unregister(root);
    m.FreeTable(root);
    m.at := m.at - {Key(root, [])};
    m.keyOf := m.keyOf - {root};
    m.reclaimed := m.reclaimed - {root};
  }
}

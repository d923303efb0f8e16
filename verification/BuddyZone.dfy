/**
 One zone of the page allocator: a free list per order, coalescing on free,
 splitting on allocation.
 */
module BuddyZone {
  import opened Common
  import opened BuddyLists

  /** No free page is listed twice. */
  ghost predicate Once(a: Area) { forall p: nat :: CoverAll(a, p) <= 1 }

  /** None of the block's pages is free. */
  ghost predicate Clear(a: Area, b: Block) { forall p: nat :: In(b, p) ==> CoverAll(a, p) == 0 }

  /** `after` frees exactly the pages of `b` in addition to those of `a`. */
  ghost predicate Adds(a: Area, after: Area, b: Block) {
    && (forall p: nat :: CoverAll(after, p) == CoverAll(a, p) + Hit(b, p))
    && SizeAll(after) == SizeAll(a) + b.len
  }

  /** The same pages are free, in whatever blocks. */
  ghost predicate SamePages(a: Area, after: Area) {
    && (forall p: nat :: CoverAll(after, p) == CoverAll(a, p))
    && SizeAll(after) == SizeAll(a)
  }

  predicate SeamOk(a: Area, k: nat, i: nat) {
    && |a| == MAX_ORDER + 1 && k <= MAX_ORDER && i < |a[k]| && ListOk(a[k], k, i)
    && forall n {:trigger a[n]} :: 0 <= n <= MAX_ORDER && n != k ==> ListOk(a[n], n, -1)
  }

  function Placed(l: seq<Block>, i: nat, b: Block): seq<Block>
    requires i <= |l|
  {
    l[..i] + [b] + l[i..]
  }

  lemma InsertPlaces(a: Area, i: nat, b: Block)
    requires AreaOk(a) && Sized(b) && Clear(a, b) && i <= |a[b.order]|
    requires forall j :: 0 <= j < i ==> a[b.order][j].base <= b.base
    requires forall j :: i <= j < |a[b.order]| ==> a[b.order][j].base > b.base
    ensures SeamOk(a[b.order := Placed(a[b.order], i, b)], b.order, i)
    ensures Adds(a, a[b.order := Placed(a[b.order], i, b)], b)
  {
    var k, l := b.order, a[b.order];
    assert ListOk(l, k, -1);
    forall p: nat | In(b, p) ensures Cover(l, p) == 0 {
      CoverUpdate(a, k, l, p);
    }
    forall j | 0 <= j < |l| ensures Beside(l[j], b) {
      Apart(l, j, b);
    }
    InsertOk(l, k, i, b);
    InsertAdds(a, i, b);
  }

  lemma InsertAdds(a: Area, i: nat, b: Block)
    requires b.order < |a| && i <= |a[b.order]|
    ensures Adds(a, a[b.order := Placed(a[b.order], i, b)], b)
  {
    var k, l := b.order, a[b.order];
    forall p: nat ensures CoverAll(a[k := Placed(l, i, b)], p) == CoverAll(a, p) + Hit(b, p) {
      PutIn(l, i, b, p);
      CoverUpdate(a, k, Placed(l, i, b), p);
    }
    PutIn(l, i, b, 0);
    SizeUpdate(a, k, Placed(l, i, b));
  }

  function Dropped(l: seq<Block>, i: nat, j: nat): seq<Block>
    requires i <= j <= |l|
  {
    l[..i] + l[j..]
  }

  /** Two touching blocks taken out can be freed again as one of the next order. */
  lemma PairLeaves(a: Area, k: nat, i: nat, seam: nat)
    requires SeamOk(a, k, seam) && Once(a) && k < MAX_ORDER
    requires i <= seam <= i + 1 < |a[k]| && a[k][i].base + a[k][i].len == a[k][i + 1].base
    ensures var both := Block(a[k][i].base, a[k][i].len + a[k][i + 1].len, k + 1);
      var rest := a[k := Dropped(a[k], i, i + 2)];
      AreaOk(rest) && Sized(both) && Adds(rest, a, both) && Clear(rest, both) && Once(rest)
  {
    var l := a[k];
    var both := Block(l[i].base, l[i].len + l[i + 1].len, k + 1);
    var rest := a[k := Dropped(l, i, i + 2)];
    assert l[i..i + 2] == [l[i], l[i + 1]];
    forall p: nat ensures CoverAll(a, p) == CoverAll(rest, p) + Hit(both, p) {
      CutOut(l, i, i + 2, p);
      PairCover(l[i], l[i + 1], p);
      CoverUpdate(a, k, Dropped(l, i, i + 2), p);
    }
    CutOut(l, i, i + 2, 0);
    PairCover(l[i], l[i + 1], 0);
    SizeUpdate(a, k, Dropped(l, i, i + 2));
    CutOk(l, k, seam, i, i + 2);
    assert Sized(l[i]) && Sized(l[i + 1]);
  }

  /** The blocks of a list are sized and share no page with the free ones or
      with each other. */
  ghost predicate Freeable(a: Area, parts: seq<Block>) {
    && (forall i :: 0 <= i < |parts| ==> Sized(parts[i]))
    && (forall p: nat {:trigger CoverAll(a, p)} :: CoverAll(a, p) + Cover(parts, p) <= 1)
  }

  ghost predicate AddsAll(a: Area, after: Area, parts: seq<Block>) {
    && (forall p: nat {:trigger CoverAll(after, p)} :: CoverAll(after, p) == CoverAll(a, p) + Cover(parts, p))
    && SizeAll(after) == SizeAll(a) + Size(parts)
  }

  lemma AddsNone(a: Area)
    ensures AddsAll(a, a, [])
  {
    assert forall p: nat :: Cover([], p) == 0;
    assert Size([]) == 0;
  }

  lemma FreeableHead(a: Area, parts: seq<Block>, i: nat)
    requires i < |parts| && Freeable(a, parts[i..])
    ensures Sized(parts[i]) && Once(a) && Clear(a, parts[i])
  {
    assert parts[i] == parts[i..][0];
    forall p: nat {:trigger CoverAll(a, p)} ensures CoverAll(a, p) + Hit(parts[i], p) <= 1 {
      CoverTail(parts, i, p);
    }
  }

  lemma FreeableTail(a: Area, after: Area, parts: seq<Block>, i: nat)
    requires i < |parts| && Freeable(a, parts[i..]) && Adds(a, after, parts[i])
    ensures Freeable(after, parts[i + 1..])
  {
    forall p: nat {:trigger CoverAll(after, p)} ensures CoverAll(after, p) + Cover(parts[i + 1..], p) <= 1 {
      CoverTail(parts, i, p);
      assert CoverAll(a, p) + Cover(parts[i..], p) <= 1;
    }
    var tail := parts[i + 1..];
    forall j | 0 <= j < |tail| ensures Sized(tail[j]) {
      assert tail[j] == parts[i..][j + 1];
    }
  }

  lemma AddsNext(a: Area, mid: Area, after: Area, parts: seq<Block>, i: nat)
    requires i < |parts| && AddsAll(a, mid, parts[..i]) && Adds(mid, after, parts[i])
    ensures AddsAll(a, after, parts[..i + 1])
  {
    assert parts[..i + 1] == parts[..i] + [parts[i]];
    forall p: nat ensures CoverAll(after, p) == CoverAll(a, p) + Cover(parts[..i + 1], p) {
      CoverSnoc(parts[..i], parts[i], p);
    }
    CoverSnoc(parts[..i], parts[i], 0);
  }

  /** `parts` are sized blocks that together are the pages from `base` on, each once. */
  ghost predicate Tiles(parts: seq<Block>, base: nat, len: nat) {
    && (forall i :: 0 <= i < |parts| ==> Sized(parts[i]))
    && (forall p: nat :: Cover(parts, p) == Hit(Block(base, len, 0), p))
    && Size(parts) == len
  }

  lemma TilesNext(parts: seq<Block>, base: nat, len: nat, b: Block)
    requires Tiles(parts, base, len) && Sized(b) && b.base == base + len
    ensures Tiles(parts + [b], base, len + b.len)
  {
    forall p: nat ensures Cover(parts + [b], p) == Hit(Block(base, len + b.len, 0), p) {
      CoverSnoc(parts, b, p);
    }
    CoverSnoc(parts, b, 0);
  }

  /** The orders fall from block to block, and none is below `k`. */
  predicate Descending(parts: seq<Block>, k: nat) {
    && (forall i :: 0 <= i < |parts| ==> parts[i].order >= k)
    && (forall i, j :: 0 <= i < j < |parts| ==> parts[i].order > parts[j].order)
  }

  /** Cuts a range into blocks, largest first. Each order is used at most once,
      so the eleven-slot scratch array suffices. Fails when metadata runs out. */
  method Split(base: nat, len: nat) returns (ok: bool, parts: seq<Block>)
    requires len < Pow2(MAX_ORDER + 1)
    ensures |parts| <= MAX_ORDER + 1 && Descending(parts, 0)
    ensures ok ==> Tiles(parts, base, len)
  {
    var k: nat, rest := MAX_ORDER + 1, len;
    parts := [];
    while k > 0
      invariant 0 <= rest <= len && rest < Pow2(k)
      invariant |parts| <= MAX_ORDER + 1 - k && Descending(parts, k)
      invariant Tiles(parts, base, len - rest)
    {
      k := k - 1;
      while rest >= Pow2(k)
        invariant 0 <= rest <= len && rest < 2 * Pow2(k)
        invariant |parts| <= MAX_ORDER - k + if rest >= Pow2(k) then 0 else 1
        invariant Descending(parts, if rest >= Pow2(k) then k + 1 else k)
        invariant Tiles(parts, base, len - rest)
        decreases rest
      {
        if * { return false, parts; }
        var b := Block(base + (len - rest), Pow2(k), k);
        TilesNext(parts, base, len - rest, b);
        parts := parts + [b];
        rest := rest - Pow2(k);
      }
    }
    assert rest == 0 by { assert Pow2(0) == 1; }
    ok := true;
  }

  /** Taking the lowest block off a list. */
  lemma TakeFirst(a: Area, k: nat)
    requires AreaOk(a) && k <= MAX_ORDER && a[k] != []
    ensures AreaOk(a[k := a[k][1..]]) && Sized(a[k][0]) && a[k][0].order == k && Adds(a[k := a[k][1..]], a, a[k][0])
  {
    var l := a[k];
    assert l[..0] + l[1..] == l[1..] && l[0..1] == [l[0]];
    assert ListOk(l, k, -1);
    CutOk(l, k, -1, 0, 1);
    assert Placed(l[1..], 0, l[0]) == l && a[k := l[1..]][k := l] == a;
    InsertAdds(a[k := l[1..]], 0, l[0]);
  }

  /** What is left of a block after its front is cut off can be freed. */
  lemma RestFreeable(rest: Area, a: Area, b: Block, n: nat, parts: seq<Block>)
    requires Once(a) && Adds(rest, a, b) && n <= b.len && Tiles(parts, b.base + n, b.len - n)
    ensures Freeable(rest, parts)
  {
    forall p: nat {:trigger CoverAll(rest, p)} ensures CoverAll(rest, p) + Cover(parts, p) <= 1 {
      assert CoverAll(a, p) <= 1;
    }
  }

  lemma FrontTaken(rest: Area, a: Area, after: Area, b: Block, n: nat, k: nat, parts: seq<Block>)
    requires Adds(rest, a, b) && n <= b.len && Tiles(parts, b.base + n, b.len - n) && AddsAll(rest, after, parts)
    ensures Adds(after, a, Block(b.base, n, k))
  {
    forall p: nat ensures CoverAll(a, p) == CoverAll(after, p) + Hit(Block(b.base, n, k), p) {
      assert Cover(parts, p) == Hit(Block(b.base + n, b.len - n, 0), p);
    }
  }

  lemma OnceKept(a: Area, after: Area, b: Block)
    requires Adds(a, after, b) && Once(after)
    ensures Once(a)
  {
    forall p: nat ensures CoverAll(a, p) <= 1 {
      assert CoverAll(after, p) == CoverAll(a, p) + Hit(b, p) && CoverAll(after, p) <= 1;
    }
  }

  /** The smallest order, from `order` up, that has a free block; one past the
      maximum when there is none. */
  function Fit(a: Area, order: nat): (k: nat)
    ensures order <= k && (order <= |a| ==> k <= |a|)
    ensures forall j :: order <= j < k && j < |a| ==> a[j] == []
    ensures k < |a| ==> a[k] != []
    decreases |a| - order
  {
    if order >= |a| || a[order] != [] then order else Fit(a, order + 1)
  }

  /** What a zone holds: its lists, its page total and its free page count. */
  datatype Books = Books(area: Area, pages: nat, freePages: nat)

  ghost predicate BooksOk(v: Books) {
    AreaOk(v.area) && Once(v.area) && v.freePages == SizeAll(v.area)
  }

  function EmptyArea(): Area { [[], [], [], [], [], [], [], [], [], [], []] }

  lemma {:induction false} NothingFree(a: Area, p: nat)
    requires forall i :: 0 <= i < |a| ==> a[i] == []
    ensures CoverAll(a, p) == 0 && SizeAll(a) == 0
  {
    if a != [] {
      NothingFree(a[..|a| - 1], p);
    }
  }

  lemma EmptyAreaOk()
    ensures BooksOk(Books(EmptyArea(), 0, 0)) && forall p: nat :: CoverAll(EmptyArea(), p) == 0
  {
    forall p: nat ensures CoverAll(EmptyArea(), p) == 0 {
      NothingFree(EmptyArea(), p);
    }
    NothingFree(EmptyArea(), 0);
  }

  class Zone {
    var area: Area
    var pages: nat
    var freePages: nat

    constructor ()
      ensures View() == Books(EmptyArea(), 0, 0) && Valid()
    {
      area := EmptyArea();
      pages := 0;
      freePages := 0;
      new;
      EmptyAreaOk();
    }

    function View(): Books
      reads this
    {
      Books(area, pages, freePages)
    }

    ghost predicate Valid()
      reads this
    {
      BooksOk(View())
    }

    method Merge(k: nat, i: nat)
      requires SeamOk(area, k, i) && Once(area)
      modifies `area
      ensures AreaOk(area) && SamePages(old(area), area)
      decreases MAX_ORDER - k, 0
    {
      if k >= MAX_ORDER {
        SeamClosed(area[k], k, i);
        return;
      }
      var l := area[k];
      if i + 1 < |l| && l[i].base + l[i].len == l[i + 1].base {
        PairLeaves(area, k, i, i);
        area := area[k := Dropped(l, i, i + 2)];
        BaseFree(Block(l[i].base, l[i].len + l[i + 1].len, l[i].order + 1));
      } else if i > 0 && l[i - 1].base + l[i - 1].len == l[i].base {
        PairLeaves(area, k, i - 1, i);
        area := area[k := Dropped(l, i - 1, i + 1)];
        BaseFree(Block(l[i - 1].base, l[i - 1].len + l[i].len, l[i - 1].order + 1));
      } else {
        SeamClosed(l, k, i);
      }
    }

    method BaseFree(b: Block)
      requires AreaOk(area) && Once(area) && Sized(b) && Clear(area, b)
      modifies `area
      ensures AreaOk(area) && Adds(old(area), area, b)
      decreases MAX_ORDER - b.order, 1
    {
      var l := area[b.order];
      var i := Slot(l, b.base);
      assert ListOk(l, b.order, -1);
      InsertPlaces(area, i, b);
      area := area[b.order := Placed(l, i, b)];
      Merge(b.order, i);
    }

    method FreeParts(parts: seq<Block>)
      requires AreaOk(area) && Freeable(area, parts)
      modifies `area
      ensures AreaOk(area) && AddsAll(old(area), area, parts)
    {
      assert parts[0..] == parts && parts[..|parts|] == parts && parts[..0] == [];
      AddsNone(area);
      for i := 0 to |parts|
        invariant AreaOk(area) && Freeable(area, parts[i..]) && AddsAll(old(area), area, parts[..i])
      {
        ghost var before := area;
        FreeableHead(area, parts, i);
        BaseFree(parts[i]);
        FreeableTail(before, area, parts, i);
        AddsNext(old(area), before, area, parts, i);
      }
    }

    method NewFree(b: Block)
      requires Valid() && Sized(b) && Clear(area, b)
      modifies this
      ensures Valid() && Adds(old(area), area, b)
      ensures pages == old(pages) + b.len && freePages == old(freePages) + b.len
    {
      BaseFree(b);
      pages := pages + Pow2(b.order);
      freePages := freePages + Pow2(b.order);
    }

    method Free(b: Block)
      requires Valid() && Sized(b) && Clear(area, b)
      modifies this
      ensures Valid() && Adds(old(area), area, b)
      ensures pages == old(pages) && freePages == old(freePages) + b.len
    {
      BaseFree(b);
      freePages := freePages + Pow2(b.order);
    }

    /** Takes the lowest block of the smallest sufficient order and gives back
        what it does not need; a failure leaves the zone exactly as it was. */
    method Alloc(order: nat) returns (r: Option<Block>, starved: bool)
      requires Valid()
      modifies this
      ensures Valid() && pages == old(pages)
      ensures r.None? <==> starved || Fit(old(area), order) > MAX_ORDER
      ensures starved ==> order < Fit(old(area), order) <= MAX_ORDER
      ensures r.None? ==> area == old(area) && freePages == old(freePages)
      ensures r.Some? ==> Sized(r.value) && r.value.order == order && Adds(area, old(area), r.value)
      ensures r.Some? ==> r.value.base == old(area)[Fit(old(area), order)][0].base
      ensures r.Some? ==> freePages == old(freePages) - r.value.len
    {
      var k := FindFit(area, order);
      if k > MAX_ORDER {
        r, starved := None, false;
      } else {
        r := Take(k, order);
        starved := r.None?;
      }
    }

    /** Allocates from the first block of list `k`. */
    method Take(k: nat, order: nat) returns (r: Option<Block>)
      requires Valid() && order <= k <= MAX_ORDER && area[k] != []
      modifies `area, `freePages
      ensures Valid()
      ensures r.None? ==> k > order && area == old(area) && freePages == old(freePages)
      ensures r.Some? ==> r.value == Block(old(area)[k][0].base, Pow2(order), order)
      ensures r.Some? ==> Adds(area, old(area), r.value) && freePages == old(freePages) - r.value.len
    {
      ghost var a := area;
      TakeFirst(area, k);
      var b, rest := area[k][0], area[k][1..];
      area := area[k := rest];
      var ok := true;
      if k > order {
        ok := Carve(b, order, a);
      }
      if ok {
        r := Some(Block(b.base, Pow2(order), order));
        OnceKept(area, a, r.value);
        freePages := freePages - Pow2(order);
      } else {
        r := None;
        assert ListOk(a[k], k, -1);
        Reinsert(b);
        assert [b] + rest == a[k];
        assert area == a;
      }
    }

    /** Frees all of a taken block but its front; `whole` is the zone as it was
        with the block in it. */
    method Carve(b: Block, order: nat, ghost whole: Area) returns (ok: bool)
      requires AreaOk(area) && Once(whole) && Adds(area, whole, b) && Sized(b) && order < b.order
      modifies `area
      ensures !ok ==> area == old(area)
      ensures ok ==> AreaOk(area) && Adds(area, whole, Block(b.base, Pow2(order), order))
    {
      Pow2Monotone(order, b.order);
      Pow2Monotone(b.order, MAX_ORDER + 1);
      var parts;
      var front := Pow2(order);
      ok, parts := Split(b.base + front, b.len - front);
      if ok {
        RestFreeable(area, whole, b, front, parts);
        FreeParts(parts);
        FrontTaken(old(area), whole, area, b, front, order, parts);
      }
    }

    /** Puts a block back at its sorted place, without merging. */
    method Reinsert(b: Block)
      requires |area| == MAX_ORDER + 1 && b.order <= MAX_ORDER
      modifies `area
      ensures (forall j :: 0 <= j < |old(area)[b.order]| ==> old(area)[b.order][j].base > b.base) ==>
        area == old(area)[b.order := [b] + old(area)[b.order]]
    {
      var l := area[b.order];
      var i := Slot(l, b.base);
      assert i > 0 ==> l[0].base <= b.base;
      assert i == 0 ==> Placed(l, i, b) == [b] + l;
      area := area[b.order := Placed(l, i, b)];
    }
  }

  method FindFit(a: Area, order: nat) returns (k: nat)
    requires |a| == MAX_ORDER + 1
    ensures k == Fit(a, order)
  {
    k := order;
    while k <= MAX_ORDER && a[k] == []
      invariant Fit(a, order) == Fit(a, k)
      decreases MAX_ORDER + 1 - k
    {
      k := k + 1;
    }
  }

  /** The index of the first block above `base`. */
  method Slot(l: seq<Block>, base: nat) returns (i: nat)
    ensures i <= |l| && forall j :: 0 <= j < i ==> l[j].base <= base
    ensures i < |l| ==> l[i].base > base
  {
    i := 0;
    while i < |l| && l[i].base <= base
      invariant i <= |l| && forall j :: 0 <= j < i ==> l[j].base <= base
    {
      i := i + 1;
    }
  }
}

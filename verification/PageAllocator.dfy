/**
 The physical page allocator: three zones, the list of allocated blocks, and
 the two calls that move blocks between them.
 */
module PageAllocator {
  import opened Common
  import opened BuddyLists
  import opened BuddyZone

  const ZONES := 3

  datatype Held = Held(zone: nat, block: Block)

  /** The allocated blocks of one zone. */
  function Blocks(held: seq<Held>, z: nat): seq<Block> {
    if held == [] then []
    else
      var last := held[|held| - 1];
      Blocks(held[..|held| - 1], z) + if last.zone == z then [last.block] else []
  }

  lemma {:induction false} BlocksConcat(l: seq<Held>, m: seq<Held>, z: nat)
    ensures Blocks(l + m, z) == Blocks(l, z) + Blocks(m, z)
  {
    if m == [] {
      assert l + m == l;
    } else {
      BlocksConcat(l, m[..|m| - 1], z);
      assert (l + m)[..|l + m| - 1] == l + m[..|m| - 1];
    }
  }

  lemma BlocksOne(h: Held, z: nat)
    ensures Blocks([h], z) == if h.zone == z then [h.block] else []
  {
    assert [h][..0] == [];
  }

  function Without(held: seq<Held>, i: nat): seq<Held>
    requires i < |held|
  {
    held[..i] + held[i + 1..]
  }

  lemma BlocksWithout(held: seq<Held>, i: nat, z: nat, p: nat)
    requires i < |held|
    ensures held[i].zone != z ==> Blocks(Without(held, i), z) == Blocks(held, z)
    ensures held[i].zone == z ==>
      && Cover(Blocks(held, z), p) == Cover(Blocks(Without(held, i), z), p) + Hit(held[i].block, p)
      && Size(Blocks(held, z)) == Size(Blocks(Without(held, i), z)) + held[i].block.len
  {
    var pre, post := held[..i], held[i + 1..];
    assert held == pre + ([held[i]] + post);
    BlocksConcat(pre, [held[i]] + post, z);
    BlocksConcat([held[i]], post, z);
    BlocksConcat(pre, post, z);
    BlocksOne(held[i], z);
    if held[i].zone == z {
      var l, x := Blocks(pre, z), Blocks(post, z);
      PutIn(l + x, |l|, held[i].block, p);
      assert (l + x)[..|l|] + [held[i].block] + (l + x)[|l|..] == l + ([held[i].block] + x);
    }
  }

  /** Every page of the zone is in exactly one free or allocated block, and no
      other page is in any. */
  ghost predicate Balanced(a: Area, used: seq<Block>, pages: iset<nat>) {
    forall p: nat {:trigger CoverAll(a, p)} :: CoverAll(a, p) + Cover(used, p) == if p in pages then 1 else 0
  }

  lemma TakeBalances(a: Area, after: Area, used: seq<Block>, b: Block, pages: iset<nat>)
    requires Balanced(a, used, pages) && Adds(after, a, b)
    ensures Balanced(after, used + [b], pages)
  {
    forall p: nat {:trigger CoverAll(after, p)}
      ensures CoverAll(after, p) + Cover(used + [b], p) == if p in pages then 1 else 0
    {
      CoverSnoc(used, b, p);
      assert CoverAll(a, p) == CoverAll(after, p) + Hit(b, p);
    }
  }

  /** `used` is `rest` and the block `b`. */
  ghost predicate Extra(used: seq<Block>, rest: seq<Block>, b: Block) {
    forall p: nat :: Cover(used, p) == Cover(rest, p) + Hit(b, p)
  }

  lemma GiveBalances(a: Area, after: Area, used: seq<Block>, rest: seq<Block>, b: Block, pages: iset<nat>)
    requires Balanced(a, used, pages) && Extra(used, rest, b)
    ensures Clear(a, b)
    ensures Adds(a, after, b) ==> Balanced(after, rest, pages)
  {
    forall p: nat ensures Hit(b, p) + CoverAll(a, p) + Cover(rest, p) == if p in pages then 1 else 0 {
      assert CoverAll(a, p) + Cover(used, p) == if p in pages then 1 else 0;
    }
    forall p: nat | In(b, p) ensures CoverAll(a, p) == 0 {
      assert Hit(b, p) == 1;
    }
  }

  /** The books of a zone agree with its share of the allocated list. */
  ghost predicate Fine(v: Books, used: seq<Block>, pages: iset<nat>) {
    BooksOk(v) && Balanced(v.area, used, pages) && v.pages == v.freePages + Size(used)
  }

  lemma TakeKeeps(v: Books, after: Books, used: seq<Block>, b: Block, pages: iset<nat>)
    requires Fine(v, used, pages) && BooksOk(after) && Adds(after.area, v.area, b)
    requires after.pages == v.pages && after.freePages == v.freePages - b.len
    ensures Fine(after, used + [b], pages)
  {
    TakeBalances(v.area, after.area, used, b, pages);
    CoverSnoc(used, b, 0);
  }

  lemma BlocksAppend(held: seq<Held>, h: Held, z: nat)
    ensures Blocks(held + [h], z) == if h.zone == z then Blocks(held, z) + [h.block] else Blocks(held, z)
  {
    BlocksConcat(held, [h], z);
    BlocksOne(h, z);
  }

  /** Every zone's books agree with the allocated list, and the zones own
      different pages. */
  ghost predicate AllFine(vs: seq<Books>, held: seq<Held>, owned: seq<iset<nat>>) {
    && |vs| == |owned| == ZONES
    && (forall y, z :: 0 <= y < z < ZONES ==> owned[y] !! owned[z])
    && (forall i :: 0 <= i < |held| ==> held[i].zone < ZONES && Sized(held[i].block))
    && (forall z {:trigger owned[z]} :: 0 <= z < ZONES ==> Fine(vs[z], Blocks(held, z), owned[z]))
  }

  lemma AllocKeeps(vs: seq<Books>, z: nat, after: Books, held: seq<Held>, b: Block, owned: seq<iset<nat>>)
    requires AllFine(vs, held, owned) && z < ZONES && Sized(b)
    requires BooksOk(after) && Adds(after.area, vs[z].area, b)
    requires after.pages == vs[z].pages && after.freePages == vs[z].freePages - b.len
    ensures AllFine(vs[z := after], held + [Held(z, b)], owned)
  {
    var more := held + [Held(z, b)];
    forall y {:trigger owned[y]} | 0 <= y < ZONES ensures Fine(vs[z := after][y], Blocks(more, y), owned[y]) {
      assert Fine(vs[y], Blocks(held, y), owned[y]);
      BlocksAppend(held, Held(z, b), y);
      if y == z { TakeKeeps(vs[z], after, Blocks(held, z), b, owned[z]); }
    }
  }

  lemma FreeKeeps(vs: seq<Books>, after: Books, held: seq<Held>, i: nat, owned: seq<iset<nat>>)
    requires AllFine(vs, held, owned) && i < |held|
    ensures Clear(vs[held[i].zone].area, held[i].block)
    ensures
      && BooksOk(after) && Adds(vs[held[i].zone].area, after.area, held[i].block)
      && after.pages == vs[held[i].zone].pages && after.freePages == vs[held[i].zone].freePages + held[i].block.len
      ==> AllFine(vs[held[i].zone := after], Without(held, i), owned)
  {
    var z, b, fewer := held[i].zone, held[i].block, Without(held, i);
    assert Fine(vs[z], Blocks(held, z), owned[z]);
    forall p: nat ensures Cover(Blocks(held, z), p) == Cover(Blocks(fewer, z), p) + Hit(b, p) {
      BlocksWithout(held, i, z, p);
    }
    GiveBalances(vs[z].area, after.area, Blocks(held, z), Blocks(fewer, z), b, owned[z]);
    if && BooksOk(after) && Adds(vs[z].area, after.area, b)
       && after.pages == vs[z].pages && after.freePages == vs[z].freePages + b.len
    {
      forall y {:trigger owned[y]} | 0 <= y < ZONES ensures Fine(vs[z := after][y], Blocks(fewer, y), owned[y]) {
        assert Fine(vs[y], Blocks(held, y), owned[y]);
        BlocksWithout(held, i, y, 0);
      }
    }
  }

  /** Where a block is: on a free list or on the allocated list. */
  datatype Spot = Free(zone: nat, order: nat, index: nat) | Used(index: nat)

  predicate IsSpot(vs: seq<Books>, held: seq<Held>, s: Spot) {
    match s
    case Free(z, k, n) => z < |vs| && k < |vs[z].area| && n < |vs[z].area[k]|
    case Used(i) => i < |held| && held[i].zone < |vs|
  }

  function BlockAt(vs: seq<Books>, held: seq<Held>, s: Spot): Block
    requires IsSpot(vs, held, s)
  {
    match s
    case Free(z, k, n) => vs[z].area[k][n]
    case Used(i) => held[i].block
  }

  function ZoneAt(vs: seq<Books>, held: seq<Held>, s: Spot): nat
    requires IsSpot(vs, held, s)
  {
    match s
    case Free(z, _, _) => z
    case Used(i) => held[i].zone
  }

  lemma FreeCounts(a: Area, k: nat, n: nat, p: nat)
    requires k < |a| && n < |a[k]| && In(a[k][n], p)
    ensures CoverAll(a, p) >= 1
  {
    CoverAtLeast(a[k], n, p);
    CoverUpdate(a, k, [], p);
  }

  lemma FreeCountsTwice(a: Area, k: nat, n: nat, k': nat, n': nat, p: nat)
    requires k < |a| && n < |a[k]| && In(a[k][n], p)
    requires k' < |a| && n' < |a[k']| && In(a[k'][n'], p)
    requires k != k' || n != n'
    ensures CoverAll(a, p) >= 2
  {
    CoverUpdate(a, k, [], p);
    if k == k' {
      CoverTwo(a[k], if n < n' then n else n', if n < n' then n' else n, p);
    } else {
      CoverAtLeast(a[k], n, p);
      FreeCounts(a[k := []], k', n', p);
    }
  }

  lemma UsedCounts(held: seq<Held>, i: nat, p: nat)
    requires i < |held| && In(held[i].block, p)
    ensures Cover(Blocks(held, held[i].zone), p) >= 1
  {
    BlocksWithout(held, i, held[i].zone, p);
  }

  lemma UsedCountsTwice(held: seq<Held>, i: nat, j: nat, p: nat)
    requires i < j < |held| && held[i].zone == held[j].zone && In(held[i].block, p) && In(held[j].block, p)
    ensures Cover(Blocks(held, held[i].zone), p) >= 2
  {
    BlocksWithout(held, j, held[i].zone, p);
    assert Without(held, j)[i] == held[i];
    UsedCounts(Without(held, j), i, p);
  }

  /** Every block, free or allocated, has its order's size and lies in its own
      zone's pages. */
  lemma BlocksStayInZone(vs: seq<Books>, held: seq<Held>, owned: seq<iset<nat>>, s: Spot, p: nat)
    requires AllFine(vs, held, owned) && IsSpot(vs, held, s)
    ensures Sized(BlockAt(vs, held, s))
    ensures In(BlockAt(vs, held, s), p) ==> p in owned[ZoneAt(vs, held, s)]
  {
    var z := ZoneAt(vs, held, s);
    assert Fine(vs[z], Blocks(held, z), owned[z]);
    assert CoverAll(vs[z].area, p) + Cover(Blocks(held, z), p) == if p in owned[z] then 1 else 0;
    match s
    case Free(_, k, n) =>
      assert ListOk(vs[z].area[k], k, -1);
      if In(vs[z].area[k][n], p) { FreeCounts(vs[z].area, k, n, p); }
    case Used(i) =>
      if In(held[i].block, p) { UsedCounts(held, i, p); }
  }

  /** No page is in two blocks, wherever the two are listed. */
  lemma BlocksAreDisjoint(vs: seq<Books>, held: seq<Held>, owned: seq<iset<nat>>, s: Spot, t: Spot, p: nat)
    requires AllFine(vs, held, owned) && IsSpot(vs, held, s) && IsSpot(vs, held, t) && s != t
    ensures !(In(BlockAt(vs, held, s), p) && In(BlockAt(vs, held, t), p))
  {
    if In(BlockAt(vs, held, s), p) && In(BlockAt(vs, held, t), p) {
      var z := ZoneAt(vs, held, s);
      BlocksStayInZone(vs, held, owned, s, p);
      BlocksStayInZone(vs, held, owned, t, p);
      assert z == ZoneAt(vs, held, t);
      assert Fine(vs[z], Blocks(held, z), owned[z]);
      assert CoverAll(vs[z].area, p) + Cover(Blocks(held, z), p) == 1;
      match (s, t)
      case (Free(_, k, n), Free(_, k', n')) => FreeCountsTwice(vs[z].area, k, n, k', n', p);
      case (Used(i), Used(j)) => UsedCountsTwice(held, if i < j then i else j, if i < j then j else i, p);
      case (Free(_, k, n), Used(i)) => FreeCounts(vs[z].area, k, n, p); UsedCounts(held, i, p);
      case (Used(i), Free(_, k, n)) => FreeCounts(vs[z].area, k, n, p); UsedCounts(held, i, p);
    }
  }

  /** An address names at most one allocated block. */
  lemma BasesAreUnique(vs: seq<Books>, held: seq<Held>, owned: seq<iset<nat>>, i: nat, j: nat)
    requires AllFine(vs, held, owned) && i < |held| && j < |held| && held[i].block.base == held[j].block.base
    ensures i == j
  {
    assert Sized(held[i].block) && Sized(held[j].block);
    if i != j {
      BlocksAreDisjoint(vs, held, owned, Used(i), Used(j), held[i].block.base);
    }
  }

  /** The whole allocator: the three zones' books, the allocated list and the
      two global counters. */
  datatype Image = Image(zones: seq<Books>, held: seq<Held>, nrPages: nat, nrFree: nat)

  ghost predicate ImageOk(s: Image, owned: seq<iset<nat>>) {
    && AllFine(s.zones, s.held, owned)
    && s.nrPages == s.zones[0].pages + s.zones[1].pages + s.zones[2].pages
    && s.nrFree == s.zones[0].freePages + s.zones[1].freePages + s.zones[2].freePages
  }

  ghost predicate ZoneTakes(v: Books, after: Books, b: Block) {
    && Sized(b) && BooksOk(after) && Adds(after.area, v.area, b)
    && after.pages == v.pages && after.freePages + b.len == v.freePages
  }

  ghost predicate ZoneGives(v: Books, after: Books, b: Block) {
    && BooksOk(after) && Adds(v.area, after.area, b)
    && after.pages == v.pages && after.freePages == v.freePages + b.len
  }

  /** Block `b` of zone `z` moves from the free lists to the allocated list. */
  ghost predicate Takes(s: Image, t: Image, z: nat, b: Block) {
    && |s.zones| == |t.zones| == ZONES && z < ZONES
    && ZoneTakes(s.zones[z], t.zones[z], b)
    && t.zones == s.zones[z := t.zones[z]] && t.held == s.held + [Held(z, b)]
    && t.nrPages == s.nrPages && t.nrFree + b.len == s.nrFree
  }

  lemma TakesKeeps(s: Image, t: Image, z: nat, b: Block, owned: seq<iset<nat>>)
    requires ImageOk(s, owned) && Takes(s, t, z, b)
    ensures ImageOk(t, owned)
  {
    AllocKeeps(s.zones, z, t.zones[z], s.held, b, owned);
  }

  /** The allocated block at index `i` goes back to its zone's free lists. */
  ghost predicate Gives(s: Image, t: Image, i: nat) {
    && |s.zones| == |t.zones| == ZONES && i < |s.held| && s.held[i].zone < ZONES
    && var z := s.held[i].zone;
      && ZoneGives(s.zones[z], t.zones[z], s.held[i].block)
      && t.zones == s.zones[z := t.zones[z]] && t.held == Without(s.held, i)
      && t.nrPages == s.nrPages && t.nrFree == s.nrFree + s.held[i].block.len
  }

  lemma GivesKeeps(s: Image, t: Image, i: nat, owned: seq<iset<nat>>)
    requires ImageOk(s, owned) && Gives(s, t, i)
    ensures ImageOk(t, owned)
  {
    FreeKeeps(s.zones, t.zones[s.held[i].zone], s.held, i, owned);
  }

  /** Freeing a block just allocated brings back the allocated list, the
      counters and every zone's set of free pages. */
  lemma GiveUndoesTake(s: Image, t: Image, u: Image, z: nat, b: Block)
    requires Takes(s, t, z, b) && Gives(t, u, |s.held|)
    ensures u.held == s.held && u.nrPages == s.nrPages && u.nrFree == s.nrFree
    ensures forall y :: 0 <= y < ZONES ==>
      SamePages(s.zones[y].area, u.zones[y].area) && u.zones[y].freePages == s.zones[y].freePages
  {
    assert Without(t.held, |s.held|) == s.held;
  }

  /** Zone by zone the same pages are free. */
  ghost predicate SamePagesAll(vs: seq<Books>, ws: seq<Books>) {
    |vs| == |ws| == ZONES && forall y :: 0 <= y < ZONES ==>
      SamePages(vs[y].area, ws[y].area) && ws[y].freePages == vs[y].freePages
  }

  /** Of the zones from `index` down, the highest that has a block of the order
      or larger; `ZONES` when none has. */
  function Serving(zs: seq<Books>, index: nat, order: nat): (z: nat)
    requires index < |zs| == ZONES
    ensures z <= index || z == ZONES
    ensures z < ZONES ==> Fit(zs[z].area, order) <= MAX_ORDER
    ensures forall y :: 0 <= y <= index && (y > z || z == ZONES) ==> Fit(zs[y].area, order) > MAX_ORDER
  {
    if Fit(zs[index].area, order) <= MAX_ORDER then index
    else if index == 0 then ZONES
    else Serving(zs, index - 1, order)
  }

  lemma FineBooks(s: Image, owned: seq<iset<nat>>, z: nat)
    requires ImageOk(s, owned) && z < ZONES
    ensures BooksOk(s.zones[z]) && s.zones[z].freePages <= s.nrFree
  {
    assert Fine(s.zones[z], Blocks(s.held, z), owned[z]);
  }

  /** A zone with fewer free pages than asked for has no fitting block. */
  lemma TooFewPages(v: Books, order: nat)
    requires BooksOk(v) && order <= MAX_ORDER && v.freePages < Pow2(order)
    ensures Fit(v.area, order) > MAX_ORDER
  {
    var k := Fit(v.area, order);
    if k <= MAX_ORDER {
      var l := v.area[k];
      assert ListOk(l, k, -1) && Sized(l[|l| - 1]);
      SizeUpdate(v.area, k, []);
      Pow2Monotone(order, k);
    }
  }

  ghost function PagesOf(b: Block): iset<nat> { iset p: nat | In(b, p) }

  /** A block of pages nobody owned joins zone `z`. */
  ghost predicate Grows(s: Image, t: Image, z: nat, b: Block) {
    && |s.zones| == |t.zones| == ZONES && z < ZONES
    && BooksOk(t.zones[z]) && Adds(s.zones[z].area, t.zones[z].area, b)
    && t.zones[z].pages == s.zones[z].pages + b.len && t.zones[z].freePages == s.zones[z].freePages + b.len
    && t.zones == s.zones[z := t.zones[z]] && t.held == s.held
    && t.nrPages == s.nrPages + b.len && t.nrFree == s.nrFree + b.len
  }

  ghost predicate Unowned(owned: seq<iset<nat>>, b: Block) {
    forall y :: 0 <= y < |owned| ==> owned[y] !! PagesOf(b)
  }

  lemma UnownedClear(s: Image, z: nat, b: Block, owned: seq<iset<nat>>)
    requires ImageOk(s, owned) && z < ZONES && Unowned(owned, b)
    ensures Clear(s.zones[z].area, b)
  {
    assert Fine(s.zones[z], Blocks(s.held, z), owned[z]);
    forall p: nat | In(b, p) ensures CoverAll(s.zones[z].area, p) == 0 {
      assert p in PagesOf(b) && p !in owned[z];
    }
  }

  lemma GrowsKeeps(s: Image, t: Image, z: nat, b: Block, owned: seq<iset<nat>>)
    requires ImageOk(s, owned) && Grows(s, t, z, b) && Unowned(owned, b)
    ensures ImageOk(t, owned[z := owned[z] + PagesOf(b)])
  {
    var more := owned[z := owned[z] + PagesOf(b)];
    forall y {:trigger more[y]} | 0 <= y < ZONES ensures Fine(t.zones[y], Blocks(s.held, y), more[y]) {
      assert Fine(s.zones[y], Blocks(s.held, y), owned[y]);
      if y == z {
        GrowBalances(s.zones[z].area, t.zones[z].area, Blocks(s.held, z), b, owned[z]);
      }
    }
  }

  lemma GrowBalances(a: Area, after: Area, used: seq<Block>, b: Block, pages: iset<nat>)
    requires Balanced(a, used, pages) && Adds(a, after, b) && pages !! PagesOf(b)
    ensures Balanced(after, used, pages + PagesOf(b))
  {
    forall p: nat {:trigger CoverAll(after, p)}
      ensures CoverAll(after, p) + Cover(used, p) == if p in pages + PagesOf(b) then 1 else 0
    {
      assert CoverAll(a, p) + Cover(used, p) == if p in pages then 1 else 0;
      assert p in PagesOf(b) <==> In(b, p);
    }
  }

  datatype Request = Alloc(order: nat, index: nat) | Release(addr: nat)

  /** A block of a zone or none, and whether metadata ran out on the way; or the
      place on the allocated list of the block that was freed. */
  datatype Reply = Got(zone: nat, block: Block, starved: bool) | NotGot(starved: bool) | Freed(at: nat) | Ignored

  /** The allocated block that starts at an address. */
  predicate HeldAt(held: seq<Held>, addr: nat, i: nat) {
    addr != 0 && i < |held| && held[i].block.base * PAGE_SIZE == addr
  }

  /** What a request does and answers. */
  ghost predicate Serves(s: Image, q: Request, a: Reply, t: Image)
    requires |s.zones| == ZONES && (q.Alloc? ==> q.index < ZONES)
  {
    match q
    case Alloc(order, index) =>
      if a.Got? then
        && order <= MAX_ORDER && a.zone <= index && a.block.order == order && Takes(s, t, a.zone, a.block)
        && (!a.starved ==> a.zone == Serving(s.zones, index, order))
      else a.NotGot? && t == s && (order <= MAX_ORDER && !a.starved ==> Serving(s.zones, index, order) == ZONES)
    case Release(addr) =>
      if a.Freed? then HeldAt(s.held, addr, a.at) && Gives(s, t, a.at)
      else a.Ignored? && t == s && forall i :: 0 <= i < |s.held| ==> !HeldAt(s.held, addr, i)
  }

  /** Through the states `ss` every request is served. */
  ghost predicate AllServed(ss: seq<Image>, qs: seq<Request>, replies: seq<Reply>) {
    && |replies| == |qs| && |ss| == |qs| + 1 && (forall i :: 0 <= i < |ss| ==> |ss[i].zones| == ZONES)
    && (forall i :: 0 <= i < |qs| && qs[i].Alloc? ==> qs[i].index < ZONES)
    && forall i :: 0 <= i < |qs| ==> ServedAt(ss, qs, replies, i)
  }

  ghost predicate ServedAt(ss: seq<Image>, qs: seq<Request>, replies: seq<Reply>, i: nat)
    requires i < |qs| == |replies| && |ss| == |qs| + 1 && |ss[i].zones| == ZONES
             && (qs[i].Alloc? ==> qs[i].index < ZONES)
  {
    Serves(ss[i], qs[i], replies[i], ss[i + 1])
  }

  lemma ServedNext(ss: seq<Image>, qs: seq<Request>, replies: seq<Reply>, n: nat, a: Reply, t: Image)
    requires n < |qs| && AllServed(ss, qs[..n], replies) && (qs[n].Alloc? ==> qs[n].index < ZONES)
    requires |t.zones| == ZONES && Serves(ss[n], qs[n], a, t)
    ensures AllServed(ss + [t], qs[..n + 1], replies + [a])
  {
    var us, rs, answers := ss + [t], qs[..n + 1], replies + [a];
    forall i | 0 <= i < n + 1 ensures ServedAt(us, rs, answers, i) {
      if i < n { assert ServedAt(ss, qs[..n], replies, i) && rs[i] == qs[..n][i]; }
    }
  }

  class Allocator {
    const zones: seq<Zone>
    var held: seq<Held>
    var nrPages: nat
    var nrFree: nat
    ghost var owned: seq<iset<nat>>

    predicate Wired() { |zones| == ZONES && zones[0] != zones[1] && zones[0] != zones[2] && zones[1] != zones[2] }

    constructor ()
      ensures Valid() && held == [] && nrPages == nrFree == 0 && owned == [iset{}, iset{}, iset{}]
      ensures fresh(zones)
    {
      var dma := new Zone();
      var dma32 := new Zone();
      var normal := new Zone();
      zones := [dma, dma32, normal];
      held, nrPages, nrFree := [], 0, 0;
      owned := [iset{}, iset{}, iset{}];
      EmptyAreaOk();
    }

    function Views(): seq<Books>
      requires Wired()
      reads zones
    {
      [zones[0].View(), zones[1].View(), zones[2].View()]
    }

    function Img(): Image
      requires Wired()
      reads this, zones
    {
      Image(Views(), held, nrPages, nrFree)
    }

    ghost predicate Valid()
      reads this, zones
    {
      Wired() && ImageOk(Img(), owned)
    }

    method ZoneAlloc(z: nat, order: nat) returns (r: Option<Block>, starved: bool)
      requires Wired() && z < ZONES && BooksOk(Views()[z])
      modifies zones[z]
      ensures Views() == old(Views())[z := Views()[z]]
      ensures r.None? <==> starved || Fit(old(Views())[z].area, order) > MAX_ORDER
      ensures r.None? ==> Views()[z] == old(Views())[z]
      ensures r.Some? ==> r.value.order == order && ZoneTakes(old(Views())[z], Views()[z], r.value)
    {
      assert Views()[z] == zones[z].View();
      r, starved := zones[z].Alloc(order);
      assert Views()[z] == zones[z].View();
    }

    /** One zone's attempt, and the entry in the allocated list. */
    method TryZone(z: nat, order: nat) returns (r: Option<Block>, starved: bool)
      requires Wired() && z < ZONES && BooksOk(Views()[z]) && Views()[z].freePages <= nrFree
      modifies `held, `nrFree, zones[z]
      ensures r.None? <==> starved || Fit(old(Img()).zones[z].area, order) > MAX_ORDER
      ensures r.None? ==> Img() == old(Img())
      ensures r.Some? ==> r.value.order == order && Takes(old(Img()), Img(), z, r.value)
    {
      r, starved := ZoneAlloc(z, order);
      if r.Some? {
        held := held + [Held(z, r.value)];
        nrFree := nrFree - r.value.len;
      }
    }

    /** Serves a request from the highest zone, from `index` down, that has a
        fitting block; only a shortage of metadata can make it differ. */
    method AllocOrder(order: nat, index: nat) returns (r: Option<Block>, z: nat, starved: bool)
      requires Valid() && index < ZONES
      modifies this, zones
      ensures Valid() && owned == old(owned)
      ensures r.None? ==> Img() == old(Img())
      ensures r.Some? ==> z <= index && r.value.order == order && Takes(old(Img()), Img(), z, r.value)
      ensures order > MAX_ORDER ==> r.None?
      ensures order <= MAX_ORDER && !starved ==>
        if r.Some? then z == Serving(old(Img()).zones, index, order)
          else Serving(old(Img()).zones, index, order) == ZONES
    {
      r, z, starved := None, index, false;
      if order <= MAX_ORDER {
        z := SkipShort(order, index);
        if zones[z].freePages >= Pow2(order) {
          r, z, starved := TryDown(order, z, Img());
        }
      }
    }

    /** Steps over zones with too few free pages. */
    method SkipShort(order: nat, index: nat) returns (z: nat)
      requires Valid() && index < ZONES && order <= MAX_ORDER
      ensures z <= index && (z == 0 || zones[z].freePages >= Pow2(order))
      ensures zones[z].freePages < Pow2(order) ==> Serving(Views(), index, order) == ZONES
      ensures Serving(Views(), index, order) == Serving(Views(), z, order)
    {
      z := index;
      while z > 0 && zones[z].freePages < Pow2(order)
        invariant z <= index && Serving(Views(), index, order) == Serving(Views(), z, order)
      {
        FineBooks(Img(), owned, z);
        assert Views()[z] == zones[z].View();
        TooFewPages(Views()[z], order);
        z := z - 1;
      }
      if zones[z].freePages < Pow2(order) {
        FineBooks(Img(), owned, 0);
        TooFewPages(Views()[0], order);
      }
    }

    method TryDown(order: nat, index: nat, ghost s: Image) returns (r: Option<Block>, z: nat, starved: bool)
      requires Valid() && s == Img() && index < ZONES && order <= MAX_ORDER
      modifies `held, `nrFree, zones
      ensures Valid()
      ensures r.None? ==> Img() == s
      ensures r.Some? ==> z <= index && r.value.order == order && Takes(s, Img(), z, r.value)
      ensures !starved ==>
        if r.Some? then z == Serving(s.zones, index, order) else Serving(s.zones, index, order) == ZONES
    {
      z := index;
      FineBooks(s, owned, z);
      r, starved := TryZone(z, order);
      while r.None? && z > 0
        invariant z <= index
        invariant r.None? ==> Img() == s
        invariant r.Some? ==> r.value.order == order && Takes(s, Img(), z, r.value)
        invariant !starved ==> Serving(s.zones, index, order) == Serving(s.zones, z, order)
        invariant !starved ==> (r.None? <==> Fit(s.zones[z].area, order) > MAX_ORDER)
        decreases z
      {
        z := z - 1;
        FineBooks(s, owned, z);
        var short;
        r, short := TryZone(z, order);
        starved := starved || short;
      }
      if r.Some? { TakesKeeps(s, Img(), z, r.value, owned); }
      assert r.None? ==> z == 0;
      assert Fit(s.zones[0].area, order) > MAX_ORDER ==> Serving(s.zones, 0, order) == ZONES;
    }

    method ZoneFree(z: nat, b: Block)
      requires Wired() && z < ZONES && BooksOk(Views()[z]) && Sized(b) && Clear(Views()[z].area, b)
      modifies zones[z]
      ensures Views() == old(Views())[z := Views()[z]]
      ensures ZoneGives(old(Views())[z], Views()[z], b)
    {
      assert Views()[z] == zones[z].View();
      zones[z].Free(b);
      assert Views()[z] == zones[z].View();
    }

    method Find(addr: nat) returns (i: nat)
      ensures i <= |held| && (i < |held| ==> held[i].block.base * PAGE_SIZE == addr)
      ensures i == |held| ==> forall j :: 0 <= j < |held| ==> held[j].block.base * PAGE_SIZE != addr
    {
      i := 0;
      while i < |held| && held[i].block.base * PAGE_SIZE != addr
        invariant i <= |held| && forall j :: 0 <= j < i ==> held[j].block.base * PAGE_SIZE != addr
      {
        i := i + 1;
      }
    }

    /** Frees the one allocated block that starts at the address; any other
        address is ignored. */
    method FreeOrder(addr: nat) returns (ghost i: nat)
      requires Valid()
      modifies this, zones
      ensures Valid() && owned == old(owned)
      ensures i < |old(held)| ==> addr == old(held)[i].block.base * PAGE_SIZE && Gives(old(Img()), Img(), i)
      ensures i == |old(held)| ==> Img() == old(Img())
      ensures addr == 0 ==> i == |old(held)|
      ensures i <= |old(held)| && forall j :: 0 <= j < |old(held)| && j != i ==>
                addr == 0 || old(held)[j].block.base * PAGE_SIZE != addr
    {
      i := |held|;
      if addr == 0 { return; }
      ghost var s := Img();
      var n := Find(addr);
      if n == |held| { return; }
      i := n;
      forall j | 0 <= j < |held| && j != n ensures held[j].block.base * PAGE_SIZE != addr {
        if held[j].block.base == held[n].block.base { BasesAreUnique(s.zones, held, owned, n, j); }
      }
      var h := held[n];
      FineBooks(s, owned, h.zone);
      FreeKeeps(s.zones, s.zones[0], held, n, owned);
      held := Without(held, n);
      ZoneFree(h.zone, h.block);
      nrFree := nrFree + h.block.len;
      GivesKeeps(s, Img(), n, owned);
    }

    /** A block allocated and freed by its address leaves no trace but the order
        of the free lists; page 0, if it were ever handed out, would stay. */
    method AllocThenFree(order: nat, index: nat) returns (r: Option<Block>)
      requires Valid() && index < ZONES
      modifies this, zones
      ensures Valid() && owned == old(owned) && nrPages == old(nrPages)
      ensures r.Some? && r.value.base != 0 ==>
                held == old(held) && nrFree == old(nrFree) && SamePagesAll(old(Views()), Views())
      ensures r.Some? && r.value.base == 0 ==> |held| == |old(held)| + 1
    {
      ghost var s := Img();
      var z, starved;
      r, z, starved := AllocOrder(order, index);
      if r.Some? { FreeTaken(r.value, s, z); }
    }

    method FreeTaken(b: Block, ghost s: Image, ghost z: nat)
      requires Valid() && Takes(s, Img(), z, b)
      modifies this, zones
      ensures Valid() && owned == old(owned) && nrPages == s.nrPages
      ensures b.base != 0 ==> held == s.held && nrFree == s.nrFree && SamePagesAll(s.zones, Views())
      ensures b.base == 0 ==> held == s.held + [Held(z, b)]
    {
      ghost var t, n := Img(), |s.held|;
      assert t.held[n] == Held(z, b);
      var i := FreeOrder(b.base * PAGE_SIZE);
      if b.base != 0 {
        assert i < |t.held|;
        BasesAreUnique(t.zones, t.held, owned, i, n);
        GiveUndoesTake(s, t, Img(), z, b);
      }
    }

    method ZoneGrow(z: nat, b: Block)
      requires Wired() && z < ZONES && BooksOk(Views()[z]) && Sized(b) && Clear(Views()[z].area, b)
      modifies zones[z]
      ensures Views() == old(Views())[z := Views()[z]]
      ensures BooksOk(Views()[z]) && Adds(old(Views())[z].area, Views()[z].area, b)
      ensures Views()[z].pages == old(Views())[z].pages + b.len
      ensures Views()[z].freePages == old(Views())[z].freePages + b.len
    {
      assert Views()[z] == zones[z].View();
      zones[z].NewFree(b);
      assert Views()[z] == zones[z].View();
    }

    method Grow(z: nat, b: Block)
      requires Valid() && z < ZONES && Sized(b) && Unowned(owned, b)
      modifies `nrPages, `nrFree, `owned, zones[z]
      ensures Valid() && Grows(old(Img()), Img(), z, b)
      ensures owned == old(owned)[z := old(owned)[z] + PagesOf(b)]
    {
      ghost var s := Img();
      FineBooks(s, owned, z);
      UnownedClear(s, z, b, owned);
      ZoneGrow(z, b);
      nrPages := nrPages + b.len;
      nrFree := nrFree + b.len;
      GrowsKeeps(s, Img(), z, b, owned);
      owned := owned[z := owned[z] + PagesOf(b)];
    }

    /** Whatever is asked for, in whatever order, every request is answered as it
        must be, the zones keep their pages and the counters their meaning. */
    method Run(requests: seq<Request>) returns (replies: seq<Reply>, ghost ss: seq<Image>)
      requires Valid() && forall i :: 0 <= i < |requests| && requests[i].Alloc? ==> requests[i].index < ZONES
      modifies this, zones
      ensures Valid() && owned == old(owned) && nrPages == old(nrPages)
      ensures AllServed(ss, requests, replies) && ss[0] == old(Img()) && ss[|requests|] == Img()
    {
      replies, ss := [], [Img()];
      for i := 0 to |requests|
        invariant Valid() && owned == old(owned) && nrPages == old(nrPages)
        invariant AllServed(ss, requests[..i], replies) && ss[0] == old(Img()) && ss[i] == Img()
      {
        ghost var s := Img();
        var a := Serve(requests[i]);
        ServedNext(ss, requests, replies, i, a, Img());
        replies, ss := replies + [a], ss + [Img()];
      }
      assert requests[..|requests|] == requests;
    }

    method Serve(q: Request) returns (a: Reply)
      requires Valid() && (q.Alloc? ==> q.index < ZONES)
      modifies this, zones
      ensures Valid() && owned == old(owned) && nrPages == old(nrPages) && Serves(old(Img()), q, a, Img())
    {
      match q {
        case Alloc(order, index) =>
          var r, z, starved := AllocOrder(order, index);
          a := if r.Some? then Got(z, r.value, starved) else NotGot(starved);
        case Release(addr) =>
          a := ServeRelease(addr);
      }
    }

    method ServeRelease(addr: nat) returns (a: Reply)
      requires Valid()
      modifies this, zones
      ensures Valid() && owned == old(owned) && nrPages == old(nrPages) && Serves(old(Img()), Release(addr), a, Img())
    {
      var n := Find(addr);
      var known := addr != 0 && n < |held|;
      ghost var i := FreeOrder(addr);
      a := if known then Freed(n) else Ignored;
    }
  }
}

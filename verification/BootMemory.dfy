/**
 The boot memory map: every usable region, less the framebuffer, is handed to
 the page allocator.
 */
module BootMemory {
  import opened Common
  import opened BuddyLists
  import opened PageAllocator
  import opened MemoryRegions

  /** A range of physical addresses. */
  datatype Extent = Extent(base: nat, len: nat)

  datatype Region = Region(bytes: Extent, usable: bool)

  predicate Word(x: Extent) { x.base < WORD && x.len < WORD }

  /** The range ends below the top of the address space. */
  predicate Sane(x: Extent) { x.base + x.len < WORD }

  /** The range does not start over at page 0; it may reach the top. */
  predicate Orderly(x: Extent) { Word(x) && (x.base <= WORD - PAGE_SIZE || x.base + x.len < WORD + PAGE_SIZE) }

  /** Such a range contributes no page that is not wholly inside it. */
  lemma OrderlyInside(x: Extent, p: nat)
    requires Orderly(x) && InSpan(x.base, x.len, p)
    ensures Inside(x.base, x.len, p)
  {
    if x.base + x.len < WORD { SpanIsWholePages(x.base, x.len, p); } else { WrappedSpan(x.base, x.len); }
  }

  predicate Has(x: Extent, b: nat) { x.base <= b < x.base + x.len }

  predicate Disjoint(x: Extent, y: Extent) {
    x.base + x.len <= y.base || y.base + y.len <= x.base || x.len == 0 || y.len == 0
  }

  /** Whether two ranges overlap, in 64-bit arithmetic; one that wraps counts as overlapping. */
  predicate Overlap(x: Extent, y: Extent)
    requires Word(x) && Word(y)
  {
    if x.len == 0 || y.len == 0 then false
    else
      var xEnd, yEnd := (x.base + x.len) % WORD, (y.base + y.len) % WORD;
      xEnd < x.base || yEnd < y.base || (x.base < yEnd && y.base < xEnd)
  }

  /** The parts of a region that are handed to the allocator. */
  function Parts(r: Region, screen: Option<Extent>): seq<Extent>
    requires Word(r.bytes) && (screen.Some? ==> Word(screen.value))
  {
    var x := r.bytes;
    if !r.usable then []
    else if screen.None? || !Overlap(x, screen.value) then [x]
    else
      var y := screen.value;
      var xEnd, yEnd := (x.base + x.len) % WORD, (y.base + y.len) % WORD;
      if xEnd < x.base || yEnd < y.base then []
      else
        (if x.base < y.base then [Extent(x.base, y.base - x.base)] else [])
        + (if yEnd < xEnd then [Extent(yEnd, xEnd - yEnd)] else [])
  }

  /** The parts of a usable region are its bytes outside the framebuffer. */
  lemma PartsAreTheRest(r: Region, screen: Option<Extent>, b: nat)
    requires Sane(r.bytes) && (screen.Some? ==> Sane(screen.value))
    ensures (exists x :: x in Parts(r, screen) && Has(x, b)) <==>
            r.usable && Has(r.bytes, b) && !(screen.Some? && Has(screen.value, b))
  {
    if x :| x in Parts(r, screen) && Has(x, b) { PartIsRest(r, screen, x, b); }
    if r.usable && Has(r.bytes, b) && !(screen.Some? && Has(screen.value, b)) { var x := RestIsPart(r, screen, b); }
  }

  lemma PartIsRest(r: Region, screen: Option<Extent>, x: Extent, b: nat)
    requires Sane(r.bytes) && (screen.Some? ==> Sane(screen.value)) && x in Parts(r, screen) && Has(x, b)
    ensures r.usable && Has(r.bytes, b) && !(screen.Some? && Has(screen.value, b))
  {
  }

  lemma RestIsPart(r: Region, screen: Option<Extent>, b: nat) returns (x: Extent)
    requires Sane(r.bytes) && (screen.Some? ==> Sane(screen.value))
    requires r.usable && Has(r.bytes, b) && !(screen.Some? && Has(screen.value, b))
    ensures x in Parts(r, screen) && Has(x, b)
  {
    if screen.None? || !Overlap(r.bytes, screen.value) {
      x := r.bytes;
    } else if b < screen.value.base {
      x := Extent(r.bytes.base, screen.value.base - r.bytes.base);
    } else {
      var end := screen.value.base + screen.value.len;
      x := Extent(end, r.bytes.base + r.bytes.len - end);
    }
  }

  lemma PartsAreOrderly(r: Region, screen: Option<Extent>)
    requires Orderly(r.bytes) && (screen.Some? ==> Word(screen.value))
    ensures forall x :: x in Parts(r, screen) ==> Orderly(x)
    ensures |Parts(r, screen)| <= 2
    ensures |Parts(r, screen)| == 2 ==> Disjoint(Parts(r, screen)[0], Parts(r, screen)[1])
  {
  }

  // Which pages the parts contribute.

  /** Page `p` is usable in one of the parts. */
  ghost predicate Given(parts: seq<Extent>, kernelEnd: nat, p: nat) {
    exists x :: x in parts && Word(x) && Usable(p, Span(x.base, x.len).0, Span(x.base, x.len).1, kernelEnd)
  }

  /** The allocator owns exactly the usable pages of the parts, each in its zone. */
  ghost predicate Owns(owned: seq<iset<nat>>, parts: seq<Extent>, kernelEnd: nat) {
    && |owned| == ZONES && (forall x :: x in parts ==> Orderly(x))
    && forall z: nat, p: nat {:trigger p in owned[z]} :: z < ZONES ==>
         (p in owned[z] <==> Given(parts, kernelEnd, p) && ZoneOf(p) == z)
  }

  /** Parts that share no byte share no page. */
  lemma NoPageTwice(x: Extent, y: Extent, kernelEnd: nat, p: nat)
    requires Orderly(x) && Orderly(y) && Disjoint(x, y)
    requires Usable(p, Span(x.base, x.len).0, Span(x.base, x.len).1, kernelEnd)
    ensures !Usable(p, Span(y.base, y.len).0, Span(y.base, y.len).1, kernelEnd)
  {
    OrderlyInside(x, p);
    if InSpan(y.base, y.len, p) { OrderlyInside(y, p); }
  }

  lemma NextIsVacant(owned: seq<iset<nat>>, parts: seq<Extent>, x: Extent, kernelEnd: nat)
    requires Owns(owned, parts, kernelEnd) && Orderly(x) && forall y :: y in parts ==> Disjoint(y, x)
    ensures Vacant(owned, Span(x.base, x.len).0, Span(x.base, x.len).1, kernelEnd)
  {
    forall z: nat, p: nat {:trigger p in owned[z]} | z < |owned| && p in owned[z]
      ensures !Usable(p, Span(x.base, x.len).0, Span(x.base, x.len).1, kernelEnd)
    {
      var y :| y in parts && Word(y) && Usable(p, Span(y.base, y.len).0, Span(y.base, y.len).1, kernelEnd);
      NoPageTwice(y, x, kernelEnd, p);
    }
  }

  lemma OwnsMore(owned: seq<iset<nat>>, after: seq<iset<nat>>, parts: seq<Extent>, x: Extent, kernelEnd: nat)
    requires Owns(owned, parts, kernelEnd) && Orderly(x)
    requires Gains(owned, after, Span(x.base, x.len).0, Span(x.base, x.len).1, kernelEnd)
    ensures Owns(after, parts + [x], kernelEnd)
  {
    forall z: nat, p: nat {:trigger p in after[z]} | z < ZONES
      ensures p in after[z] <==> Given(parts + [x], kernelEnd, p) && ZoneOf(p) == z
    {
      GivenMore(parts, x, kernelEnd, p);
      assert p in owned[z] <==> Given(parts, kernelEnd, p) && ZoneOf(p) == z;
    }
  }

  lemma GivenMore(parts: seq<Extent>, x: Extent, kernelEnd: nat, p: nat)
    requires (forall y :: y in parts ==> Word(y)) && Word(x)
    ensures Given(parts + [x], kernelEnd, p) <==>
            Given(parts, kernelEnd, p) || Usable(p, Span(x.base, x.len).0, Span(x.base, x.len).1, kernelEnd)
  {
    if Given(parts, kernelEnd, p) {
      var y :| y in parts && Word(y) && Usable(p, Span(y.base, y.len).0, Span(y.base, y.len).1, kernelEnd);
      assert y in parts + [x];
    }
    assert x in parts + [x];
  }

  // The whole map.

  predicate Separate(regions: seq<Region>) {
    forall i, j :: 0 <= i < j < |regions| && regions[i].usable && regions[j].usable ==>
      Disjoint(regions[i].bytes, regions[j].bytes)
  }

  function AllParts(regions: seq<Region>, screen: Option<Extent>): seq<Extent>
    requires (forall r :: r in regions ==> Word(r.bytes)) && (screen.Some? ==> Word(screen.value))
  {
    if regions == [] then []
    else AllParts(regions[..|regions| - 1], screen) + Parts(regions[|regions| - 1], screen)
  }

  predicate OrderlyMap(regions: seq<Region>, screen: Option<Extent>) {
    (forall r :: r in regions ==> Orderly(r.bytes)) && (screen.Some? ==> Word(screen.value)) && Separate(regions)
  }

  lemma {:induction false} PartsOfEarlier(regions: seq<Region>, screen: Option<Extent>, r: Region)
    requires OrderlyMap(regions, screen) && Orderly(r.bytes)
    requires r.usable ==> forall i :: 0 <= i < |regions| && regions[i].usable ==> Disjoint(regions[i].bytes, r.bytes)
    ensures forall x, y :: x in AllParts(regions, screen) && y in Parts(r, screen) ==> Disjoint(x, y)
  {
    if regions != [] {
      var n := |regions| - 1;
      PartsOfEarlier(regions[..n], screen, r);
      forall x, y | x in Parts(regions[n], screen) && y in Parts(r, screen) ensures Disjoint(x, y) {
        PartsApart(regions[n], r, screen, x, y);
      }
    }
  }

  lemma PartsApart(q: Region, r: Region, screen: Option<Extent>, x: Extent, y: Extent)
    requires Word(q.bytes) && Word(r.bytes) && (screen.Some? ==> Word(screen.value)) && Disjoint(q.bytes, r.bytes)
    requires x in Parts(q, screen) && y in Parts(r, screen)
    ensures Disjoint(x, y)
  {
    Within(q, screen, x);
    Within(r, screen, y);
  }

  lemma Within(r: Region, screen: Option<Extent>, x: Extent)
    requires Word(r.bytes) && (screen.Some? ==> Word(screen.value)) && x in Parts(r, screen)
    ensures r.usable && (x.len == 0 || (r.bytes.base <= x.base && x.base + x.len <= r.bytes.base + r.bytes.len))
  {
  }

  /** Hands the parts of one region to the allocator. */
  method ConsumeRegion(m: Allocator, r: Region, screen: Option<Extent>, kernelEnd: nat,
                       ghost before: seq<Extent>) returns (count: nat)
    requires m.Valid() && KERNEL_BASE <= kernelEnd && Orderly(r.bytes) && (screen.Some? ==> Word(screen.value))
    requires Owns(m.owned, before, kernelEnd)
    requires forall x, y :: x in before && y in Parts(r, screen) ==> Disjoint(x, y)
    modifies m`nrPages, m`nrFree, m`owned, m.zones
    ensures m.Valid() && m.held == old(m.held) && Owns(m.owned, before + Parts(r, screen), kernelEnd)
    ensures count == |Parts(r, screen)|
  {
    count := 0;
    var parts := Parts(r, screen);
    PartsAreOrderly(r, screen);
    ghost var done := before;
    for i := 0 to |parts|
      invariant m.Valid() && m.held == old(m.held) && done == before + parts[..i] && Owns(m.owned, done, kernelEnd)
                && count == i
    {
      ghost var owned := m.owned;
      var x := parts[i];
      assert i == 1 ==> parts[..i] == [parts[0]];
      NextIsVacant(owned, done, x, kernelEnd);
      HandleRegion(m, x.base, x.len, kernelEnd);
      OwnsMore(owned, m.owned, done, x, kernelEnd);
      done := done + [x];
      count := count + 1;
    }
    assert parts[..|parts|] == parts;
  }

  /** Of a map whose usable regions do not overlap, the allocator gets exactly
      the usable pages, each once and in the zone of its address. */
  method ConsumeMap(m: Allocator, regions: seq<Region>, screen: Option<Extent>, kernelEnd: nat) returns (count: nat)
    requires m.Valid() && KERNEL_BASE <= kernelEnd && OrderlyMap(regions, screen)
    requires forall z :: 0 <= z < ZONES ==> m.owned[z] == iset{}
    modifies m`nrPages, m`nrFree, m`owned, m.zones
    ensures m.Valid() && m.held == old(m.held) && Owns(m.owned, AllParts(regions, screen), kernelEnd)
    ensures count == |AllParts(regions, screen)|
  {
    count := 0;
    for i := 0 to |regions|
      invariant m.Valid() && m.held == old(m.held) && Owns(m.owned, AllParts(regions[..i], screen), kernelEnd)
      invariant count == |AllParts(regions[..i], screen)|
    {
      PartsOfEarlier(regions[..i], screen, regions[i]);
      assert regions[..i + 1][..i] == regions[..i];
      var more := ConsumeRegion(m, regions[i], screen, kernelEnd, AllParts(regions[..i], screen));
      count := count + more;
    }
    assert regions[..|regions|] == regions;
  }
}

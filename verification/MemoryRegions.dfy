/**
 Boot memory regions: which pages of a region the firmware calls usable reach
 the allocator, and in which zone.
 */
module MemoryRegions {
  import opened Common
  import opened BuddyLists
  import opened PageAllocator

  // Limits in pages: the lowest 2 MiB are reserved, the kernel image starts at
  // 16 MiB, where the DMA zone ends, and the DMA32 zone ends at 4 GiB.
  const LOWEST := 0x200
  const KERNEL_BASE := 0x1000
  const DMA_LIMIT := 0x1000
  const DMA32_LIMIT := 0x100000

  function ZoneOf(p: nat): nat {
    if p < DMA_LIMIT then 0 else if p < DMA32_LIMIT then 1 else 2
  }

  /** The first page boundary from `base` on, in 64-bit arithmetic. */
  function Boundary(base: nat): (b: nat)
    ensures base < WORD ==> b < WORD
  {
    if base % PAGE_SIZE == 0 then base else (base - base % PAGE_SIZE + PAGE_SIZE) % WORD
  }

  function Skipped(base: nat): nat
    requires base < WORD
  {
    (Boundary(base) + WORD - base) % WORD
  }

  /** The whole pages of a byte range, in 64-bit arithmetic: from the first
      number up to, not including, the second. */
  function Span(base: nat, len: nat): (nat, nat)
    requires base < WORD && len < WORD
  {
    if len < Skipped(base) then (0, 0)
    else
      var lo, rest := Boundary(base), len - Skipped(base);
      var end := (lo + rest - rest % PAGE_SIZE) % WORD;
      if end <= lo then (0, 0) else (lo / PAGE_SIZE, end / PAGE_SIZE)
  }

  lemma Edges(q: nat, rest: nat)
    requires rest < PAGE_SIZE && q * PAGE_SIZE + rest < WORD
    ensures var base := q * PAGE_SIZE + rest;
      && Boundary(base) == (if rest == 0 then base else if (q + 1) * PAGE_SIZE == WORD then 0 else (q + 1) * PAGE_SIZE)
      && Skipped(base) == if rest == 0 then 0 else PAGE_SIZE - rest
  {
  }

  /** Without wrap-around: the first page boundary in the region to the last. */
  lemma SpanForm(base: nat, len: nat)
    requires base + len < WORD
    ensures var lo, hi := (base + PAGE_SIZE - 1) / PAGE_SIZE, (base + len) / PAGE_SIZE;
      Span(base, len) == if lo < hi then (lo, hi) else (0, 0)
  {
    var q, rest := base / PAGE_SIZE, base % PAGE_SIZE;
    if rest == 0 {
      SpanAligned(q, len);
    } else {
      SpanUnaligned(q, rest, len);
    }
  }

  lemma SpanAligned(q: nat, len: nat)
    requires q * PAGE_SIZE + len < WORD
    ensures Span(q * PAGE_SIZE, len) == if len >= PAGE_SIZE then (q, q + len / PAGE_SIZE) else (0, 0)
  {
    Edges(q, 0);
    Tail(q, len);
  }

  lemma SpanUnaligned(q: nat, rest: nat, len: nat)
    requires 0 < rest < PAGE_SIZE && q * PAGE_SIZE + rest + len < WORD
    ensures Span(q * PAGE_SIZE + rest, len) ==
      if len >= 2 * PAGE_SIZE - rest then (q + 1, q + 1 + (len - (PAGE_SIZE - rest)) / PAGE_SIZE) else (0, 0)
  {
    Edges(q, rest);
    if len >= PAGE_SIZE - rest { Tail(q + 1, len - (PAGE_SIZE - rest)); }
  }

  lemma Tail(q: nat, len: nat)
    ensures (q * PAGE_SIZE + len - len % PAGE_SIZE) / PAGE_SIZE == q + len / PAGE_SIZE
            == (q * PAGE_SIZE + len) / PAGE_SIZE
    ensures (q * PAGE_SIZE + len - len % PAGE_SIZE) == (q + len / PAGE_SIZE) * PAGE_SIZE
  {
  }

  const PAGES := WORD / PAGE_SIZE

  predicate InSpan(base: nat, len: nat, p: nat)
    requires base < WORD && len < WORD
  {
    Span(base, len).0 <= p < Span(base, len).1
  }

  /** Page `p` lies wholly inside the region. */
  predicate Inside(base: nat, len: nat, p: nat) { base <= p * PAGE_SIZE && (p + 1) * PAGE_SIZE <= base + len }

  /** A region that ends below the top of the address space contributes exactly
      the pages that lie wholly inside it. */
  lemma SpanIsWholePages(base: nat, len: nat, p: nat)
    requires base + len < WORD
    ensures InSpan(base, len, p) <==> Inside(base, len, p)
  {
    SpanForm(base, len);
  }

  /** A region that reaches or passes the top contributes nothing, unless it
      starts inside the last page: then it starts over at page 0. */
  lemma WrappedSpan(base: nat, len: nat)
    requires base < WORD && len < WORD && WORD <= base + len
    ensures base <= WORD - PAGE_SIZE ==> Span(base, len) == (0, 0)
    ensures base > WORD - PAGE_SIZE ==> Span(base, len) == (0, (base + len - WORD) / PAGE_SIZE)
  {
    if base > WORD - PAGE_SIZE { LastPageEdges(base); } else { EarlierEdges(base); }
  }

  lemma LastPageEdges(base: nat)
    requires WORD - PAGE_SIZE < base < WORD
    ensures Boundary(base) == 0 && Skipped(base) == WORD - base
  {
    Edges(PAGES - 1, base - (PAGES - 1) * PAGE_SIZE);
  }

  lemma EarlierEdges(base: nat)
    requires base <= WORD - PAGE_SIZE
    ensures base <= Boundary(base) <= WORD - PAGE_SIZE && Boundary(base) % PAGE_SIZE == 0
            && Skipped(base) == Boundary(base) - base
  {
    Edges(base / PAGE_SIZE, base % PAGE_SIZE);
  }

  /** Exactly which regions contribute exactly their whole pages. */
  lemma SpanIsWholePagesIff(base: nat, len: nat)
    requires base < WORD && len < WORD
    ensures (forall p: nat {:trigger InSpan(base, len, p)} :: p < PAGES ==>
              (InSpan(base, len, p) <==> Inside(base, len, p)))
            <==> base + len < WORD || (base > WORD - PAGE_SIZE && base + len < WORD + PAGE_SIZE)
  {
    if base + len < WORD {
      forall p: nat {:trigger InSpan(base, len, p)} | p < PAGES ensures InSpan(base, len, p) <==> Inside(base, len, p) {
        SpanIsWholePages(base, len, p);
      }
    } else {
      WrappedSpan(base, len);
      var p := if base > WORD - PAGE_SIZE then 0 else (base + PAGE_SIZE - 1) / PAGE_SIZE;
      assert base <= WORD - PAGE_SIZE ==> p < PAGES && Inside(base, len, p) && !InSpan(base, len, p);
      assert base > WORD - PAGE_SIZE && base + len >= WORD + PAGE_SIZE ==>
             InSpan(base, len, p) && !Inside(base, len, p);
    }
  }

  /** Four mebibytes and a byte from the last byte of the address space on: the
      first four mebibytes of memory. */
  lemma LastByteHandsOutLowPages()
    ensures Span(WORD - 1, 0x40_0001) == (0, 0x400) && InSpan(WORD - 1, 0x40_0001, LOWEST)
            && !Inside(WORD - 1, 0x40_0001, LOWEST)
  {
    WrappedSpan(WORD - 1, 0x40_0001);
  }

  /** A page at the top of the address space that is never handed out. */
  lemma LastPageIsDropped()
    ensures Inside(WORD - PAGE_SIZE, PAGE_SIZE, PAGES - 1) && !InSpan(WORD - PAGE_SIZE, PAGE_SIZE, PAGES - 1)
  {
    WrappedSpan(WORD - PAGE_SIZE, PAGE_SIZE);
  }

  /** The pages of `lo..hi` that are handed out: not the reserved low ones and
      not those of the kernel image, unless the range has no others. */
  predicate Usable(p: nat, lo: nat, hi: nat, kernelEnd: nat) {
    && lo <= p < hi && LOWEST <= p
    && (KERNEL_BASE <= p < kernelEnd ==> InImage(lo, hi, kernelEnd))
  }

  predicate InImage(lo: nat, hi: nat, kernelEnd: nat) { lo < hi && KERNEL_BASE <= lo && hi <= kernelEnd }

  /** The zones' pages grow by the usable pages of a range, each in its zone. */
  ghost predicate Gains(owned: seq<iset<nat>>, after: seq<iset<nat>>, lo: nat, hi: nat, kernelEnd: nat) {
    && |owned| == |after| == ZONES
    && forall z: nat, p: nat {:trigger p in after[z]} :: z < ZONES ==>
      (p in after[z] <==> p in owned[z] || (Usable(p, lo, hi, kernelEnd) && ZoneOf(p) == z))
  }

  ghost predicate Vacant(owned: seq<iset<nat>>, lo: nat, hi: nat, kernelEnd: nat) {
    forall z: nat, p: nat {:trigger p in owned[z]} :: z < |owned| && p in owned[z] ==> !Usable(p, lo, hi, kernelEnd)
  }

  /** Page `p` of the kernel image has just been handed out. */
  ghost predicate ImageGoes(owned: seq<iset<nat>>, after: seq<iset<nat>>, kernelEnd: nat, p: nat) {
    && |owned| == |after| == ZONES && KERNEL_BASE <= p < kernelEnd
    && exists z :: 0 <= z < ZONES && p in after[z] && p !in owned[z]
  }

  /** Handling a range hands out a page of the kernel image exactly when the
      range lies wholly inside the image. */
  lemma ImageIsSparedUnlessAlone(owned: seq<iset<nat>>, after: seq<iset<nat>>, lo: nat, hi: nat, kernelEnd: nat)
    requires Gains(owned, after, lo, hi, kernelEnd) && Vacant(owned, lo, hi, kernelEnd)
    ensures (exists p: nat :: ImageGoes(owned, after, kernelEnd, p)) <==> InImage(lo, hi, kernelEnd)
  {
    if InImage(lo, hi, kernelEnd) {
      var z := ZoneOf(lo);
      assert Usable(lo, lo, hi, kernelEnd);
      assert lo in after[z] && lo !in owned[z];
      assert ImageGoes(owned, after, kernelEnd, lo);
    }
    if p: nat :| ImageGoes(owned, after, kernelEnd, p) {
      var z :| 0 <= z < ZONES && p in after[z] && p !in owned[z];
      assert Usable(p, lo, hi, kernelEnd);
    }
  }

  /** One page at the start of the image, all alone in its region. */
  lemma FirstImagePageGoes()
    ensures InImage(KERNEL_BASE, KERNEL_BASE + 1, KERNEL_BASE + 1)
    ensures Span(KERNEL_BASE * PAGE_SIZE, PAGE_SIZE) == (KERNEL_BASE, KERNEL_BASE + 1)
    ensures Usable(KERNEL_BASE, KERNEL_BASE, KERNEL_BASE + 1, KERNEL_BASE + 1)
  {
    SpanForm(KERNEL_BASE * PAGE_SIZE, PAGE_SIZE);
  }

  predicate Between(lo: nat, p: nat, hi: nat) { lo <= p < hi }

  ghost function Range(lo: nat, hi: nat): iset<nat> { iset p: nat | Between(lo, p, hi) }

  /** The zones' pages once zone `z` has gained those from `lo` up to `at`. */
  ghost function Extended(owned: seq<iset<nat>>, z: nat, lo: nat, at: nat): seq<iset<nat>>
    requires z < |owned|
  {
    owned[z := owned[z] + Range(lo, at)]
  }

  lemma ExtendedNone(owned: seq<iset<nat>>, z: nat, lo: nat)
    requires z < |owned|
    ensures Extended(owned, z, lo, lo) == owned
  {
    assert owned[z] + Range(lo, lo) == owned[z];
  }

  lemma NextBlock(owned: seq<iset<nat>>, z: nat, lo: nat, at: nat, hi: nat, b: Block)
    requires |owned| == ZONES && z < ZONES && lo <= at && at + b.len <= hi && b.base == at
    requires forall y :: 0 <= y < ZONES ==> owned[y] !! Range(lo, hi)
    ensures var now := Extended(owned, z, lo, at);
      Unowned(now, b) && now[z := now[z] + PagesOf(b)] == Extended(owned, z, lo, at + b.len)
  {
    var now := Extended(owned, z, lo, at);
    assert Range(lo, at) + PagesOf(b) == Range(lo, at + b.len);
    assert now[z] + PagesOf(b) == owned[z] + Range(lo, at + b.len);
    forall y | 0 <= y < ZONES ensures now[y] !! PagesOf(b) {
      forall p | p in PagesOf(b) ensures p !in now[y] {
        assert p in Range(lo, hi);
      }
    }
  }

  /** Zone `z` has gained the pages from `lo` up to `at`. */
  ghost predicate Filled(s: Image, owned: seq<iset<nat>>, m: Allocator, z: nat, lo: nat, at: nat)
    requires z < |owned|
    reads m, m.zones
  {
    && m.Valid() && lo <= at && m.owned == Extended(owned, z, lo, at)
    && m.held == s.held && m.nrPages == s.nrPages + (at - lo) && m.nrFree == s.nrFree + (at - lo)
  }

  /** Frees as many blocks of one order as fit. */
  method AddOrder(m: Allocator, z: nat, from: nat, hi: nat, k: nat, ghost s: Image, ghost owned: seq<iset<nat>>,
                  ghost lo: nat)
    returns (at: nat)
    requires |owned| == ZONES && z < ZONES && from <= hi && k <= MAX_ORDER
    requires Filled(s, owned, m, z, lo, from)
    requires forall y :: 0 <= y < ZONES ==> owned[y] !! Range(lo, hi)
    modifies m`nrPages, m`nrFree, m`owned, m.zones
    ensures from <= at <= hi < at + Pow2(k) && Filled(s, owned, m, z, lo, at)
  {
    at := from;
    while hi - at >= Pow2(k)
      invariant from <= at <= hi && Filled(s, owned, m, z, lo, at)
      decreases hi - at
    {
      var b := Block(at, Pow2(k), k);
      NextBlock(owned, z, lo, at, hi, b);
      m.Grow(z, b);
      at := at + b.len;
    }
  }

  /** Frees a range into one zone, in the largest blocks that fit. */
  method AddRange(m: Allocator, z: nat, lo: nat, hi: nat)
    requires m.Valid() && z < ZONES && lo <= hi
    requires forall y :: 0 <= y < ZONES ==> m.owned[y] !! Range(lo, hi)
    modifies m`nrPages, m`nrFree, m`owned, m.zones
    ensures Filled(old(m.Img()), old(m.owned), m, z, lo, hi)
  {
    ghost var s, owned := m.Img(), m.owned;
    var k: nat, at := MAX_ORDER + 1, lo;
    ExtendedNone(owned, z, lo);
    while k > 0
      invariant k <= MAX_ORDER + 1 && lo <= at <= hi && (k <= MAX_ORDER ==> hi < at + Pow2(k))
      invariant Filled(s, owned, m, z, lo, at)
    {
      k := k - 1;
      at := AddOrder(m, z, at, hi, k, s, owned, lo);
    }
    assert Pow2(0) == 1;
  }

  /** Every page of the range is usable. */
  predicate Plain(lo: nat, hi: nat, kernelEnd: nat) {
    LOWEST <= lo < hi && (hi <= KERNEL_BASE || kernelEnd <= lo || InImage(lo, hi, kernelEnd))
  }

  lemma PlainIsVacant(owned: seq<iset<nat>>, lo: nat, mid: nat, hi: nat, kernelEnd: nat)
    requires Plain(lo, hi, kernelEnd) && lo < mid <= hi && Vacant(owned, lo, hi, kernelEnd) && |owned| == ZONES
    ensures forall y :: 0 <= y < ZONES ==> owned[y] !! Range(lo, mid)
  {
    forall y, p: nat | 0 <= y < ZONES && p in owned[y] ensures p !in Range(lo, mid) {
      assert !Usable(p, lo, hi, kernelEnd);
    }
  }

  lemma PlainGains(owned: seq<iset<nat>>, z: nat, lo: nat, hi: nat, kernelEnd: nat)
    requires Plain(lo, hi, kernelEnd) && |owned| == ZONES && z == ZoneOf(lo) == ZoneOf(hi - 1)
    ensures Gains(owned, owned[z := owned[z] + Range(lo, hi)], lo, hi, kernelEnd)
  {
  }

  /** Gaining the upper part and then the lower is gaining the whole. */
  lemma GainsBoth(owned: seq<iset<nat>>, mid: seq<iset<nat>>, after: seq<iset<nat>>, lo: nat, at: nat, hi: nat,
                  kernelEnd: nat)
    requires Plain(lo, hi, kernelEnd) && lo < at < hi && Plain(at, hi, kernelEnd) && Plain(lo, at, kernelEnd)
    requires Gains(owned, mid, at, hi, kernelEnd) && Gains(mid, after, lo, at, kernelEnd)
    ensures Gains(owned, after, lo, hi, kernelEnd)
  {
    forall z: nat, p: nat {:trigger p in after[z]} | z < ZONES
      ensures p in after[z] <==> p in owned[z] || (Usable(p, lo, hi, kernelEnd) && ZoneOf(p) == z)
    {
      assert p in after[z] <==> p in mid[z] || (Usable(p, lo, at, kernelEnd) && ZoneOf(p) == z);
    }
  }

  lemma UpperGone(owned: seq<iset<nat>>, mid: seq<iset<nat>>, lo: nat, at: nat, hi: nat, kernelEnd: nat)
    requires Plain(lo, hi, kernelEnd) && lo < at <= hi && Vacant(owned, lo, hi, kernelEnd)
    requires if at == hi then mid == owned else Gains(owned, mid, at, hi, kernelEnd)
    ensures Plain(lo, at, kernelEnd) && Vacant(mid, lo, at, kernelEnd)
  {
    forall z: nat, p: nat {:trigger p in mid[z]} | z < |mid| && p in mid[z] ensures !Usable(p, lo, at, kernelEnd) {
      if p in owned[z] { assert !Usable(p, lo, hi, kernelEnd); }
    }
  }

  /** Frees the usable pages of a range. */
  method HandlePages(m: Allocator, lo: nat, hi: nat, kernelEnd: nat)
    requires m.Valid() && lo < hi && KERNEL_BASE <= kernelEnd && Vacant(m.owned, lo, hi, kernelEnd)
    modifies m`nrPages, m`nrFree, m`owned, m.zones
    ensures m.Valid() && m.held == old(m.held) && Gains(old(m.owned), m.owned, lo, hi, kernelEnd)
    decreases hi - lo, 1
  {
    if lo < LOWEST {
      if hi > LOWEST {
        HandlePages(m, LOWEST, hi, kernelEnd);
      }
    } else if lo < KERNEL_BASE && hi > KERNEL_BASE {
      HandlePages(m, lo, KERNEL_BASE, kernelEnd);
      if hi > kernelEnd {
        HandlePages(m, kernelEnd, hi, kernelEnd);
      }
    } else if KERNEL_BASE <= lo < kernelEnd < hi {
      HandlePages(m, kernelEnd, hi, kernelEnd);
    } else {
      HandleZones(m, lo, hi, kernelEnd);
    }
  }

  /** Divides a range among the zones. The kernel image starts where the DMA
      zone ends, so no range that gets here crosses that limit. */
  method HandleZones(m: Allocator, lo: nat, hi: nat, kernelEnd: nat)
    requires m.Valid() && KERNEL_BASE <= kernelEnd && Plain(lo, hi, kernelEnd) && Vacant(m.owned, lo, hi, kernelEnd)
    modifies m`nrPages, m`nrFree, m`owned, m.zones
    ensures m.Valid() && m.held == old(m.held) && Gains(old(m.owned), m.owned, lo, hi, kernelEnd)
    decreases hi - lo, 0
  {
    ghost var owned := m.owned;
    var z, end := 2, hi;
    if lo < DMA_LIMIT {
      z := 0;
    } else if lo < DMA32_LIMIT {
      z := 1;
      if hi > DMA32_LIMIT {
        end := DMA32_LIMIT;
        HandlePages(m, DMA32_LIMIT, hi, kernelEnd);
      }
    }
    ghost var mid := m.owned;
    UpperGone(owned, mid, lo, end, hi, kernelEnd);
    PlainIsVacant(mid, lo, end, end, kernelEnd);
    AddRange(m, z, lo, end);
    PlainGains(mid, z, lo, end, kernelEnd);
    if end < hi { GainsBoth(owned, mid, m.owned, lo, end, hi, kernelEnd); }
  }

  /** Frees the usable whole pages of a region of bytes. */
  method HandleRegion(m: Allocator, base: nat, len: nat, kernelEnd: nat)
    requires m.Valid() && base < WORD && len < WORD && KERNEL_BASE <= kernelEnd
    requires Vacant(m.owned, Span(base, len).0, Span(base, len).1, kernelEnd)
    modifies m`nrPages, m`nrFree, m`owned, m.zones
    ensures m.Valid() && m.held == old(m.held)
    ensures Gains(old(m.owned), m.owned, Span(base, len).0, Span(base, len).1, kernelEnd)
    ensures (exists p: nat :: ImageGoes(old(m.owned), m.owned, kernelEnd, p)) <==>
              InImage(Span(base, len).0, Span(base, len).1, kernelEnd)
  {
    ghost var owned := m.owned;
    var lo, hi := Span(base, len).0, Span(base, len).1;
    if lo < hi {
      HandlePages(m, lo, hi, kernelEnd);
    }
    ImageIsSparedUnlessAlone(owned, m.owned, lo, hi, kernelEnd);
  }
}

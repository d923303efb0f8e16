/**
 Page-table entries and the arithmetic of four-level paging (section 4.5 of the
 Intel SDM, volume 3A): how a low-half virtual address names one slot in each
 of the four levels, and how a 64-bit entry word holds a frame and attributes.
 */
module Paging {
  import opened Common

  /** A physical frame number; frame 0 is never handed out by the allocator. */
  type Frame = nat

  const ENTRIES := 512
  const LOW_HALF_ENTRIES := 256
  const LOW_HALF_LIMIT := 0x8000_0000_0000

  /** The bits of an entry word outside the address mask; `cow` is the software
      bit that marks a page to be copied when it is written. */
  datatype Attr = Attr(present: bool, writable: bool, user: bool, large: bool, cow: bool, rest: nat)

  datatype Entry = Entry(frame: Frame, attr: Attr)

  const ZERO := Entry(0, Attr(false, false, false, false, false, 0))

  type Table = seq<Entry>

  predicate Present(e: Entry) { e.attr.present }

  /** Attributes of a descriptor that points at a lower table. */
  function TableAttr(user: bool): Attr { Attr(true, true, user, false, false, 0) }

  /** The number of present entries among the first `n`. */
  function CountPresent(t: Table, n: nat): (c: nat)
    requires n <= |t|
    ensures c <= n
  {
    if n == 0 then 0 else CountPresent(t, n - 1) + (if Present(t[n - 1]) then 1 else 0)
  }

  lemma {:induction false} CountUpdate(t: Table, n: nat, i: nat, e: Entry)
    requires n <= |t| && i < |t|
    ensures CountPresent(t[i := e], n) == CountPresent(t, n)
              + (if i < n && Present(e) then 1 else 0) - (if i < n && Present(t[i]) then 1 else 0)
  {
    if n > 0 { CountUpdate(t, n - 1, i, e); }
  }

  lemma {:induction false} CountZero(t: Table, n: nat)
    requires n <= |t|
    ensures CountPresent(t, n) == 0 <==> forall i :: 0 <= i < n ==> !Present(t[i])
  {
    if n > 0 { CountZero(t, n - 1); }
  }

  lemma {:induction false} CountSkipsAbsent(t: Table, n: nat, i: nat)
    requires i < n <= |t| && !Present(t[i])
    ensures CountPresent(t, n) < n
  {
    if i < n - 1 { CountSkipsAbsent(t, n - 1, i); }
  }

  // Virtual addresses and the four indices that name a leaf slot.

  /** The indices into the PML4, PDPT, PD and PT, in that order. */
  type Path = seq<nat>

  predicate LowPath(p: Path) {
    |p| == 4 && p[0] < LOW_HALF_ENTRIES && p[1] < ENTRIES && p[2] < ENTRIES && p[3] < ENTRIES
  }

  predicate LowPage(vaddr: nat) { vaddr < LOW_HALF_LIMIT && vaddr % PAGE_SIZE == 0 }

  function PathOf(vaddr: nat): Path {
    [vaddr / 0x80_0000_0000 % ENTRIES, vaddr / 0x4000_0000 % ENTRIES,
     vaddr / 0x20_0000 % ENTRIES, vaddr / PAGE_SIZE % ENTRIES]
  }

  function AddressOf(p: Path): nat
    requires |p| == 4
  {
    (((p[0] * ENTRIES + p[1]) * ENTRIES + p[2]) * ENTRIES + p[3]) * PAGE_SIZE
  }

  lemma DropIndex(v: nat)
    ensures v / 0x20_0000 == v / PAGE_SIZE / ENTRIES
    ensures v / 0x4000_0000 == v / 0x20_0000 / ENTRIES
    ensures v / 0x80_0000_0000 == v / 0x4000_0000 / ENTRIES
  {
  }

  lemma SplitIndex(high: nat, low: nat)
    requires low < ENTRIES
    ensures (high * ENTRIES + low) / ENTRIES == high
    ensures (high * ENTRIES + low) % ENTRIES == low
  {
  }

  /** Low-half pages and index quadruples correspond one to one, so the four
      levels together are a map keyed by page address. */
  lemma PathIsBijective(vaddr: nat, p: Path)
    requires LowPage(vaddr) && LowPath(p)
    ensures LowPath(PathOf(vaddr)) && AddressOf(PathOf(vaddr)) == vaddr
    ensures LowPage(AddressOf(p)) && PathOf(AddressOf(p)) == p
  {
    DropIndex(vaddr);
    var pd := p[0] * ENTRIES + p[1];
    var pt := pd * ENTRIES + p[2];
    var page := pt * ENTRIES + p[3];
    assert AddressOf(p) / PAGE_SIZE == page && AddressOf(p) % PAGE_SIZE == 0;
    DropIndex(AddressOf(p));
    SplitIndex(pt, p[3]);
    SplitIndex(pd, p[2]);
    SplitIndex(p[0], p[1]);
  }

  // The 64-bit entry word.

  function Pack(phys: bv64, attr: bv64, mask: bv64): bv64 { (phys & mask) | attr }

  /** Whatever the address mask, a word built from a frame address and
      attribute bits outside the mask gives both back, so an entry is
      faithfully a (frame, attributes) pair. */
  lemma PackIsFaithful(phys: bv64, attr: bv64, mask: bv64)
    requires attr & mask == 0
    ensures Pack(phys, attr, mask) & mask == phys & mask
    ensures Pack(phys, attr, mask) & !mask == attr
  {
  }
}

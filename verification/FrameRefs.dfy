/**
 Copy-on-write reference counts of user frames.  A 16-bit slot per frame holds
 0 for a lone owner and n for n >= 2 owners; who the owners are is proof state.
 */
module FrameRefs {
  import opened Common
  import opened Paging

  const REFCOUNT_MAX := 0xffff

  /** An owner of a frame: a page of some root that maps it, or kernel code. */
  datatype Holder = Page(root: Frame, path: Path) | Kernel(id: nat)

  type Holders = map<Frame, set<Holder>>

  ghost function HoldersOf(h: Holders, f: Frame): set<Holder> { if f in h then h[f] else {} }

  /** `h` with `x` no longer holding `f`; a frame nobody holds leaves the map. */
  ghost function Without(h: Holders, f: Frame, x: Holder): Holders
    requires f in h
  {
    if h[f] == {x} then h - {f} else h[f := h[f] - {x}]
  }

  /** What the slot of a frame with `n` owners reads. */
  function Encode(n: nat): nat { if n <= 1 then 0 else n }

  class RefTable {
    const slots: array<nat>
    ghost var holders: Holders

    /** Every slot encodes the number of owners; a frame past the table has at most one. */
    ghost predicate Valid()
      reads this, slots
    {
      && (forall f :: f in holders ==> holders[f] != {} && |holders[f]| <= REFCOUNT_MAX)
      && (forall f :: 0 <= f < slots.Length ==> slots[f] == Encode(|HoldersOf(holders, f)|))
      && (forall f :: f in holders && f >= slots.Length ==> |holders[f]| == 1)
    }

    /** The table for `frames` frames, or none at all when it could not be allocated. */
    constructor (frames: nat)
      ensures Valid() && holders == map[] && slots.Length == frames && fresh(slots)
    {
      slots := new nat[frames](_ => 0);
      holders := map[];
    }

    /** A frame fresh from the allocator has its one implicit owner. */
    ghost method Adopt(f: Frame, x: Holder)
      requires Valid() && f !in holders
      modifies this
      ensures Valid() && holders == old(holders)[f := {x}]
    {
      holders := holders[f := {x}];
    }

    /** An owner passes its hold on to another; no count changes. */
    ghost method Transfer(f: Frame, x: Holder, y: Holder)
      requires Valid() && f in holders && x in holders[f] && y !in holders[f]
      modifies this
      ensures Valid() && holders == old(holders)[f := old(holders)[f] - {x} + {y}]
    {
      ghost var rest := holders[f] - {x};
      assert |rest| == |holders[f]| - 1 && |rest + {y}| == |rest| + 1;
      holders := holders[f := rest + {y}];
    }

    /** Add an owner.  Fails, changing nothing, exactly when the frame is past
        the table or its count is saturated. */
    method Increment(f: Frame, ghost x: Holder) returns (ok: bool)
      requires Valid() && f in holders && x !in holders[f]
      modifies this, slots
      ensures Valid()
      ensures ok <==> f < slots.Length && |old(holders)[f]| < REFCOUNT_MAX
      ensures holders == if ok then old(holders)[f := old(holders)[f] + {x}] else old(holders)
    {
      if f >= slots.Length { return false; }
      if slots[f] == 0 {
        slots[f] := 2;
      } else if slots[f] == REFCOUNT_MAX {
        return false;
      } else {
        slots[f] := slots[f] + 1;
      }
      holders := holders[f := holders[f] + {x}];
      return true;
    }

    /** Drop an owner.  The frame goes back to the allocator exactly when this
        was the last one. */
    method Decrement(f: Frame, ghost x: Holder) returns (freed: bool)
      requires Valid() && f in holders && x in holders[f]
      modifies this, slots
      ensures Valid()
      ensures freed <==> old(holders)[f] == {x}
      ensures holders == Without(old(holders), f, x)
    {
      ghost var rest := holders[f] - {x};
      assert |rest| == |holders[f]| - 1;
      assert holders[f] == {x} <==> |rest| == 0 by { assert holders[f] == rest + {x}; }
      holders := Without(holders, f, x);
      if f >= slots.Length || slots[f] == 0 { return true; }
      slots[f] := slots[f] - 1;
      if slots[f] == 1 { slots[f] := 0; }
      return false;
    }

    method IsShared(f: Frame) returns (b: bool)
      requires Valid()
      ensures b <==> |HoldersOf(holders, f)| >= 2
    {
      b := f < slots.Length && slots[f] >= 2;
    }
  }

  /** Sizing of the count table for physical memory ending at `end`: the block
      asked of the allocator holds every slot that will be used, and only a
      table already as big as a block can be leaves frames uncovered. */
  method SizeTable(end: nat) returns (order: nat, pages: nat, maxFrame: nat)
    requires end > 0
    ensures order <= MAX_ORDER && pages <= Pow2(order) && (maxFrame + 1) * 2 <= pages * PAGE_SIZE
    ensures maxFrame == (end - 1) / PAGE_SIZE || (pages == Pow2(MAX_ORDER) && maxFrame < (end - 1) / PAGE_SIZE)
  {
    maxFrame := (end - 1) / PAGE_SIZE;
    var entries := maxFrame + 1;
    pages := (entries * 2 + PAGE_SIZE - 1) / PAGE_SIZE;
    order := 0;
    while Pow2(order) < pages && order < MAX_ORDER
      invariant order <= MAX_ORDER
    {
      order := order + 1;
    }
    if Pow2(order) < pages {
      pages := Pow2(MAX_ORDER);
      entries := pages * PAGE_SIZE / 2;
      maxFrame := entries - 1;
      assert Pow2(10) == 1024;
    }
  }
}

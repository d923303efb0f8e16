/**
 Whole histories of sharing: the counts stand for the sets of owners, and a
 frame is given back exactly when its last owner lets go of it.
 */
module FrameRuns {
  import opened Paging
  import opened FrameRefs

  datatype Act = Adopt(f: Frame, x: Holder) | Share(f: Frame, x: Holder) | Drop(f: Frame, x: Holder)

  /** A frame is adopted when it has no owner, shared with a new one, and dropped
      by one it has. */
  ghost predicate Proper(h: Holders, a: Act) {
    match a
    case Adopt(f, _) => f !in h
    case Share(f, x) => f in h && x !in h[f]
    case Drop(f, x) => f in h && x in h[f]
  }

  /** The owners after an action, with counts kept for `size` frames. */
  ghost function After(h: Holders, a: Act, size: nat): Holders
    requires Proper(h, a)
  {
    match a
    case Adopt(f, x) => h[f := {x}]
    case Share(f, x) => if f < size && |h[f]| < REFCOUNT_MAX then h[f := h[f] + {x}] else h
    case Drop(f, x) => Without(h, f, x)
  }

  /** The frames an action gives back: one whose only owner drops it. */
  ghost function Freed(h: Holders, a: Act): seq<Frame>
    requires Proper(h, a)
  {
    if a.Drop? && h[a.f] == {a.x} then [a.f] else []
  }

  ghost predicate AllProper(h: Holders, acts: seq<Act>, size: nat)
    decreases |acts|
  {
    acts == [] || (Proper(h, acts[0]) && AllProper(After(h, acts[0], size), acts[1..], size))
  }

  ghost function AfterAll(h: Holders, acts: seq<Act>, size: nat): Holders
    requires AllProper(h, acts, size)
    decreases |acts|
  {
    if acts == [] then h else AfterAll(After(h, acts[0], size), acts[1..], size)
  }

  ghost function FreedBy(h: Holders, acts: seq<Act>, size: nat): seq<Frame>
    requires AllProper(h, acts, size)
    decreases |acts|
  {
    if acts == [] then [] else Freed(h, acts[0]) + FreedBy(After(h, acts[0], size), acts[1..], size)
  }

  /** How often an action sequence adopts a frame. */
  function Adoptions(acts: seq<Act>, f: Frame): nat {
    if acts == [] then 0 else (if acts[0].Adopt? && acts[0].f == f then 1 else 0) + Adoptions(acts[1..], f)
  }

  function Times(fs: seq<Frame>, f: Frame): nat {
    if fs == [] then 0 else (if fs[0] == f then 1 else 0) + Times(fs[1..], f)
  }

  lemma {:induction false} TimesConcat(x: seq<Frame>, y: seq<Frame>, f: Frame)
    ensures Times(x + y, f) == Times(x, f) + Times(y, f)
  {
    if x == [] {
      assert x + y == y;
    } else {
      assert (x + y)[1..] == x[1..] + y;
      TimesConcat(x[1..], y, f);
    }
  }

  /** Over any history a frame is given back once for every time it was adopted,
      but for the time it is still owned. */
  lemma {:induction false} FreedOncePerAdoption(h: Holders, acts: seq<Act>, size: nat, f: Frame)
    requires AllProper(h, acts, size) && forall g :: g in h ==> h[g] != {}
    ensures Times(FreedBy(h, acts, size), f) + (if f in AfterAll(h, acts, size) then 1 else 0) ==
      Adoptions(acts, f) + if f in h then 1 else 0
    decreases |acts|
  {
    if acts != [] {
      var a := acts[0];
      var k := After(h, a, size);
      KeepsOwned(h, a, size);
      FreedOncePerAdoption(k, acts[1..], size, f);
      TimesConcat(Freed(h, a), FreedBy(k, acts[1..], size), f);
      OneAct(h, a, size, f);
    }
  }

  lemma KeepsOwned(h: Holders, a: Act, size: nat)
    requires Proper(h, a) && forall g :: g in h ==> h[g] != {}
    ensures forall g :: g in After(h, a, size) ==> After(h, a, size)[g] != {}
  {
    if a.Drop? { assert h[a.f] - {a.x} == {} <==> h[a.f] == {a.x}; }
  }

  lemma OneAct(h: Holders, a: Act, size: nat, f: Frame)
    requires Proper(h, a)
    ensures Times(Freed(h, a), f) + (if f in After(h, a, size) then 1 else 0) ==
      (if a.Adopt? && a.f == f then 1 else 0) + if f in h then 1 else 0
  {
    if a.Drop? { assert h[a.f] - {a.x} == {} <==> h[a.f] == {a.x}; }
  }

  ghost predicate Owned(h: Holders) { forall f :: f in h ==> h[f] != {} }

  /** The count table follows every history exactly. */
  method Run(t: RefTable, acts: seq<Act>) returns (freed: seq<Frame>)
    requires t.Valid() && AllProper(t.holders, acts, t.slots.Length)
    modifies t, t.slots
    ensures t.Valid() && t.holders == AfterAll(old(t.holders), acts, t.slots.Length)
    ensures freed == FreedBy(old(t.holders), acts, t.slots.Length)
    decreases |acts|
  {
    if acts == [] { return []; }
    freed := [];
    match acts[0] {
      case Adopt(f, x) =>
        t.Adopt(f, x);
      case Share(f, x) =>
        var ok := t.Increment(f, x);
      case Drop(f, x) =>
        var gone := t.Decrement(f, x);
        if gone { freed := [f]; }
    }
    var rest := Run(t, acts[1..]);
    freed := freed + rest;
  }
}

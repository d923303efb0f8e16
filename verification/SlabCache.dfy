/**
 Slab caches: slabs of equal objects on an available and a full list, grown
 when none is available and given back when empty.
 */
module SlabCache {
  import opened Common
  import opened Bitset
  import opened SlabImages

  /** Bit `k` is the first clear one. */
  predicate Lowest(bits: seq<bool>, k: nat) {
    k < |bits| && !bits[k] && forall j :: 0 <= j < k ==> bits[j]
  }

  class Slab {
    const base: nat
    const chunk: nat
    const permanent: bool
    const bits: Bits
    var full: bool

    constructor (base: nat, chunk: nat, bits: Bits, permanent: bool)
      requires bits.Valid() && |bits.bits| == bits.nrBits
      ensures Valid() && this.chunk == chunk && this.bits == bits
      ensures View() == SlabImages.View.View(base, bits.bits, false, permanent)
    {
      this.base, this.chunk, this.permanent, this.bits := base, chunk, permanent, bits;
      full := false;
    }

    ghost function Repr(): set<object> { {this, bits} + if bits.bytes == null then {} else {bits.bytes} }

    ghost predicate Valid()
      reads this, bits, bits.bytes
    {
      bits.Valid() && |bits.bits| == bits.nrBits
    }

    ghost function View(): View
      reads this, bits
    {
      SlabImages.View.View(base, bits.bits, full, permanent)
    }

    /** Marks the lowest free object, if there is one. */
    method AllocObj() returns (r: Option<nat>, ghost k: nat)
      requires Valid()
      modifies bits, bits.bytes
      ensures Valid()
      ensures r.None? <==> ClearCount(old(View()).bits) == 0
      ensures r.None? ==> View() == old(View())
      ensures r.Some? ==>
        && Lowest(old(View()).bits, k) && r.value == Payload(View(), k, chunk)
        && View() == Marked(old(View()), k, true, full)
    {
      var at := bits.Scan(1);
      k := 0;
      if at.None? {
        forall i | 0 <= i < |bits.bits| ensures bits.bits[i] { assert !RunAt(bits.bits, i, 1); }
        ClearCountAll(bits.bits, true);
        r := None;
        return;
      }
      RunNeedsBits(bits.bits, at.value, 1);
      k := at.value;
      forall j | 0 <= j < k ensures bits.bits[j] { assert !RunAt(bits.bits, j, 1); }
      ghost var was := bits.bits;
      ClearCountUpdate(was, k, true);
      assert FillTo(was, k, 1, true) == was[k := true];
      var n := bits.Set(at.value, 1);
      r := if n == 1 then Some(Address(base, at.value, chunk)) else None;
    }

    /** Clears the object whose payload starts at `p` if it is live. */
    method ClearObj(p: nat) returns (done: bool, ghost k: nat)
      requires Valid() && chunk > 0
      modifies bits, bits.bytes
      ensures Valid() && (done <==> LiveIn(old(View()), p, chunk))
      ensures !done ==> View() == old(View())
      ensures done ==> ObjectAt(old(View()), p, chunk) == Some(k) && View() == Marked(old(View()), k, false, full)
    {
      done, k := false, 0;
      if p < base + HEADER || p >= base + bits.nrBits * chunk { return; }
      if (p - base) % chunk != HEADER { return; }
      var o := (p - base) / chunk;
      var live := bits.Test(o);
      if !live { return; }
      k := o;
      ghost var was := bits.bits;
      ClearCountUpdate(was, o, false);
      assert FillTo(was, o, 1, false) == was[o := false];
      var n := bits.Reset(o, 1);
      done := n == 1;
    }
  }

  /** Slab `s` is sound, of this chunk size, and in the state `v`. */
  ghost predicate At(s: Slab, v: View, chunk: nat)
    reads s, s.bits, s.bits.bytes
  {
    s.Valid() && s.chunk == chunk && s.View() == v
  }

  ghost predicate Held(l: seq<Slab>, repr: set<object>) {
    forall i :: 0 <= i < |l| ==> l[i].Repr() <= repr
  }

  /** The slabs of a list, all within `repr`, are in the states `v`. */
  ghost predicate Linked(l: seq<Slab>, v: seq<View>, chunk: nat, repr: set<object>)
    reads repr
  {
    Held(l, repr) && |l| == |v| && forall i :: 0 <= i < |l| ==> At(l[i], v[i], chunk)
  }

  ghost predicate AllDistinct(l: seq<Slab>) {
    forall i, j :: 0 <= i < j < |l| ==> l[i].Repr() !! l[j].Repr()
  }

  ghost predicate Distinct(l: seq<Slab>, m: seq<Slab>) {
    forall i, j :: 0 <= i < |l| && 0 <= j < |m| ==> l[i].Repr() !! m[j].Repr()
  }

  ghost predicate NoAliases(l: seq<Slab>, m: seq<Slab>) { AllDistinct(l) && AllDistinct(m) && Distinct(l, m) }

  function Except(l: seq<Slab>, i: nat): seq<Slab>
    requires i < |l|
  {
    l[..i] + l[i + 1..]
  }

  /** One slab of a list can go to the end of another. */
  lemma MoveDistinct(from: seq<Slab>, to: seq<Slab>, n: nat)
    requires n < |from| && NoAliases(from, to)
    ensures NoAliases(Except(from, n), to + [from[n]]) && NoAliases(to + [from[n]], Except(from, n))
  {
    var l := Except(from, n);
    assert forall i :: 0 <= i < |l| ==> l[i] == from[if i < n then i else i + 1];
  }

  lemma MoveLinked(from: seq<Slab>, fv: seq<View>, to: seq<Slab>, tv: seq<View>, n: nat, chunk: nat, repr: set<object>)
    requires n < |from| && Linked(from, fv, chunk, repr) && Linked(to, tv, chunk, repr)
    ensures Linked(Except(from, n), Drop(fv, n), chunk, repr) && Linked(to + [from[n]], tv + [fv[n]], chunk, repr)
  {
    var l, v := Except(from, n), Drop(fv, n);
    assert forall i :: 0 <= i < |l| ==>
           l[i] == from[if i < n then i else i + 1] && v[i] == fv[if i < n then i else i + 1];
  }

  method Find(l: seq<Slab>, s: Slab) returns (i: nat)
    ensures i <= |l| && (i < |l| ==> l[i] == s) && s !in l[..i]
  {
    i := 0;
    while i < |l| && l[i] != s
      invariant i <= |l| && s !in l[..i]
    {
      i := i + 1;
    }
  }

  lemma TakenForm(s: Image, k: nat)
    requires Takeable(s, k) && !s.avail[0].full
    ensures var m := s.avail[0 := Marked(s.avail[0], k, true, false)];
      Taken(s, k) ==
        if ClearCount(m[0].bits) == 0 then Image(Drop(m, 0), s.full + [m[0].(full := true)], s.nrObjs, s.nrFree - 1)
        else Image(m, s.full, s.nrObjs, s.nrFree - 1)
  {
    var m := s.avail[0 := Marked(s.avail[0], k, true, false)];
    assert Drop(m, 0) == s.avail[1..];
    assert m[0].(full := true) == Marked(s.avail[0], k, true, true);
  }

  lemma ReleasedForm(s: Image, n: nat, k: nat)
    requires Releasable(s, InFull(n), k)
    ensures var m := s.full[n := Marked(s.full[n], k, false, s.full[n].full)];
      Released(s, InFull(n), k) == Image(s.avail + [m[n].(full := false)], Drop(m, n), s.nrObjs, s.nrFree + 1)
  {
    var m := s.full[n := Marked(s.full[n], k, false, s.full[n].full)];
    assert Drop(m, n) == Drop(s.full, n);
  }

  /** `t` is `s` with the lowest free object of its first available slab given
      out, at address `p`. */
  predicate Served(s: Image, k: nat, p: nat, chunk: nat, t: Image) {
    Takeable(s, k) && Lowest(s.avail[0].bits, k) && p == Payload(s.avail[0], k, chunk) && t == Taken(s, k)
  }

  /** The image after releasing the object whose payload is at `p`. */
  predicate ReleasedAs(s: Image, at: Place, p: nat, chunk: nat, k: nat, t: Image)
    requires IsPlace(s, at) && chunk > 0
  {
    ObjectAt(SlabAt(s, at), p, chunk) == Some(k) && Releasable(s, at, k) && t == Released(s, at, k)
  }

  lemma ReleaseEnds(s: Image, at: Place, p: nat, chunk: nat, k: nat, t: Image)
    requires ImageOk(s, chunk) && chunk > HEADER && IsPlace(s, at) && ReleasedAs(s, at, p, chunk, k, t)
    ensures ImageOk(t, chunk) && forall q: nat :: Live(t, q, chunk) <==> Live(s, q, chunk) && q != p
  {
    ReleasedKeeps(s, at, k, chunk);
    ObjectAtPayload(SlabAt(s, at), p, chunk, k);
    forall q: nat ensures Live(t, q, chunk) <==> Live(s, q, chunk) && q != p {
      ReleasedLive(s, at, k, q, chunk);
    }
  }

  /** A new slab: every object free. */
  function NewSlab(base: nat, n: nat, permanent: bool): View {
    SlabImages.View.View(base, seq(n, _ => false), false, permanent)
  }

  lemma NewSlabHasRoom(base: nat, n: nat, permanent: bool)
    ensures ClearCount(NewSlab(base, n, permanent).bits) == n
  {
    ClearCountAll(NewSlab(base, n, permanent).bits, false);
  }

  class Cache {
    const objSize: nat
    const chunk: nat
    const perSlab: nat
    var avail: seq<Slab>
    var full: seq<Slab>
    var nrObjs: nat
    var nrFree: nat
    var nrReclaimed: nat
    ghost var repr: set<object>
    ghost var img: Image

    /** An empty cache of objects, at least one to a slab. */
    constructor (objSize: nat, perSlab: nat)
      requires objSize > 0 && perSlab > 0
      ensures Valid() && img == Image([], [], 0, 0)
    {
      this.objSize, this.chunk, this.perSlab := objSize, Chunk(objSize), perSlab;
      avail, full, nrObjs, nrFree, nrReclaimed := [], [], 0, 0, 0;
      repr, img := {}, Image([], [], 0, 0);
    }

    ghost predicate Wired()
      reads this, repr
    {
      && this !in repr && NoAliases(avail, full)
      && Linked(avail, img.avail, chunk, repr) && Linked(full, img.full, chunk, repr)
      && nrObjs == img.nrObjs && nrFree == img.nrFree
    }

    ghost predicate Valid()
      reads this, repr
    {
      Wired() && chunk == Chunk(objSize) && objSize > 0 && perSlab > 0 && ImageOk(img, chunk)
    }

    /** Marks an object of the first available slab. */
    method MarkFirst() returns (r: Option<nat>, ghost k: nat)
      requires Wired() && avail != [] && HasRoom(img.avail[0])
      modifies avail[0].bits, avail[0].bits.bytes, `img
      ensures Wired() && r.Some? && Lowest(old(img).avail[0].bits, k)
      ensures r.value == Payload(old(img).avail[0], k, chunk)
      ensures img == old(img).(avail := old(img).avail[0 := Marked(old(img).avail[0], k, true, false)])
    {
      var first := avail[0];
      assert At(first, img.avail[0], chunk);
      r, k := first.AllocObj();
      forall i | 0 <= i < |full| ensures At(full[i], img.full[i], chunk) {
        assert first.Repr() !! full[i].Repr();
      }
      forall i | 1 <= i < |avail| ensures At(avail[i], img.avail[i], chunk) {
        assert first.Repr() !! avail[i].Repr();
      }
      img := img.(avail := img.avail[0 := Marked(img.avail[0], k, true, false)]);
    }

    /** Moves the first available slab to the full list. */
    method FileFull()
      requires Wired() && avail != []
      modifies `avail, `full, `img, avail[0]
      ensures Wired()
      ensures img == old(img).(avail := Drop(old(img).avail, 0), full := old(img).full
                + [old(img).avail[0].(full := true)])
    {
      Flag(avail[0], true, avail, img.avail, 0, full, img.full);
      ghost var av := img.avail[0 := img.avail[0].(full := true)];
      MoveDistinct(avail, full, 0);
      MoveLinked(avail, av, full, img.full, 0, chunk, repr);
      assert Drop(av, 0) == Drop(img.avail, 0);
      img := img.(avail := Drop(av, 0), full := img.full + [av[0]]);
      avail, full := Except(avail, 0), full + [avail[0]];
    }

    /** Moves a full slab to the end of the available list. */
    method FileAvail(n: nat)
      requires Wired() && n < |full|
      modifies `avail, `full, `img, full[n]
      ensures Wired()
      ensures img == old(img).(avail := old(img).avail
                + [old(img).full[n].(full := false)], full := Drop(old(img).full, n))
      ensures avail == old(avail) + [old(full)[n]]
    {
      assert NoAliases(full, avail);
      Flag(full[n], false, full, img.full, n, avail, img.avail);
      ghost var fv := img.full[n := img.full[n].(full := false)];
      MoveDistinct(full, avail, n);
      MoveLinked(full, fv, avail, img.avail, n, chunk, repr);
      assert Drop(fv, n) == Drop(img.full, n);
      img := img.(avail := img.avail + [fv[n]], full := Drop(fv, n));
      avail, full := avail + [full[n]], Except(full, n);
    }

    method Flag(s: Slab, v: bool, ghost from: seq<Slab>, ghost fv: seq<View>, ghost n: nat, ghost to: seq<Slab>,
                ghost tv: seq<View>)
      requires n < |from| && from[n] == s && NoAliases(from, to)
      requires Linked(from, fv, chunk, repr) && Linked(to, tv, chunk, repr)
      modifies s
      ensures Linked(from, fv[n := fv[n].(full := v)], chunk, repr) && Linked(to, tv, chunk, repr)
    {
      assert At(s, fv[n], chunk);
      s.full := v;
      forall i | 0 <= i < |to| ensures At(to[i], tv[i], chunk) {
        assert s.Repr() !! to[i].Repr();
      }
      forall i | 0 <= i < |from| && i != n ensures At(from[i], fv[i], chunk) {
        assert s.Repr() !! from[i].Repr();
      }
    }

    /** Clears the object at `p` in slab `n` of one of the two lists. */
    method ClearIn(s: Slab, p: nat, ghost from: seq<Slab>, ghost fv: seq<View>, ghost n: nat, ghost to: seq<Slab>,
                   ghost tv: seq<View>)
      returns (done: bool, ghost k: nat)
      requires n < |from| && from[n] == s && NoAliases(from, to) && chunk > 0
      requires Linked(from, fv, chunk, repr) && Linked(to, tv, chunk, repr)
      modifies s.bits, s.bits.bytes
      ensures done <==> LiveIn(fv[n], p, chunk)
      ensures done ==> ObjectAt(fv[n], p, chunk) == Some(k) && k < |fv[n].bits|
      ensures Linked(from, if done then fv[n := Marked(fv[n], k, false, fv[n].full)] else fv, chunk, repr)
              && Linked(to, tv, chunk, repr)
    {
      assert At(s, fv[n], chunk);
      done, k := s.ClearObj(p);
      forall i | 0 <= i < |to| ensures At(to[i], tv[i], chunk) {
        assert s.Repr() !! to[i].Repr();
      }
      forall i | 0 <= i < |from| && i != n ensures At(from[i], fv[i], chunk) {
        assert s.Repr() !! from[i].Repr();
      }
    }

    method Account(objs: nat, free: nat)
      requires Wired()
      modifies `nrObjs, `nrFree, `img
      ensures Wired() && img == old(img).(nrObjs := objs, nrFree := free)
    {
      nrObjs, nrFree := objs, free;
      img := img.(nrObjs := objs, nrFree := free);
    }

    /** Allocates from the first available slab and refiles it once full. */
    method TakeFirst() returns (r: Option<nat>, ghost k: nat)
      requires Wired() && avail != [] && HasRoom(img.avail[0]) && nrFree > 0
      modifies `avail, `full, `nrObjs, `nrFree, `img, repr
      ensures Wired() && r.Some? && r.value == Payload(old(img).avail[0], k, chunk)
      ensures Takeable(old(img), k) && Lowest(old(img).avail[0].bits, k) && img == Taken(old(img), k)
    {
      var first := avail[0];
      r, k := MarkFirst();
      TakenForm(old(img), k);
      assert At(first, img.avail[0], chunk);
      if first.bits.nrAvail == 0 {
        FileFull();
      }
      Account(nrObjs, nrFree - 1);
    }

    /** Releases the object at `p` of a slab on the full list. */
    method ReleaseFull(s: Slab, n: nat, p: nat) returns (done: bool, ghost k: nat)
      requires Wired() && n < |full| && full[n] == s && chunk > 0
      modifies `avail, `full, `nrObjs, `nrFree, `img, repr
      ensures Wired() && (done <==> LiveIn(old(img).full[n], p, chunk))
      ensures if done then ReleasedAs(old(img), InFull(n), p, chunk, k, img) && s in avail else img == old(img)
    {
      assert NoAliases(full, avail);
      done, k := ClearIn(s, p, full, img.full, n, avail, img.avail);
      if done {
        img := img.(full := img.full[n := Marked(img.full[n], k, false, img.full[n].full)]);
        ReleasedForm(old(img), n, k);
        FileAvail(n);
        Account(nrObjs, nrFree + 1);
      }
    }

    /** Releases the object at `p` of a slab on the available list. */
    method ReleaseAvail(s: Slab, ghost n: nat, p: nat) returns (done: bool, ghost k: nat)
      requires Wired() && n < |avail| && avail[n] == s && chunk > 0
      modifies `nrObjs, `nrFree, `img, s.bits, s.bits.bytes
      ensures Wired() && (done <==> LiveIn(old(img).avail[n], p, chunk))
      ensures if done then ReleasedAs(old(img), InAvail(n), p, chunk, k, img) else img == old(img)
    {
      done, k := ClearIn(s, p, avail, img.avail, n, full, img.full);
      if done {
        img := img.(avail := img.avail[n := Marked(img.avail[n], k, false, img.avail[n].full)]);
        Account(nrObjs, nrFree + 1);
      }
    }

    /** Takes slab `n` off the available list. */
    method Reclaim(n: nat)
      requires Wired() && n < |avail|
      requires |img.avail[n].bits| <= nrObjs && ClearCount(img.avail[n].bits) <= nrFree
      modifies `avail, `nrObjs, `nrFree, `nrReclaimed, `img
      ensures Wired() && img == Reclaimed(old(img), n) && nrReclaimed == old(nrReclaimed) + 1
    {
      var s := avail[n];
      assert At(s, img.avail[n], chunk);
      MoveDistinct(avail, full, n);
      MoveLinked(avail, img.avail, full, img.full, n, chunk, repr);
      nrObjs := nrObjs - s.bits.nrBits;
      nrFree := nrFree - s.bits.nrAvail;
      nrReclaimed := nrReclaimed + 1;
      avail := Except(avail, n);
      img := Reclaimed(img, n);
    }

    /** Puts a slab of new pages on the available list. */
    method Grow(heap: nat, permanent: bool)
      requires Wired() && perSlab > 0
      modifies this
      ensures Wired() && img == Grown(old(img), NewSlab(heap, perSlab, permanent))
      ensures fresh(repr - old(repr)) && avail != []
    {
      var storage := new bv8[(perSlab + 7) / 8];
      var bits := new Bits(perSlab, storage);
      var s := new Slab(heap, chunk, bits, permanent);
      assert bits.bits == NewSlab(heap, perSlab, permanent).bits;
      Adopt(s, NewSlab(heap, perSlab, permanent));
    }

    method Adopt(s: Slab, ghost v: View)
      requires Wired() && At(s, v, chunk) && s.Repr() !! repr && this !in s.Repr()
      modifies this
      ensures Wired() && img == Grown(old(img), v) && repr == old(repr) + s.Repr() && avail == old(avail) + [s]
    {
      forall i | 0 <= i < |avail| ensures avail[i].Repr() !! s.Repr() { assert avail[i].Repr() <= repr; }
      forall i | 0 <= i < |full| ensures full[i].Repr() !! s.Repr() { assert full[i].Repr() <= repr; }
      avail := avail + [s];
      nrObjs := nrObjs + s.bits.nrBits;
      nrFree := nrFree + s.bits.nrAvail;
      repr := repr + s.Repr();
      img := Grown(img, v);
    }

    /** The boot code hands in a slab that is never to be given back. */
    method AddStatic(heap: nat)
      requires Valid()
      requires forall i :: 0 <= i < |img.avail| ==> Apart(img.avail[i], NewSlab(heap, perSlab, true), chunk)
      requires forall i :: 0 <= i < |img.full| ==> Apart(NewSlab(heap, perSlab, true), img.full[i], chunk)
      modifies this
      ensures Valid() && fresh(repr - old(repr)) && img == Grown(old(img), NewSlab(heap, perSlab, true))
      ensures forall p: nat :: Live(img, p, chunk) <==> Live(old(img), p, chunk)
    {
      NewSlabHasRoom(heap, perSlab, true);
      GrownKeeps(img, NewSlab(heap, perSlab, true), chunk);
      forall p: nat ensures Live(Grown(img, NewSlab(heap, perSlab, true)), p, chunk) <==> Live(img, p, chunk) {
        GrownLive(img, NewSlab(heap, perSlab, true), p, chunk);
      }
      Grow(heap, true);
    }

    /** Allocates an object, growing the cache by a slab at `heap` when none is
        available; `granted` says whether the pages and metadata were had. */
    method Alloc(heap: nat, granted: bool) returns (r: Option<nat>, ghost k: nat)
      requires Valid()
      requires avail == [] ==> forall i :: 0 <= i < |img.full| ==>
                Apart(NewSlab(heap, perSlab, false), img.full[i], chunk)
      modifies this, repr
      ensures Valid() && fresh(repr - old(repr))
      ensures r.None? <==> old(avail) == [] && !granted
      ensures r.None? ==> img == old(img)
      ensures r.Some? ==>
              Served(if old(avail) == [] then Grown(old(img), NewSlab(heap, perSlab, false))
                  else old(img), k, r.value, chunk, img)
      ensures r.Some? ==> !Live(old(img), r.value, chunk)
      ensures r.Some? ==> forall p: nat :: Live(img, p, chunk) <==> Live(old(img), p, chunk) || p == r.value
    {
      if avail == [] {
        if !granted { return None, 0; }
        NewSlabHasRoom(heap, perSlab, false);
        GrownKeeps(img, NewSlab(heap, perSlab, false), chunk);
        forall p: nat ensures Live(Grown(img, NewSlab(heap, perSlab, false)), p, chunk) <==> Live(img, p, chunk) {
          GrownLive(img, NewSlab(heap, perSlab, false), p, chunk);
        }
        Grow(heap, false);
      }
      ghost var s := img;
      SumsDrop(s.avail, 0);
      assert HasRoom(s.avail[0]);
      r, k := TakeFirst();
      TakenKeeps(s, k, chunk);
      forall p: nat ensures Live(img, p, chunk) <==> Live(s, p, chunk) || p == r.value {
        TakenLive(s, k, p, chunk);
      }
      TakenLive(s, k, 0, chunk);
    }

    /** A slab is flagged full exactly while it is on the full list. */
    lemma Locate(s: Slab) returns (at: Place)
      requires Valid() && (s in avail || s in full)
      ensures IsPlace(img, at) && SlabAt(img, at) == s.View()
      ensures s.full ==> at.InFull? && full[at.index] == s
      ensures !s.full ==> at.InAvail? && avail[at.index] == s
    {
      if s in avail {
        var n :| 0 <= n < |avail| && avail[n] == s;
        at := InAvail(n);
        assert At(s, img.avail[n], chunk) && HasRoom(img.avail[n]);
      } else {
        var n :| 0 <= n < |full| && full[n] == s;
        at := InFull(n);
        assert At(s, img.full[n], chunk) && IsFull(img.full[n]);
      }
    }

    /** Releases the object at `p` of slab `s`, wherever the slab is listed. */
    method Release(s: Slab, p: nat) returns (done: bool, ghost at: Place)
      requires Valid() && (s in avail || s in full)
      modifies `avail, `full, `nrObjs, `nrFree, `img, repr
      ensures Valid() && IsPlace(old(img), at) && SlabAt(old(img), at) == old(s.View())
      ensures done <==> LiveIn(SlabAt(old(img), at), p, chunk)
      ensures !done ==> img == old(img)
      ensures done ==> s in avail && forall q: nat :: Live(img, q, chunk) <==> Live(old(img), q, chunk) && q != p
    {
      ghost var i := img;
      ghost var k;
      at := Locate(s);
      if s.full {
        var n := Find(full, s);
        assert full[..|full|] == full;
        at := InFull(n);
        assert At(s, i.full[n], chunk);
        done, k := ReleaseFull(s, n, p);
      } else {
        done, k := ReleaseAvail(s, at.index, p);
      }
      if done { ReleaseEnds(i, at, p, chunk, k, img); }
    }

    /** Releases an object; a slab it leaves empty goes back, unless it is
        permanent or the last available one. */
    method Free(s: Slab, p: nat) returns (done: bool)
      requires Valid() && (s in avail || s in full)
      modifies this, repr
      ensures Valid() && repr == old(repr)
      ensures done <==> LiveIn(old(s.View()), p, chunk)
      ensures !done ==> img == old(img)
      ensures done ==> avail != [] && forall q: nat :: Live(img, q, chunk) <==> Live(old(img), q, chunk) && q != p
      ensures done && nrReclaimed == old(nrReclaimed) ==> !Spare(s, |avail|)
    {
      done := ReleaseLive(s, p);
      ReclaimIfEmpty(s, done);
    }

    /** The release without its bookkeeping. */
    method ReleaseLive(s: Slab, p: nat) returns (done: bool)
      requires Valid() && (s in avail || s in full)
      modifies `avail, `full, `nrObjs, `nrFree, `img, repr
      ensures Valid() && (done ==> s in avail)
      ensures done <==> LiveIn(old(s.View()), p, chunk)
      ensures !done ==> img == old(img)
      ensures done ==> forall q: nat :: Live(img, q, chunk) <==> Live(old(img), q, chunk) && q != p
    {
      ghost var at;
      done, at := Release(s, p);
    }

    /** Gives the slab back if an object was just released and it has none left. */
    method ReclaimIfEmpty(s: Slab, released: bool)
      requires Valid() && (released ==> s in avail)
      modifies `avail, `nrObjs, `nrFree, `nrReclaimed, `img
      ensures Valid() && (released ==> avail != [])
      ensures nrReclaimed == old(nrReclaimed) + if released && Spare(s, |old(avail)|) then 1 else 0
      ensures !(released && Spare(s, |old(avail)|)) ==> img == old(img) && avail == old(avail)
      ensures forall q: nat :: Live(img, q, chunk) <==> Live(old(img), q, chunk)
    {
      if released && Spare(s, |avail|) {
        var n := Find(avail, s);
        assert avail[..|avail|] == avail;
        ghost var i := img;
        assert At(s, i.avail[n], chunk);
        ReclaimedKeeps(i, n, chunk);
        forall q: nat ensures Live(Reclaimed(i, n), q, chunk) <==> Live(i, q, chunk) {
          ReclaimedLive(i, n, q, chunk);
        }
        Reclaim(n);
      }
    }

    /** An empty slab that is neither permanent nor the last available one. */
    predicate Spare(s: Slab, available: nat)
      reads s, s.bits
    {
      !s.permanent && s.bits.nrBits == s.bits.nrAvail && available > 1
    }
  }
}

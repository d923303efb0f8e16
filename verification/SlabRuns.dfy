/**
 Whole runs of a slab cache: which addresses are live at any time follows from
 what was given out and taken back.
 */
module SlabRuns {
  import opened Common
  import opened SlabImages
  import opened SlabCache

  /** A request for an object, with the pages that a new slab would get, or the
      release of an address. */
  datatype Call = Take(heap: nat, granted: bool) | Give(p: nat)

  /** The live addresses after a run, going by its answers. */
  ghost function After(live: iset<nat>, calls: seq<Call>, answers: seq<Option<nat>>): iset<nat>
    requires |calls| == |answers|
  {
    if calls == [] then live
    else
      var n := |calls| - 1;
      Next(After(live, calls[..n], answers[..n]), calls[n], answers[n])
  }

  ghost function Next(live: iset<nat>, c: Call, a: Option<nat>): iset<nat> {
    match c
    case Take(_, _) => if a.Some? then live + iset{a.value} else live
    case Give(p) => live - iset{p}
  }

  /** A new slab at `heap` lies apart from the slabs there are. */
  ghost predicate HeapApart(s: Image, heap: nat, perSlab: nat, chunk: nat) {
    forall i :: 0 <= i < |s.full| ==> Apart(NewSlab(heap, perSlab, false), s.full[i], chunk)
  }

  /** A request is served exactly when some object is free or pages for a new slab
      were had, and what is given out was not live; a release succeeds exactly on
      a live address. */
  ghost predicate Right(live: iset<nat>, s: Image, perSlab: nat, chunk: nat, c: Call, a: Option<nat>) {
    match c
    case Take(heap, granted) =>
      && (a.Some? ==> a.value !in live)
      && (a.Some? <==> s.nrFree > 0 || (granted && HeapApart(s, heap, perSlab, chunk)))
    case Give(p) => a.Some? <==> p in live
  }

  /** Through the states `ss` of the cache every answer is right. */
  ghost predicate AllRight(live: iset<nat>, ss: seq<Image>, perSlab: nat, chunk: nat, calls: seq<Call>,
                           answers: seq<Option<nat>>)
    requires chunk > 0
  {
    && |calls| == |answers| && |ss| == |calls| + 1
    && forall i :: 0 <= i < |calls| ==> RightAt(live, ss, perSlab, chunk, calls, answers, i)
  }

  ghost predicate RightAt(live: iset<nat>, ss: seq<Image>, perSlab: nat, chunk: nat, calls: seq<Call>,
                          answers: seq<Option<nat>>, i: nat)
    requires chunk > 0 && i < |calls| == |answers| && |ss| == |calls| + 1
  {
    var now := After(live, calls[..i], answers[..i]);
    ImageOk(ss[i], chunk) && LiveSet(ss[i], chunk, now) && Right(now, ss[i], perSlab, chunk, calls[i], answers[i])
  }

  /** Some object is free exactly when some slab is available. */
  lemma FreeIffAvailable(s: Image, chunk: nat)
    requires ImageOk(s, chunk)
    ensures s.nrFree > 0 <==> s.avail != []
  {
    NoneFree(s.full);
    if s.avail != [] { SumsDrop(s.avail, 0); assert HasRoom(s.avail[0]); }
  }

  lemma {:induction false} NoneFree(l: seq<View>)
    requires forall i :: 0 <= i < |l| ==> IsFull(l[i])
    ensures Clears(l) == 0
  {
    if l != [] { NoneFree(l[..|l| - 1]); }
  }

  ghost predicate LiveSet(s: Image, chunk: nat, live: iset<nat>)
    requires chunk > 0
  {
    forall p: nat :: p in live <==> Live(s, p, chunk)
  }

  /** No two objects of this size at the addresses overlap. */
  ghost predicate Spaced(live: iset<nat>, size: nat) {
    forall p, q :: p in live && q in live && p != q ==> p + size <= q || q + size <= p
  }

  lemma LiveAreSpaced(s: Image, objSize: nat, live: iset<nat>)
    requires ImageOk(s, Chunk(objSize)) && LiveSet(s, Chunk(objSize), live)
    ensures Spaced(live, objSize)
  {
    forall p, q | p in live && q in live && p != q ensures p + objSize <= q || q + objSize <= p {
      LiveAreDisjoint(s, objSize, p, q);
    }
  }

  /** The new slab would lie apart from the slabs there are. */
  method HeapIsFree(c: Cache, heap: nat) returns (apart: bool)
    requires c.Valid()
    ensures apart <==> HeapApart(c.img, heap, c.perSlab, c.chunk)
  {
    var i := 0;
    apart := true;
    while i < |c.full|
      invariant i <= |c.full|
      invariant apart <==> forall j :: 0 <= j < i ==> Apart(NewSlab(heap, c.perSlab, false), c.img.full[j], c.chunk)
    {
      var s := c.full[i];
      assert At(s, c.img.full[i], c.chunk);
      if !(heap + c.perSlab * c.chunk <= s.base || s.base + s.bits.nrBits * c.chunk <= heap) { apart := false; }
      i := i + 1;
    }
  }

  /** The slab whose bytes include an address. */
  method SlabOf(c: Cache, p: nat) returns (s: Slab?)
    requires c.Valid()
    ensures s == null ==> !Live(c.img, p, c.chunk)
    ensures s != null ==> (s in c.avail || s in c.full) && s.base <= p < s.base + s.bits.nrBits * c.chunk
  {
    s := Search(c.avail, p, c.chunk, c.img.avail, c.repr);
    if s == null { s := Search(c.full, p, c.chunk, c.img.full, c.repr); }
  }

  method Search(l: seq<Slab>, p: nat, chunk: nat, ghost v: seq<View>, ghost repr: set<object>) returns (s: Slab?)
    requires chunk > HEADER && Linked(l, v, chunk, repr)
    ensures s == null ==> !LiveAmong(v, p, chunk)
    ensures s != null ==> s in l && s.base <= p < s.base + s.bits.nrBits * chunk
  {
    var i := 0;
    while i < |l|
      invariant i <= |l| && forall j :: 0 <= j < i ==> !LiveIn(v[j], p, chunk)
    {
      assert At(l[i], v[i], chunk);
      if l[i].base <= p < l[i].base + l[i].bits.nrBits * chunk { return l[i]; }
      if LiveIn(v[i], p, chunk) { LiveInside(v[i], p, chunk); }
      i := i + 1;
    }
    s := null;
  }

  /** An address inside a slab is live in no other. */
  lemma OnlyHere(s: Image, at: Place, p: nat, chunk: nat)
    requires ImageOk(s, chunk) && chunk > HEADER && IsPlace(s, at)
    requires SlabAt(s, at).base <= p < End(SlabAt(s, at), chunk)
    ensures Live(s, p, chunk) <==> LiveIn(SlabAt(s, at), p, chunk)
  {
    if Live(s, p, chunk) {
      var b := SlabOfLive(s, p, chunk);
      LiveInside(SlabAt(s, b), p, chunk);
      if b != at { PlacesAreApart(s, at, b, chunk); }
    }
    if LiveIn(SlabAt(s, at), p, chunk) {
      match at {
        case InAvail(i) => assert LiveIn(s.avail[i], p, chunk);
        case InFull(i) => assert LiveIn(s.full[i], p, chunk);
      }
    }
  }

  method PerformTake(c: Cache, heap: nat, granted: bool, ghost live: iset<nat>)
    returns (a: Option<nat>, ghost now: iset<nat>)
    requires c.Valid() && LiveSet(c.img, c.chunk, live)
    modifies c, c.repr
    ensures c.Valid() && fresh(c.repr - old(c.repr)) && LiveSet(c.img, c.chunk, now)
    ensures now == if a.Some? then live + iset{a.value} else live
    ensures Right(live, old(c.img), c.perSlab, c.chunk, Take(heap, granted), a)
  {
    a, now := None, live;
    FreeIffAvailable(c.img, c.chunk);
    var apart := true;
    if c.avail == [] { apart := HeapIsFree(c, heap); }
    if apart {
      ghost var k;
      a, k := c.Alloc(heap, granted);
      if a.Some? { now := live + iset{a.value}; }
    }
  }

  method PerformGive(c: Cache, p: nat, ghost live: iset<nat>) returns (a: Option<nat>, ghost now: iset<nat>)
    requires c.Valid() && LiveSet(c.img, c.chunk, live)
    modifies c, c.repr
    ensures c.Valid() && fresh(c.repr - old(c.repr)) && LiveSet(c.img, c.chunk, now)
    ensures now == live - iset{p} && (a.Some? <==> p in live)
  {
    a, now := None, live - iset{p};
    var s := SlabOf(c, p);
    if s != null {
      ghost var at := c.Locate(s);
      OnlyHere(c.img, at, p, c.chunk);
      var done := c.Free(s, p);
      if done { a := Some(p); }
    }
  }

  method Perform(c: Cache, call: Call, ghost live: iset<nat>) returns (a: Option<nat>)
    requires c.Valid() && LiveSet(c.img, c.chunk, live)
    modifies c, c.repr
    ensures c.Valid() && fresh(c.repr - old(c.repr)) && LiveSet(c.img, c.chunk, Next(live, call, a))
    ensures Right(live, old(c.img), c.perSlab, c.chunk, call, a)
  {
    ghost var now;
    match call {
      case Take(heap, granted) => a, now := PerformTake(c, heap, granted, live);
      case Give(p) => a, now := PerformGive(c, p, live);
    }
  }

  lemma Extends(live: iset<nat>, ss: seq<Image>, perSlab: nat, chunk: nat, calls: seq<Call>, n: nat,
                answers: seq<Option<nat>>, a: Option<nat>, t: Image)
    requires chunk > 0 && n < |calls| && AllRight(live, ss, perSlab, chunk, calls[..n], answers)
    requires ImageOk(ss[n], chunk) && LiveSet(ss[n], chunk, After(live, calls[..n], answers))
    requires Right(After(live, calls[..n], answers), ss[n], perSlab, chunk, calls[n], a)
    ensures AllRight(live, ss + [t], perSlab, chunk, calls[..n + 1], answers + [a])
    ensures After(live, calls[..n + 1], answers + [a]) == Next(After(live, calls[..n], answers), calls[n], a)
  {
    var us, cs, as' := ss + [t], calls[..n + 1], answers + [a];
    assert cs[..n] == calls[..n] && as'[..n] == answers;
    forall i | 0 <= i < n + 1 ensures RightAt(live, us, perSlab, chunk, cs, as', i) {
      if i < n {
        assert RightAt(live, ss, perSlab, chunk, calls[..n], answers, i);
        assert cs[..i] == calls[..n][..i] && as'[..i] == answers[..i];
      }
    }
  }

  /** Over any run every address given out is new, a request is served whenever an
      object is free or pages are had, a release succeeds exactly on a live
      address, and the live addresses are those given out and not taken back. */
  method Run(c: Cache, calls: seq<Call>, ghost live: iset<nat>)
    returns (answers: seq<Option<nat>>, ghost ss: seq<Image>)
    requires c.Valid() && LiveSet(c.img, c.chunk, live)
    modifies c, c.repr
    ensures c.Valid() && AllRight(live, ss, c.perSlab, c.chunk, calls, answers)
    ensures ss[0] == old(c.img) && ss[|calls|] == c.img
    ensures LiveSet(c.img, c.chunk, After(live, calls, answers)) && Spaced(After(live, calls, answers), c.objSize)
  {
    answers, ss := [], [c.img];
    ghost var now := live;
    for i := 0 to |calls|
      invariant c.Valid() && fresh(c.repr - old(c.repr)) && LiveSet(c.img, c.chunk, now)
      invariant AllRight(live, ss, c.perSlab, c.chunk, calls[..i], answers) && now == After(live, calls[..i], answers)
      invariant ss[0] == old(c.img) && ss[i] == c.img
    {
      var a := Perform(c, calls[i], now);
      Extends(live, ss, c.perSlab, c.chunk, calls, i, answers, a, c.img);
      now, answers, ss := Next(now, calls[i], a), answers + [a], ss + [c.img];
    }
    assert calls[..|calls|] == calls;
    LiveAreSpaced(c.img, c.objSize, now);
  }
}

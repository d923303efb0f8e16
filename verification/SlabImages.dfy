/**
 A slab cache as a value: its two lists of slabs, which objects of each are
 live, where their payloads are, and what one allocation or release changes.
 */
module SlabImages {
  import opened Common
  import opened Bitset

  const HEADER := 40

  /** A slab at `base` with one bit per object, set while the object is live. */
  datatype View = View(base: nat, bits: seq<bool>, full: bool, permanent: bool)

  datatype Image = Image(avail: seq<View>, full: seq<View>, nrObjs: nat, nrFree: nat)

  function Align8(n: nat): nat { (n + 7) / 8 * 8 }

  /** Bytes from one object's header to the next. */
  function Chunk(objSize: nat): (c: nat)
    ensures HEADER + objSize <= c < HEADER + objSize + 8
  {
    Align8(objSize + HEADER)
  }

  /** Where the payload of object `k` starts in a slab at `base`. */
  function Address(base: nat, k: nat, chunk: nat): nat { base + k * chunk + HEADER }

  function Payload(v: View, k: nat, chunk: nat): nat { Address(v.base, k, chunk) }

  function End(v: View, chunk: nat): nat { v.base + |v.bits| * chunk }

  /** The object whose payload starts at `p`, as the release path computes it. */
  function ObjectAt(v: View, p: nat, chunk: nat): Option<nat>
    requires chunk > 0
  {
    if p < v.base + HEADER || p >= End(v, chunk) || (p - v.base) % chunk != HEADER then None
    else Some((p - v.base) / chunk)
  }

  /** It finds exactly the objects of the slab, each at its own payload address. */
  lemma ObjectAtPayload(v: View, p: nat, chunk: nat, k: nat)
    requires chunk > HEADER
    ensures ObjectAt(v, p, chunk) == Some(k) <==> k < |v.bits| && p == Payload(v, k, chunk)
  {
    if k < |v.bits| && p == Payload(v, k, chunk) {
      assert p - v.base == k * chunk + HEADER;
      DivUnique(p - v.base, k, chunk, HEADER);
      MulLe(k + 1, |v.bits|, chunk);
    }
    if ObjectAt(v, p, chunk) == Some(k) {
      assert (p - v.base) == k * chunk + HEADER;
      MulLe(|v.bits|, k, chunk);
    }
  }

  lemma DivUnique(n: nat, q: nat, d: nat, r: nat)
    requires n == q * d + r && r < d
    ensures n / d == q && n % d == r
  {
    DivBounds(n, d);
    MulUnique(n / d, q, d, n % d, r);
  }

  lemma DivBounds(n: nat, d: nat)
    requires d > 0
    ensures n == (n / d) * d + n % d && 0 <= n % d < d
  {
  }

  lemma MulUnique(q: nat, q': nat, d: nat, r: nat, r': nat)
    requires q * d + r == q' * d + r' && r < d && r' < d
    ensures q == q' && r == r'
  {
    MulLe(q + 1, q', d);
    MulLe(q' + 1, q, d);
    MulLe(q, q, d);
    MulLe(q', q', d);
  }

  lemma MulLe(a: nat, b: nat, d: nat)
    ensures a <= b ==> a * d <= b * d
    ensures (a + 1) * d == a * d + d
  {
  }

  predicate LiveIn(v: View, p: nat, chunk: nat)
    requires chunk > 0
  {
    var k := ObjectAt(v, p, chunk);
    k.Some? && k.value < |v.bits| && v.bits[k.value]
  }

  /** An object is live at `p` in some slab of the list. */
  predicate LiveAmong(l: seq<View>, p: nat, chunk: nat)
    requires chunk > 0
  {
    exists i :: 0 <= i < |l| && LiveIn(l[i], p, chunk)
  }

  predicate Live(s: Image, p: nat, chunk: nat)
    requires chunk > 0
  {
    LiveAmong(s.avail, p, chunk) || LiveAmong(s.full, p, chunk)
  }

  function Clears(l: seq<View>): nat {
    if l == [] then 0 else Clears(l[..|l| - 1]) + ClearCount(l[|l| - 1].bits)
  }

  function Objects(l: seq<View>): nat {
    if l == [] then 0 else Objects(l[..|l| - 1]) + |l[|l| - 1].bits|
  }

  lemma {:induction false} SumsConcat(l: seq<View>, m: seq<View>)
    ensures Clears(l + m) == Clears(l) + Clears(m) && Objects(l + m) == Objects(l) + Objects(m)
  {
    if m == [] {
      assert l + m == l;
    } else {
      SumsConcat(l, m[..|m| - 1]);
      assert (l + m)[..|l + m| - 1] == l + m[..|m| - 1];
    }
  }

  lemma SumsOne(v: View)
    ensures Clears([v]) == ClearCount(v.bits) && Objects([v]) == |v.bits|
  {
    assert [v][..0] == [];
  }

  function Drop(l: seq<View>, i: nat): seq<View>
    requires i < |l|
  {
    l[..i] + l[i + 1..]
  }

  lemma SumsDrop(l: seq<View>, i: nat)
    requires i < |l|
    ensures Clears(l) == Clears(Drop(l, i)) + ClearCount(l[i].bits)
    ensures Objects(l) == Objects(Drop(l, i)) + |l[i].bits|
  {
    assert l == l[..i] + ([l[i]] + l[i + 1..]);
    SumsConcat(l[..i], [l[i]] + l[i + 1..]);
    SumsConcat([l[i]], l[i + 1..]);
    SumsConcat(l[..i], l[i + 1..]);
    SumsOne(l[i]);
  }

  lemma SumsUpdate(l: seq<View>, i: nat, w: View)
    requires i < |l|
    ensures Clears(l[i := w]) == Clears(l) - ClearCount(l[i].bits) + ClearCount(w.bits)
    ensures Objects(l[i := w]) == Objects(l) - |l[i].bits| + |w.bits|
  {
    SumsDrop(l, i);
    SumsDrop(l[i := w], i);
    assert Drop(l[i := w], i) == Drop(l, i);
  }

  predicate Apart(v: View, w: View, chunk: nat) { End(v, chunk) <= w.base || End(w, chunk) <= v.base }

  predicate AllApart(l: seq<View>, chunk: nat) {
    forall i, j :: 0 <= i < j < |l| ==> Apart(l[i], l[j], chunk)
  }

  predicate Across(l: seq<View>, m: seq<View>, chunk: nat) {
    forall i, j :: 0 <= i < |l| && 0 <= j < |m| ==> Apart(l[i], m[j], chunk)
  }

  predicate HasRoom(v: View) { !v.full && ClearCount(v.bits) > 0 }

  predicate IsFull(v: View) { v.full && ClearCount(v.bits) == 0 }

  predicate Sorted(avail: seq<View>, full: seq<View>) {
    && (forall i :: 0 <= i < |avail| ==> HasRoom(avail[i]))
    && (forall i :: 0 <= i < |full| ==> IsFull(full[i]))
  }

  predicate Spread(avail: seq<View>, full: seq<View>, chunk: nat) {
    AllApart(avail, chunk) && AllApart(full, chunk) && Across(avail, full, chunk)
  }

  predicate Counted(s: Image) {
    s.nrFree == Clears(s.avail) + Clears(s.full) && s.nrObjs == Objects(s.avail) + Objects(s.full)
  }

  /** The lists hold exactly the slabs with and without a free object, the
      counters are the sums over them, and no two slabs overlap. */
  predicate ImageOk(s: Image, chunk: nat) {
    Sorted(s.avail, s.full) && Spread(s.avail, s.full, chunk) && Counted(s)
  }

  /** Every payload ends inside its slab. */
  lemma PayloadFits(v: View, k: nat, objSize: nat)
    requires k < |v.bits|
    ensures var c := Chunk(objSize); v.base + HEADER <= Payload(v, k, c) && Payload(v, k, c) + objSize <= End(v, c)
  {
    var c := Chunk(objSize);
    MulLe(k + 1, |v.bits|, c);
    MulLe(0, k, c);
    MulLe(k, k, c);
  }

  lemma PayloadsInOrder(v: View, k: nat, m: nat, objSize: nat)
    requires k < m
    ensures var c := Chunk(objSize); Payload(v, k, c) + objSize <= Payload(v, m, c)
  {
    MulLe(k + 1, m, Chunk(objSize));
    MulLe(k, k, Chunk(objSize));
  }

  /** Two different objects of one slab, or any two of slabs apart, have
      disjoint payloads, and every payload ends inside its slab. */
  lemma PayloadsAreDisjoint(v: View, k: nat, w: View, m: nat, objSize: nat)
    requires k < |v.bits| && m < |w.bits|
    requires if v == w then k != m else Apart(v, w, Chunk(objSize))
    ensures var c := Chunk(objSize);
      && v.base + HEADER <= Payload(v, k, c) && Payload(v, k, c) + objSize <= End(v, c)
      && (Payload(v, k, c) + objSize <= Payload(w, m, c) || Payload(w, m, c) + objSize <= Payload(v, k, c))
  {
    PayloadFits(v, k, objSize);
    PayloadFits(w, m, objSize);
    if v == w {
      if k < m { PayloadsInOrder(v, k, m, objSize); } else { PayloadsInOrder(v, m, k, objSize); }
    }
  }

  /** The slab of a live object. */
  lemma SlabOfLive(s: Image, p: nat, chunk: nat) returns (at: Place)
    requires chunk > 0 && Live(s, p, chunk)
    ensures IsPlace(s, at) && LiveIn(SlabAt(s, at), p, chunk)
  {
    if LiveAmong(s.avail, p, chunk) {
      var i :| 0 <= i < |s.avail| && LiveIn(s.avail[i], p, chunk);
      at := InAvail(i);
    } else {
      var i :| 0 <= i < |s.full| && LiveIn(s.full[i], p, chunk);
      at := InFull(i);
    }
  }

  lemma PlacesAreApart(s: Image, a: Place, b: Place, chunk: nat)
    requires ImageOk(s, chunk) && IsPlace(s, a) && IsPlace(s, b) && a != b
    ensures Apart(SlabAt(s, a), SlabAt(s, b), chunk)
  {
    match (a, b) {
      case (InAvail(i), InAvail(j)) =>
        if i < j {
          assert Apart(s.avail[i], s.avail[j], chunk);
        } else {
          assert Apart(s.avail[j], s.avail[i], chunk);
        }
      case (InFull(i), InFull(j)) =>
        if i < j {
          assert Apart(s.full[i], s.full[j], chunk);
        } else {
          assert Apart(s.full[j], s.full[i], chunk);
        }
      case (InAvail(i), InFull(j)) => assert Apart(s.avail[i], s.full[j], chunk);
      case (InFull(i), InAvail(j)) => assert Apart(s.avail[j], s.full[i], chunk);
    }
  }

  /** Any two live objects of a cache have disjoint payloads. */
  lemma LiveAreDisjoint(s: Image, objSize: nat, p: nat, q: nat)
    requires ImageOk(s, Chunk(objSize)) && p != q && Live(s, p, Chunk(objSize)) && Live(s, q, Chunk(objSize))
    ensures p + objSize <= q || q + objSize <= p
  {
    var c := Chunk(objSize);
    var a := SlabOfLive(s, p, c);
    var b := SlabOfLive(s, q, c);
    var v, w := SlabAt(s, a), SlabAt(s, b);
    var k, m := ObjectAt(v, p, c).value, ObjectAt(w, q, c).value;
    ObjectAtPayload(v, p, c, k);
    ObjectAtPayload(w, q, c, m);
    if a != b {
      PlacesAreApart(s, a, b, c);
      PayloadFits(v, k, objSize);
      PayloadFits(w, m, objSize);
    } else {
      PayloadsAreDisjoint(v, k, w, m, objSize);
    }
  }

  lemma LiveInside(v: View, p: nat, chunk: nat)
    requires chunk > HEADER && LiveIn(v, p, chunk)
    ensures v.base <= p < End(v, chunk)
  {
  }

  /** The slab with object `k` marked. */
  function Marked(v: View, k: nat, live: bool, full: bool): View
    requires k < |v.bits|
  {
    v.(bits := v.bits[k := live], full := full)
  }

  lemma MarkedLive(v: View, k: nat, live: bool, full: bool, p: nat, chunk: nat)
    requires k < |v.bits| && chunk > HEADER
    ensures LiveIn(Marked(v, k, live, full), p, chunk) <==>
            if p == Payload(v, k, chunk) then live else LiveIn(v, p, chunk)
  {
    ObjectAtPayload(v, p, chunk, k);
  }

  /** After allocating object `k` of the first available slab. */
  function Taken(s: Image, k: nat): Image
    requires s.avail != [] && k < |s.avail[0].bits| && s.nrFree > 0
  {
    var v := s.avail[0];
    if ClearCount(v.bits[k := true]) == 0 then
      Image(s.avail[1..], s.full + [Marked(v, k, true, true)], s.nrObjs, s.nrFree - 1)
    else
      Image(s.avail[0 := Marked(v, k, true, v.full)], s.full, s.nrObjs, s.nrFree - 1)
  }

  predicate SameRegion(v: View, w: View) { v.base == w.base && |v.bits| == |w.bits| }

  lemma UpdateSpreads(avail: seq<View>, full: seq<View>, i: nat, w: View, chunk: nat)
    requires Spread(avail, full, chunk) && i < |avail| && SameRegion(avail[i], w)
    ensures Spread(avail[i := w], full, chunk)
  {
  }

  lemma DropSpreads(avail: seq<View>, full: seq<View>, i: nat, chunk: nat)
    requires Spread(avail, full, chunk) && i < |avail|
    ensures Spread(Drop(avail, i), full, chunk)
  {
    var l := Drop(avail, i);
    assert forall x :: 0 <= x < |l| ==> l[x] == avail[if x < i then x else x + 1];
  }

  lemma SwapSpreads(avail: seq<View>, full: seq<View>, chunk: nat)
    requires Spread(avail, full, chunk)
    ensures Spread(full, avail, chunk)
  {
  }

  /** A slab taken off one list can go to the end of the other. */
  lemma MoveSpreads(from: seq<View>, to: seq<View>, i: nat, w: View, chunk: nat)
    requires Spread(from, to, chunk) && i < |from| && SameRegion(from[i], w)
    ensures Spread(Drop(from, i), to + [w], chunk)
  {
    DropSpreads(from, to, i, chunk);
    var l, m := Drop(from, i), to + [w];
    forall y | 0 <= y < |to| ensures Apart(to[y], w, chunk) { assert Apart(from[i], to[y], chunk); }
    forall x | 0 <= x < |l| ensures Apart(l[x], w, chunk) {
      assert l[x] == from[if x < i then x else x + 1];
      assert if x < i then Apart(from[x], from[i], chunk) else Apart(from[i], from[x + 1], chunk);
    }
  }

  lemma MoveCounts(from: seq<View>, to: seq<View>, i: nat, w: View)
    requires i < |from|
    ensures Clears(Drop(from, i)) + Clears(to + [w]) + ClearCount(from[i].bits)
            == Clears(from) + Clears(to) + ClearCount(w.bits)
    ensures Objects(Drop(from, i)) + Objects(to + [w]) + |from[i].bits| == Objects(from) + Objects(to) + |w.bits|
  {
    SumsDrop(from, i);
    SumsConcat(to, [w]);
    SumsOne(w);
  }

  /** The first available slab can be taken from: it has a free object. */
  predicate Takeable(s: Image, k: nat) {
    s.avail != [] && k < |s.avail[0].bits| && !s.avail[0].bits[k] && s.nrFree > 0
  }

  lemma TakenSorted(s: Image, k: nat)
    requires Sorted(s.avail, s.full) && Takeable(s, k)
    ensures Sorted(Taken(s, k).avail, Taken(s, k).full)
  {
    var v, t := s.avail[0], Taken(s, k);
    assert HasRoom(v);
    if ClearCount(v.bits[k := true]) == 0 {
      assert t.avail == s.avail[1..];
    } else {
      assert forall i :: 1 <= i < |s.avail| ==> t.avail[i] == s.avail[i];
    }
  }

  lemma TakenSpread(s: Image, k: nat, chunk: nat)
    requires Spread(s.avail, s.full, chunk) && Takeable(s, k)
    ensures Spread(Taken(s, k).avail, Taken(s, k).full, chunk)
  {
    var v := s.avail[0];
    assert Drop(s.avail, 0) == s.avail[1..];
    if ClearCount(v.bits[k := true]) == 0 {
      MoveSpreads(s.avail, s.full, 0, Marked(v, k, true, true), chunk);
    } else {
      UpdateSpreads(s.avail, s.full, 0, Marked(v, k, true, v.full), chunk);
    }
  }

  lemma TakenCounted(s: Image, k: nat)
    requires Counted(s) && Takeable(s, k)
    ensures Counted(Taken(s, k))
  {
    var v := s.avail[0];
    assert Drop(s.avail, 0) == s.avail[1..];
    ClearCountUpdate(v.bits, k, true);
    if ClearCount(v.bits[k := true]) == 0 {
      MoveCounts(s.avail, s.full, 0, Marked(v, k, true, true));
    } else {
      SumsUpdate(s.avail, 0, Marked(v, k, true, v.full));
    }
  }

  lemma TakenKeeps(s: Image, k: nat, chunk: nat)
    requires ImageOk(s, chunk) && Takeable(s, k)
    ensures ImageOk(Taken(s, k), chunk)
  {
    TakenSorted(s, k);
    TakenSpread(s, k, chunk);
    TakenCounted(s, k);
  }

  /** Where a slab is listed. */
  datatype Place = InAvail(index: nat) | InFull(index: nat)

  predicate IsPlace(s: Image, at: Place) {
    match at
    case InAvail(i) => i < |s.avail|
    case InFull(i) => i < |s.full|
  }

  function SlabAt(s: Image, at: Place): View
    requires IsPlace(s, at)
  {
    match at
    case InAvail(i) => s.avail[i]
    case InFull(i) => s.full[i]
  }

  predicate Releasable(s: Image, at: Place, k: nat) {
    IsPlace(s, at) && k < |SlabAt(s, at).bits| && SlabAt(s, at).bits[k]
  }

  /** After releasing object `k` of the slab at a place. */
  function Released(s: Image, at: Place, k: nat): Image
    requires Releasable(s, at, k)
  {
    match at
    case InAvail(i) => Image(s.avail[i := Marked(s.avail[i], k, false, s.avail[i].full)], s.full, s.nrObjs, s.nrFree
        + 1)
    case InFull(i) => Image(s.avail + [Marked(s.full[i], k, false, false)], Drop(s.full, i), s.nrObjs, s.nrFree + 1)
  }

  lemma ReleasedSorted(s: Image, at: Place, k: nat)
    requires Sorted(s.avail, s.full) && Releasable(s, at, k)
    ensures Sorted(Released(s, at, k).avail, Released(s, at, k).full)
  {
    var v, t := SlabAt(s, at), Released(s, at, k);
    ClearCountUpdate(v.bits, k, false);
    match at
    case InAvail(i) => assert HasRoom(v);
    case InFull(i) =>
      assert HasRoom(Marked(v, k, false, false));
      assert forall x :: 0 <= x < |t.full| ==> t.full[x] == s.full[if x < i then x else x + 1];
  }

  lemma ReleasedSpread(s: Image, at: Place, k: nat, chunk: nat)
    requires Spread(s.avail, s.full, chunk) && Releasable(s, at, k)
    ensures Spread(Released(s, at, k).avail, Released(s, at, k).full, chunk)
  {
    match at
    case InAvail(i) => UpdateSpreads(s.avail, s.full, i, Marked(s.avail[i], k, false, s.avail[i].full), chunk);
    case InFull(i) =>
      SwapSpreads(s.avail, s.full, chunk);
      MoveSpreads(s.full, s.avail, i, Marked(s.full[i], k, false, false), chunk);
      SwapSpreads(Drop(s.full, i), s.avail + [Marked(s.full[i], k, false, false)], chunk);
  }

  lemma ReleasedCounted(s: Image, at: Place, k: nat)
    requires Counted(s) && Releasable(s, at, k)
    ensures Counted(Released(s, at, k))
  {
    ClearCountUpdate(SlabAt(s, at).bits, k, false);
    match at
    case InAvail(i) => SumsUpdate(s.avail, i, Marked(s.avail[i], k, false, s.avail[i].full));
    case InFull(i) => MoveCounts(s.full, s.avail, i, Marked(s.full[i], k, false, false));
  }

  lemma ReleasedKeeps(s: Image, at: Place, k: nat, chunk: nat)
    requires ImageOk(s, chunk) && Releasable(s, at, k)
    ensures ImageOk(Released(s, at, k), chunk)
  {
    ReleasedSorted(s, at, k);
    ReleasedSpread(s, at, k, chunk);
    ReleasedCounted(s, at, k);
  }

  /** An empty slab that may go: not a permanent one and not the last available. */
  predicate Reclaimable(s: Image, i: nat) {
    && i < |s.avail| && |s.avail| > 1 && !s.avail[i].permanent && ClearCount(s.avail[i].bits) == |s.avail[i].bits|
  }

  function Reclaimed(s: Image, i: nat): Image
    requires i < |s.avail| && |s.avail[i].bits| <= s.nrObjs && ClearCount(s.avail[i].bits) <= s.nrFree
  {
    Image(Drop(s.avail, i), s.full, s.nrObjs - |s.avail[i].bits|, s.nrFree - ClearCount(s.avail[i].bits))
  }

  lemma ReclaimedKeeps(s: Image, i: nat, chunk: nat)
    requires ImageOk(s, chunk) && Reclaimable(s, i)
    ensures |s.avail[i].bits| <= s.nrObjs && ClearCount(s.avail[i].bits) <= s.nrFree
    ensures ImageOk(Reclaimed(s, i), chunk) && Reclaimed(s, i).avail != []
  {
    SumsDrop(s.avail, i);
    DropSpreads(s.avail, s.full, i, chunk);
    var l := Drop(s.avail, i);
    assert forall x :: 0 <= x < |l| ==> l[x] == s.avail[if x < i then x else x + 1];
  }

  /** With a new slab of clear bits at the end of the available list. */
  function Grown(s: Image, v: View): Image {
    Image(s.avail + [v], s.full, s.nrObjs + |v.bits|, s.nrFree + ClearCount(v.bits))
  }

  lemma GrownSpreads(avail: seq<View>, full: seq<View>, v: View, chunk: nat)
    requires Spread(avail, full, chunk)
    requires forall i :: 0 <= i < |avail| ==> Apart(avail[i], v, chunk)
    requires forall i :: 0 <= i < |full| ==> Apart(v, full[i], chunk)
    ensures Spread(avail + [v], full, chunk)
  {
  }

  lemma GrownKeeps(s: Image, v: View, chunk: nat)
    requires ImageOk(s, chunk) && HasRoom(v)
    requires forall i :: 0 <= i < |s.avail| ==> Apart(s.avail[i], v, chunk)
    requires forall i :: 0 <= i < |s.full| ==> Apart(v, s.full[i], chunk)
    ensures ImageOk(Grown(s, v), chunk)
  {
    SumsConcat(s.avail, [v]);
    SumsOne(v);
    GrownSpreads(s.avail, s.full, v, chunk);
    assert Sorted(s.avail + [v], s.full);
  }

  lemma LiveDrop(l: seq<View>, i: nat, p: nat, chunk: nat)
    requires i < |l| && chunk > 0
    ensures LiveAmong(l, p, chunk) <==> LiveAmong(Drop(l, i), p, chunk) || LiveIn(l[i], p, chunk)
  {
    var m := Drop(l, i);
    assert forall x :: 0 <= x < |m| ==> m[x] == l[if x < i then x else x + 1];
    if LiveAmong(l, p, chunk) && !LiveIn(l[i], p, chunk) {
      var x :| 0 <= x < |l| && LiveIn(l[x], p, chunk);
      assert m[if x < i then x else x - 1] == l[x];
    }
  }

  lemma LiveSnoc(l: seq<View>, w: View, p: nat, chunk: nat)
    requires chunk > 0
    ensures LiveAmong(l + [w], p, chunk) <==> LiveAmong(l, p, chunk) || LiveIn(w, p, chunk)
  {
    assert Drop(l + [w], |l|) == l;
    LiveDrop(l + [w], |l|, p, chunk);
  }

  lemma LiveUpdate(l: seq<View>, i: nat, w: View, p: nat, chunk: nat)
    requires i < |l| && chunk > 0
    ensures LiveAmong(l[i := w], p, chunk) <==> LiveAmong(Drop(l, i), p, chunk) || LiveIn(w, p, chunk)
  {
    assert Drop(l[i := w], i) == Drop(l, i);
    LiveDrop(l[i := w], i, p, chunk);
  }

  /** An address inside one slab is live in no other. */
  lemma NotElsewhere(l: seq<View>, m: seq<View>, i: nat, p: nat, chunk: nat)
    requires Spread(l, m, chunk) && i < |l| && chunk > HEADER && l[i].base <= p < End(l[i], chunk)
    ensures !LiveAmong(Drop(l, i), p, chunk) && !LiveAmong(m, p, chunk)
  {
    var d := Drop(l, i);
    forall x | 0 <= x < |d| ensures !LiveIn(d[x], p, chunk) {
      assert d[x] == l[if x < i then x else x + 1];
      assert if x < i then Apart(l[x], l[i], chunk) else Apart(l[i], l[x + 1], chunk);
    }
    forall x | 0 <= x < |m| ensures !LiveIn(m[x], p, chunk) {
      assert Apart(l[i], m[x], chunk);
    }
  }

  lemma PayloadInside(v: View, k: nat, chunk: nat)
    requires k < |v.bits| && chunk > HEADER
    ensures v.base <= Payload(v, k, chunk) < End(v, chunk)
  {
    MulLe(k + 1, |v.bits|, chunk);
    MulLe(k, k, chunk);
    MulLe(0, k, chunk);
  }

  /** Allocation makes exactly one address live that was not. */
  lemma TakenLive(s: Image, k: nat, p: nat, chunk: nat)
    requires ImageOk(s, chunk) && Takeable(s, k) && chunk > HEADER
    ensures Live(Taken(s, k), p, chunk) <==> Live(s, p, chunk) || p == Payload(s.avail[0], k, chunk)
    ensures !Live(s, Payload(s.avail[0], k, chunk), chunk)
  {
    var v := s.avail[0];
    var addr := Payload(v, k, chunk);
    assert Drop(s.avail, 0) == s.avail[1..];
    PayloadInside(v, k, chunk);
    NotElsewhere(s.avail, s.full, 0, addr, chunk);
    ObjectAtPayload(v, addr, chunk, k);
    LiveDrop(s.avail, 0, addr, chunk);
    LiveDrop(s.avail, 0, p, chunk);
    var w := Marked(v, k, true, ClearCount(v.bits[k := true]) == 0 || v.full);
    MarkedLive(v, k, true, w.full, p, chunk);
    LiveUpdate(s.avail, 0, w, p, chunk);
    LiveSnoc(s.full, w, p, chunk);
  }

  /** Release ends exactly one live address. */
  lemma ReleasedLive(s: Image, at: Place, k: nat, p: nat, chunk: nat)
    requires ImageOk(s, chunk) && Releasable(s, at, k) && chunk > HEADER
    ensures Live(Released(s, at, k), p, chunk) <==> Live(s, p, chunk) && p != Payload(SlabAt(s, at), k, chunk)
    ensures Live(s, Payload(SlabAt(s, at), k, chunk), chunk)
  {
    var v := SlabAt(s, at);
    var addr := Payload(v, k, chunk);
    PayloadInside(v, k, chunk);
    ObjectAtPayload(v, addr, chunk, k);
    match at
    case InAvail(i) =>
      NotElsewhere(s.avail, s.full, i, addr, chunk);
      LiveDrop(s.avail, i, p, chunk);
      MarkedLive(v, k, false, v.full, p, chunk);
      LiveUpdate(s.avail, i, Marked(v, k, false, v.full), p, chunk);
    case InFull(i) =>
      SwapSpreads(s.avail, s.full, chunk);
      NotElsewhere(s.full, s.avail, i, addr, chunk);
      LiveDrop(s.full, i, p, chunk);
      MarkedLive(v, k, false, false, p, chunk);
      LiveSnoc(s.avail, Marked(v, k, false, false), p, chunk);
  }

  lemma NoneLive(bits: seq<bool>, k: nat)
    requires ClearCount(bits) == |bits| && k < |bits|
    ensures !bits[k]
  {
    ClearCountUpdate(bits, k, false);
  }

  /** Giving an empty slab back ends no live object. */
  lemma ReclaimedLive(s: Image, i: nat, p: nat, chunk: nat)
    requires ImageOk(s, chunk) && Reclaimable(s, i) && chunk > HEADER
    requires |s.avail[i].bits| <= s.nrObjs && ClearCount(s.avail[i].bits) <= s.nrFree
    ensures Live(Reclaimed(s, i), p, chunk) <==> Live(s, p, chunk)
  {
    LiveDrop(s.avail, i, p, chunk);
    if LiveIn(s.avail[i], p, chunk) {
      NoneLive(s.avail[i].bits, ObjectAt(s.avail[i], p, chunk).value);
    }
  }

  lemma GrownLive(s: Image, v: View, p: nat, chunk: nat)
    requires chunk > 0 && ClearCount(v.bits) == |v.bits|
    ensures Live(Grown(s, v), p, chunk) <==> Live(s, p, chunk)
  {
    LiveSnoc(s.avail, v, p, chunk);
    if LiveIn(v, p, chunk) { NoneLive(v.bits, ObjectAt(v, p, chunk).value); }
  }
}

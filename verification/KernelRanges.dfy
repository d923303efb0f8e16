/**
 The kernel virtual range allocator: first fit on a free list, coalescing on
 free. Bases and lengths are counted in pages.
 */
module KernelRanges {
  import opened Common
  import opened BuddyLists
  import opened RangeLists
  import BuddyZone

  /** Every page of the arena is in exactly one free or used range. */
  ghost predicate Conserved(free: seq<Block>, used: seq<Block>, arena: Block) {
    NonEmpty(free) && NonEmpty(used) && forall p: nat {:trigger Cover(free, p)} ::
      Cover(free, p) + Cover(used, p) == Hit(arena, p)
  }

  lemma TakeConserves(free: seq<Block>, after: seq<Block>, used: seq<Block>, b: Block, arena: Block)
    requires Conserved(free, used, arena) && Plus(after, free, b) && NonEmpty(after) && b.len >= 1 && b.order == 0
    ensures Conserved(after, used + [b], arena)
  {
    forall p: nat {:trigger Cover(after, p)} ensures Cover(after, p) + Cover(used + [b], p) == Hit(arena, p) {
      CoverSnoc(used, b, p);
      assert Cover(free, p) == Cover(after, p) + Hit(b, p);
    }
  }

  lemma GiveConserves(free: seq<Block>, after: seq<Block>, used: seq<Block>, i: nat, arena: Block)
    requires Conserved(free, used, arena) && i < |used| && Plus(free, after, used[i]) && NonEmpty(after)
    ensures Conserved(after, Cut(used, i, i + 1), arena)
  {
    CutMinus(used, i);
    forall p: nat {:trigger Cover(after, p)} ensures Cover(after, p) + Cover(Cut(used, i, i + 1), p) == Hit(arena, p) {
      assert Cover(free, p) + Cover(used, p) == Hit(arena, p);
    }
  }

  /** A used range lies beside every free one. */
  lemma UsedIsBeside(free: seq<Block>, used: seq<Block>, i: nat, j: nat, arena: Block)
    requires Conserved(free, used, arena) && i < |used| && j < |free|
    ensures Beside(free[j], used[i])
  {
    forall p: nat | In(used[i], p) ensures Cover(free, p) == 0 {
      CoverAtLeast(used, i, p);
      assert Cover(free, p) + Cover(used, p) == Hit(arena, p);
    }
    OneSide(free, j, used[i]);
  }

  /** An address names at most one used range. */
  lemma BasesAreUnique(free: seq<Block>, used: seq<Block>, i: nat, j: nat, arena: Block)
    requires Conserved(free, used, arena) && i < |used| && j < |used| && used[i].base == used[j].base
    ensures i == j
  {
    var p := used[i].base;
    assert Cover(free, p) + Cover(used, p) == Hit(arena, p);
    if i != j {
      CutMinus(used, i);
      CoverAtLeast(Cut(used, i, i + 1), if j < i then j else j - 1, p);
    }
  }

  /** The first range with room for `n` pages; the length when there is none. */
  function FirstFit(l: seq<Block>, n: nat): (i: nat)
    ensures i <= |l| && (forall j :: 0 <= j < i ==> l[j].len < n) && (i < |l| ==> l[i].len >= n)
  {
    if l == [] || l[0].len >= n then 0 else 1 + FirstFit(l[1..], n)
  }

  /** What is left of range `i` when its first `n` pages are taken. */
  function Rest(l: seq<Block>, i: nat, n: nat): Block
    requires i < |l| && n <= l[i].len
  {
    Block(l[i].base + n, l[i].len - n, l[i].order)
  }

  lemma SplitPlus(l: seq<Block>, i: nat, n: nat, at: nat)
    requires i < |l| && n < l[i].len && at < |l|
    ensures Plus(Put(Cut(l, i, i + 1), at, Rest(l, i, n)), l, Block(l[i].base, n, 0))
  {
    CutMinus(l, i);
    PutPlus(Cut(l, i, i + 1), at, Rest(l, i, n));
  }

  lemma SplitCanonical(l: seq<Block>, i: nat, n: nat)
    requires i < |l| && n < l[i].len && Canonical(l) && NonEmpty(l)
    ensures Canonical(Put(Cut(l, i, i + 1), i, Rest(l, i, n)))
    ensures SlotFor(Cut(l, i, i + 1), i, l[i].base + n)
  {
    assert Put(Cut(l, i, i + 1), i, Rest(l, i, n)) == l[i := Rest(l, i, n)];
  }

  lemma SplitCanonicalAt(l: seq<Block>, i: nat, n: nat, at: nat, rest: seq<Block>)
    requires i < |l| && n < l[i].len && Canonical(l) && NonEmpty(l) && rest == Cut(l, i, i + 1) && at <= |rest|
    requires (forall j :: 0 <= j < at ==> rest[j].base <= l[i].base + n)
             && (at < |rest| ==> rest[at].base > l[i].base + n)
    ensures Canonical(Put(rest, at, Rest(l, i, n)))
  {
    SplitCanonical(l, i, n);
    SlotIsUnique(rest, i, at, l[i].base + n);
  }

  lemma CutCanonical(l: seq<Block>, i: nat)
    requires i < |l| && Canonical(l)
    ensures Canonical(Cut(l, i, i + 1))
  {
    var m := Cut(l, i, i + 1);
    forall x, y | 0 <= x < y < |m| ensures m[x].base + m[x].len < m[y].base {
      var x', y' := if x < i then x else x + 1, if y < i then y else y + 1;
      assert m[x] == l[x'] && m[y] == l[y'];
    }
  }

  /** The `n` pages from `s` on are all free. */
  ghost predicate FreeWindow(l: seq<Block>, s: nat, n: nat) { forall p: nat :: s <= p < s + n ==> Cover(l, p) >= 1 }

  ghost predicate LowestWindow(l: seq<Block>, n: nat, base: nat) {
    FreeWindow(l, base, n) && forall s: nat :: FreeWindow(l, s, n) ==> base <= s
  }

  /** On a canonical list first fit finds the lowest window of free pages. */
  lemma FirstFitIsLowest(l: seq<Block>, n: nat, s: nat)
    requires Canonical(l) && NonEmpty(l) && n >= 1 && FreeWindow(l, s, n)
    ensures FirstFit(l, n) < |l| && l[FirstFit(l, n)].base <= s
  {
    var j := WindowInOneRange(l, s, n);
    var i := FirstFit(l, n);
    assert i < j ==> l[i].base + l[i].len < l[j].base;
  }

  /** What first fit finds is such a window. */
  lemma FirstFitIsFree(l: seq<Block>, n: nat)
    requires FirstFit(l, n) < |l|
    ensures FreeWindow(l, l[FirstFit(l, n)].base, n)
  {
    forall p: nat | l[FirstFit(l, n)].base <= p < l[FirstFit(l, n)].base + n ensures Cover(l, p) >= 1 {
      CoverAtLeast(l, FirstFit(l, n), p);
    }
  }

  /** So on a canonical list it finds exactly the lowest window, if there is any. */
  lemma FirstFitIsExact(l: seq<Block>, n: nat)
    requires Canonical(l) && NonEmpty(l) && n >= 1
    ensures if FirstFit(l, n) < |l| then LowestWindow(l, n, l[FirstFit(l, n)].base)
            else forall s: nat :: !FreeWindow(l, s, n)
  {
    if FirstFit(l, n) < |l| { FirstFitIsFree(l, n); }
    forall s: nat | FreeWindow(l, s, n) ensures FirstFit(l, n) < |l| && l[FirstFit(l, n)].base <= s {
      FirstFitIsLowest(l, n, s);
    }
  }

  /** Freeing a range just allocated brings the free list back exactly. */
  lemma FreeUndoesAlloc(free: seq<Block>, taken: seq<Block>, after: seq<Block>, b: Block)
    requires Canonical(free) && NonEmpty(free) && Canonical(after) && NonEmpty(after)
    requires Plus(taken, free, b) && Plus(taken, after, b)
    ensures after == free
  {
    CanonicalIsUnique(free, after);
  }

  /** A range moved to the end leaves the list canonical exactly when it was there. */
  lemma AppendKeepsOrderIffLast(l: seq<Block>, i: nat)
    requires Canonical(l) && NonEmpty(l) && i < |l|
    ensures Canonical(Cut(l, i, i + 1) + [l[i]]) <==> i == |l| - 1
  {
    var m := Cut(l, i, i + 1) + [l[i]];
    if i == |l| - 1 {
      assert m == l;
    } else {
      assert m[|m| - 2] == l[|l| - 1] && m[|m| - 1] == l[i];
    }
  }

  lemma TooLong(l: seq<Block>, n: nat)
    requires Size(l) < n
    ensures FirstFit(l, n) == |l|
  {
    var i := FirstFit(l, n);
    if i < |l| {
      CutMinus(l, i);
    }
  }

  lemma SlotIsUnique(l: seq<Block>, i: nat, at: nat, base: nat)
    requires SlotFor(l, i, base) && at <= |l|
    requires (forall j :: 0 <= j < at ==> l[j].base <= base) && (at < |l| ==> l[at].base > base)
    ensures at == i
  {
    var x, y := if at < |l| then l[at].base else base, if i < |l| then l[i].base else base;
  }

  /** The free list without the first `n` pages of range `i`; what is left of
      that range goes to its sorted place. */
  method Split(l: seq<Block>, i: nat, n: nat) returns (m: seq<Block>)
    requires i < |l| && 1 <= n <= l[i].len && NonEmpty(l)
    ensures NonEmpty(m) && Plus(m, l, Block(l[i].base, n, 0))
    ensures Canonical(l) ==> Canonical(m)
  {
    m := Cut(l, i, i + 1);
    if l[i].len > n {
      var at := BuddyZone.Slot(m, l[i].base + n);
      SplitPlus(l, i, n, at);
      if Canonical(l) { SplitCanonicalAt(l, i, n, at, m); }
      m := Put(m, at, Rest(l, i, n));
    } else {
      CutMinus(l, i);
      if Canonical(l) { CutCanonical(l, i); }
    }
  }

  /** The list with ranges `i` and `i + 1` replaced by their union, at its
      sorted place, and that place. */
  method Unite(l: seq<Block>, i: nat, ghost seam: nat) returns (m: seq<Block>, at: nat)
    requires i + 1 < |l| && i <= seam <= i + 1 && NonEmpty(l) && l[i].base + l[i].len == l[i + 1].base
    ensures |m| == |l| - 1 && at < |m| && NonEmpty(m) && Same(l, m)
    ensures CanonicalBut(l, seam) ==> CanonicalBut(m, at)
  {
    var rest, b := Cut(l, i, i + 2), Joined(l, i);
    at := BuddyZone.Slot(rest, b.base);
    if CanonicalBut(l, seam) { UniteCanonical(l, i, seam, at, rest, b); }
    JoinSame(l, i, at);
    m := Put(rest, at, b);
  }

  lemma UniteCanonical(l: seq<Block>, i: nat, seam: nat, at: nat, rest: seq<Block>, b: Block)
    requires i + 1 < |l| && i <= seam <= i + 1 && NonEmpty(l) && l[i].base + l[i].len == l[i + 1].base
    requires CanonicalBut(l, seam) && rest == Cut(l, i, i + 2) && b == Joined(l, i)
    requires at <= |rest| && (forall j :: 0 <= j < at ==> rest[j].base <= b.base)
             && (at < |rest| ==> rest[at].base > b.base)
    ensures CanonicalBut(Put(rest, at, b), at)
  {
    JoinCanonical(l, i, seam);
    SlotIsUnique(rest, i, at, b.base);
  }

  lemma AppendSame(l: seq<Block>, i: nat)
    requires i < |l| && NonEmpty(l)
    ensures NonEmpty(Cut(l, i, i + 1) + [l[i]]) && Same(l, Cut(l, i, i + 1) + [l[i]])
  {
    var rest := Cut(l, i, i + 1);
    CutMinus(l, i);
    PutPlus(rest, |rest|, l[i]);
    assert Put(rest, |rest|, l[i]) == rest + [l[i]];
  }

  class RangeTable {
    var free: seq<Block>
    var used: seq<Block>
    var nrFree: nat
    ghost const arena: Block

    ghost predicate Valid()
      reads this
    {
      Conserved(free, used, arena) && nrFree == Size(free)
    }

    constructor (base: nat, pages: nat)
      requires pages >= 1
      ensures Valid() && Canonical(free) && arena == Block(base, pages, 0) && used == []
    {
      free := [Block(base, pages, 0)];
      used := [];
      nrFree := pages;
      arena := Block(base, pages, 0);
      new;
      assert free[..0] == [];
    }

    method MergeAt(i: nat)
      requires i < |free| && NonEmpty(free)
      modifies `free
      ensures NonEmpty(free) && Same(old(free), free)
      ensures CanonicalBut(old(free), i) ==> Canonical(free)
      decreases |free|, 1
    {
      var l := free;
      if i + 1 < |l| && l[i].base + l[i].len == l[i + 1].base {
        Join(i, i);
      } else if i > 0 && l[i - 1].base + l[i - 1].len == l[i].base {
        Join(i - 1, i);
      } else if CanonicalBut(l, i) {
        SeamSettles(l, i);
      }
    }

    /** Replaces ranges `i` and `i + 1` by their union, at its sorted place. */
    method Join(i: nat, ghost seam: nat)
      requires i + 1 < |free| && i <= seam <= i + 1 && NonEmpty(free) && free[i].base + free[i].len == free[i + 1].base
      modifies `free
      ensures NonEmpty(free) && Same(old(free), free)
      ensures CanonicalBut(old(free), seam) ==> Canonical(free)
      decreases |free|, 0
    {
      var at;
      free, at := Unite(free, i, seam);
      MergeAt(at);
    }

    method Find(addr: nat) returns (i: nat)
      ensures i <= |used| && (i < |used| ==> used[i].base * PAGE_SIZE == addr)
      ensures forall j :: 0 <= j < i ==> used[j].base * PAGE_SIZE != addr
    {
      i := 0;
      while i < |used| && used[i].base * PAGE_SIZE != addr
        invariant i <= |used| && forall j :: 0 <= j < i ==> used[j].base * PAGE_SIZE != addr
      {
        i := i + 1;
      }
    }

    /** Gives the used range at an address back; other addresses are ignored. */
    method Free(addr: nat) returns (ghost i: nat)
      requires Valid()
      modifies this
      ensures Valid() && i <= |old(used)|
      ensures i == |old(used)| ==> free == old(free) && used == old(used)
      ensures i < |old(used)| ==> old(used)[i].base * PAGE_SIZE == addr != 0 && used == Cut(old(used), i, i + 1)
      ensures i < |old(used)| ==> Plus(old(free), free, old(used)[i])
      ensures addr != 0 ==> forall j :: 0 <= j < i ==> old(used)[j].base * PAGE_SIZE != addr
      ensures Canonical(old(free)) ==> Canonical(free)
    {
      i := |used|;
      if addr != 0 {
        var n := Find(addr);
        i := n;
        if n < |used| {
          var b := used[n];
          used := Cut(used, n, n + 1);
          nrFree := nrFree + b.len;
          Insert(b, old(used), n);
          GiveConserves(old(free), free, old(used), n, arena);
        }
      }
    }

    method Insert(b: Block, ghost used0: seq<Block>, ghost n: nat)
      requires n < |used0| && b == used0[n] && Conserved(free, used0, arena)
      modifies `free
      ensures NonEmpty(free) && Plus(old(free), free, b)
      ensures Canonical(old(free)) ==> Canonical(free)
    {
      var l := free;
      var at := BuddyZone.Slot(l, b.base);
      PutPlus(l, at, b);
      if Canonical(l) {
        forall j | 0 <= j < |l| ensures Beside(l[j], b) { UsedIsBeside(l, used0, n, j, arena); }
        assert forall j :: at < j < |l| ==> l[at].base + l[at].len < l[j].base;
        PutCanonical(l, at, b);
      }
      free := Put(l, at, b);
      MergeAt(at);
    }

    /** A range allocated and freed by its address leaves no trace, but for one
        at address 0, which freeing ignores. */
    method AllocThenFree(n: nat) returns (r: Option<Block>, starved: bool)
      requires Valid() && Canonical(free)
      modifies this
      ensures Valid()
      ensures r.Some? && r.value.base != 0 ==> free == old(free) && used == old(used) && nrFree == old(nrFree)
      ensures r.Some? && r.value.base == 0 ==> used == old(used) + [r.value]
    {
      r, starved := Alloc(n);
      if r.Some? {
        ghost var taken, held := free, used;
        var i := Free(r.value.base * PAGE_SIZE);
        if r.value.base != 0 {
          assert held[|old(used)|] == r.value && i <= |old(used)|;
          BasesAreUnique(taken, held, i, |old(used)|, arena);
          assert Cut(held, |old(used)|, |old(used)| + 1) == old(used);
          FreeUndoesAlloc(old(free), taken, free, r.value);
        }
      }
    }

    method FindFit(n: nat) returns (i: nat)
      ensures i == FirstFit(free, n)
    {
      i := 0;
      while i < |free| && free[i].len < n
        invariant i <= |free| && forall j :: 0 <= j < i ==> free[j].len < n
      {
        i := i + 1;
      }
    }

    /** Takes the front of the first range that is long enough. When metadata
        runs out the range goes to the end of the list instead of its place. */
    method Alloc(n: nat) returns (r: Option<Block>, starved: bool)
      requires Valid()
      modifies this
      ensures Valid()
      ensures r.None? <==> n == 0 || FirstFit(old(free), n) == |old(free)| || starved
      ensures starved ==> FirstFit(old(free), n) < |old(free)|
      ensures r.Some? ==>
                r.value == Block(old(free)[FirstFit(old(free), n)].base, n, 0) && used == old(used) + [r.value]
      ensures r.Some? ==> Plus(free, old(free), r.value) && nrFree == old(nrFree) - n
      ensures r.Some? ==> FreeWindow(old(free), r.value.base, n)
      ensures Canonical(old(free)) && r.Some? ==> LowestWindow(old(free), n, r.value.base)
      ensures Canonical(old(free)) && r.None? && !starved && n >= 1 ==> forall s: nat :: !FreeWindow(old(free), s, n)
      ensures r.None? ==> used == old(used) && Same(old(free), free) && (!starved ==> free == old(free))
      ensures Canonical(old(free)) ==> (Canonical(free) <==> !starved || FirstFit(old(free), n) == |old(free)| - 1)
    {
      r, starved := None, false;
      if n == 0 { return; }
      if Canonical(free) { FirstFitIsExact(free, n); }
      if nrFree < n {
        TooLong(free, n);
        return;
      }
      var i := FindFit(n);
      if i == |free| { return; }
      var l := free;
      if l[i].len > n {
        if * { starved := true; }
      }
      if starved {
        Misplace(i);
      } else {
        CutMinus(l, i);
        FirstFitIsFree(l, n);
        TakeFrom(i, n);
        r := Some(Block(l[i].base, n, 0));
        TakeConserves(l, free, old(used), r.value, arena);
      }
    }

    method TakeFrom(i: nat, n: nat)
      requires i < |free| && 1 <= n <= free[i].len && NonEmpty(free) && n <= nrFree
      modifies this
      ensures NonEmpty(free) && Plus(free, old(free), Block(old(free)[i].base, n, 0))
      ensures used == old(used) + [Block(old(free)[i].base, n, 0)] && nrFree == old(nrFree) - n
      ensures Canonical(old(free)) ==> Canonical(free)
    {
      used := used + [Block(free[i].base, n, 0)];
      nrFree := nrFree - n;
      free := Split(free, i, n);
    }

    /** Moves a range to the end of the list. */
    method Misplace(i: nat)
      requires i < |free| && NonEmpty(free)
      modifies `free
      ensures NonEmpty(free) && Same(old(free), free)
      ensures Canonical(old(free)) ==> (Canonical(free) <==> i == |old(free)| - 1)
    {
      if Canonical(free) { AppendKeepsOrderIffLast(free, i); }
      AppendSame(free, i);
      free := Cut(free, i, i + 1) + [free[i]];
    }

    /** Over any run the used ranges are those given out and not taken back; every
        answer is the right one for them; and the free list covers the rest of the
        arena, as the ascending list of maximal free runs while metadata lasts. */
    method Run(calls: seq<Call>) returns (answers: seq<Answer>)
      requires Valid() && Canonical(free)
      modifies this
      ensures Valid() && |answers| == |calls| && used == After(old(used), calls, answers)
      ensures AllRight(arena, old(used), calls, answers) && (Plenty(answers) ==> Canonical(free))
    {
      answers := [];
      for i := 0 to |calls|
        invariant Valid() && |answers| == i && used == After(old(used), calls[..i], answers)
        invariant AllRight(arena, old(used), calls[..i], answers) && (Plenty(answers) ==> Canonical(free))
      {
        var a := Perform(calls[i], Plenty(answers));
        Extends(arena, old(used), calls, i, answers, a);
        answers := answers + [a];
      }
      assert calls[..|calls|] == calls;
    }

    method Perform(c: Call, ghost tidy: bool) returns (a: Answer)
      requires Valid() && (tidy ==> Canonical(free))
      modifies this
      ensures Valid() && used == Next(old(used), c, a) && Right(arena, old(used), c, a, tidy)
      ensures tidy && !a.Starved? ==> Canonical(free)
    {
      match c {
        case Take(n) =>
          var r, starved := Alloc(n);
          WindowsAreVacant(old(free), old(used), arena, n);
          a := if r.Some? then Took(r.value) else if starved then Starved else Refused;
        case Give(addr) =>
          var n := Find(addr);
          FindIsFirst(used, addr, n);
          a := if addr != 0 && n < |used| then Gave else Ignored;
          ghost var i := Free(addr);
      }
    }
  }

  datatype Call = Take(pages: nat) | Give(addr: nat)

  datatype Answer = Took(b: Block) | Refused | Starved | Gave | Ignored

  /** The `n` pages from `s` on lie in the arena and in no used range. */
  ghost predicate VacantWindow(arena: Block, used: seq<Block>, s: nat, n: nat) {
    forall p: nat :: s <= p < s + n ==> In(arena, p) && Cover(used, p) == 0
  }

  lemma WindowsAreVacant(free: seq<Block>, used: seq<Block>, arena: Block, n: nat)
    requires Conserved(free, used, arena)
    ensures forall s: nat :: FreeWindow(free, s, n) <==> VacantWindow(arena, used, s, n)
  {
    forall p: nat ensures Cover(free, p) >= 1 <==> In(arena, p) && Cover(used, p) == 0 {
      assert Cover(free, p) + Cover(used, p) == Hit(arena, p);
    }
    forall s: nat ensures FreeWindow(free, s, n) <==> VacantWindow(arena, used, s, n) {
      if FreeWindow(free, s, n) {
        forall p: nat | s <= p < s + n ensures In(arena, p) && Cover(used, p) == 0 { assert Cover(free, p) >= 1; }
      }
      if VacantWindow(arena, used, s, n) {
        forall p: nat | s <= p < s + n ensures Cover(free, p) >= 1 { assert In(arena, p) && Cover(used, p) == 0; }
      }
    }
  }

  /** The first used range at an address; the length when there is none. */
  function FirstAt(used: seq<Block>, addr: nat): (i: nat)
    ensures i <= |used| && (i < |used| ==> used[i].base * PAGE_SIZE == addr)
    ensures forall j :: 0 <= j < i ==> used[j].base * PAGE_SIZE != addr
  {
    if used == [] || used[0].base * PAGE_SIZE == addr then 0 else 1 + FirstAt(used[1..], addr)
  }

  lemma FindIsFirst(used: seq<Block>, addr: nat, n: nat)
    requires n <= |used| && (n < |used| ==> used[n].base * PAGE_SIZE == addr)
    requires forall j :: 0 <= j < n ==> used[j].base * PAGE_SIZE != addr
    ensures n == FirstAt(used, addr)
  {
  }

  /** The used ranges after a call, going by its answer. */
  function Next(used: seq<Block>, c: Call, a: Answer): seq<Block> {
    match c
    case Take(_) => if a.Took? then used + [a.b] else used
    case Give(addr) =>
      var i := FirstAt(used, addr);
      if addr != 0 && i < |used| then Cut(used, i, i + 1) else used
  }

  /** An answer that is right for the used ranges: what is given out was vacant
      and is the lowest window of the length, as long as metadata has lasted
      (`tidy`); then a refusal means that there is none. */
  ghost predicate Right(arena: Block, used: seq<Block>, c: Call, a: Answer, tidy: bool) {
    match c
    case Take(n) =>
      && (a.Took? || a.Refused? || a.Starved?)
      && (a.Took? ==> n >= 1 && a.b.len == n && VacantWindow(arena, used, a.b.base, n))
      && (tidy && a.Took? ==> forall s: nat :: VacantWindow(arena, used, s, n) ==> a.b.base <= s)
      && (tidy && a.Refused? && n >= 1 ==> forall s: nat :: !VacantWindow(arena, used, s, n))
    case Give(addr) => a == if addr != 0 && FirstAt(used, addr) < |used| then Gave else Ignored
  }

  function After(used: seq<Block>, calls: seq<Call>, answers: seq<Answer>): seq<Block>
    requires |calls| == |answers|
  {
    if calls == [] then used
    else var n := |calls| - 1; Next(After(used, calls[..n], answers[..n]), calls[n], answers[n])
  }

  /** No call has run out of metadata. */
  predicate Plenty(answers: seq<Answer>) { forall i :: 0 <= i < |answers| ==> !answers[i].Starved? }

  ghost predicate AllRight(arena: Block, used: seq<Block>, calls: seq<Call>, answers: seq<Answer>)
    requires |calls| == |answers|
  {
    calls == [] || var n := |calls| - 1;
    && AllRight(arena, used, calls[..n], answers[..n])
    && Right(arena, After(used, calls[..n], answers[..n]), calls[n], answers[n], Plenty(answers[..n]))
  }

  lemma Extends(arena: Block, used: seq<Block>, calls: seq<Call>, i: nat, answers: seq<Answer>, a: Answer)
    requires i < |calls| && |answers| == i && AllRight(arena, used, calls[..i], answers)
    requires Right(arena, After(used, calls[..i], answers), calls[i], a, Plenty(answers))
    ensures AllRight(arena, used, calls[..i + 1], answers + [a])
    ensures After(used, calls[..i + 1], answers + [a]) == Next(After(used, calls[..i], answers), calls[i], a)
    ensures Plenty(answers + [a]) <==> Plenty(answers) && !a.Starved?
  {
    assert calls[..i + 1][..i] == calls[..i] && (answers + [a])[..i] == answers;
    if Plenty(answers + [a]) {
      assert (answers + [a])[i] == a;
      forall j | 0 <= j < i ensures !answers[j].Starved? { assert (answers + [a])[j] == answers[j]; }
    }
  }
}

/**
 Free lists of kernel address ranges. A range is a block without an order, so
 its order is always 0. A canonical list holds the maximal runs of free pages
 in ascending order.
 */
module RangeLists {
  import opened BuddyLists

  predicate Canonical(l: seq<Block>) { CanonicalBut(l, -1) }

  /** Ascending with a gap between any two ranges, except perhaps at `seam`. */
  predicate CanonicalBut(l: seq<Block>, seam: int) {
    forall i, j :: 0 <= i < j < |l| ==>
      l[i].base + l[i].len <= l[j].base && (i != seam && j != seam ==> l[i].base + l[i].len < l[j].base)
  }

  predicate NonEmpty(l: seq<Block>) { forall i :: 0 <= i < |l| ==> l[i].len >= 1 && l[i].order == 0 }

  /** `m` holds exactly the pages of `l` and of `b`. */
  ghost predicate Plus(l: seq<Block>, m: seq<Block>, b: Block) {
    (forall p: nat :: Cover(m, p) == Cover(l, p) + Hit(b, p)) && Size(m) == Size(l) + b.len
  }

  ghost predicate Same(l: seq<Block>, m: seq<Block>) {
    (forall p: nat :: Cover(m, p) == Cover(l, p)) && Size(m) == Size(l)
  }

  function Put(l: seq<Block>, i: nat, b: Block): seq<Block>
    requires i <= |l|
  {
    l[..i] + [b] + l[i..]
  }

  function Cut(l: seq<Block>, i: nat, j: nat): seq<Block>
    requires i <= j <= |l|
  {
    l[..i] + l[j..]
  }

  /** Index `i` is where a range starting at `base` goes. */
  predicate SlotFor(l: seq<Block>, i: nat, base: nat) {
    && i <= |l|
    && (forall j :: 0 <= j < i ==> l[j].base <= base)
    && (forall j :: i <= j < |l| ==> l[j].base > base)
  }

  lemma PutPlus(l: seq<Block>, i: nat, b: Block)
    requires i <= |l|
    ensures Plus(l, Put(l, i, b), b)
  {
    forall p: nat ensures Cover(Put(l, i, b), p) == Cover(l, p) + Hit(b, p) { PutIn(l, i, b, p); }
    PutIn(l, i, b, 0);
  }

  lemma CutMinus(l: seq<Block>, i: nat)
    requires i < |l|
    ensures Plus(Cut(l, i, i + 1), l, l[i])
  {
    assert Put(Cut(l, i, i + 1), i, l[i]) == l;
    PutPlus(Cut(l, i, i + 1), i, l[i]);
  }

  function Joined(l: seq<Block>, i: nat): Block
    requires i + 1 < |l|
  {
    Block(l[i].base, l[i].len + l[i + 1].len, 0)
  }

  lemma JoinSame(l: seq<Block>, i: nat, at: nat)
    requires i + 1 < |l| && l[i].base + l[i].len == l[i + 1].base && at <= |l| - 2
    ensures Same(l, Put(Cut(l, i, i + 2), at, Joined(l, i)))
  {
    var rest, b := Cut(l, i, i + 2), Joined(l, i);
    assert l[i..i + 2] == [l[i], l[i + 1]];
    forall p: nat ensures Cover(Put(rest, at, b), p) == Cover(l, p) {
      CutOut(l, i, i + 2, p);
      PairCover(l[i], l[i + 1], p);
      PutIn(rest, at, b, p);
    }
    CutOut(l, i, i + 2, 0);
    PairCover(l[i], l[i + 1], 0);
    PutIn(rest, at, b, 0);
  }

  /** In a canonical list the joined range takes the place of its two halves. */
  lemma JoinCanonical(l: seq<Block>, i: nat, seam: nat)
    requires i + 1 < |l| && i <= seam <= i + 1 && CanonicalBut(l, seam) && NonEmpty(l)
    requires l[i].base + l[i].len == l[i + 1].base
    ensures CanonicalBut(Put(Cut(l, i, i + 2), i, Joined(l, i)), i)
    ensures SlotFor(Cut(l, i, i + 2), i, l[i].base)
  {
    var m := Put(Cut(l, i, i + 2), i, Joined(l, i));
    forall x, y | 0 <= x < y < |m|
      ensures m[x].base + m[x].len <= m[y].base && (x != i && y != i ==> m[x].base + m[x].len < m[y].base)
    {
      var x', y' := if x <= i then x else x + 1, if y <= i then y else y + 1;
      assert m[x] == if x == i then Joined(l, i) else l[x'];
      assert m[y] == if y == i then Joined(l, i) else l[y'];
      if x == i { assert l[i + 1].base + l[i + 1].len <= l[y'].base; }
    }
  }

  lemma SeamSettles(l: seq<Block>, i: nat)
    requires CanonicalBut(l, i) && i < |l| && NonEmpty(l)
    requires i + 1 < |l| ==> l[i].base + l[i].len != l[i + 1].base
    requires i > 0 ==> l[i - 1].base + l[i - 1].len != l[i].base
    ensures Canonical(l)
  {
    forall x, y | 0 <= x < y < |l| ensures l[x].base + l[x].len < l[y].base {
      if x == i && y > i + 1 {
        assert l[i].base + l[i].len <= l[i + 1].base && l[i + 1].base + l[i + 1].len <= l[y].base;
      }
      if y == i && x < i - 1 {
        assert l[x].base + l[x].len <= l[i - 1].base && l[i - 1].base + l[i - 1].len <= l[i].base;
      }
    }
  }

  /** The sorted place for a range that shares no page with the list. */
  lemma PutCanonical(l: seq<Block>, i: nat, b: Block)
    requires Canonical(l) && NonEmpty(l) && b.len >= 1 && i <= |l|
    requires forall j :: 0 <= j < |l| ==> Beside(l[j], b)
    requires SlotFor(l, i, b.base)
    ensures CanonicalBut(Put(l, i, b), i)
  {
    var m := Put(l, i, b);
    forall x, y | 0 <= x < y < |m|
      ensures m[x].base + m[x].len <= m[y].base && (x != i && y != i ==> m[x].base + m[x].len < m[y].base)
    {
      var x', y' := if x < i then x else x - 1, if y < i then y else y - 1;
      if y == i {
        assert m[x] == l[x] && Beside(l[x], b);
      } else if x == i {
        assert m[y] == l[y'] && Beside(l[y'], b);
      } else {
        assert m[x] == l[x'] && m[y] == l[y'];
      }
    }
  }

  lemma OneSide(l: seq<Block>, j: nat, b: Block)
    requires j < |l| && l[j].len >= 1 && b.len >= 1
    requires forall p: nat :: In(b, p) ==> Cover(l, p) == 0
    ensures Beside(l[j], b)
  {
    if l[j].base <= b.base < l[j].base + l[j].len {
      assert In(b, b.base) && In(l[j], b.base);
      CoverAtLeast(l, j, b.base);
    }
    if b.base < l[j].base < b.base + b.len {
      assert In(b, l[j].base) && In(l[j], l[j].base);
      CoverAtLeast(l, j, l[j].base);
    }
  }

  lemma {:induction false} CoverWitness(l: seq<Block>, p: nat) returns (i: nat)
    requires Cover(l, p) >= 1
    ensures i < |l| && In(l[i], p)
  {
    if In(l[|l| - 1], p) {
      i := |l| - 1;
    } else {
      i := CoverWitness(l[..|l| - 1], p);
    }
  }

  /** A window of free pages lies inside one range of a canonical list. */
  lemma WindowInOneRange(l: seq<Block>, s: nat, n: nat) returns (j: nat)
    requires Canonical(l) && NonEmpty(l) && n >= 1
    requires forall p: nat :: s <= p < s + n ==> Cover(l, p) >= 1
    ensures j < |l| && l[j].base <= s && s + n <= l[j].base + l[j].len
  {
    assert Cover(l, s) >= 1;
    j := CoverWitness(l, s);
    var end := l[j].base + l[j].len;
    if end < s + n {
      assert Cover(l, end) >= 1;
      var k := CoverWitness(l, end);
    }
  }

  ghost predicate SameCover(l: seq<Block>, m: seq<Block>) { forall p: nat :: Cover(l, p) == Cover(m, p) }

  lemma TailsSame(l: seq<Block>, m: seq<Block>)
    requires l != [] && m != [] && l[0] == m[0] && SameCover(l, m)
    ensures SameCover(l[1..], m[1..])
  {
    forall p: nat ensures Cover(l[1..], p) == Cover(m[1..], p) {
      assert l[0..] == l && m[0..] == m;
      CoverTail(l, 0, p);
      CoverTail(m, 0, p);
    }
  }

  lemma TailCanonical(l: seq<Block>)
    requires l != [] && Canonical(l) && NonEmpty(l)
    ensures Canonical(l[1..]) && NonEmpty(l[1..])
  {
  }

  /** The pages of a list determine its canonical form. */
  lemma {:induction false} CanonicalIsUnique(l: seq<Block>, m: seq<Block>)
    requires Canonical(l) && Canonical(m) && NonEmpty(l) && NonEmpty(m)
    requires SameCover(l, m)
    ensures l == m
  {
    if l == [] {
      if m != [] {
        assert SameCover(m, l);
        HeadIsLowest(m, l);
      }
    } else if m == [] {
      HeadIsLowest(l, m);
    } else {
      assert SameCover(m, l);
      HeadIsLowest(l, m);
      HeadIsLowest(m, l);
      HeadEnds(l, m);
      HeadEnds(m, l);
      assert l[0] == m[0];
      TailsSame(l, m);
      TailCanonical(l);
      TailCanonical(m);
      CanonicalIsUnique(l[1..], m[1..]);
      assert l == [l[0]] + l[1..] && m == [m[0]] + m[1..];
    }
  }

  lemma HeadIsLowest(l: seq<Block>, m: seq<Block>)
    requires l != [] && Canonical(m) && NonEmpty(l) && NonEmpty(m)
    requires SameCover(l, m)
    ensures m != [] && m[0].base <= l[0].base
  {
    assert In(l[0], l[0].base);
    CoverAtLeast(l, 0, l[0].base);
    var i := CoverWitness(m, l[0].base);
    assert i > 0 ==> m[0].base + m[0].len < m[i].base;
  }

  lemma HeadEnds(l: seq<Block>, m: seq<Block>)
    requires l != [] && m != [] && Canonical(l) && Canonical(m) && NonEmpty(l) && NonEmpty(m)
    requires l[0].base == m[0].base
    requires SameCover(l, m)
    ensures l[0].len <= m[0].len
  {
    var end := m[0].base + m[0].len;
    if l[0].len > m[0].len {
      assert In(l[0], end);
      CoverAtLeast(l, 0, end);
      var i := CoverWitness(m, end);
    }
  }
}

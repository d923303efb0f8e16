/**
 Free lists of page blocks: how often a page is covered, how many pages a list
 holds, and when a list is sorted without neighbours that should have merged.
 Bases and lengths are counted in pages.
 */
module BuddyLists {
  import opened Common

  datatype Block = Block(base: nat, len: nat, order: nat)

  predicate Sized(b: Block) { b.order <= MAX_ORDER && b.len == Pow2(b.order) }

  predicate In(b: Block, p: nat) { b.base <= p < b.base + b.len }

  function Hit(b: Block, p: nat): nat { if In(b, p) then 1 else 0 }

  /** How many blocks of a list contain a page. */
  function Cover(l: seq<Block>, p: nat): nat {
    if l == [] then 0 else Cover(l[..|l| - 1], p) + Hit(l[|l| - 1], p)
  }

  /** How many pages the blocks of a list have together. */
  function Size(l: seq<Block>): nat {
    if l == [] then 0 else Size(l[..|l| - 1]) + l[|l| - 1].len
  }

  type Area = seq<seq<Block>>

  function CoverAll(a: Area, p: nat): nat {
    if a == [] then 0 else CoverAll(a[..|a| - 1], p) + Cover(a[|a| - 1], p)
  }

  function SizeAll(a: Area): nat {
    if a == [] then 0 else SizeAll(a[..|a| - 1]) + Size(a[|a| - 1])
  }

  /** Blocks of one order, ascending and disjoint; below the maximum order no
      two touch, except perhaps at index `seam`. */
  predicate ListOk(l: seq<Block>, k: nat, seam: int) {
    && (forall i :: 0 <= i < |l| ==> l[i].order == k && Sized(l[i]))
    && (forall i, j :: 0 <= i < j < |l| ==>
          l[i].base + l[i].len <= l[j].base
            && (k < MAX_ORDER && i != seam && j != seam ==> l[i].base + l[i].len < l[j].base))
  }

  predicate AreaOk(a: Area) {
    |a| == MAX_ORDER + 1 && forall k {:trigger a[k]} :: 0 <= k <= MAX_ORDER ==> ListOk(a[k], k, -1)
  }

  lemma {:induction false} CoverConcat(l: seq<Block>, m: seq<Block>, p: nat)
    ensures Cover(l + m, p) == Cover(l, p) + Cover(m, p)
  {
    if m == [] {
      assert l + m == l;
    } else {
      CoverConcat(l, m[..|m| - 1], p);
      assert (l + m)[..|l + m| - 1] == l + m[..|m| - 1];
    }
  }

  lemma {:induction false} SizeConcat(l: seq<Block>, m: seq<Block>)
    ensures Size(l + m) == Size(l) + Size(m)
  {
    if m == [] {
      assert l + m == l;
    } else {
      SizeConcat(l, m[..|m| - 1]);
      assert (l + m)[..|l + m| - 1] == l + m[..|m| - 1];
    }
  }

  lemma {:induction false} CoverAtLeast(l: seq<Block>, i: nat, p: nat)
    requires i < |l| && In(l[i], p)
    ensures Cover(l, p) >= 1
  {
    if i < |l| - 1 { CoverAtLeast(l[..|l| - 1], i, p); }
  }

  lemma {:induction false} CoverUpdate(a: Area, k: nat, l: seq<Block>, p: nat)
    requires k < |a|
    ensures CoverAll(a[k := l], p) == CoverAll(a, p) - Cover(a[k], p) + Cover(l, p)
    ensures Cover(a[k], p) <= CoverAll(a, p)
  {
    var n := |a| - 1;
    if k < n {
      CoverUpdate(a[..n], k, l, p);
      assert a[k := l][..n] == a[..n][k := l];
    } else {
      assert a[k := l][..n] == a[..n];
    }
  }

  lemma {:induction false} SizeUpdate(a: Area, k: nat, l: seq<Block>)
    requires k < |a|
    ensures SizeAll(a[k := l]) == SizeAll(a) - Size(a[k]) + Size(l)
    ensures Size(a[k]) <= SizeAll(a)
  {
    var n := |a| - 1;
    if k < n {
      SizeUpdate(a[..n], k, l);
      assert a[k := l][..n] == a[..n][k := l];
    } else {
      assert a[k := l][..n] == a[..n];
    }
  }

  /** Taking elements `i` up to `j` out of a list takes their cover and size along. */
  lemma CutOut(l: seq<Block>, i: nat, j: nat, p: nat)
    requires i <= j <= |l|
    ensures Cover(l[..i] + l[j..], p) + Cover(l[i..j], p) == Cover(l, p)
    ensures Size(l[..i] + l[j..]) + Size(l[i..j]) == Size(l)
  {
    assert l == l[..i] + (l[i..j] + l[j..]);
    CoverConcat(l[..i], l[i..j] + l[j..], p);
    CoverConcat(l[i..j], l[j..], p);
    CoverConcat(l[..i], l[j..], p);
    SizeConcat(l[..i], l[i..j] + l[j..]);
    SizeConcat(l[i..j], l[j..]);
    SizeConcat(l[..i], l[j..]);
  }

  lemma PutIn(l: seq<Block>, i: nat, b: Block, p: nat)
    requires i <= |l|
    ensures Cover(l[..i] + [b] + l[i..], p) == Cover(l, p) + Hit(b, p)
    ensures Size(l[..i] + [b] + l[i..]) == Size(l) + b.len
  {
    assert l == l[..i] + l[i..];
    CoverConcat(l[..i], l[i..], p);
    CoverConcat(l[..i], [b], p);
    CoverConcat(l[..i] + [b], l[i..], p);
    SizeConcat(l[..i], l[i..]);
    SizeConcat(l[..i], [b]);
    SizeConcat(l[..i] + [b], l[i..]);
    assert [b][..0] == [];
    assert Cover([b], p) == Hit(b, p) && Size([b]) == b.len;
  }

  lemma PairCover(x: Block, y: Block, p: nat)
    requires x.base + x.len == y.base
    ensures Cover([x, y], p) == Hit(Block(x.base, x.len + y.len, x.order + 1), p)
    ensures Size([x, y]) == x.len + y.len
  {
    assert [x, y][..1] == [x] && [x][..0] == [];
    assert Cover([x], p) == Hit(x, p) && Size([x]) == x.len;
  }

  /** A block outside a list's cover lies wholly on one side of each member. */
  lemma Apart(l: seq<Block>, j: nat, b: Block)
    requires j < |l| && l[j].len == b.len >= 1
    requires forall p :: In(b, p) ==> Cover(l, p) == 0
    ensures Beside(l[j], b)
  {
    if l[j].base <= b.base < l[j].base + l[j].len {
      assert In(b, b.base) && In(l[j], b.base);
      CoverAtLeast(l, j, b.base);
    }
    if b.base < l[j].base < b.base + b.len {
      assert In(b, l[j].base) && In(l[j], l[j].base);
      CoverAtLeast(l, j, l[j].base);
    }
  }

  predicate Beside(x: Block, b: Block) {
    if x.base <= b.base then x.base + x.len <= b.base else b.base + b.len <= x.base
  }

  /** The sorted position for a block that lies beside every member. */
  lemma InsertOk(l: seq<Block>, k: nat, i: nat, b: Block)
    requires ListOk(l, k, -1) && b.order == k && Sized(b) && i <= |l|
    requires forall j :: 0 <= j < |l| ==> Beside(l[j], b)
    requires forall j :: 0 <= j < i ==> l[j].base <= b.base
    requires forall j :: i <= j < |l| ==> l[j].base > b.base
    ensures ListOk(l[..i] + [b] + l[i..], k, i)
  {
    var m := l[..i] + [b] + l[i..];
    forall x | 0 <= x < |m| ensures m[x].order == k && Sized(m[x]) {
      assert m[x] == if x < i then l[x] else if x == i then b else l[x - 1];
    }
    forall x, y | 0 <= x < y < |m|
      ensures m[x].base + m[x].len <= m[y].base
              && (k < MAX_ORDER && x != i && y != i ==> m[x].base + m[x].len < m[y].base)
    {
      var x', y' := if x < i then x else x - 1, if y < i then y else y - 1;
      if y == i {
        assert m[x] == l[x] && Beside(l[x], b);
      } else if x == i {
        assert m[y] == l[y'] && Beside(l[y'], b);
      } else {
        assert m[x] == l[x'] && m[y] == l[y'];
      }
    }
  }

  /** Taking a member out of a proper list, or two touching ones around a seam,
      leaves a proper list. */
  lemma CutOk(l: seq<Block>, k: nat, seam: int, i: nat, j: nat)
    requires ListOk(l, k, seam) && i <= j <= |l|
    requires seam == -1 || i <= seam < j
    ensures ListOk(l[..i] + l[j..], k, -1)
  {
    var m := l[..i] + l[j..];
    forall x | 0 <= x < |m| ensures m[x].order == k && Sized(m[x]) {
      assert m[x] == if x < i then l[x] else l[x + j - i];
    }
    forall x, y | 0 <= x < y < |m|
      ensures m[x].base + m[x].len <= m[y].base && (k < MAX_ORDER ==> m[x].base + m[x].len < m[y].base)
    {
      var x', y' := if x < i then x else x + j - i, if y < i then y else y + j - i;
      assert m[x] == l[x'] && m[y] == l[y'];
    }
  }

  /** A seam none of whose two neighbours touches it is no seam. */
  lemma SeamClosed(l: seq<Block>, k: nat, i: nat)
    requires ListOk(l, k, i) && i < |l|
    requires k < MAX_ORDER && i + 1 < |l| ==> l[i].base + l[i].len != l[i + 1].base
    requires k < MAX_ORDER && i > 0 ==> l[i - 1].base + l[i - 1].len != l[i].base
    ensures ListOk(l, k, -1)
  {
    forall x, y | 0 <= x < y < |l| && k < MAX_ORDER ensures l[x].base + l[x].len < l[y].base {
      if x == i && y > i + 1 {
        assert l[i].base + l[i].len <= l[i + 1].base && l[i + 1].base + l[i + 1].len <= l[y].base;
      }
      if y == i && x < i - 1 {
        assert l[x].base + l[x].len <= l[i - 1].base && l[i - 1].base + l[i - 1].len <= l[i].base;
      }
    }
  }

  lemma CoverSnoc(l: seq<Block>, b: Block, p: nat)
    ensures Cover(l + [b], p) == Cover(l, p) + Hit(b, p)
    ensures Size(l + [b]) == Size(l) + b.len
  {
    assert (l + [b])[..|l|] == l;
  }

  lemma CoverTail(l: seq<Block>, i: nat, p: nat)
    requires i < |l|
    ensures Cover(l[i..], p) == Hit(l[i], p) + Cover(l[i + 1..], p)
    ensures Size(l[i..]) == l[i].len + Size(l[i + 1..])
  {
    assert l[i..] == [l[i]] + l[i + 1..];
    CoverConcat([l[i]], l[i + 1..], p);
    SizeConcat([l[i]], l[i + 1..]);
    assert [l[i]][..0] == [];
    assert Cover([l[i]], p) == Hit(l[i], p) && Size([l[i]]) == l[i].len;
  }

  lemma Pow2Monotone(m: nat, n: nat)
    requires m <= n
    ensures Pow2(m) <= Pow2(n)
  {
    if m < n { Pow2Monotone(m, n - 1); }
  }

  lemma {:induction false} CoverTwo(l: seq<Block>, i: nat, j: nat, p: nat)
    requires i < j < |l| && In(l[i], p) && In(l[j], p)
    ensures Cover(l, p) >= 2
  {
    if j < |l| - 1 {
      CoverTwo(l[..|l| - 1], i, j, p);
    } else {
      CoverAtLeast(l[..|l| - 1], i, p);
    }
  }
}

/**
 Whole runs of map, unmap and remap on user roots: the four-level tables behave
 as one plain map from (root, page address) to frame and attributes.
 */
module AddressSpaceRuns {
  import opened Common
  import opened Paging
  import opened PageTree
  import opened AddressSpaces

  /** The plain map that the tables implement. */
  type Spaces = map<(Frame, nat), Entry>

  datatype Op =
    | MapOp(root: Frame, vaddr: nat, frame: Frame, attr: Attr)
    | UnmapOp(root: Frame, vaddr: nat)
    | RemapOp(root: Frame, vaddr: nat, frame: Frame, attr: Attr)

  function Lookup(a: Spaces, root: Frame, vaddr: nat): Option<Entry> {
    if (root, vaddr) in a then Some(a[(root, vaddr)]) else None
  }

  /** Every low-half page of every root translates as the map says. */
  ghost predicate Represents(s: Image, a: Spaces) {
    Weak(s) && forall root, vaddr {:trigger PageAgrees(s, a, root, vaddr)} :: PageAgrees(s, a, root, vaddr)
  }

  ghost predicate PageAgrees(s: Image, a: Spaces, root: Frame, vaddr: nat)
    requires Weak(s)
  {
    LowPage(vaddr) ==> LowPath(PathOf(vaddr)) && Trans(s, root, PathOf(vaddr)) == Lookup(a, root, vaddr)
  }

  /** Some page of `root` whose indices begin with `prefix` is mapped. */
  ghost predicate Below(a: Spaces, root: Frame, prefix: Path) {
    |prefix| <= 4 && exists vaddr :: (root, vaddr) in a && LowPage(vaddr) && PathOf(vaddr)[..|prefix|] == prefix
  }

  /** A lower table exists exactly when the map has a page that needs it. */
  lemma TableIffPage(s: Image, a: Spaces, k: Key)
    requires Valid(s) && Represents(s, a) && 1 <= |k.path| <= 3
    ensures k in s.at <==> Below(a, k.root, k.path)
  {
    var n := |k.path|;
    TablesAreNeeded(s, k);
    if k in s.at {
      var p :| LowPath(p) && p[..n] == k.path && Trans(s, k.root, p).Some?;
      PathIsBijective(0, p);
      assert PageAgrees(s, a, k.root, AddressOf(p));
      assert (k.root, AddressOf(p)) in a;
    }
    if Below(a, k.root, k.path) {
      var vaddr :| (k.root, vaddr) in a && LowPage(vaddr) && PathOf(vaddr)[..n] == k.path;
      assert PageAgrees(s, a, k.root, vaddr);
    }
  }

  /** What the operation asks for is possible: mapping needs an absent page,
      unmapping and remapping a present user page. */
  predicate Fits(a: Spaces, op: Op) {
    var e := Lookup(a, op.root, op.vaddr);
    if op.MapOp? then e.None? else e.Some? && e.value.attr.user
  }

  /** No new table is needed for the operation. */
  ghost predicate Equipped(a: Spaces, op: Op) { !op.MapOp? || Below(a, op.root, PathOf(op.vaddr)[..3]) }

  /** The answer is the right one.  Success is only ever reported when the
      operation fits; with every table readable, one that fits fails only for
      want of a new table. */
  ghost predicate Legal(a: Spaces, op: Op, ok: bool, readable: bool) {
    (ok ==> Fits(a, op)) && (readable && Equipped(a, op) && Fits(a, op) ==> ok)
  }

  /** The operation takes the last page below one entry of the root table. */
  ghost predicate Vacates(a: Spaces, op: Op, ok: bool) {
    ok && op.UnmapOp? && !Below(Apply(a, op, ok), op.root, PathOf(op.vaddr)[..1])
  }

  /** How often a run takes the last page below an entry of the root table of `root`. */
  ghost function Vacated(a: Spaces, ops: seq<Op>, oks: seq<bool>, root: Frame): nat
    requires |ops| == |oks|
  {
    if ops == [] then 0
    else
      var n := |ops| - 1;
      Vacated(a, ops[..n], oks[..n], root)
      + if ops[n].root == root && Vacates(ApplyAll(a, ops[..n], oks[..n]), ops[n], oks[n]) then 1 else 0
  }

  /** One operation's effect on the surplus of the root counts. */
  ghost predicate Surplus(before: map<Frame, nat>, after: map<Frame, nat>, a: Spaces, op: Op, ok: bool) {
    if Vacates(a, op, ok) then op.root in before && after == before[op.root := before[op.root] + 1] else after == before
  }

  /** What an operation does to the map: one key on success, nothing on failure. */
  function Apply(a: Spaces, op: Op, ok: bool): Spaces {
    if !ok then a
    else if op.UnmapOp? then a - {(op.root, op.vaddr)}
    else a[(op.root, op.vaddr) := Entry(op.frame, op.attr)]
  }

  function ApplyAll(a: Spaces, ops: seq<Op>, oks: seq<bool>): Spaces
    requires |ops| == |oks|
  {
    if ops == [] then a
    else var n := |ops| - 1; Apply(ApplyAll(a, ops[..n], oks[..n]), ops[n], oks[n])
  }

  predicate Admissible(op: Op) { LowPage(op.vaddr) && (op.UnmapOp? || op.attr.present) }

  lemma Refined(s: Image, t: Image, a: Spaces, op: Op, value: Option<Entry>)
    requires Represents(s, a) && Admissible(op) && LowPath(PathOf(op.vaddr))
    requires Updates(s, t, op.root, PathOf(op.vaddr), value)
    requires value == if op.UnmapOp? then None else Some(Entry(op.frame, op.attr))
    ensures Represents(t, Apply(a, op, true))
  {
    var b := Apply(a, op, true);
    forall root, vaddr ensures PageAgrees(t, b, root, vaddr) {
      assert PageAgrees(s, a, root, vaddr);
      if LowPage(vaddr) {
        PathIsBijective(vaddr, PathOf(vaddr));
        PathIsBijective(op.vaddr, PathOf(op.vaddr));
      }
    }
  }

  lemma Unchanged(s: Image, t: Image, a: Spaces)
    requires Represents(s, a) && SameTranslations(s, t)
    ensures Represents(t, a)
  {
    forall root, vaddr ensures PageAgrees(t, a, root, vaddr) { assert PageAgrees(s, a, root, vaddr); }
  }

  method Perform(m: PageTables, op: Op, ghost a: Spaces) returns (ok: bool)
    requires m.Ok() && m.UserRoot(op.root) && Admissible(op) && Represents(m.Img(), a)
    modifies m, m.meta, m.meta.slots
    ensures m.Ok() && Represents(m.Img(), Apply(a, op, ok)) && Legal(a, op, ok, old(m.Readable()))
    ensures RootsKept(old(m.Img()), m.Img()) && Surplus(old(m.reclaimed), m.reclaimed, a, op, ok)
    ensures old(m.Readable()) ==> m.Readable()
  {
    ghost var s, p := m.Img(), PathOf(op.vaddr);
    assert PageAgrees(s, a, op.root, op.vaddr);
    TableIffPage(s, a, Key(op.root, p[..3]));
    match op {
      case MapOp(root, vaddr, frame, attr) =>
        ok := m.MapRootPage(root, vaddr, frame, attr);
        if ok { Refined(s, m.Img(), a, op, Some(Entry(frame, attr))); } else { Unchanged(s, m.Img(), a); }
      case UnmapOp(root, vaddr) =>
        var frame;
        ok, frame := m.UnmapUserPage(root, vaddr);
        if ok {
          Refined(s, m.Img(), a, op, None);
          TableIffPage(m.Img(), Apply(a, op, true), Key(root, p[..1]));
        }
      case RemapOp(root, vaddr, frame, attr) =>
        ok := m.RemapUserPage(root, vaddr, frame, attr);
        if ok { Refined(s, m.Img(), a, op, Some(Entry(frame, attr))); }
    }
  }

  ghost predicate RootsKept(s: Image, t: Image) {
    forall root {:trigger Key(root, [])} :: Key(root, []) in s.at ==> Key(root, []) in t.at
  }

  /** Any run, on any user roots, whatever allocation does: the tables stay well
      formed and stand for the map that the successful operations build, every
      answer is the right one, and the count of a root exceeds its present
      entries by one more for every unmap that vacated one of them. */
  method Run(m: PageTables, ops: seq<Op>, ghost a: Spaces) returns (oks: seq<bool>)
    requires m.Ok() && Represents(m.Img(), a)
    requires forall op :: op in ops ==> Admissible(op) && m.UserRoot(op.root)
    modifies m, m.meta, m.meta.slots
    ensures |oks| == |ops| && m.Ok() && Represents(m.Img(), ApplyAll(a, ops, oks))
    ensures AllLegal(a, ops, oks, old(m.Readable())) && (old(m.Readable()) ==> m.Readable())
    ensures Counted(old(m.reclaimed), m.reclaimed, a, ops, oks)
  {
    oks := [];
    ghost var b, readable, first := a, m.Readable(), m.reclaimed;
    for n := 0 to |ops|
      invariant |oks| == n && m.Ok() && b == ApplyAll(a, ops[..n], oks) && Represents(m.Img(), b)
      invariant forall op :: op in ops ==> m.UserRoot(op.root)
      invariant AllLegal(a, ops[..n], oks, readable) && (readable ==> m.Readable())
      invariant Counted(first, m.reclaimed, a, ops[..n], oks)
    {
      ghost var before := m.reclaimed;
      var ok := Perform(m, ops[n], b);
      LegalNext(a, ops, n, oks, ok, readable);
      CountedNext(first, before, m.reclaimed, a, ops, n, oks, ok);
      b := Apply(b, ops[n], ok);
      oks := oks + [ok];
    }
    assert ops[..|ops|] == ops;
  }

  ghost predicate Counted(before: map<Frame, nat>, after: map<Frame, nat>, a: Spaces, ops: seq<Op>, oks: seq<bool>)
    requires |ops| == |oks|
  {
    after.Keys == before.Keys && forall root :: root in before ==>
      after[root] == before[root] + Vacated(a, ops, oks, root)
  }

  lemma CountedNext(first: map<Frame, nat>, before: map<Frame, nat>, after: map<Frame, nat>,
                    a: Spaces, ops: seq<Op>, n: nat, oks: seq<bool>, ok: bool)
    requires n < |ops| && |oks| == n && Counted(first, before, a, ops[..n], oks)
    requires Surplus(before, after, ApplyAll(a, ops[..n], oks), ops[n], ok)
    ensures Counted(first, after, a, ops[..n + 1], oks + [ok])
  {
    assert ops[..n + 1][..n] == ops[..n] && (oks + [ok])[..n] == oks;
  }

  /** Every answer of the run is the right one for the map at that point. */
  ghost predicate AllLegal(a: Spaces, ops: seq<Op>, oks: seq<bool>, readable: bool)
    requires |ops| == |oks|
  {
    forall n :: 0 <= n < |ops| ==> LegalAt(a, ops, oks, readable, n)
  }

  ghost predicate LegalAt(a: Spaces, ops: seq<Op>, oks: seq<bool>, readable: bool, n: nat)
    requires n < |ops| == |oks|
  {
    Legal(ApplyAll(a, ops[..n], oks[..n]), ops[n], oks[n], readable)
  }

  lemma LegalNext(a: Spaces, ops: seq<Op>, n: nat, oks: seq<bool>, ok: bool, readable: bool)
    requires n < |ops| && |oks| == n && AllLegal(a, ops[..n], oks, readable)
    requires Legal(ApplyAll(a, ops[..n], oks), ops[n], ok, readable)
    ensures AllLegal(a, ops[..n + 1], oks + [ok], readable)
    ensures ApplyAll(a, ops[..n + 1], oks + [ok]) == Apply(ApplyAll(a, ops[..n], oks), ops[n], ok)
  {
    var x, y := ops[..n + 1], oks + [ok];
    assert x[..n] == ops[..n] && y[..n] == oks;
    forall j | 0 <= j < n + 1 ensures LegalAt(a, x, y, readable, j) {
      if j < n {
        assert LegalAt(a, ops[..n], oks, readable, j);
        assert x[..j] == ops[..n][..j] && y[..j] == oks[..j];
      }
    }
  }
}

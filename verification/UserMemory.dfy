/**
 The life of user memory: address spaces are derived, their pages materialised,
 shared copy-on-write by fork, split by a write, protected and discarded, and
 the spaces torn down.  This is the plain account of it: one map from (root,
 page) to entry, and per root the number of entries of the root table that
 discarding has vacated.
 */
module UserMemory {
  import opened Paging
  import opened AddressSpaceRuns

  datatype Event =
    | Derive(kernelHalf: seq<Entry>)
    | Materialize(root: Frame, vaddr: nat, attr: Attr)
    | Clone(parent: Frame, child: Frame, vaddr: nat)
    | Split(root: Frame, vaddr: nat, allowed: bool)
    | Protect(root: Frame, vaddr: nat, policy: Attr)
    | Discard(root: Frame, vaddr: nat)
    | Destroy(root: Frame, cr3: Frame)

  /** `frame` is the root derived, or the frame the page of the event then maps. */
  datatype Outcome = Failed | Done(frame: Frame)

  datatype Life = Life(pages: Spaces, surplus: map<Frame, nat>)

  predicate Admitted(e: Event) {
    match e
    case Derive(kernelHalf) => |kernelHalf| == ENTRIES - LOW_HALF_ENTRIES
    case Materialize(_, vaddr, attr) => LowPage(vaddr) && attr.present && !attr.cow
    case Clone(_, _, vaddr) => LowPage(vaddr)
    case Split(_, vaddr, _) => LowPage(vaddr)
    case Protect(_, vaddr, policy) => LowPage(vaddr) && policy.present && policy.user && !policy.cow
    case Discard(_, vaddr) => LowPage(vaddr)
    case Destroy(_, _) => true
  }

  /** The roots that the event works on exist. */
  predicate Live(l: Life, e: Event) {
    match e
    case Derive(_) => true
    case Clone(parent, child, _) => parent in l.surplus && child in l.surplus
    case Destroy(_, _) => true
    case _ => e.root in l.surplus
  }

  predicate UserPage(l: Life, root: Frame, vaddr: nat) {
    (root, vaddr) in l.pages && l.pages[(root, vaddr)].attr.user
  }

  /** Some other page maps the frame that this one maps. */
  ghost predicate Shared(l: Life, key: (Frame, nat))
    requires key in l.pages
  {
    exists other :: other in l.pages && other != key && l.pages[other].frame == l.pages[key].frame
  }

  ghost predicate Unmapped(l: Life, f: Frame) { forall key :: key in l.pages ==> l.pages[key].frame != f }

  /** Attributes of a page shared by fork, and of a page made private again. */
  function Marked(a: Attr): Attr { a.(writable := false, cow := true) }

  function Private(a: Attr): Attr { a.(writable := true, cow := false) }

  function Cloned(a: Attr): Attr { if a.writable then Marked(a) else a }

  function Protected(a: Attr, policy: Attr): Attr { if a.cow && policy.writable then Marked(policy) else policy }

  function WithoutRoot(a: Spaces, root: Frame): Spaces { map key | key in a && key.0 != root :: a[key] }

  /** What an event does. */
  ghost function Step(l: Life, e: Event, o: Outcome): Life {
    if e.Destroy? then Ended(l, e, o)
    else if o.Failed? || !Live(l, e) then l
    else match e
      case Derive(_) => l.(surplus := l.surplus[o.frame := 0])
      case Materialize(root, vaddr, attr) => l.(pages := l.pages[(root, vaddr) := Entry(o.frame, attr)])
      case Clone(parent, child, vaddr) =>
        if (parent, vaddr) !in l.pages then l
        else
          var x := l.pages[(parent, vaddr)];
          var y := Entry(x.frame, Cloned(x.attr));
          l.(pages := l.pages[(child, vaddr) := y][(parent, vaddr) := y])
      case Split(root, vaddr, _) =>
        if (root, vaddr) !in l.pages then l
        else l.(pages := l.pages[(root, vaddr) := Entry(o.frame, Private(l.pages[(root, vaddr)].attr))])
      case Protect(root, vaddr, policy) =>
        if (root, vaddr) !in l.pages then l
        else
          var x := l.pages[(root, vaddr)];
          l.(pages := l.pages[(root, vaddr) := Entry(x.frame, Protected(x.attr, policy))])
      case Discard(root, vaddr) =>
        var pages := l.pages - {(root, vaddr)};
        Life(pages, if Below(pages, root, PathOf(vaddr)[..1]) then l.surplus
            else l.surplus[root := l.surplus[root] + 1])
  }

  /** Tearing down takes every page of the root, and the root itself if it succeeds. */
  function Ended(l: Life, e: Event, o: Outcome): Life
    requires e.Destroy?
  {
    if e.root !in l.surplus || e.root == e.cr3 then l
    else Life(WithoutRoot(l.pages, e.root), if o.Done? then l.surplus - {e.root} else l.surplus)
  }

  /** Which outcomes an event can have.  Teardown succeeds exactly when no
      discard ever vacated an entry of the root table; discarding and
      protecting exactly on user pages; making a page private whenever nobody
      shares its frame; the others only where they make sense, for they may
      also run out of frames. */
  ghost predicate Right(l: Life, e: Event, o: Outcome) {
    if !Live(l, e) then o.Failed?
    else match e
      case Derive(_) => o.Done? ==> o.frame !in l.surplus && Unmapped(l, o.frame)
      case Materialize(root, vaddr, _) => o.Done? ==> (root, vaddr) !in l.pages && Unmapped(l, o.frame)
      case Clone(parent, child, vaddr) =>
        o.Done? ==>
          UserPage(l, parent, vaddr) && (child, vaddr) !in l.pages && o.frame == l.pages[(parent, vaddr)].frame
      case Split(root, vaddr, allowed) => RightSplit(l, (root, vaddr), allowed, o)
      case Protect(root, vaddr, _) =>
        && (o.Done? <==> UserPage(l, root, vaddr))
        && (o.Done? ==> o.frame == l.pages[(root, vaddr)].frame)
      case Discard(root, vaddr) =>
        && (o.Done? <==> UserPage(l, root, vaddr))
        && (o.Done? ==> o.frame == l.pages[(root, vaddr)].frame)
      case Destroy(root, cr3) => o.Done? <==> root in l.surplus && root != cr3 && l.surplus[root] == 0
  }

  /** A page marked copy-on-write is made private in place when it is the only
      one on its frame, and on a frame of its own otherwise. */
  ghost predicate RightSplit(l: Life, key: (Frame, nat), allowed: bool, o: Outcome) {
    var due := allowed && UserPage(l, key.0, key.1) && l.pages[key].attr.cow && !l.pages[key].attr.writable;
    && (o.Done? ==> due && if Shared(l, key) then Unmapped(l, o.frame) else o.frame == l.pages[key].frame)
    && (due && !Shared(l, key) ==> o.Done?)
  }

  // Copy-on-write isolation.

  /** A page that can be written is the only one on its frame. */
  ghost predicate Isolated(l: Life) {
    forall key :: key in l.pages && l.pages[key].attr.writable ==> !Shared(l, key)
  }

  /** Protecting turns a shared page that carries no mark writable. */
  ghost predicate Exposes(l: Life, e: Event) {
    && e.Protect? && UserPage(l, e.root, e.vaddr) && e.policy.writable
    && !l.pages[(e.root, e.vaddr)].attr.cow && Shared(l, (e.root, e.vaddr))
  }

  /** Isolation survives an event exactly when the event does not make a
      shared, unmarked page writable. */
  lemma IsolationKeptIff(l: Life, e: Event, o: Outcome)
    requires Isolated(l) && Live(l, e) && Admitted(e) && Right(l, e, o)
    ensures Isolated(Step(l, e, o)) <==> !Exposes(l, e)
  {
    var n := Step(l, e, o);
    if Exposes(l, e) {
      var key := (e.root, e.vaddr);
      var other :| other in l.pages && other != key && l.pages[other].frame == l.pages[key].frame;
      assert other in n.pages && n.pages[other].frame == n.pages[key].frame;
      assert Shared(n, key) && n.pages[key].attr.writable;
    } else {
      forall key | key in n.pages && n.pages[key].attr.writable ensures !Shared(n, key) {
        if Shared(n, key) {
          var other :| other in n.pages && other != key && n.pages[other].frame == n.pages[key].frame;
          NotExposed(l, e, o, key, other);
        }
      }
    }
  }

  lemma NotExposed(l: Life, e: Event, o: Outcome, key: (Frame, nat), other: (Frame, nat))
    requires Isolated(l) && Live(l, e) && Admitted(e) && Right(l, e, o) && !Exposes(l, e)
    requires key in Step(l, e, o).pages && other in Step(l, e, o).pages && key != other
    requires Step(l, e, o).pages[key].attr.writable
    ensures Step(l, e, o).pages[key].frame != Step(l, e, o).pages[other].frame
  {
    if key in l.pages && other in l.pages && l.pages[key].frame == l.pages[other].frame {
      assert Shared(l, key) && Shared(l, other);
    }
    if e.Clone? && o.Done? {
      var from := (e.parent, e.vaddr);
      if other in l.pages && l.pages[other].frame == l.pages[from].frame && other != from { assert Shared(l, from); }
    }
  }

  // Whole runs.

  ghost function After(l: Life, es: seq<Event>, os: seq<Outcome>): Life
    requires |es| == |os|
  {
    if es == [] then l else var n := |es| - 1; Step(After(l, es[..n], os[..n]), es[n], os[n])
  }

  ghost predicate AllRight(l: Life, es: seq<Event>, os: seq<Outcome>)
    requires |es| == |os|
  {
    es == [] || var n := |es| - 1; AllRight(l, es[..n], os[..n]) && Right(After(l, es[..n], os[..n]), es[n], os[n])
  }

  /** The event discards the last page below one entry of the root table of `root`. */
  ghost predicate Leaks(l: Life, e: Event, o: Outcome, root: Frame) {
    e.Discard? && e.root == root && Live(l, e) && Vacates(l.pages, UnmapOp(root, e.vaddr), o.Done?)
  }

  /** How many discards have done so since `root` was last derived. */
  ghost function Leaked(l: Life, es: seq<Event>, os: seq<Outcome>, root: Frame): nat
    requires |es| == |os|
  {
    if es == [] then 0
    else
      var n := |es| - 1;
      if es[n].Derive? && os[n] == Done(root) then 0
      else Leaked(l, es[..n], os[..n], root) + if Leaks(After(l, es[..n], os[..n]), es[n], os[n], root) then 1 else 0
  }

  /** The surplus that decides whether a teardown can succeed is the number of
      vacating discards in the history of the root. */
  lemma {:induction false} SurplusIsHistory(l: Life, es: seq<Event>, os: seq<Outcome>, root: Frame)
    requires |es| == |os| && (root in l.surplus ==> l.surplus[root] == 0) && root in After(l, es, os).surplus
    ensures After(l, es, os).surplus[root] == Leaked(l, es, os, root)
  {
    if es != [] {
      var n := |es| - 1;
      if root in After(l, es[..n], os[..n]).surplus { SurplusIsHistory(l, es[..n], os[..n], root); }
    }
  }

  ghost predicate NeverExposes(l: Life, es: seq<Event>, os: seq<Outcome>)
    requires |es| == |os|
  {
    es == [] || var n := |es| - 1;
    NeverExposes(l, es[..n], os[..n]) && Admitted(es[n]) && !Exposes(After(l, es[..n], os[..n]), es[n])
  }

  /** Over any run that never makes a shared, unmarked page writable, no write
      of one address space is ever seen by another. */
  lemma {:induction false} RunsStayIsolated(l: Life, es: seq<Event>, os: seq<Outcome>)
    requires |es| == |os| && Isolated(l) && AllRight(l, es, os) && NeverExposes(l, es, os)
    ensures Isolated(After(l, es, os))
  {
    if es != [] {
      var n := |es| - 1;
      var k := After(l, es[..n], os[..n]);
      RunsStayIsolated(l, es[..n], os[..n]);
      if Live(k, es[n]) { IsolationKeptIff(k, es[n], os[n]); }
    }
  }

  /** Sharing a writable page by fork, protecting it read-only and then
      writable again leaves both spaces writing to one frame. */
  lemma ProtectionForgetsTheMark(parent: Frame, child: Frame, f: Frame, vaddr: nat)
    requires parent != child && LowPage(vaddr)
    ensures var rw, ro := Attr(true, true, true, false, false, 0), Attr(true, false, true, false, false, 0);
            var l := Life(map[(parent, vaddr) := Entry(f, rw)], map[parent := 0, child := 0]);
            var es := [Clone(parent, child, vaddr), Protect(parent, vaddr, ro), Protect(parent, vaddr, rw)];
            var os := [Done(f), Done(f), Done(f)];
            Isolated(l) && AllRight(l, es, os) && !Isolated(After(l, es, os))
  {
    var rw, ro := Attr(true, true, true, false, false, 0), Attr(true, false, true, false, false, 0);
    var l := Life(map[(parent, vaddr) := Entry(f, rw)], map[parent := 0, child := 0]);
    var a, b, c := Clone(parent, child, vaddr), Protect(parent, vaddr, ro), Protect(parent, vaddr, rw);
    var es, os := [a, b, c], [Done(f), Done(f), Done(f)];
    assert es[..2] == [a, b] && es[..2][..1] == [a] && es[..2][..1][..0] == [];
    assert os[..2] == [Done(f), Done(f)] && os[..2][..1] == [Done(f)] && os[..2][..1][..0] == [];
    var l1 := Step(l, a, Done(f));
    var l2 := Step(l1, b, Done(f));
    var l3 := Step(l2, c, Done(f));
    assert Right(l, a, Done(f)) && Right(l1, b, Done(f)) && Right(l2, c, Done(f));
    assert After(l, es[..2][..1], os[..2][..1]) == l1 && AllRight(l, es[..2][..1], os[..2][..1]);
    assert After(l, es[..2], os[..2]) == l2 && AllRight(l, es[..2], os[..2]);
    assert After(l, es, os) == l3;
    assert (child, vaddr) in l3.pages && l3.pages[(child, vaddr)].frame == f;
    assert l3.pages[(parent, vaddr)] == Entry(f, rw);
    assert Shared(l3, (parent, vaddr));
  }
}

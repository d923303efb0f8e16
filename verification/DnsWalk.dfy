/** The two name walkers: one compares a name with a query's, one skips it. */
module DnsWalk {
  import opened Common
  import opened Bytes
  import opened DnsNames

  /** The name at `pos` has, in lower case, the labels `want`. */
  predicate Matches(msg: seq<byte>, pos: nat, jumps: nat, want: seq<Label>) {
    NameAt(msg, pos, jumps).Some? && LowerAll(NameAt(msg, pos, jumps).value.labels) == want
  }

  /** The wire form of the name at `pos`, in lower case, is `want`. */
  predicate Spells(msg: seq<byte>, pos: nat, jumps: nat, want: seq<byte>) {
    var r := NameAt(msg, pos, jumps);
    r.Some? && Wire(LowerAll(r.value.labels)) == want
  }

  lemma SpellsIffMatches(msg: seq<byte>, pos: nat, jumps: nat, qs: seq<Label>)
    requires Labels(qs)
    ensures Spells(msg, pos, jumps, Wire(qs)) <==> Matches(msg, pos, jumps, qs)
  {
    if Spells(msg, pos, jumps, Wire(qs)) { WireIsInjective(LowerAll(NameAt(msg, pos, jumps).value.labels), qs); }
  }

  /** No label of the query name runs past its end. */
  predicate Whole(q: seq<byte>)
    decreases |q|
  {
    q == [] || q[0] == 0 || (1 + q[0] <= |q| && Whole(q[1 + q[0]..]))
  }

  lemma {:induction false} WireIsWhole(ls: seq<Label>)
    requires Labels(ls)
    ensures Whole(Wire(ls))
  {
    WireHead(ls);
    if ls != [] { WireIsWhole(ls[1..]); }
  }

  /** The first label of a wire form, and what follows it. */
  lemma WireHead(ls: seq<Label>)
    requires Labels(ls)
    ensures Wire(ls)[0] == if ls == [] then 0 else |ls[0]|
    ensures ls == [] ==> Wire(ls) == [0]
    ensures ls != [] ==>
      && 1 + |ls[0]| < |Wire(ls)|
      && Wire(ls)[1..1 + |ls[0]|] == ls[0] && Wire(ls)[1 + |ls[0]|..] == Wire(ls[1..])
  {
    if ls != [] { PrefixedCons(ls); }
  }

  /** `pos` holds a pointer that can be followed, to the result. */
  predicate PointsTo(msg: seq<byte>, pos: nat, target: nat) {
    pos + 1 < |msg| && msg[pos] >= 0xc0 && target == (msg[pos] - 0xc0) * 256 + msg[pos + 1] < |msg|
  }

  /** `pos` holds a label of `n` bytes. */
  predicate LabelAt(msg: seq<byte>, pos: nat, n: nat) {
    pos < |msg| && msg[pos] == n <= MAX_LABEL && pos + 1 + n <= |msg|
  }

  /** What the query name must go on with for a label in front of a name. */
  predicate BeginsWith(q: seq<byte>, l: Label) { 1 + |l| <= |q| && q[0] == |l| && q[1..1 + |l|] == l }

  lemma JumpSpells(msg: seq<byte>, pos: nat, jumps: nat, target: nat, want: seq<byte>)
    requires PointsTo(msg, pos, target) && jumps > 0
    ensures Spells(msg, pos, jumps, want) <==> Spells(msg, target, jumps - 1, want)
  {
  }

  lemma LabelSpells(msg: seq<byte>, pos: nat, jumps: nat, n: nat, want: seq<byte>)
    requires LabelAt(msg, pos, n) && n > 0
    ensures var l := Lower(msg[pos + 1..pos + 1 + n]);
            Spells(msg, pos, jumps, want) <==> BeginsWith(want, l) && Spells(msg, pos + 1 + n, jumps, want[1 + n..])
  {
    var rest := NameAt(msg, pos + 1 + n, jumps);
    if rest.Some? {
      var l, ls := msg[pos + 1..pos + 1 + n], rest.value.labels;
      assert LowerAll([l] + ls) == [Lower(l)] + LowerAll(ls);
      SpelledOut(Lower(l), LowerAll(ls), want);
    }
  }

  lemma SpelledOut(l: Label, ls: seq<Label>, want: seq<byte>)
    requires Labels([l] + ls) && Labels(ls)
    ensures Wire([l] + ls) == want <==> BeginsWith(want, l) && Wire(ls) == want[1 + |l|..]
  {
    var both := [l] + ls;
    assert both[0] == l && both[1..] == ls;
    WireHead(both);
    if BeginsWith(want, l) && Wire(ls) == want[1 + |l|..] {
      PrefixedCons(both);
      assert want[1..] == want[1..1 + |l|] + want[1 + |l|..];
      assert want == [want[0]] + want[1..];
    }
  }

  method SameLabel(msg: seq<byte>, pos: nat, qname: seq<byte>, qpos: nat, n: nat) returns (same: bool)
    requires pos + n <= |msg| && qpos + n <= |qname|
    ensures same <==> Lower(msg[pos..pos + n]) == qname[qpos..qpos + n]
  {
    ghost var x, y := Lower(msg[pos..pos + n]), qname[qpos..qpos + n];
    var i := 0;
    while i < n
      invariant i <= n && forall j :: 0 <= j < i ==> x[j] == y[j]
    {
      if LowerByte(msg[pos + i]) != qname[qpos + i] {
        assert x[i] != y[i];
        return false;
      }
      i := i + 1;
    }
    same := true;
  }

  /** Compares a label with the next one of the query name, of which `want` is left. */
  method MatchLabel(msg: seq<byte>, pos: nat, n: nat, qname: seq<byte>, qpos: nat, ghost want: seq<byte>)
    returns (ok: bool)
    requires LabelAt(msg, pos, n) && n > 0 && qpos <= |qname| && want == qname[qpos..] && Whole(want)
    ensures ok <==> BeginsWith(want, Lower(msg[pos + 1..pos + 1 + n]))
    ensures ok ==> qpos + 1 + n <= |qname| && want[1 + n..] == qname[qpos + 1 + n..] && Whole(want[1 + n..])
  {
    if qpos == |qname| { return false; }
    assert qname[qpos] == want[0];
    if qname[qpos] != n { return false; }
    assert qname[qpos + 1..qpos + 1 + n] == want[1..1 + n];
    assert qname[qpos + 1 + n..] == want[1 + n..];
    ok := SameLabel(msg, pos + 1, qname, qpos + 1, n);
  }

  /** Matching the whole name comes down to matching `want` at `pos`. */
  ghost predicate Follows(msg: seq<byte>, offset: nat, q: seq<byte>, pos: nat, left: nat, want: seq<byte>,
                          next: Option<nat>) {
    && (Spells(msg, offset, MAX_JUMPS, q) <==> Spells(msg, pos, left, want))
    && (Spells(msg, pos, left, want) ==>
          NameAt(msg, offset, MAX_JUMPS).value.end
          == if next.Some? then next.value else NameAt(msg, pos, left).value.end)
  }

  lemma FollowJump(msg: seq<byte>, offset: nat, q: seq<byte>, pos: nat, left: nat, want: seq<byte>,
                   next: Option<nat>, target: nat)
    requires Follows(msg, offset, q, pos, left, want, next) && PointsTo(msg, pos, target) && left > 0
    ensures Follows(msg, offset, q, target, left - 1, want, if next.None? then Some(pos + 2) else next)
  {
    JumpSpells(msg, pos, left, target, want);
  }

  lemma FollowLabel(msg: seq<byte>, offset: nat, q: seq<byte>, pos: nat, left: nat, want: seq<byte>,
                    next: Option<nat>, n: nat)
    requires Follows(msg, offset, q, pos, left, want, next) && LabelAt(msg, pos, n) && n > 0
    ensures if BeginsWith(want, Lower(msg[pos + 1..pos + 1 + n]))
            then Follows(msg, offset, q, pos + 1 + n, left, want[1 + n..], next)
            else !Spells(msg, offset, MAX_JUMPS, q)
  {
    LabelSpells(msg, pos, left, n, want);
  }

  lemma RootSpells(msg: seq<byte>, pos: nat, jumps: nat, qname: seq<byte>, qpos: nat, want: seq<byte>)
    requires LabelAt(msg, pos, 0) && qpos <= |qname| && want == qname[qpos..]
    ensures Spells(msg, pos, jumps, want) <==> qpos + 1 == |qname| && qname[qpos] == 0
    ensures NameAt(msg, pos, jumps).Some? && NameAt(msg, pos, jumps).value.end == pos + 1
  {
    if qpos + 1 == |qname| { assert want == [qname[qpos]]; }
  }

  /** Compares the name at `offset` with the query name; on success the result
      is the offset after the name. */
  method MatchName(msg: seq<byte>, offset: nat, qname: seq<byte>) returns (r: Option<nat>)
    requires Whole(qname)
    ensures r.Some? <==> Spells(msg, offset, MAX_JUMPS, qname)
    ensures r.Some? ==> r.value == NameAt(msg, offset, MAX_JUMPS).value.end
  {
    var pos: nat, qpos: nat, left: nat := offset, 0, MAX_JUMPS;
    var next: Option<nat> := None;
    ghost var want := qname;
    while true
      invariant qpos <= |qname| && want == qname[qpos..] && Whole(want)
      invariant Follows(msg, offset, qname, pos, left, want, next)
      decreases left, |msg| - pos
    {
      if pos >= |msg| { return None; }
      var n := msg[pos];
      if n >= 0xc0 {
        if pos + 1 >= |msg| || left == 0 { return None; }
        var target := (n - 0xc0) * 256 + msg[pos + 1];
        if target >= |msg| { return None; }
        FollowJump(msg, offset, qname, pos, left, want, next, target);
        if next.None? { next := Some(pos + 2); }
        pos, left := target, left - 1;
      } else {
        if n > MAX_LABEL || pos + 1 + n > |msg| { return None; }
        if n == 0 {
          RootSpells(msg, pos, left, qname, qpos, want);
          if qpos >= |qname| || qname[qpos] != 0 || qpos + 1 != |qname| { return None; }
          return Some(if next.Some? then next.value else pos + 1);
        }
        FollowLabel(msg, offset, qname, pos, left, want, next, n);
        var same := MatchLabel(msg, pos, n, qname, qpos, want);
        if !same { return None; }
        pos, qpos, want := pos + 1 + n, qpos + 1 + n, want[1 + n..];
      }
    }
  }

  /** Skips the name at `offset`. */
  method SkipName(msg: seq<byte>, offset: nat) returns (r: Option<nat>)
    ensures r.Some? <==> NameAt(msg, offset, MAX_JUMPS).Some?
    ensures r.Some? ==> r.value == NameAt(msg, offset, MAX_JUMPS).value.end
  {
    var pos: nat, left: nat := offset, MAX_JUMPS;
    var next: Option<nat> := None;
    while true
      invariant 0 <= left <= MAX_JUMPS
      invariant NameAt(msg, offset, MAX_JUMPS).Some? <==> NameAt(msg, pos, left).Some?
      invariant NameAt(msg, pos, left).Some? ==>
        NameAt(msg, offset, MAX_JUMPS).value.end == if next.Some? then next.value else NameAt(msg, pos, left).value.end
      decreases left, |msg| - pos
    {
      if pos >= |msg| { return None; }
      var n := msg[pos];
      if n >= 0xc0 {
        if pos + 1 >= |msg| || left == 0 { return None; }
        var target := (n - 0xc0) * 256 + msg[pos + 1];
        if target >= |msg| { return None; }
        if next.None? { next := Some(pos + 2); }
        pos, left := target, left - 1;
      } else {
        if n > MAX_LABEL || pos + 1 + n > |msg| { return None; }
        if n == 0 { return Some(if next.Some? then next.value else pos + 1); }
        pos := pos + 1 + n;
      }
    }
  }
}

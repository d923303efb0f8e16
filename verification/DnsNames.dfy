/**
 Domain names: dotted text, labels, the wire form of section 3.1 of RFC 1035,
 and the compressed names of section 4.1.4.
 */
module DnsNames {
  import opened Common
  import opened Bytes

  const MAX_HOSTNAME := 253
  const MAX_LABEL := 63
  const MAX_JUMPS := 16

  const DOT: byte := 0x2e
  const HYPHEN: byte := 0x2d

  type Label = seq<byte>

  function LowerByte(c: byte): byte { if 0x41 <= c <= 0x5a then c + 0x20 else c }

  function Lower(l: Label): (r: Label)
    ensures |r| == |l|
  {
    seq(|l|, i requires 0 <= i < |l| => LowerByte(l[i]))
  }

  function LowerAll(ls: seq<Label>): (r: seq<Label>)
    ensures |r| == |ls|
  {
    seq(|ls|, i requires 0 <= i < |ls| => Lower(ls[i]))
  }

  predicate NameChar(c: byte) { 0x41 <= c <= 0x5a || 0x61 <= c <= 0x7a || 0x30 <= c <= 0x39 || c == HYPHEN }

  predicate GoodLabel(l: Label) {
    && 1 <= |l| <= MAX_LABEL && l[0] != HYPHEN && l[|l| - 1] != HYPHEN
    && forall i :: 0 <= i < |l| ==> NameChar(l[i])
  }

  /** The labels of a dotted name. */
  function Split(h: seq<byte>): (ls: seq<Label>)
    ensures |ls| >= 1
    decreases |h|
  {
    var n := FirstDot(h);
    if n == |h| then [h] else [h[..n]] + Split(h[n + 1..])
  }

  function FirstDot(h: seq<byte>): (n: nat)
    ensures n <= |h| && (n < |h| ==> h[n] == DOT) && forall i :: 0 <= i < n ==> h[i] != DOT
  {
    if h == [] || h[0] == DOT then 0 else 1 + FirstDot(h[1..])
  }

  function Join(ls: seq<Label>): seq<byte>
    requires ls != []
  {
    if |ls| == 1 then ls[0] else ls[0] + [DOT] + Join(ls[1..])
  }

  lemma {:induction false} JoinSplit(h: seq<byte>)
    ensures Join(Split(h)) == h
    decreases |h|
  {
    var n := FirstDot(h);
    if n < |h| {
      JoinSplit(h[n + 1..]);
      var ls := [h[..n]] + Split(h[n + 1..]);
      assert ls[1..] == Split(h[n + 1..]);
      assert h[..n] + [DOT] + h[n + 1..] == h;
    }
  }

  predicate ValidHost(h: seq<byte>) {
    1 <= |h| <= MAX_HOSTNAME && forall i :: 0 <= i < |Split(h)| ==> GoodLabel(Split(h)[i])
  }

  predicate Labels(ls: seq<Label>) { forall i :: 0 <= i < |ls| ==> 1 <= |ls[i]| <= MAX_LABEL }

  /** Length-prefixed labels, without the final zero. */
  function Prefixed(ls: seq<Label>): seq<byte>
    requires Labels(ls)
  {
    if ls == [] then [] else [|ls[0]|] + ls[0] + Prefixed(ls[1..])
  }

  function Wire(ls: seq<Label>): seq<byte>
    requires Labels(ls)
  {
    Prefixed(ls) + [0]
  }

  lemma Regroup(x: seq<byte>, y: seq<byte>, z: seq<byte>)
    ensures (x + y) + z == x + (y + z)
  {
  }

  /** A list's first label, then the others. */
  lemma PrefixedCons(ls: seq<Label>)
    requires Labels(ls) && ls != []
    ensures Prefixed(ls) == [|ls[0]|] + (ls[0] + Prefixed(ls[1..]))
    ensures Wire(ls) == [|ls[0]|] + (ls[0] + Wire(ls[1..]))
  {
    Regroup([|ls[0]|], ls[0], Prefixed(ls[1..]));
    Regroup([|ls[0]|], ls[0] + Prefixed(ls[1..]), [0]);
    Regroup(ls[0], Prefixed(ls[1..]), [0]);
  }

  lemma {:induction false} PrefixedConcat(x: seq<Label>, y: seq<Label>)
    requires Labels(x) && Labels(y)
    ensures Prefixed(x + y) == Prefixed(x) + Prefixed(y)
  {
    if x == [] {
      assert x + y == y;
    } else {
      assert (x + y)[1..] == x[1..] + y;
      PrefixedConcat(x[1..], y);
    }
  }

  /** A hostname's wire form is two bytes longer than its text. */
  lemma {:induction false} WireLength(h: seq<byte>)
    requires Labels(Split(h))
    ensures |Wire(Split(h))| == |h| + 2
    decreases |h|
  {
    var n := FirstDot(h);
    if n == |h| {
      assert Split(h)[1..] == [] && Prefixed(Split(h)) == [|h|] + h + Prefixed([]);
    } else {
      assert Split(h)[1..] == Split(h[n + 1..]);
      WireLength(h[n + 1..]);
    }
  }

  datatype Name = Name(labels: seq<Label>, end: nat)

  /** The name at `pos`, following at most `jumps` pointers, and where the
      text after it starts. */
  function NameAt(msg: seq<byte>, pos: nat, jumps: nat): (r: Option<Name>)
    ensures r.Some? ==> Labels(r.value.labels) && pos < r.value.end <= |msg|
    decreases jumps, |msg| - pos
  {
    if pos >= |msg| then None
    else
      var b := msg[pos];
      if b >= 0xc0 then
        if pos + 1 >= |msg| || jumps == 0 then None
        else
          var target := (b - 0xc0) * 256 + msg[pos + 1];
          if target >= |msg| then None
          else match NameAt(msg, target, jumps - 1) {
            case None => None
            case Some(n) => Some(Name(n.labels, pos + 2))
          }
      else if b > MAX_LABEL || pos + 1 + b > |msg| then None
      else if b == 0 then Some(Name([], pos + 1))
      else match NameAt(msg, pos + 1 + b, jumps) {
        case None => None
        case Some(n) => Some(Name([msg[pos + 1..pos + 1 + b]] + n.labels, n.end))
      }
  }

  /** `part` stands in `msg` at `pos`. */
  predicate Holds(msg: seq<byte>, pos: nat, part: seq<byte>) {
    pos + |part| <= |msg| && msg[pos..pos + |part|] == part
  }

  lemma HoldsBoth(msg: seq<byte>, pos: nat, x: seq<byte>, y: seq<byte>)
    requires Holds(msg, pos, x + y)
    ensures Holds(msg, pos, x) && Holds(msg, pos + |x|, y)
  {
    assert msg[pos..pos + |x| + |y|][..|x|] == x && msg[pos..pos + |x| + |y|][|x|..] == y;
  }

  lemma HoldsByte(msg: seq<byte>, pos: nat, b: byte)
    requires Holds(msg, pos, [b])
    ensures pos < |msg| && msg[pos] == b
  {
    assert msg[pos..pos + 1][0] == b;
  }

  /** The name at `pos` can be read with `jumps` jumps; it has these labels and ends there. */
  predicate Reads(msg: seq<byte>, pos: nat, jumps: nat, labels: seq<Label>, end: nat) {
    var r := NameAt(msg, pos, jumps);
    r.Some? && r.value.labels == labels && r.value.end == end
  }

  lemma RootReads(msg: seq<byte>, pos: nat, jumps: nat)
    requires Holds(msg, pos, [0])
    ensures Reads(msg, pos, jumps, [], pos + 1)
  {
    HoldsByte(msg, pos, 0);
  }

  /** One label in front of a name, whether that can be read or not. */
  lemma LabelReads(l: Label, rest: seq<byte>, msg: seq<byte>, pos: nat, at: nat, jumps: nat)
    requires 1 <= |l| <= MAX_LABEL && Holds(msg, pos, [|l|] + (l + rest)) && at == pos + 1 + |l|
    ensures NameAt(msg, pos, jumps).Some? <==> NameAt(msg, at, jumps).Some?
    ensures NameAt(msg, at, jumps).Some? ==>
              Reads(msg, pos, jumps, [l] + NameAt(msg, at, jumps).value.labels, NameAt(msg, at, jumps).value.end)
    ensures Holds(msg, at, rest)
  {
    HoldsBoth(msg, pos, [|l|], l + rest);
    HoldsByte(msg, pos, |l|);
    HoldsBoth(msg, pos + 1, l, rest);
  }

  /** Labels in front of a name make a longer one, which can be read exactly when
      the name can. */
  lemma {:induction false} PrefixReads(own: seq<Label>, msg: seq<byte>, pos: nat, end: nat, jumps: nat)
    requires Labels(own) && Holds(msg, pos, Prefixed(own)) && end == pos + |Prefixed(own)|
    ensures NameAt(msg, pos, jumps).Some? <==> NameAt(msg, end, jumps).Some?
    ensures NameAt(msg, end, jumps).Some? ==>
              Reads(msg, pos, jumps, own + NameAt(msg, end, jumps).value.labels, NameAt(msg, end, jumps).value.end)
  {
    if own == [] {
      NoLabels(msg, pos, jumps);
    } else {
      var l, rest := own[0], Prefixed(own[1..]);
      var at := pos + 1 + |l|;
      PrefixedCons(own);
      LabelReads(l, rest, msg, pos, at, jumps);
      PrefixReads(own[1..], msg, at, end, jumps);
      if NameAt(msg, end, jumps).Some? { FirstLabel(own, NameAt(msg, end, jumps).value.labels); }
    }
  }

  lemma NoLabels(msg: seq<byte>, pos: nat, jumps: nat)
    ensures NameAt(msg, pos, jumps).Some? ==>
              [] + NameAt(msg, pos, jumps).value.labels == NameAt(msg, pos, jumps).value.labels
  {
  }

  lemma FirstLabel(own: seq<Label>, rest: seq<Label>)
    requires own != []
    ensures [own[0]] + (own[1..] + rest) == own + rest
  {
  }

  /** The wire form reads back as its labels, wherever it stands. */
  lemma WireReads(ls: seq<Label>, msg: seq<byte>, pos: nat, jumps: nat)
    requires Labels(ls) && Holds(msg, pos, Wire(ls))
    ensures Reads(msg, pos, jumps, ls, pos + |Wire(ls)|)
  {
    HoldsBoth(msg, pos, Prefixed(ls), [0]);
    var end := pos + |Prefixed(ls)|;
    RootReads(msg, end, jumps);
    PrefixReads(ls, msg, pos, end, jumps);
    assert ls + [] == ls;
  }

  /** Different label lists have different wire forms. */
  lemma WireIsInjective(x: seq<Label>, y: seq<Label>)
    requires Labels(x) && Labels(y) && Wire(x) == Wire(y)
    ensures x == y
  {
    var w := Wire(x);
    assert w[0..0 + |w|] == w;
    WireReads(x, w, 0, 0);
    WireReads(y, w, 0, 0);
  }

  /** Encoding a hostname and reading it back gives its lower-case form. */
  lemma HostnameRoundTrip(h: seq<byte>)
    requires Labels(Split(h))
    ensures Labels(LowerAll(Split(h)))
    ensures var w := Wire(LowerAll(Split(h)));
      |w| == |h| + 2 && Reads(w, 0, 0, LowerAll(Split(h)), |w|) && Join(LowerAll(Split(h))) == Lower(h)
  {
    var ls := LowerAll(Split(h));
    assert forall i :: 0 <= i < |ls| ==> |ls[i]| == |Split(h)[i]|;
    SameLength(Split(h), ls);
    WireLength(h);
    var w := Wire(ls);
    assert w[0..0 + |w|] == w;
    WireReads(ls, w, 0, 0);
    JoinLower(Split(h));
    JoinSplit(h);
  }

  lemma {:induction false} SameLength(x: seq<Label>, y: seq<Label>)
    requires Labels(x) && Labels(y) && |x| == |y| && forall i :: 0 <= i < |x| ==> |x[i]| == |y[i]|
    ensures |Wire(x)| == |Wire(y)|
  {
    if x != [] { SameLength(x[1..], y[1..]); }
  }

  lemma {:induction false} JoinLower(ls: seq<Label>)
    requires ls != []
    ensures Join(LowerAll(ls)) == Lower(Join(ls))
  {
    if |ls| > 1 {
      assert LowerAll(ls)[1..] == LowerAll(ls[1..]);
      JoinLower(ls[1..]);
    }
  }
}

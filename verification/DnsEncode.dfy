/** Checking and encoding hostnames, and the queries built from them. */
module DnsEncode {
  import opened Common
  import opened Bytes
  import opened DnsNames

  const HEADER := 12

  datatype Errno = InvalidArgument | MessageTooLong | NotFound | OutOfRange

  datatype Result<T> = Ok(value: T) | Err(errno: Errno)

  function Be16(v: nat): seq<byte>
    requires v < 0x10000
  {
    [v / 256, v % 256]
  }

  /** The length-prefixed lower-case labels of a dotted name, if all are allowed. */
  function Encoded(t: seq<byte>): Option<seq<byte>>
    decreases |t|
  {
    var n := FirstDot(t);
    if !GoodLabel(t[..n]) then None
    else if n == |t| then Some([n] + Lower(t[..n]))
    else Then([n] + Lower(t[..n]), Encoded(t[n + 1..]))
  }

  /** `out` followed by the rest, if there is one. */
  function Then(out: seq<byte>, rest: Option<seq<byte>>): Option<seq<byte>> {
    match rest
    case None => None
    case Some(e) => Some(out + e)
  }

  lemma ThenEmpty(rest: Option<seq<byte>>)
    ensures Then([], rest) == rest
  {
    if rest.Some? { assert [] + rest.value == rest.value; }
  }

  lemma ThenThen(x: seq<byte>, y: seq<byte>, rest: Option<seq<byte>>)
    ensures Then(x, Then(y, rest)) == Then(x + y, rest)
  {
    if rest.Some? { assert x + (y + rest.value) == (x + y) + rest.value; }
  }

  predicate AllGood(ls: seq<Label>) { forall i :: 0 <= i < |ls| ==> GoodLabel(ls[i]) }

  lemma LowerLabels(ls: seq<Label>)
    requires AllGood(ls)
    ensures Labels(LowerAll(ls))
  {
  }

  lemma {:induction false} EncodedIsWire(t: seq<byte>)
    ensures Encoded(t).Some? <==> AllGood(Split(t))
    ensures Encoded(t).Some? ==>
      Labels(LowerAll(Split(t))) && Encoded(t).value == Prefixed(LowerAll(Split(t))) && |Encoded(t).value| == |t| + 1
    decreases |t|
  {
    var n := FirstDot(t);
    var ls := Split(t);
    assert ls[0] == t[..n];
    if n == |t| {
      if AllGood(ls) {
        LowerLabels(ls);
        assert LowerAll(ls)[1..] == [];
      }
    } else {
      var rest := t[n + 1..];
      EncodedIsWire(rest);
      assert ls[1..] == Split(rest);
      assert AllGood(ls) <==> GoodLabel(ls[0]) && AllGood(ls[1..]);
      if AllGood(ls) {
        LowerLabels(ls);
        assert LowerAll(ls)[1..] == LowerAll(ls[1..]);
      }
    }
  }

  method LabelLength(t: seq<byte>) returns (n: nat)
    ensures n == FirstDot(t)
  {
    n := 0;
    while n < |t| && t[n] != DOT
      invariant n <= |t| && forall i :: 0 <= i < n ==> t[i] != DOT
    {
      n := n + 1;
    }
  }

  method CopyLabel(l: Label) returns (ok: bool, out: seq<byte>)
    ensures ok <==> forall i :: 0 <= i < |l| ==> NameChar(l[i])
    ensures ok ==> out == Lower(l)
  {
    out := [];
    var i := 0;
    while i < |l|
      invariant i <= |l| && |out| == i && forall j :: 0 <= j < i ==> NameChar(l[j]) && out[j] == LowerByte(l[j])
    {
      if !NameChar(l[i]) { return false, out; }
      out := out + [LowerByte(l[i])];
      i := i + 1;
    }
    ok := true;
  }

  /** A label as it goes on the wire, or none if it is not allowed. */
  method EncodeLabel(l: Label) returns (r: Option<seq<byte>>)
    ensures r.Some? <==> GoodLabel(l)
    ensures r.Some? ==> r.value == [|l|] + Lower(l)
  {
    if |l| == 0 || |l| > MAX_LABEL { return None; }
    if l[0] == HYPHEN || l[|l| - 1] == HYPHEN { return None; }
    var ok, out := CopyLabel(l);
    if !ok { return None; }
    r := Some([|l|] + out);
  }

  lemma EncodedStep(t: seq<byte>, n: nat)
    requires n == FirstDot(t)
    ensures Encoded(t) == if !GoodLabel(t[..n]) then None
                          else Then([n] + Lower(t[..n]), if n == |t| then Some([]) else Encoded(t[n + 1..]))
  {
    assert [n] + Lower(t[..n]) + [] == [n] + Lower(t[..n]);
  }

  /** One label further: `whole` is `out` followed by the encoding of a text
      whose first label is encoded as `first`. */
  lemma NextLabel(whole: Option<seq<byte>>, out: seq<byte>, first: seq<byte>, rest: Option<seq<byte>>,
                  both: Option<seq<byte>>)
    requires both == Then(first, rest) && whole == Then(out, both)
    ensures whole == Then(out + first, rest)
  {
    ThenThen(out, first, rest);
  }

  /** Encodes label after label; `t` is the text from the current label on. */
  method EncodeLabels(h: seq<byte>, capacity: nat) returns (r: Option<seq<byte>>)
    requires h != [] && h[|h| - 1] != DOT
    ensures r.Some? <==> Encoded(h).Some? && |h| + 2 <= capacity
    ensures r.Some? ==> r == Encoded(h)
  {
    var out, t := [], h;
    ThenEmpty(Encoded(h));
    while true
      invariant t != [] && t[|t| - 1] != DOT && |out| + |t| == |h| && Encoded(h) == Then(out, Encoded(t))
      decreases |t|
    {
      var n := LabelLength(t);
      if |out| + 1 + n + 1 > capacity { return None; }
      EncodedStep(t, n);
      var e := EncodeLabel(t[..n]);
      if e.None? { return None; }
      NextLabel(Encoded(h), out, e.value, if n == |t| then Some([]) else Encoded(t[n + 1..]), Encoded(t));
      out := out + e.value;
      if n == |t| {
        assert out + [] == out;
        return Some(out);
      }
      t := t[n + 1..];
    }
  }

  /** Encodes a hostname: accepted exactly when every label is allowed and the
      wire form fits. */
  method EncodeQname(h: seq<byte>, capacity: nat) returns (r: Option<seq<byte>>)
    ensures r.Some? <==> ValidHost(h) && |h| + 2 <= capacity
    ensures r.Some? ==> Labels(LowerAll(Split(h))) && r.value == Wire(LowerAll(Split(h)))
  {
    if capacity == 0 || |h| == 0 || |h| > MAX_HOSTNAME { return None; }
    EncodedIsWire(h);
    if h[|h| - 1] == DOT {
      TrailingDot(h);
      return None;
    }
    r := EncodeLabels(h, capacity);
    if r.Some? { r := Some(r.value + [0]); }
  }

  lemma {:induction false} TrailingDot(h: seq<byte>)
    requires h != [] && h[|h| - 1] == DOT
    ensures !ValidHost(h) && exists i :: 0 <= i < |Split(h)| && Split(h)[i] == []
    decreases |h|
  {
    var n := FirstDot(h);
    assert n < |h|;
    if n + 1 == |h| {
      assert h[n + 1..] == [] && Split(h) == [h[..n], []];
      assert Split(h)[1] == [];
    } else {
      TrailingDot(h[n + 1..]);
      var i :| 0 <= i < |Split(h[n + 1..])| && Split(h[n + 1..])[i] == [];
      assert Split(h)[i + 1] == [];
    }
  }
}

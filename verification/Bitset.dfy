/**
 A bit set packed eight to a byte, first bit highest, with a count of the clear
 bits and a search for runs of them.
 */
module Bitset {
  import opened Common

  /** The mask that selects bit `k` of a byte. */
  function Mask(k: nat): bv8
    requires k < 8
  {
    if k == 0 then 0x80 else if k == 1 then 0x40 else if k == 2 then 0x20 else if k == 3 then 0x10
    else if k == 4 then 0x08 else if k == 5 then 0x04 else if k == 6 then 0x02 else 0x01
  }

  predicate BitOf(b: bv8, k: nat)
    requires k < 8
  {
    b & Mask(k) != 0
  }

  lemma SetBit(b: bv8, k: nat, j: nat)
    requires k < 8 && j < 8
    ensures BitOf(b | Mask(k), j) <==> j == k || BitOf(b, j)
  {
  }

  lemma ClearBit(b: bv8, k: nat, j: nat)
    requires k < 8 && j < 8
    ensures BitOf(b & !Mask(k), j) <==> j != k && BitOf(b, j)
  {
  }

  lemma ShiftedBit(b: bv8, k: nat)
    requires k < 8
    ensures (b >> (8 - k - 1)) & 1 == 1 <==> BitOf(b, k)
  {
  }

  /** Bit `i` of a packed sequence. */
  predicate BitAt(bytes: seq<bv8>, i: nat)
    requires i < 8 * |bytes|
  {
    BitOf(bytes[i / 8], i % 8)
  }

  /** The packed bytes hold the bits of `s`. */
  ghost predicate Packs(bytes: seq<bv8>, s: seq<bool>) {
    |s| <= 8 * |bytes| && forall i: nat {:trigger BitAt(bytes, i)} :: i < |s| ==> BitAt(bytes, i) == s[i]
  }

  function Written(b: bv8, k: nat, v: bool): bv8
    requires k < 8
  {
    if v then b | Mask(k) else b & !Mask(k)
  }

  lemma WrittenBit(b: bv8, k: nat, v: bool, j: nat)
    requires k < 8 && j < 8
    ensures BitOf(Written(b, k, v), j) == if j == k then v else BitOf(b, j)
  {
    SetBit(b, k, j);
    ClearBit(b, k, j);
  }

  lemma WrittenAt(bytes: seq<bv8>, k: nat, v: bool, i: nat)
    requires k < 8 * |bytes| && i < 8 * |bytes|
    ensures BitAt(bytes[k / 8 := Written(bytes[k / 8], k % 8, v)], i) == if i == k then v else BitAt(bytes, i)
  {
    if i / 8 == k / 8 { WrittenBit(bytes[k / 8], k % 8, v, i % 8); }
  }

  lemma WrittenPacks(bytes: seq<bv8>, s: seq<bool>, k: nat, v: bool)
    requires Packs(bytes, s) && k < |s|
    ensures Packs(bytes[k / 8 := Written(bytes[k / 8], k % 8, v)], s[k := v])
  {
    var after := bytes[k / 8 := Written(bytes[k / 8], k % 8, v)];
    forall i: nat {:trigger BitAt(after, i)} | i < |s| ensures BitAt(after, i) == s[k := v][i] {
      WrittenAt(bytes, k, v, i);
      assert BitAt(bytes, i) == s[i];
    }
  }

  /** How many bits are clear. */
  function ClearCount(s: seq<bool>): (c: nat)
    ensures c <= |s|
  {
    if s == [] then 0 else ClearCount(s[..|s| - 1]) + if s[|s| - 1] then 0 else 1
  }

  lemma {:induction false} ClearCountUpdate(s: seq<bool>, k: nat, v: bool)
    requires k < |s|
    ensures ClearCount(s[k := v]) == ClearCount(s) + (if v then 0 else 1) - (if s[k] then 0 else 1)
  {
    var n := |s| - 1;
    if k < n {
      ClearCountUpdate(s[..n], k, v);
      assert s[k := v][..n] == s[..n][k := v];
    } else {
      assert s[k := v][..n] == s[..n];
    }
  }

  lemma {:induction false} ClearCountAll(s: seq<bool>, v: bool)
    requires forall i :: 0 <= i < |s| ==> s[i] == v
    ensures ClearCount(s) == if v then 0 else |s|
  {
    if s != [] { ClearCountAll(s[..|s| - 1], v); }
  }

  /** The bits from `pos` on, `len` of them or as many as there are, set to `v`. */
  function FillTo(s: seq<bool>, pos: nat, len: nat, v: bool): (t: seq<bool>)
    ensures |t| == |s| && forall i :: 0 <= i < |s| ==> t[i] == if pos <= i < pos + len then v else s[i]
  {
    seq(|s|, i requires 0 <= i < |s| => if pos <= i < pos + len then v else s[i])
  }

  lemma FillNext(s: seq<bool>, pos: nat, len: nat, v: bool)
    requires pos + len < |s|
    ensures FillTo(s, pos, len, v)[pos + len := v] == FillTo(s, pos, len + 1, v)
  {
  }

  /** `n` bits from `i` on are clear. */
  predicate RunAt(s: seq<bool>, i: nat, n: nat) { i + n <= |s| && forall j :: i <= j < i + n ==> !s[j] }

  lemma {:induction false} RunNeedsBits(s: seq<bool>, i: nat, n: nat)
    requires RunAt(s, i, n)
    ensures n <= ClearCount(s)
  {
    if n > 0 {
      var last := |s| - 1;
      if i + n <= last {
        RunNeedsBits(s[..last], i, n);
      } else {
        RunNeedsBits(s[..last], i, n - 1);
      }
    }
  }

  /** With `len` clear bits before bit `i` and a set one before those, a run of
      `n` ends at `i` exactly when bit `i` is clear and completes `n`. */
  lemma RunStep(s: seq<bool>, i: nat, len: nat, n: nat)
    requires i < |s| && len <= i && len < n && RunAt(s, i - len, len) && (len < i ==> s[i - len - 1])
    ensures n <= i + 1 ==> (RunAt(s, i + 1 - n, n) <==> !s[i] && len + 1 == n)
  {
    if n <= i + 1 && len + 1 < n { assert s[i - len - 1]; }
  }

  class Bits {
    // Null when there are no bits or their storage could not be had.
    const bytes: array?<bv8>
    const nrBits: nat
    var nrAvail: nat
    ghost var bits: seq<bool>

    ghost predicate Stored()
      reads this, bytes
    {
      if bytes == null then bits == [] else |bits| == nrBits && Packs(bytes[..], bits)
    }

    ghost predicate Valid()
      reads this, bytes
    {
      Stored() && nrAvail == ClearCount(bits)
    }

    constructor (n: nat, storage: array?<bv8>)
      requires storage != null ==> storage.Length == (n + 7) / 8
      modifies storage
      ensures Valid() && nrBits == n && bytes == if n == 0 then null else storage
      ensures |bits| == (if bytes == null then 0 else n) && forall i :: 0 <= i < |bits| ==> !bits[i]
    {
      if storage != null {
        var i := 0;
        while i < storage.Length
          invariant i <= storage.Length && forall j :: 0 <= j < i ==> storage[j] == 0
        {
          storage[i] := 0;
          i := i + 1;
        }
        forall k: nat {:trigger BitAt(storage[..], k)} | k < n ensures !BitAt(storage[..], k) { }
      }
      bytes := if n == 0 then null else storage;
      nrBits := n;
      nrAvail := if n == 0 || storage == null then 0 else n;
      bits := seq(if n == 0 || storage == null then 0 else n, _ => false);
      new;
      ClearCountAll(bits, false);
    }

    method Test(k: nat) returns (r: bool)
      requires Stored()
      ensures r <==> k < |bits| && bits[k]
    {
      if bytes == null || k >= nrBits { return false; }
      assert BitAt(bytes[..], k) == bits[k];
      ShiftedBit(bytes[k / 8], k % 8);
      return (bytes[k / 8] >> (8 - k % 8 - 1)) & 1 == 1;
    }

    /** Writes one bit and says whether it changed. */
    method Put(k: nat, v: bool) returns (changed: bool)
      requires Stored() && k < |bits|
      modifies bytes, `bits
      ensures Stored() && bits == old(bits)[k := v] && (changed <==> old(bits)[k] != v)
    {
      var b := bytes[k / 8];
      assert BitAt(bytes[..], k) == bits[k];
      changed := (b & Mask(k % 8) != 0) != v;
      if changed {
        WrittenPacks(bytes[..], bits, k, v);
        bytes[k / 8] := Written(b, k % 8, v);
        assert bytes[..] == old(bytes[..])[k / 8 := Written(b, k % 8, v)];
        bits := bits[k := v];
      } else {
        assert bits[k := v] == bits;
      }
    }

    /** Writes `v` over a range cut off at the end, and counts the changes. */
    method PutRange(pos: nat, len: nat, v: bool) returns (r: nat)
      requires Stored()
      modifies bytes, `bits
      ensures Stored() && bits == FillTo(old(bits), pos, len, v)
      ensures ClearCount(bits) == ClearCount(old(bits)) + if v then 0 - r else r
    {
      r := 0;
      if bytes == null || len == 0 || pos >= nrBits {
        assert bits == FillTo(bits, pos, len, v);
        return;
      }
      var n := if len > nrBits - pos then nrBits - pos else len;
      var i := 0;
      assert bits == FillTo(bits, pos, 0, v);
      while i < n
        invariant i <= n && Stored() && |bits| == |old(bits)| && bits == FillTo(old(bits), pos, i, v)
        invariant ClearCount(bits) == ClearCount(old(bits)) + if v then 0 - r else r
      {
        ClearCountUpdate(bits, pos + i, v);
        var changed := Put(pos + i, v);
        if changed { r := r + 1; }
        FillNext(old(bits), pos, i, v);
        i := i + 1;
      }
      assert bits == FillTo(old(bits), pos, len, v);
    }

    method Set(pos: nat, len: nat) returns (r: nat)
      requires Valid()
      modifies this, bytes
      ensures Valid() && bits == FillTo(old(bits), pos, len, true) && r == ClearCount(old(bits)) - ClearCount(bits)
    {
      r := PutRange(pos, len, true);
      nrAvail := nrAvail - r;
    }

    method Reset(pos: nat, len: nat) returns (r: nat)
      requires Valid()
      modifies this, bytes
      ensures Valid() && bits == FillTo(old(bits), pos, len, false) && r == ClearCount(bits) - ClearCount(old(bits))
    {
      r := PutRange(pos, len, false);
      nrAvail := nrAvail + r;
    }

    /** The lowest run of `n` clear bits, if there is one. */
    method Scan(n: nat) returns (r: Option<nat>)
      requires Valid()
      ensures r.Some? ==> RunAt(bits, r.value, n) && forall i :: 0 <= i < r.value ==> !RunAt(bits, i, n)
      ensures r.None? <==> n == 0 || forall i: nat :: !RunAt(bits, i, n)
    {
      if bytes == null || n == 0 || n > nrAvail || n > nrBits {
        forall i: nat | RunAt(bits, i, n) ensures n == 0 { RunNeedsBits(bits, i, n); }
        return None;
      }
      var len, i := 0, 0;
      while i < nrBits
        invariant len <= i <= nrBits && len < n && RunAt(bits, i - len, len)
        invariant len < i ==> bits[i - len - 1]
        invariant forall j: nat {:trigger RunAt(bits, j, n)} :: j + n <= i ==> !RunAt(bits, j, n)
      {
        var bit := Test(i);
        RunStep(bits, i, len, n);
        if !bit {
          len := len + 1;
          if len == n { return Some(i + 1 - n); }
        } else {
          len := 0;
        }
        i := i + 1;
      }
      return None;
    }
  }
}

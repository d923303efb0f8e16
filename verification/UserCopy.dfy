/**
 Copies between the kernel and user memory through a translation: page by page
 in the code, byte by byte in the specification.
 */
module UserCopy {
  import opened Common
  import opened Bytes
  import opened Paging

  /** User memory as the copies see it: the leaf entries of one address space, by
      page number, and the frames that the kernel can reach through its direct map. */
  datatype Space = Space(pages: map<nat, Entry>, direct: set<Frame>)

  predicate Readable(s: Space, page: nat) { page in s.pages && Present(s.pages[page]) && s.pages[page].attr.user }

  predicate Writable(s: Space, page: nat) { Readable(s, page) && s.pages[page].attr.writable }

  predicate Reachable(s: Space, page: nat, write: bool) {
    Readable(s, page) && (write ==> s.pages[page].attr.writable) && s.pages[page].frame in s.direct
  }

  /** Every byte of the range can be reached. */
  predicate Covers(s: Space, addr: nat, n: nat, write: bool) {
    forall v :: addr <= v < addr + n ==> Reachable(s, v / PAGE_SIZE, write)
  }

  /** The physical address of a user byte. */
  function Phys(s: Space, v: nat): nat {
    if v / PAGE_SIZE in s.pages then s.pages[v / PAGE_SIZE].frame * PAGE_SIZE + v % PAGE_SIZE else 0
  }

  /** All direct-mapped frames lie in memory. */
  predicate Backed(s: Space, size: nat) { forall f :: f in s.direct ==> (f + 1) * PAGE_SIZE <= size }

  lemma PhysInMemory(s: Space, v: nat, write: bool, size: nat)
    requires Backed(s, size) && Reachable(s, v / PAGE_SIZE, write)
    ensures Phys(s, v) < size
  {
  }

  /** Memory after writing the bytes one by one. */
  function Written(s: Space, mem: seq<byte>, addr: nat, data: seq<byte>): (r: seq<byte>)
    requires Covers(s, addr, |data|, true) && Backed(s, |mem|)
    ensures |r| == |mem|
  {
    if data == [] then mem
    else
      var n := |data| - 1;
      assert Reachable(s, (addr + n) / PAGE_SIZE, true);
      PhysInMemory(s, addr + n, true, |mem|);
      Written(s, mem, addr, data[..n])[Phys(s, addr + n) := data[n]]
  }

  /** The bytes of a range, read one by one. */
  function Bytewise(s: Space, mem: seq<byte>, addr: nat, n: nat): (r: seq<byte>)
    requires Covers(s, addr, n, false) && Backed(s, |mem|)
    ensures |r| == n
  {
    if n == 0 then []
    else
      assert Reachable(s, (addr + n - 1) / PAGE_SIZE, false);
      PhysInMemory(s, addr + n - 1, false, |mem|);
      Bytewise(s, mem, addr, n - 1) + [mem[Phys(s, addr + n - 1)]]
  }

  function Blit(mem: seq<byte>, at: nat, data: seq<byte>): seq<byte>
    requires at + |data| <= |mem|
  {
    mem[..at] + data + mem[at + |data|..]
  }

  lemma {:induction false} WrittenConcat(s: Space, mem: seq<byte>, addr: nat, x: seq<byte>, y: seq<byte>, next: nat,
                                         now: seq<byte>)
    requires Covers(s, addr, |x| + |y|, true) && Backed(s, |mem|) && next == addr + |x|
    requires Covers(s, addr, |x|, true) && now == Written(s, mem, addr, x)
    ensures Covers(s, next, |y|, true) && Written(s, mem, addr, x + y) == Written(s, now, next, y)
  {
    if y == [] {
      assert x + y == x;
    } else {
      WrittenConcat(s, mem, addr, x, y[..|y| - 1], next, now);
      assert (x + y)[..|x + y| - 1] == x + y[..|y| - 1];
    }
  }

  lemma {:induction false} BytewiseConcat(s: Space, mem: seq<byte>, addr: nat, m: nat, n: nat)
    requires Covers(s, addr, m + n, false) && Backed(s, |mem|)
    ensures Covers(s, addr, m, false) && Covers(s, addr + m, n, false)
    ensures Bytewise(s, mem, addr, m + n) == Bytewise(s, mem, addr, m) + Bytewise(s, mem, addr + m, n)
  {
    if n > 0 {
      BytewiseConcat(s, mem, addr, m, n - 1);
    }
  }

  lemma SamePage(addr: nat, i: nat)
    requires addr % PAGE_SIZE + i < PAGE_SIZE
    ensures (addr + i) / PAGE_SIZE == addr / PAGE_SIZE && (addr + i) % PAGE_SIZE == addr % PAGE_SIZE + i
  {
  }

  /** Within a page, byte by byte is one block copy. */
  lemma {:induction false} WrittenInPage(s: Space, mem: seq<byte>, addr: nat, data: seq<byte>)
    requires Reachable(s, addr / PAGE_SIZE, true) && Backed(s, |mem|) && addr % PAGE_SIZE + |data| <= PAGE_SIZE
    ensures Covers(s, addr, |data|, true) && Phys(s, addr) + |data| <= |mem|
    ensures Written(s, mem, addr, data) == Blit(mem, Phys(s, addr), data)
  {
    InPage(s, addr, |data|, true, |mem|);
    if data != [] {
      var n := |data| - 1;
      SamePage(addr, n);
      WrittenInPage(s, mem, addr, data[..n]);
    }
  }

  lemma InPage(s: Space, addr: nat, n: nat, write: bool, size: nat)
    requires Reachable(s, addr / PAGE_SIZE, write) && Backed(s, size) && addr % PAGE_SIZE + n <= PAGE_SIZE
    ensures Covers(s, addr, n, write) && Phys(s, addr) + n <= size
  {
    forall v | addr <= v < addr + n ensures Reachable(s, v / PAGE_SIZE, write) { SamePage(addr, v - addr); }
  }

  lemma {:induction false} BytewiseInPage(s: Space, mem: seq<byte>, addr: nat, n: nat)
    requires Reachable(s, addr / PAGE_SIZE, false) && Backed(s, |mem|) && addr % PAGE_SIZE + n <= PAGE_SIZE
    ensures Covers(s, addr, n, false) && Phys(s, addr) + n <= |mem|
    ensures Bytewise(s, mem, addr, n) == mem[Phys(s, addr)..Phys(s, addr) + n]
  {
    InPage(s, addr, n, false, |mem|);
    if n > 0 {
      SamePage(addr, n - 1);
      BytewiseInPage(s, mem, addr, n - 1);
    }
  }

  /** No two bytes of the range are the same physical byte. */
  predicate Injective(s: Space, addr: nat, n: nat) {
    forall v, w :: addr <= v < w < addr + n ==> Phys(s, v) != Phys(s, w)
  }

  /** Only the physical bytes of the range change. */
  lemma {:induction false} OthersKept(s: Space, mem: seq<byte>, addr: nat, data: seq<byte>, p: nat)
    requires Covers(s, addr, |data|, true) && Backed(s, |mem|) && p < |mem|
    requires forall v :: addr <= v < addr + |data| ==> Phys(s, v) != p
    ensures Written(s, mem, addr, data)[p] == mem[p]
  {
    if data != [] {
      var n := |data| - 1;
      assert Phys(s, addr + n) != p;
      OthersKept(s, mem, addr, data[..n], p);
    }
  }

  lemma {:induction false} ReadsBack(s: Space, mem: seq<byte>, addr: nat, data: seq<byte>, i: nat)
    requires Covers(s, addr, |data|, true) && Backed(s, |mem|) && i < |data|
    requires forall w :: addr + i < w < addr + |data| ==> Phys(s, w) != Phys(s, addr + i)
    ensures Phys(s, addr + i) < |mem| && Written(s, mem, addr, data)[Phys(s, addr + i)] == data[i]
  {
    var n := |data| - 1;
    assert Reachable(s, (addr + i) / PAGE_SIZE, true);
    PhysInMemory(s, addr + i, true, |mem|);
    if i < n {
      assert Phys(s, addr + n) != Phys(s, addr + i);
      ReadsBack(s, mem, addr, data[..n], i);
    }
  }

  lemma {:induction false} BytewiseAt(s: Space, mem: seq<byte>, addr: nat, n: nat, i: nat)
    requires Covers(s, addr, n, false) && Backed(s, |mem|) && i < n
    ensures Phys(s, addr + i) < |mem| && Bytewise(s, mem, addr, n)[i] == mem[Phys(s, addr + i)]
  {
    assert Reachable(s, (addr + i) / PAGE_SIZE, false);
    PhysInMemory(s, addr + i, false, |mem|);
    if i < n - 1 { BytewiseAt(s, mem, addr, n - 1, i); }
  }

  lemma WritableIsReadable(s: Space, addr: nat, n: nat)
    requires Covers(s, addr, n, true)
    ensures Covers(s, addr, n, false)
  {
    forall v | addr <= v < addr + n ensures Reachable(s, v / PAGE_SIZE, false) {
      assert Reachable(s, v / PAGE_SIZE, true);
    }
  }

  /** What is copied in comes back out, if no two bytes share a place. */
  lemma CopyRoundTrip(s: Space, mem: seq<byte>, addr: nat, data: seq<byte>)
    requires Covers(s, addr, |data|, true) && Backed(s, |mem|) && Injective(s, addr, |data|)
    ensures Covers(s, addr, |data|, false) && Bytewise(s, Written(s, mem, addr, data), addr, |data|) == data
  {
    WritableIsReadable(s, addr, |data|);
    var after := Written(s, mem, addr, data);
    forall i | 0 <= i < |data| ensures Bytewise(s, after, addr, |data|)[i] == data[i] {
      ReadsBack(s, mem, addr, data, i);
      BytewiseAt(s, after, addr, |data|, i);
    }
  }

  // When two bytes share a place, page by page.

  /** `p` is the number of a page that the range touches. */
  predicate Touches(addr: nat, n: nat, p: nat) { n > 0 && addr / PAGE_SIZE <= p <= (addr + n - 1) / PAGE_SIZE }

  /** Two different pages of the range are on one frame. */
  predicate SameFrame(s: Space, addr: nat, n: nat, p: nat, q: nat) {
    && Touches(addr, n, p) && Touches(addr, n, q) && p < q
    && p in s.pages && q in s.pages && s.pages[p].frame == s.pages[q].frame
  }

  /** Two pages of the range on one frame lie so far apart that their parts of
      the range do not overlap within the frame; in a range of whole pages no
      two pages ever do. */
  ghost predicate FramesApart(s: Space, addr: nat, n: nat) {
    forall p: nat, q: nat :: SameFrame(s, addr, n, p, q) ==> n <= (q - p) * PAGE_SIZE
  }

  ghost predicate FramesDistinct(s: Space, addr: nat, n: nat) {
    forall p: nat, q: nat :: !SameFrame(s, addr, n, p, q)
  }

  lemma SamePlace(s: Space, v: nat, w: nat)
    requires v / PAGE_SIZE in s.pages && w / PAGE_SIZE in s.pages
    ensures Phys(s, v) == Phys(s, w) <==>
            s.pages[v / PAGE_SIZE].frame == s.pages[w / PAGE_SIZE].frame && v % PAGE_SIZE == w % PAGE_SIZE
  {
  }

  /** The first byte of the range on page `p`. */
  function FirstOn(addr: nat, p: nat): nat { if addr / PAGE_SIZE == p then addr else p * PAGE_SIZE }

  lemma FramesApartIff(s: Space, addr: nat, n: nat, write: bool)
    requires Covers(s, addr, n, write)
    ensures Injective(s, addr, n) <==> FramesApart(s, addr, n)
  {
    if FramesApart(s, addr, n) {
      forall v, w | addr <= v < w < addr + n ensures Phys(s, v) != Phys(s, w) {
        assert Reachable(s, v / PAGE_SIZE, write) && Reachable(s, w / PAGE_SIZE, write);
        SamePlace(s, v, w);
        assert Touches(addr, n, v / PAGE_SIZE) && Touches(addr, n, w / PAGE_SIZE);
        if Phys(s, v) == Phys(s, w) { assert SameFrame(s, addr, n, v / PAGE_SIZE, w / PAGE_SIZE); }
      }
    }
    if Injective(s, addr, n) {
      forall p: nat, q: nat | SameFrame(s, addr, n, p, q) ensures n <= (q - p) * PAGE_SIZE {
        var v := FirstOn(addr, p);
        var w := v + (q - p) * PAGE_SIZE;
        assert v / PAGE_SIZE == p && w / PAGE_SIZE == q && v % PAGE_SIZE == w % PAGE_SIZE;
        SamePlace(s, v, w);
        assert w >= addr + n;
      }
    }
  }

  /** Over whole pages, no two bytes share a place exactly when no two pages share a frame. */
  lemma WholePagesApartIff(s: Space, addr: nat, n: nat)
    requires addr % PAGE_SIZE == 0 && n % PAGE_SIZE == 0
    ensures FramesApart(s, addr, n) <==> FramesDistinct(s, addr, n)
  {
  }

  /** All data of a length survive the round trip. */
  ghost predicate Survives(s: Space, mem: seq<byte>, addr: nat, data: seq<byte>)
    requires Covers(s, addr, |data|, true) && Backed(s, |mem|)
  {
    WritableIsReadable(s, addr, |data|);
    Bytewise(s, Written(s, mem, addr, data), addr, |data|) == data
  }

  /** If two bytes share a place, some data do not survive. */
  lemma SharedPlaceLoses(s: Space, mem: seq<byte>, addr: nat, n: nat, i: nat, j: nat) returns (data: seq<byte>)
    requires Covers(s, addr, n, true) && Backed(s, |mem|) && i < j < n && Phys(s, addr + i) == Phys(s, addr + j)
    ensures |data| == n && !Survives(s, mem, addr, data)
  {
    data := seq(n, k => if k == i then 1 else 0);
    WritableIsReadable(s, addr, n);
    var after := Written(s, mem, addr, data);
    BytewiseAt(s, after, addr, n, i);
    BytewiseAt(s, after, addr, n, j);
    assert data[i] != data[j];
  }

  /** Every copy of `n` bytes comes back exactly when pages on one frame lie
      apart, so over whole pages exactly when all frames are distinct. */
  lemma RoundTripIffFramesApart(s: Space, mem: seq<byte>, addr: nat, n: nat)
    requires Covers(s, addr, n, true) && Backed(s, |mem|)
    ensures (forall data: seq<byte> {:trigger Survives(s, mem, addr, data)} :: |data| == n ==>
              Survives(s, mem, addr, data))
            <==> FramesApart(s, addr, n)
    ensures addr % PAGE_SIZE == 0 && n % PAGE_SIZE == 0 ==> (FramesApart(s, addr, n) <==> FramesDistinct(s, addr, n))
  {
    FramesApartIff(s, addr, n, true);
    if addr % PAGE_SIZE == 0 && n % PAGE_SIZE == 0 { WholePagesApartIff(s, addr, n); }
    if Injective(s, addr, n) {
      forall data: seq<byte> {:trigger Survives(s, mem, addr, data)} | |data|
        == n ensures Survives(s, mem, addr, data) {
        CopyRoundTrip(s, mem, addr, data);
      }
    } else {
      var v, w :| addr <= v < w < addr + n && Phys(s, v) == Phys(s, w);
      var data := SharedPlaceLoses(s, mem, addr, n, v - addr, w - addr);
    }
  }

  class Memory {
    var bytes: seq<byte>

    /** Copies in, page by page. On failure the bytes before the first page that
        cannot be reached have been written. */
    method CopyTo(s: Space, addr: nat, src: seq<byte>) returns (ok: bool, ghost done: nat)
      requires Backed(s, |bytes|) && addr + |src| <= WORD
      modifies this
      ensures ok <==> src != [] && Covers(s, addr, |src|, true)
      ensures done <= |src| && Covers(s, addr, done, true) && bytes == Written(s, old(bytes), addr, src[..done])
      ensures ok ==> done == |src|
      ensures !ok && src != [] ==> done < |src| && !Reachable(s, (addr + done) / PAGE_SIZE, true)
    {
      done := 0;
      assert src[..0] == [];
      if src == [] { return false, 0; }
      var copied := 0;
      ghost var x := [];
      while copied < |src|
        invariant 0 <= copied <= |src| && done == copied && Covers(s, addr, copied, true)
        invariant x == src[..copied] && |bytes| == |old(bytes)| && bytes == Written(s, old(bytes), addr, x)
      {
        var v := addr + copied;
        var page := v / PAGE_SIZE;
        if !Writable(s, page) || s.pages[page].frame !in s.direct {
          assert !Reachable(s, v / PAGE_SIZE, true);
          return false, done;
        }
        var chunk := PAGE_SIZE - v % PAGE_SIZE;
        if chunk > |src| - copied { chunk := |src| - copied; }
        var y := src[copied..copied + chunk];
        ChunkAppended(s, old(bytes), addr, x, y, v, bytes);
        bytes := Blit(bytes, Phys(s, v), y);
        x := x + y;
        copied := copied + chunk;
        done := copied;
      }
      assert src[..copied] == src;
      ok := true;
    }

    /** Copies out, page by page. */
    method CopyFrom(s: Space, addr: nat, n: nat) returns (ok: bool, dst: seq<byte>)
      requires Backed(s, |bytes|) && addr + n <= WORD
      ensures ok <==> n > 0 && Covers(s, addr, n, false)
      ensures ok ==> dst == Bytewise(s, bytes, addr, n)
    {
      dst := [];
      if n == 0 { return false, dst; }
      while |dst| < n
        invariant |dst| <= n && Covers(s, addr, |dst|, false) && dst == Bytewise(s, bytes, addr, |dst|)
      {
        var v := addr + |dst|;
        var page := v / PAGE_SIZE;
        if !Readable(s, page) || s.pages[page].frame !in s.direct {
          assert !Reachable(s, v / PAGE_SIZE, false);
          return false, dst;
        }
        var chunk := PAGE_SIZE - v % PAGE_SIZE;
        if chunk > n - |dst| { chunk := n - |dst|; }
        ChunkRead(s, bytes, addr, |dst|, chunk);
        dst := dst + bytes[Phys(s, v)..Phys(s, v) + chunk];
      }
      ok := true;
    }
  }

  lemma CoversMore(s: Space, addr: nat, m: nat, n: nat, write: bool)
    requires Covers(s, addr, m, write) && Covers(s, addr + m, n, write)
    ensures Covers(s, addr, m + n, write)
  {
  }

  lemma ChunkAppended(s: Space, mem: seq<byte>, addr: nat, x: seq<byte>, y: seq<byte>, next: nat, now: seq<byte>)
    requires Backed(s, |mem|) && Covers(s, addr, |x|, true) && next == addr + |x| && now == Written(s, mem, addr, x)
    requires Reachable(s, next / PAGE_SIZE, true) && next % PAGE_SIZE + |y| <= PAGE_SIZE
    ensures Covers(s, addr, |x| + |y|, true) && Phys(s, next) + |y| <= |mem|
    ensures Written(s, mem, addr, x + y) == Blit(now, Phys(s, next), y)
  {
    InPage(s, next, |y|, true, |mem|);
    CoversMore(s, addr, |x|, |y|, true);
    var after := Written(s, now, next, y);
    assert Written(s, mem, addr, x + y) == after by { WrittenConcat(s, mem, addr, x, y, next, now); }
    assert after == Blit(now, Phys(s, next), y) by { WrittenInPage(s, now, next, y); }
  }

  lemma ChunkRead(s: Space, mem: seq<byte>, addr: nat, m: nat, chunk: nat)
    requires Backed(s, |mem|) && Covers(s, addr, m, false)
    requires Reachable(s, (addr + m) / PAGE_SIZE, false) && (addr + m) % PAGE_SIZE + chunk <= PAGE_SIZE
    ensures Covers(s, addr, m + chunk, false) && Phys(s, addr + m) + chunk <= |mem|
    ensures Bytewise(s, mem, addr, m + chunk)
            == Bytewise(s, mem, addr, m) + mem[Phys(s, addr + m)..Phys(s, addr + m) + chunk]
  {
    BytewiseInPage(s, mem, addr + m, chunk);
    CoversMore(s, addr, m, chunk, false);
    BytewiseConcat(s, mem, addr, m, chunk);
  }

  predicate AllWritable(s: Space, addr: nat, len: nat) {
    forall v :: addr <= v < addr + len ==> Writable(s, v / PAGE_SIZE)
  }

  /** Whether a user range can be written, in 64-bit arithmetic. */
  method UserRangeWritable(s: Space, addr: nat, len: nat) returns (ok: bool)
    requires addr < WORD && len < WORD
    ensures ok <==> 0 < len && addr + len <= LOW_HALF_LIMIT && AllWritable(s, addr, len)
  {
    if len == 0 || addr >= LOW_HALF_LIMIT { return false; }
    var end := (addr + len) % WORD;
    if end <= addr || end > LOW_HALF_LIMIT { return false; }
    var page, last := addr / PAGE_SIZE, (end - 1) / PAGE_SIZE;
    while page <= last
      invariant addr / PAGE_SIZE <= page <= last + 1
      invariant forall q :: addr / PAGE_SIZE <= q < page ==> Writable(s, q)
    {
      if !Writable(s, page) {
        var v := if page == addr / PAGE_SIZE then addr else page * PAGE_SIZE;
        assert addr <= v < addr + len && v / PAGE_SIZE == page;
        return false;
      }
      page := page + 1;
    }
    forall v | addr <= v < addr + len ensures Writable(s, v / PAGE_SIZE) {
      assert addr / PAGE_SIZE <= v / PAGE_SIZE <= last;
    }
    ok := true;
  }

  /** The kernel can reach the frame of every page of the range. */
  ghost predicate FramesDirect(s: Space, addr: nat, n: nat) {
    forall p: nat :: Touches(addr, n, p) && p in s.pages ==> s.pages[p].frame in s.direct
  }

  lemma WritableIsCovered(s: Space, addr: nat, n: nat)
    requires AllWritable(s, addr, n) && FramesDirect(s, addr, n)
    ensures Covers(s, addr, n, true)
  {
    forall v | addr <= v < addr + n ensures Reachable(s, v / PAGE_SIZE, true) {
      assert Writable(s, v / PAGE_SIZE) && Touches(addr, n, v / PAGE_SIZE);
    }
  }

  /** A range that the check accepts takes the data and gives them back, if the
      kernel can reach its frames and pages on one frame lie apart. */
  method CheckCopyAndReadBack(m: Memory, s: Space, addr: nat, src: seq<byte>)
    returns (accepted: bool, ok: bool, dst: seq<byte>)
    requires Backed(s, |m.bytes|) && addr < WORD && |src| < WORD
    modifies m
    ensures accepted <==> src != [] && addr + |src| <= LOW_HALF_LIMIT && AllWritable(s, addr, |src|)
    ensures accepted && FramesDirect(s, addr, |src|) && FramesApart(s, addr, |src|) ==> ok && dst == src
    ensures !accepted ==> m.bytes == old(m.bytes)
  {
    ok, dst := false, [];
    accepted := UserRangeWritable(s, addr, |src|);
    if !accepted { return; }
    ghost var mem := m.bytes;
    ghost var done;
    ok, done := m.CopyTo(s, addr, src);
    if FramesDirect(s, addr, |src|) && FramesApart(s, addr, |src|) {
      WritableIsCovered(s, addr, |src|);
      FramesApartIff(s, addr, |src|, true);
      CopyRoundTrip(s, mem, addr, src);
      assert src[..done] == src;
    }
    if ok { ok, dst := m.CopyFrom(s, addr, |src|); }
  }
}

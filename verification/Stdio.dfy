/**
 Buffered streams over a kernel file: one buffer used for reading or for
 writing, one byte of pushback, and seeks that drop the buffer.
 */
module Stdio {
  import opened Common
  import opened Bytes
  import opened UnbufferedStream

  const WRITE_CHUNK := 128
  const READ_CHUNK := 512
  const SIZE_MAX := 0xffff_ffff_ffff_ffff

  datatype Dir = Idle | Reading | Writing
  datatype Mode = Full | Line | Unbuffered

  const NEWLINE: byte := 10

  /** An open kernel file. Reads and writes may be short but make progress. */
  class Kernel {
    var content: seq<byte>
    var offset: nat

    method Read(max: nat) returns (data: seq<byte>)
      requires max > 0
      modifies `offset
      ensures offset == old(offset) + |data| && |data| <= max
      ensures old(offset) < |content| <==> data != []
      ensures data != [] ==> offset <= |content| && data == content[old(offset)..offset]
    {
      if offset >= |content| { return []; }
      var n: nat :| 1 <= n <= max && offset + n <= |content|;
      data := content[offset..offset + n];
      offset := offset + n;
    }

    method Write(data: seq<byte>) returns (n: nat)
      requires data != []
      modifies this
      ensures 1 <= n <= |data| && offset == old(offset) + n
      ensures content == Overwrite(old(content), old(offset), data[..n])
    {
      n :| 1 <= n <= |data|;
      content := Overwrite(content, offset, data[..n]);
      offset := offset + n;
    }

    /** Fails exactly when the target is before the start. */
    method Seek(target: int) returns (ok: bool)
      modifies `offset
      ensures ok <==> target >= 0
      ensures offset == if ok then target else old(offset)
    {
      ok := target >= 0;
      if ok { offset := target; }
    }
  }

  lemma OverwriteMore(content: seq<byte>, at: nat, data: seq<byte>, done: nat, chunk: nat, n: nat)
    requires done + chunk <= |data| && n <= chunk
    ensures Overwrite(Overwrite(content, at, data[..done]), at + done, data[done..done + chunk][..n]) ==
      Overwrite(content, at, data[..done + n])
  {
    OverwriteTwice(content, at, data[..done], data[done..done + n]);
    assert data[done..done + chunk][..n] == data[done..done + n];
    assert data[..done] + data[done..done + n] == data[..done + n];
  }

  /** Writes all of `data` in pieces the kernel accepts. */
  method WriteAll(k: Kernel, data: seq<byte>)
    modifies k
    ensures k.content == Overwrite(old(k.content), old(k.offset), data) && k.offset == old(k.offset) + |data|
  {
    var done := 0;
    assert data[..0] == [];
    while done < |data|
      invariant 0 <= done <= |data| && k.offset == old(k.offset) + done
      invariant k.content == Overwrite(old(k.content), old(k.offset), data[..done])
    {
      var chunk := if |data| - done > WRITE_CHUNK then WRITE_CHUNK else |data| - done;
      var n := k.Write(data[done..done + chunk]);
      OverwriteMore(old(k.content), old(k.offset), data, done, chunk, n);
      done := done + n;
    }
    assert data[..done] == data;
  }

  /** A stream and its kernel file as values. */
  datatype State = State(content: seq<byte>, at: nat, buf: seq<byte>, pos: nat, len: nat,
                         dir: Dir, ungot: Option<byte>, eof: bool, error: bool)

  /** Bytes in the buffer that the kernel has delivered and the caller has not read. */
  function Unread(s: State): int { if s.dir == Reading then s.len - s.pos else 0 }

  predicate StateOk(s: State) {
    && s.pos <= |s.buf| && s.len <= |s.buf|
    && (s.dir == Idle ==> s.pos == s.len == 0 && s.ungot.None?)
    && (s.dir == Writing ==> s.len == 0 && s.ungot.None?)
    && (s.dir == Reading ==> s.pos <= s.len && (s.pos < s.len ==> BufferAgrees(s)))
  }

  /** The unread part of the buffer is what precedes the kernel offset. */
  predicate BufferAgrees(s: State)
    requires s.pos <= s.len <= |s.buf|
  {
    s.len - s.pos <= s.at <= |s.content| && s.buf[s.pos..s.len] == s.content[s.at - (s.len - s.pos)..s.at]
  }

  /** The unbuffered file that a stream stands for. */
  function Abs(s: State): File
    requires StateOk(s)
  {
    if s.dir == Writing then
      File(Overwrite(s.content, s.at, s.buf[..s.pos]), s.at + s.pos, None, s.eof, s.error)
    else
      File(s.content, s.at - Unread(s), s.ungot, s.eof, s.error)
  }

  /** How far a reading stream's kernel offset is past its position. */
  function Back(s: State): int { s.len - s.pos + if s.ungot.Some? then 1 else 0 }

  /** The state with the kernel offset moved back to the position. */
  function Realigned(s: State): State
    requires 0 <= Back(s) <= s.at
  {
    s.(at := s.at - Back(s), pos := 0, len := 0, ungot := None)
  }

  lemma ReadingPosition(s: State)
    requires StateOk(s) && s.dir == Reading
    ensures Back(s) >= 0 && Position(Abs(s)) == s.at - Back(s)
  {
  }

  lemma ErrorKeeps(s: State)
    requires StateOk(s)
    ensures StateOk(s.(error := true)) && Abs(s.(error := true)) == Abs(s).(error := true)
  {
  }

  /** The state turned to writing. */
  function Written(s: State): State
    requires s.dir == Reading ==> 0 <= Back(s) <= s.at
  {
    if s.dir == Reading then Realigned(s).(dir := Writing) else s.(dir := Writing)
  }

  /** The file with the pushed-back byte given up. */
  function Turned(f: File): File
    requires Position(f) >= 0
  {
    f.(offset := Position(f), pushed := None)
  }

  lemma WritingKeeps(s: State)
    requires StateOk(s) && (s.dir == Reading ==> 0 <= Back(s) <= s.at)
    ensures Position(Abs(s)) >= 0 && StateOk(Written(s)) && Abs(Written(s)) == Turned(Abs(s))
  {
  }

  /** The file `f` with `data` written at its offset. */
  function Appended(f: File, data: seq<byte>): File {
    f.(content := Overwrite(f.content, f.offset, data), offset := f.offset + |data|)
  }

  /** The state with `data` added to the pending writes. */
  function Stashed(s: State, data: seq<byte>): State
    requires s.pos + |data| <= |s.buf|
  {
    s.(buf := s.buf[..s.pos] + data + s.buf[s.pos + |data|..], pos := s.pos + |data|)
  }

  lemma StashAppends(s: State, data: seq<byte>)
    requires StateOk(s) && s.dir == Writing && s.pos + |data| <= |s.buf|
    ensures StateOk(Stashed(s, data)) && Abs(Stashed(s, data)) == Appended(Abs(s), data)
  {
    assert Stashed(s, data).buf[..s.pos + |data|] == s.buf[..s.pos] + data;
    OverwriteTwice(s.content, s.at, s.buf[..s.pos], data);
  }

  /** The state after the kernel delivered `data` into an empty buffer. */
  function Filled(s: State, data: seq<byte>): State
    requires |data| <= |s.buf|
  {
    s.(at := s.at + |data|, buf := data + s.buf[|data|..], pos := 0, len := |data|)
  }

  lemma FillKeeps(s: State, data: seq<byte>)
    requires StateOk(s) && s.dir == Reading && s.pos == s.len && |data| <= |s.buf|
    requires data != [] ==> s.at + |data| <= |s.content| && data == s.content[s.at..s.at + |data|]
    ensures StateOk(Filled(s, data)) && Abs(Filled(s, data)) == Abs(s)
  {
    assert Filled(s, data).buf[0..|data|] == data;
  }

  /** The bytes that `n` reads take from the buffer are the file's next. */
  lemma BufferSplits(s: State, n: nat)
    requires s.pos + n <= s.len <= |s.buf| && BufferAgrees(s)
    ensures var base := s.at - (s.len - s.pos);
      && s.buf[s.pos..s.pos + n] == s.content[base..base + n]
      && s.buf[s.pos + n..s.len] == s.content[base + n..s.at]
  {
    var base := s.at - (s.len - s.pos);
    assert s.buf[s.pos..s.len][..n] == s.buf[s.pos..s.pos + n]
           && s.content[base..s.at][..n] == s.content[base..base + n];
    assert s.buf[s.pos..s.len][n..] == s.buf[s.pos + n..s.len]
           && s.content[base..s.at][n..] == s.content[base + n..s.at];
  }

  /** Reading `n` bytes out of the buffer. */
  lemma ConsumeReads(s: State, n: nat)
    requires StateOk(s) && s.dir == Reading && s.ungot.None? && s.pos + n <= s.len
    ensures StateOk(s.(pos := s.pos + n))
    ensures Get(Abs(s), n) == (s.buf[s.pos..s.pos + n], Abs(s.(pos := s.pos + n)))
  {
    if n == 0 {
      assert s.buf[s.pos..s.pos] == [] && s.(pos := s.pos + 0) == s;
    } else {
      BufferSplits(s, n);
      GetSlice(Abs(s), n);
    }
  }

  lemma PushedReads(s: State)
    requires StateOk(s) && s.dir == Reading && s.ungot.Some?
    ensures StateOk(s.(ungot := None)) && Reads(Abs(s), [s.ungot.value], true, Abs(s.(ungot := None)))
  {
    assert [s.ungot.value] + [] == [s.ungot.value];
    assert Get(Abs(s), 1) == ([s.ungot.value] + Get(Abs(s.(ungot := None)), 0).0, Abs(s.(ungot := None)));
  }

  /** A read from `f` delivered `data` and left `g`; without `more` it met the end. */
  predicate Reads(f: File, data: seq<byte>, more: bool, g: File) {
    if more then Get(f, |data|) == (data, g) else data == [] && GetByte(f) == (None, g)
  }

  lemma ReadOn(f: File, out: seq<byte>, g: File, data: seq<byte>, h: File)
    requires Get(f, |out|) == (out, g) && Get(g, |data|) == (data, h)
    ensures Get(f, |out + data|) == (out + data, h)
  {
    GetTwice(f, |out|, |data|);
    assert |out + data| == |out| + |data|;
  }

  lemma ReadOut(f: File, out: seq<byte>, g: File, h: File, total: nat)
    requires Get(f, |out|) == (out, g) && GetByte(g) == (None, h) && |out| < total
    ensures Get(f, total) == (out, h)
  {
    EndReads(g, h, total - |out|);
    GetTwice(f, |out|, total - |out|);
    assert out + [] == out;
  }

  lemma EndReads(g: File, h: File, n: nat)
    requires GetByte(g) == (None, h) && n > 0
    ensures Get(g, n) == ([], h)
  {
  }

  /** A request for no bytes, or for more than a size can express. */
  predicate Degenerate(size: nat, count: nat) { size == 0 || count == 0 || count > SIZE_MAX / size }

  lemma PutIsAppended(f: File, data: seq<byte>)
    ensures Put(f, data) == if Position(f) >= 0 then (true, Appended(Turned(f), data)) else (false, f.(error := true))
  {
  }

  lemma AppendNone(f: File)
    ensures Appended(f, []) == f
  {
  }

  lemma AppendSplit(f: File, g: File, h: File, data: seq<byte>, n: nat)
    requires n <= |data| && g == Appended(f, data[..n]) && h == Appended(g, data[n..])
    ensures h == Appended(f, data)
  {
    OverwriteTwice(f.content, f.offset, data[..n], data[n..]);
    assert data[..n] + data[n..] == data;
  }

  lemma {:induction false} WholeObjects(size: nat, count: nat)
    requires size > 0
    ensures (size * count) / size == count && (count > 0 ==> size * count > 0)
  {
    var n := size * count;
    var q, r := n / size, n % size;
    assert n == q * size + r;
    assert q < count ==> (q + 1) * size <= count * size;
    assert q > count ==> (count + 1) * size <= q * size;
  }

  function Moved(s: State, target: int): State
    requires target >= 0
  {
    s.(at := target, pos := 0, len := 0, ungot := None, eof := false, dir := Idle)
  }

  /** What a failed seek leaves: the pushed-back byte and the unread bytes are
      gone, so the offset is the kernel's, which a seek from the end has moved. */
  function Missed(f: File, unread: nat, whence: Whence): File {
    if whence == Current && Position(f) < 0 then f
    else f.(offset := if whence == End then |f.content| else f.offset + unread, pushed := None)
  }

  /** Nothing is pushed back, and what is about to be read is what the kernel
      would read next: the end, for a seek from there. */
  predicate NothingToLose(f: File, unread: nat, whence: Whence) {
    f.pushed.None? && if whence == End then f.offset == |f.content| else unread == 0
  }

  /** The state a seek starts from, once pending writes are flushed. */
  predicate Settled(s: State) { StateOk(s) && (s.dir == Writing ==> s.pos == 0) }

  function Aimed(s: State, whence: Whence): State { if whence == End then s.(at := |s.content|) else s }

  lemma SeekEnds(s: State, offset: int, whence: Whence)
    requires Settled(s) && (whence == Current ==> Position(Abs(s)) >= 0)
    ensures var t, target := Aimed(s, whence), Target(Abs(s), offset, whence);
      if target >= 0 then StateOk(Moved(t, target)) && Abs(Moved(t, target)) == Sought(Abs(s), offset, whence)
      else
        && StateOk(t.(pos := 0, len := 0, ungot := None))
        && Abs(t.(pos := 0, len := 0, ungot := None)) == Missed(Abs(s), Unread(s), whence)
  {
    if s.dir == Writing { assert s.buf[..0] == []; }
  }

  function WholeIn(bytes: nat, size: nat): nat { if size == 0 then 0 else bytes / size }

  /** What reading `count` objects of `size` bytes delivers and leaves. */
  function Fetch(f: File, size: nat, count: nat, readable: bool): (seq<byte>, File) {
    if Degenerate(size, count) then ([], f)
    else if readable then Get(f, size * count)
    else ([], f.(error := true))
  }

  class Stream {
    const kernel: Kernel
    const buf: array<byte>
    const mode: Mode
    const readable: bool
    const writable: bool
    var pos: nat
    var len: nat
    var dir: Dir
    var ungot: Option<byte>
    var eof: bool
    var error: bool

    constructor (kernel: Kernel, size: nat, mode: Mode, readable: bool, writable: bool)
      ensures Valid() && fresh(buf) && this.kernel == kernel && buf.Length == size
      ensures this.mode == mode && this.readable == readable && this.writable == writable
      ensures File() == UnbufferedStream.File.File(kernel.content, kernel.offset, None, false, false)
    {
      this.kernel, this.mode, this.readable, this.writable := kernel, mode, readable, writable;
      buf := new byte[size];
      pos, len, dir, ungot, eof, error := 0, 0, Idle, None, false, false;
    }

    predicate Direct() { mode == Unbuffered || buf.Length == 0 }

    function St(): State
      reads this, kernel, buf
    {
      State(kernel.content, kernel.offset, buf[..], pos, len, dir, ungot, eof, error)
    }

    ghost predicate Valid()
      reads this, kernel, buf
    {
      StateOk(St()) && (Direct() ==> pos == 0 && len == 0) && (dir == Writing ==> Held(buf[..pos]))
    }

    /** What may wait in the buffer between calls: never a full one and, line by
        line, never a newline. */
    predicate Held(pending: seq<byte>) {
      (pending == [] || |pending| < buf.Length) && (mode == Line ==> NEWLINE !in pending)
    }

    ghost function File(): File
      requires Valid()
      reads this, kernel, buf
    {
      Abs(St())
    }

    /** Hands pending writes to the kernel; the file the stream stands for stays. */
    method FlushWrite()
      requires StateOk(St()) && (dir != Writing ==> Valid())
      modifies `pos, kernel
      ensures Valid() && File() == Abs(old(St()))
      ensures dir == Writing ==> pos == 0 && kernel.content == File().content
      ensures dir != Writing ==> St() == old(St())
    {
      if dir != Writing || pos == 0 { return; }
      WriteAll(kernel, buf[..pos]);
      pos := 0;
    }

    /** Moves the kernel offset back to the position and drops the buffer. */
    method Realign() returns (ok: bool)
      requires Back(St()) >= 0
      modifies this, kernel
      ensures ok <==> Back(old(St())) <= old(kernel.offset)
      ensures St() == if ok then Realigned(old(St())) else old(St()).(error := true)
    {
      var back := len - pos + if ungot.Some? then 1 else 0;
      ok := true;
      if back > 0 {
        ok := kernel.Seek(kernel.offset - back);
      }
      if ok {
        pos, len, ungot := 0, 0, None;
      } else {
        error := true;
      }
    }

    method ToWrite() returns (ok: bool)
      requires Valid()
      modifies this, kernel
      ensures Valid() && (ok <==> writable && Position(old(File())) >= 0)
      ensures ok ==> dir == Writing
      ensures File() == if ok then Turned(old(File())) else old(File()).(error := true)
    {
      ghost var s := St();
      if !writable {
        error := true;
        ErrorKeeps(s);
        return false;
      }
      ok := true;
      if dir == Reading {
        ReadingPosition(s);
        ok := Realign();
      }
      if ok {
        dir := Writing;
        WritingKeeps(s);
        assert St() == Written(s);
      } else {
        ErrorKeeps(s);
      }
    }

    method ToRead() returns (ok: bool)
      requires Valid()
      modifies this, kernel
      ensures Valid() && (ok <==> readable)
      ensures File() == if ok then old(File()) else old(File()).(error := true)
      ensures ok ==> dir == Reading
    {
      if !readable {
        error := true;
        return false;
      }
      if dir == Writing {
        FlushWrite();
      }
      dir := Reading;
      ok := true;
    }

    /** Fills the empty buffer; false at the end of the file. */
    method FillRead() returns (got: bool)
      requires StateOk(St()) && dir == Reading && pos == len && buf.Length > 0
      modifies this, kernel, buf
      ensures StateOk(St()) && dir == Reading
      ensures got <==> old(kernel.offset) < |old(kernel.content)|
      ensures if got then Abs(St()) == Abs(old(St())) && pos < len
              else Abs(St()) == Abs(old(St())).(eof := true) && pos == len
      ensures ungot == old(ungot)
    {
      ghost var s := St();
      var want := if buf.Length > READ_CHUNK then READ_CHUNK else buf.Length;
      var data := kernel.Read(want);
      got := data != [];
      if got {
        forall i | 0 <= i < |data| { buf[i] := data[i]; }
        pos, len := 0, |data|;
        FillKeeps(s, data);
        assert buf[..] == data + s.buf[|data|..];
      } else {
        eof := true;
      }
    }

    method TakePushed() returns (data: seq<byte>)
      requires Valid() && dir == Reading && ungot.Some?
      modifies `ungot
      ensures Valid() && |data| == 1 && Reads(old(File()), data, true, File())
    {
      PushedReads(St());
      data := [ungot.value];
      ungot := None;
    }

    method TakeBuffered(want: nat) returns (data: seq<byte>)
      requires Valid() && dir == Reading && ungot.None? && pos < len && want > 0
      modifies `pos
      ensures Valid() && 0 < |data| <= want && Reads(old(File()), data, true, File())
    {
      var n := if want > len - pos then len - pos else want;
      data := buf[pos..pos + n];
      ConsumeReads(St(), n);
      pos := pos + n;
    }

    method ReadDirect(want: nat) returns (data: seq<byte>)
      requires Valid() && dir == Reading && ungot.None? && pos == len && want > 0
      modifies `eof, kernel`offset
      ensures Valid() && |data| <= want && Reads(old(File()), data, data != [], File())
    {
      data := kernel.Read(if want > READ_CHUNK then READ_CHUNK else want);
      if data == [] {
        eof := true;
      } else {
        GetSlice(old(File()), |data|);
      }
    }

    method Refill() returns (more: bool)
      requires Valid() && dir == Reading && ungot.None? && pos == len && !Direct()
      modifies this, kernel, buf
      ensures Valid() && dir == Reading && ungot.None? && Reads(old(File()), [], more, File())
      ensures more ==> pos < len
    {
      more := FillRead();
    }

    /** One round of a read: the pushed-back byte, bytes from the buffer, bytes
        from the kernel, or a refill that delivers none yet. */
    method ReadStep(want: nat) returns (data: seq<byte>, more: bool)
      requires Valid() && dir == Reading && want > 0
      modifies this, kernel, buf
      ensures Valid() && dir == Reading && |data| <= want && Reads(old(File()), data, more, File())
      ensures data == [] && more ==> old(ungot.None? && pos == len) && pos < len
    {
      more := true;
      if ungot.Some? {
        data := TakePushed();
      } else if pos < len {
        data := TakeBuffered(want);
      } else if Direct() {
        data := ReadDirect(want);
        more := data != [];
      } else {
        data := [];
        more := Refill();
      }
    }

    /** Reads up to `total` bytes, as the unbuffered file would. */
    method ReadBytes(total: nat) returns (out: seq<byte>)
      requires Valid()
      modifies this, kernel, buf
      ensures Valid()
      ensures if readable then (out, File()) == Get(old(File()), total)
              else out == [] && File() == old(File()).(error := true)
    {
      out := [];
      var ok := ToRead();
      if !ok { return; }
      ghost var f := File();
      var more := true;
      while more && |out| < total
        invariant Valid() && dir == Reading && |out| <= total
        invariant if more then Get(f, |out|) == (out, File()) else Get(f, total) == (out, File())
        decreases total - |out|, more, if ungot.None? && pos == len then 1 else 0
      {
        ghost var g := File();
        var data;
        data, more := ReadStep(total - |out|);
        if more {
          ReadOn(f, out, g, data, File());
        } else {
          ReadOut(f, out, g, File(), total);
          assert out + data == out;
        }
        out := out + data;
      }
    }

    /** Reads objects of `size` bytes; a final partial object is consumed but
        not counted. */
    method Read(size: nat, count: nat) returns (out: seq<byte>, n: nat)
      requires Valid()
      modifies this, kernel, buf
      ensures Valid() && n == WholeIn(|out|, size)
      ensures out == Fetch(old(File()), size, count, readable).0
              && File() == Fetch(old(File()), size, count, readable).1
    {
      out := [];
      if !Degenerate(size, count) {
        out := ReadBytes(size * count);
      }
      n := WholeIn(|out|, size);
    }

    method GetC() returns (r: Option<byte>)
      requires Valid()
      modifies this, kernel, buf
      ensures Valid()
      ensures if readable then (r, File()) == GetByte(old(File()))
              else r == None && File() == old(File()).(error := true)
    {
      var ok := ToRead();
      if !ok { return None; }
      var data, more := ReadStep(1);
      if more && data == [] {
        data, more := ReadStep(1);
      }
      r := if more then Some(data[0]) else None;
    }

    /** Copies bytes into the buffer, which has room for them. */
    method Stash(data: seq<byte>)
      requires StateOk(St()) && dir == Writing && pos + |data| <= buf.Length
      modifies `pos, buf
      ensures StateOk(St()) && pos == old(pos) + |data| && buf[..pos] == old(buf[..pos]) + data
      ensures Abs(St()) == Appended(Abs(old(St())), data)
    {
      ghost var s := St();
      forall i | 0 <= i < |data| { buf[pos + i] := data[i]; }
      pos := pos + |data|;
      StashAppends(s, data);
      assert buf[..] == s.buf[..s.pos] + data + s.buf[s.pos + |data|..];
    }

    method WriteDirect(data: seq<byte>)
      requires Valid() && dir == Writing && Direct()
      modifies kernel
      ensures Valid() && File() == Appended(old(File()), data)
    {
      assert buf[..0] == [];
      WriteAll(kernel, data);
    }

    /** One round of a write. The buffer is never full between rounds. */
    method WriteStep(rest: seq<byte>) returns (n: nat)
      requires Valid() && dir == Writing && rest != []
      modifies `pos, kernel, buf
      ensures Valid() && 1 <= n <= |rest| && File() == Appended(old(File()), rest[..n])
    {
      if Direct() {
        n := |rest|;
        assert rest[..n] == rest;
        WriteDirect(rest);
      } else {
        n := if |rest| > buf.Length - pos then buf.Length - pos else |rest|;
        Stash(rest[..n]);
        if pos >= buf.Length || (mode == Line && NEWLINE in rest[..n]) {
          FlushWrite();
        }
      }
    }

    method WriteRounds(data: seq<byte>)
      requires Valid() && dir == Writing
      modifies `pos, kernel, buf
      ensures Valid() && File() == Appended(old(File()), data)
    {
      var rest := data;
      ghost var g := File();
      while rest != []
        invariant Valid() && dir == Writing && File() == g && Appended(g, rest) == Appended(old(File()), data)
      {
        var n := WriteStep(rest);
        AppendSplit(g, File(), Appended(File(), rest[n..]), rest, n);
        g, rest := File(), rest[n..];
      }
      AppendNone(g);
    }

    /** Writes bytes, as the unbuffered file would; refused when the stream is
        not writable or a byte pushed back at the start would go before it. */
    method WriteBytes(data: seq<byte>) returns (put: nat)
      requires Valid() && data != []
      modifies this, kernel, buf
      ensures Valid()
      ensures put == if old(Writes(data)) then |data| else 0
      ensures File() == if writable then Put(old(File()), data).1 else old(File()).(error := true)
    {
      PutIsAppended(File(), data);
      var ok := ToWrite();
      if ok {
        WriteRounds(data);
      }
      put := if ok then |data| else 0;
    }

    /** Whether a write is accepted. */
    ghost predicate Writes(data: seq<byte>)
      requires Valid()
      reads this, kernel, buf
    {
      writable && Put(File(), data).0
    }

    method Write(data: seq<byte>, size: nat, count: nat) returns (n: nat)
      requires Valid() && |data| == size * count
      modifies this, kernel, buf
      ensures Valid()
      ensures Degenerate(size, count) ==> n == 0 && File() == old(File())
      ensures !Degenerate(size, count) ==> n == if old(Writes(data)) then count else 0
      ensures !Degenerate(size, count) ==>
                File() == if writable then Put(old(File()), data).1 else old(File()).(error := true)
    {
      if Degenerate(size, count) { return 0; }
      WholeObjects(size, count);
      var put := WriteBytes(data);
      n := put / size;
      assert 0 / size == 0;
    }

    method PutC(c: byte) returns (ok: bool)
      requires Valid()
      modifies this, kernel, buf
      ensures Valid() && (ok <==> writable && Put(old(File()), [c]).0)
      ensures File() == if writable then Put(old(File()), [c]).1 else old(File()).(error := true)
    {
      PutIsAppended(File(), [c]);
      ok := ToWrite();
      if !ok { return; }
      if Direct() {
        WriteDirect([c]);
      } else {
        Stash([c]);
        if pos >= buf.Length {
          FlushWrite();
        } else if mode == Line && c == NEWLINE {
          FlushWrite();
        }
      }
    }

    method Flush()
      requires Valid()
      modifies `pos, kernel
      ensures Valid() && File() == old(File())
      ensures kernel.content == File().content && (dir == Writing ==> kernel.offset == File().offset)
    {
      if dir == Writing { FlushWrite(); }
    }

    /** Pushes one byte back; only one fits. */
    method Unget(c: byte) returns (ok: bool)
      requires Valid()
      modifies this, kernel
      ensures Valid() && (ok <==> readable && UnbufferedStream.Unget(old(File()), c).0)
      ensures File() == if readable then UnbufferedStream.Unget(old(File()), c).1 else old(File())
    {
      if !readable || ungot.Some? { return false; }
      if dir == Writing { FlushWrite(); }
      dir, ungot, eof := Reading, Some(c), false;
      ok := true;
    }

    method Tell() returns (position: int)
      requires Valid()
      ensures position == Position(File())
    {
      position := kernel.offset;
      if dir == Writing {
        position := position + pos;
      } else if dir == Reading {
        position := position - (len - pos) - if ungot.Some? then 1 else 0;
      }
    }

    /** Drops the buffer and moves the kernel offset. */
    method MoveTo(target: int) returns (ok: bool)
      requires dir == Writing ==> pos == 0 && len == 0 && ungot.None?
      modifies this, kernel`offset
      ensures ok <==> target >= 0
      ensures St() == if ok then Moved(old(St()), target) else old(St()).(pos := 0, len := 0, ungot := None)
    {
      pos, len, ungot := 0, 0, None;
      ok := kernel.Seek(target);
      if ok {
        eof, dir := false, Idle;
      }
    }

    /** Where a seek goes; none when the current position is before the start. */
    method Aim(offset: int, whence: Whence) returns (known: bool, target: int)
      requires Valid() && (dir == Writing ==> pos == 0)
      modifies kernel`offset
      ensures known <==> whence == Current ==> Position(old(File())) >= 0
      ensures known ==> target == Target(old(File()), offset, whence)
      ensures St() == if whence == End then old(St()).(at := |old(kernel.content)|) else old(St())
    {
      known, target := true, offset;
      match whence {
        case Start =>
        case Current =>
          var cur := Tell();
          known, target := cur >= 0, cur + offset;
        case End =>
          var _ := kernel.Seek(|kernel.content|);
          target := |kernel.content| + offset;
      }
    }

    /** Seeks. A seek that fails may still have lost the buffer: see `Missed`. */
    method Seek(offset: int, whence: Whence) returns (ok: bool)
      requires Valid()
      modifies this, kernel
      ensures Valid() && (ok <==> Seekable(old(File()), offset, whence))
      ensures File() == if ok then Sought(old(File()), offset, whence)
              else Missed(old(File()), Unread(old(St())), whence)
      ensures !ok ==>
                (File() == old(File()) <==>
                 (whence == Current && Position(old(File())) < 0)
                   || NothingToLose(old(File()), Unread(old(St())), whence))
    {
      if dir == Writing { FlushWrite(); }
      ghost var s := St();
      var known, target := Aim(offset, whence);
      ok := known;
      if known {
        ok := MoveTo(target);
        SeekEnds(s, offset, whence);
      }
    }
  }
}

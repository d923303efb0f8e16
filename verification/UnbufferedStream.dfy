/**
 What a stream promises: an unbuffered file with one offset and room for one
 byte pushed back.
 */
module UnbufferedStream {
  import opened Common
  import opened Bytes

  datatype File = File(content: seq<byte>, offset: nat, pushed: Option<byte>, eof: bool, error: bool)

  function Zeros(n: nat): (z: seq<byte>)
    ensures |z| == n && forall i :: 0 <= i < n ==> z[i] == 0
  {
    if n == 0 then [] else Zeros(n - 1) + [0]
  }

  /** The content with `data` written at `at`; a gap before it reads as zeros. */
  function Overwrite(content: seq<byte>, at: nat, data: seq<byte>): (r: seq<byte>)
  {
    if data == [] then content
    else if at + |data| <= |content| then content[..at] + data + content[at + |data|..]
    else if at <= |content| then content[..at] + data
    else content + Zeros(at - |content|) + data
  }

  /** Writing in two pieces is writing at once. */
  lemma OverwriteTwice(content: seq<byte>, at: nat, x: seq<byte>, y: seq<byte>)
    ensures Overwrite(Overwrite(content, at, x), at + |x|, y) == Overwrite(content, at, x + y)
  {
    if x == [] {
      assert x + y == y;
    } else if y == [] {
      assert x + y == x;
    } else {
      var c := Overwrite(content, at, x);
      assert c[..at + |x|] == if at <= |content| then content[..at] + x else content + Zeros(at - |content|) + x;
    }
  }

  /** Where the next byte comes from or goes to; -1 after pushing one back at 0. */
  function Position(f: File): int { f.offset - if f.pushed.Some? then 1 else 0 }

  /** Reads one byte. */
  function GetByte(f: File): (Option<byte>, File) {
    if f.pushed.Some? then (f.pushed, f.(pushed := None))
    else if f.offset < |f.content| then (Some(f.content[f.offset]), f.(offset := f.offset + 1))
    else (None, f.(eof := true))
  }

  /** Reads up to `n` bytes, stopping at the end of the file. */
  function Get(f: File, n: nat): (seq<byte>, File)
    decreases n
  {
    if n == 0 then ([], f)
    else match GetByte(f) {
      case (None, g) => ([], g)
      case (Some(c), g) => var (rest, h) := Get(g, n - 1); ([c] + rest, h)
    }
  }

  /** Reading `n` bytes is reading some and then the others. */
  lemma {:induction false} GetTwice(f: File, m: nat, n: nat)
    requires |Get(f, m).0| == m
    ensures Get(f, m + n) == (Get(f, m).0 + Get(Get(f, m).1, n).0, Get(Get(f, m).1, n).1)
    decreases m
  {
    if m == 0 {
      assert [] + Get(f, n).0 == Get(f, n).0;
    } else {
      var (c, g) := GetByte(f);
      GetTwice(g, m - 1, n);
      assert [c.value] + (Get(g, m - 1).0 + Get(Get(g, m - 1).1, n).0)
             == ([c.value] + Get(g, m - 1).0) + Get(Get(g, m - 1).1, n).0;
    }
  }

  /** Bytes that are there are read as they are. */
  lemma {:induction false} GetSlice(f: File, n: nat)
    requires f.pushed.None? && f.offset + n <= |f.content|
    ensures Get(f, n) == (f.content[f.offset..f.offset + n], f.(offset := f.offset + n))
    decreases n
  {
    if n == 0 {
      assert f.content[f.offset..f.offset] == [];
    } else {
      var g := f.(offset := f.offset + 1);
      GetSlice(g, n - 1);
      assert [f.content[f.offset]] + f.content[f.offset + 1..f.offset + n] == f.content[f.offset..f.offset + n];
    }
  }

  /** Writes at the position, unless that is before the start. */
  function Put(f: File, data: seq<byte>): (r: (bool, File)) {
    if Position(f) < 0 then (false, f.(error := true))
    else (true, f.(content := Overwrite(f.content, Position(f), data), offset := Position(f) + |data|, pushed := None))
  }

  function Unget(f: File, c: byte): (bool, File) {
    if f.pushed.Some? then (false, f) else (true, f.(pushed := Some(c), eof := false))
  }

  datatype Whence = Start | Current | End

  function Target(f: File, offset: int, whence: Whence): int {
    match whence
    case Start => offset
    case Current => Position(f) + offset
    case End => |f.content| + offset
  }

  /** A seek that can be made. */
  predicate Seekable(f: File, offset: int, whence: Whence) {
    Target(f, offset, whence) >= 0 && (whence == Current ==> Position(f) >= 0)
  }

  function Sought(f: File, offset: int, whence: Whence): File
    requires Seekable(f, offset, whence)
  {
    f.(offset := Target(f, offset, whence), pushed := None, eof := false)
  }
}

/**
 Whole runs: whatever is done to a buffered stream, its answers and its file
 are those of the unbuffered one.
 */
module StreamRuns {
  import opened Common
  import opened Bytes
  import opened UnbufferedStream
  import opened Stdio

  datatype Op =
    | Read(n: nat)
    | GetC
    | Write(data: seq<byte>)
    | PutC(c: byte)
    | Unget(c: byte)
    | Seek(offset: int, whence: Whence)
    | Tell
    | Flush

  datatype Answer = Bytes(bytes: seq<byte>) | Byte(byte: Option<byte>) | Ok(ok: bool) | At(position: int)

  /** One call on the unbuffered file. */
  function Step(f: File, op: Op, readable: bool, writable: bool): (Answer, File)
    requires op.Seek? ==> Seekable(f, op.offset, op.whence)
  {
    match op
    case Read(n) =>
      if n == 0 then (Bytes([]), f)
      else if readable then var (data, g) := Get(f, n); (Bytes(data), g)
      else (Bytes([]), f.(error := true))
    case GetC => if readable then var (c, g) := GetByte(f); (Byte(c), g) else (Byte(None), f.(error := true))
    case Write(data) =>
      if data == [] then (Ok(true), f)
      else if writable then var (ok, g) := Put(f, data); (Ok(ok), g)
      else (Ok(false), f.(error := true))
    case PutC(c) => if writable then var (ok, g) := Put(f, [c]); (Ok(ok), g) else (Ok(false), f.(error := true))
    case Unget(c) => if readable then var (ok, g) := UnbufferedStream.Unget(f, c); (Ok(ok), g) else (Ok(false), f)
    case Seek(offset, whence) => (Ok(true), Sought(f, offset, whence))
    case Tell => (At(Position(f)), f)
    case Flush => (Ok(true), f)
  }

  /** Every seek of the run can be made when its turn comes. */
  predicate Possible(f: File, ops: seq<Op>, readable: bool, writable: bool)
    decreases |ops|
  {
    ops == [] || (
      && (ops[0].Seek? ==> Seekable(f, ops[0].offset, ops[0].whence))
      && Possible(Step(f, ops[0], readable, writable).1, ops[1..], readable, writable))
  }

  function Steps(f: File, ops: seq<Op>, readable: bool, writable: bool): (seq<Answer>, File)
    requires Possible(f, ops, readable, writable)
    decreases |ops|
  {
    if ops == [] then ([], f)
    else
      var (a, g) := Step(f, ops[0], readable, writable);
      var (rest, h) := Steps(g, ops[1..], readable, writable);
      ([a] + rest, h)
  }

  method Perform(s: Stream, op: Op) returns (a: Answer)
    requires s.Valid() && (op.Seek? ==> Seekable(s.File(), op.offset, op.whence))
    modifies s, s.kernel, s.buf
    ensures s.Valid() && (a, s.File()) == Step(old(s.File()), op, s.readable, s.writable)
    ensures op.Flush? ==> s.kernel.content == s.File().content
  {
    match op {
      case Read(n) =>
        var data := [];
        if n > 0 { data := s.ReadBytes(n); }
        a := Bytes(data);
      case GetC =>
        var c := s.GetC();
        a := Byte(c);
      case Write(data) =>
        var put := 0;
        if data != [] { put := s.WriteBytes(data); }
        a := Ok(put == |data|);
      case PutC(c) =>
        var ok := s.PutC(c);
        a := Ok(ok);
      case Unget(c) =>
        var ok := s.Unget(c);
        a := Ok(ok);
      case Seek(offset, whence) =>
        var ok := s.Seek(offset, whence);
        a := Ok(ok);
      case Tell =>
        var position := s.Tell();
        a := At(position);
      case Flush =>
        s.Flush();
        a := Ok(true);
    }
  }

  /** The answers of a run, and its file, are those of the unbuffered stream; and
      after a flush the kernel's file is that file. */
  method Run(s: Stream, ops: seq<Op>) returns (answers: seq<Answer>)
    requires s.Valid() && Possible(s.File(), ops, s.readable, s.writable)
    modifies s, s.kernel, s.buf
    ensures s.Valid() && (answers, s.File()) == Steps(old(s.File()), ops, s.readable, s.writable)
    ensures ops != [] && ops[|ops| - 1].Flush? ==> s.kernel.content == s.File().content
    decreases |ops|
  {
    if ops == [] { return []; }
    var a := Perform(s, ops[0]);
    answers := [a];
    if |ops| > 1 {
      var rest := Run(s, ops[1..]);
      answers := answers + rest;
    } else {
      assert ops[1..] == [] && answers + [] == answers;
    }
  }

  /** A byte pushed back does not survive a seek that fails. */
  method FailedSeekLosesByte(s: Stream, c: byte) returns (pushed: bool, ok: bool)
    requires s.Valid() && s.readable && s.File().pushed.None?
    modifies s, s.kernel
    ensures s.Valid() && pushed && !ok && s.File().pushed.None?
  {
    pushed := s.Unget(c);
    ok := s.Seek(-1, Start);
  }
}

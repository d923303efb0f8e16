/** Queries and responses: sections 4.1.1 to 4.1.3 of RFC 1035. */
module DnsMessages {
  import opened Common
  import opened Bytes
  import opened DnsNames
  import opened DnsEncode
  import opened DnsWalk

  const TYPE_A := 1
  const CLASS_IN := 1

  function At16(msg: seq<byte>, pos: nat): (v: nat)
    requires pos + 2 <= |msg|
    ensures v < 0x10000
  {
    (msg[pos] as int) * 256 + msg[pos + 1]
  }

  function At32(msg: seq<byte>, pos: nat): nat
    requires pos + 4 <= |msg|
  {
    At16(msg, pos) * 0x10000 + At16(msg, pos + 2)
  }

  function Header(txid: nat, flags: nat, questions: nat, answers: nat): (h: seq<byte>)
    requires txid < 0x10000 && flags < 0x10000 && questions < 0x10000 && answers < 0x10000
    ensures |h| == 8
  {
    Be16(txid) + Be16(flags) + Be16(questions) + Be16(answers)
  }

  /** A recursive query for the addresses of a hostname. */
  method BuildQuery(h: seq<byte>, txid: nat, capacity: nat) returns (r: Result<seq<byte>>, qname: seq<byte>)
    requires txid < 0x10000
    ensures r.Ok? <==> ValidHost(h) && HEADER + |h| + 2 + 4 <= capacity
    ensures r.Err? ==> r.errno == if capacity >= HEADER && ValidHost(h) then MessageTooLong else InvalidArgument
    ensures r.Ok? ==> Labels(LowerAll(Split(h))) && qname == Wire(LowerAll(Split(h)))
    ensures r.Ok? ==> r.value == Header(txid, 0x0100, 1, 0) + [0, 0, 0, 0] + qname + Be16(TYPE_A) + Be16(CLASS_IN)
  {
    qname := [];
    if capacity < HEADER { return Err(InvalidArgument), qname; }
    var e := EncodeQname(h, MAX_HOSTNAME + 2);
    if e.None? { return Err(InvalidArgument), qname; }
    qname := e.value;
    SplitLabels(h);
    HostnameRoundTrip(h);
    if HEADER + |qname| + 4 > capacity { return Err(MessageTooLong), qname; }
    r := Ok(Header(txid, 0x0100, 1, 0) + [0, 0, 0, 0] + qname + Be16(TYPE_A) + Be16(CLASS_IN));
  }

  lemma SplitLabels(h: seq<byte>)
    requires ValidHost(h)
    ensures Labels(Split(h))
  {
  }

  datatype Record = Record(name: seq<Label>, kind: nat, net: nat, data: seq<byte>)

  /** The resource record at `pos` and where the next one starts. */
  function RecordAt(msg: seq<byte>, pos: nat): (r: Option<(Record, nat)>)
    ensures r.Some? ==> r.value.1 <= |msg|
  {
    match NameAt(msg, pos, MAX_JUMPS)
    case None => None
    case Some(n) =>
      if n.end + 10 > |msg| then None
      else
        var len := At16(msg, n.end + 8);
        var start := n.end + 10;
        if start + len > |msg| then None
        else Some((Record(n.labels, At16(msg, n.end), At16(msg, n.end + 2), msg[start..start + len]), start + len))
  }

  function RecordsAt(msg: seq<byte>, pos: nat, count: nat): Option<seq<Record>>
    decreases count
  {
    if count == 0 then Some([])
    else match RecordAt(msg, pos) {
      case None => None
      case Some((r, end)) =>
        match RecordsAt(msg, end, count - 1) {
          case None => None
          case Some(rest) => Some([r] + rest)
        }
    }
  }

  predicate IsAddress(r: Record) { r.kind == TYPE_A && r.net == CLASS_IN }

  /** Every address record carries four bytes. */
  predicate Clean(rs: seq<Record>) { forall i :: 0 <= i < |rs| && IsAddress(rs[i]) ==> |rs[i].data| == 4 }

  /** The addresses of a list of records, in order. */
  function Addresses(rs: seq<Record>): seq<nat>
    requires Clean(rs)
  {
    if rs == [] then []
    else (if IsAddress(rs[0]) then [At32(rs[0].data, 0)] else []) + Addresses(rs[1..])
  }

  /** The records whose owner is the name asked for. */
  function Own(rs: seq<Record>, qs: seq<Label>): seq<Record> {
    if rs == [] then [] else (if LowerAll(rs[0].name) == qs then [rs[0]] else []) + Own(rs[1..], qs)
  }

  predicate AllOwn(rs: seq<Record>, qs: seq<Label>) {
    forall i :: 0 <= i < |rs| && IsAddress(rs[i]) ==> LowerAll(rs[i].name) == qs
  }

  /** The parser skips the owners of records, so the addresses it returns are those
      of the name asked for exactly when no address record has another owner. */
  lemma {:induction false} AddressesAreOwnIff(rs: seq<Record>, qs: seq<Label>)
    requires Clean(rs)
    ensures Clean(Own(rs, qs)) && |Addresses(Own(rs, qs))| <= |Addresses(rs)|
    ensures Addresses(rs) == Addresses(Own(rs, qs)) <==> AllOwn(rs, qs)
  {
    if rs != [] {
      var r, rest := rs[0], rs[1..];
      assert rs == [r] + rest;
      CleanCons(r, rest);
      AddressesAreOwnIff(rest, qs);
      AllOwnCons(r, rest, qs);
      if LowerAll(r.name) == qs {
        CleanCons(r, Own(rest, qs));
        assert Own(rs, qs) == [r] + Own(rest, qs);
        SameHead(if IsAddress(r) then [At32(r.data, 0)] else [], Addresses(rest), Addresses(Own(rest, qs)));
      } else {
        assert Own(rs, qs) == Own(rest, qs);
        if !IsAddress(r) { assert Addresses(rs) == Addresses(rest); }
      }
    }
  }

  lemma AllOwnCons(r: Record, rest: seq<Record>, qs: seq<Label>)
    ensures AllOwn([r] + rest, qs) <==> (IsAddress(r) ==> LowerAll(r.name) == qs) && AllOwn(rest, qs)
  {
    var rs := [r] + rest;
    if AllOwn(rs, qs) {
      assert IsAddress(rs[0]) ==> LowerAll(rs[0].name) == qs;
      forall i | 0 <= i < |rest| && IsAddress(rest[i]) ensures LowerAll(rest[i].name) == qs {
        assert rest[i] == rs[i + 1];
      }
    }
  }

  lemma SameHead(h: seq<nat>, x: seq<nat>, y: seq<nat>)
    ensures h + x == h + y <==> x == y
  {
    if h + x == h + y { assert x == (h + x)[|h|..] && y == (h + y)[|h|..]; }
  }

  /** The addresses in `count` records from `pos` on, if they are all well formed. */
  function Collect(msg: seq<byte>, pos: nat, count: nat): Option<seq<nat>>
    decreases count
  {
    if count == 0 then Some([])
    else match RecordAt(msg, pos) {
      case None => None
      case Some((r, end)) =>
        if !IsAddress(r) then Collect(msg, end, count - 1)
        else if |r.data| != 4 then None
        else Follow([At32(r.data, 0)], Collect(msg, end, count - 1))
    }
  }

  /** The addresses in front of the first fault among `count` records. */
  function Lead(msg: seq<byte>, pos: nat, count: nat): seq<nat>
    decreases count
  {
    if count == 0 || RecordAt(msg, pos).None? then []
    else
      var (r, end) := RecordAt(msg, pos).value;
      if !IsAddress(r) then Lead(msg, end, count - 1)
      else if |r.data| != 4 then []
      else [At32(r.data, 0)] + Lead(msg, end, count - 1)
  }

  /** With no fault, they are all of them. */
  lemma {:induction false} LeadIsAll(msg: seq<byte>, pos: nat, count: nat)
    requires Collect(msg, pos, count).Some?
    ensures Lead(msg, pos, count) == Collect(msg, pos, count).value
    decreases count
  {
    if count > 0 { LeadIsAll(msg, RecordAt(msg, pos).value.1, count - 1); }
  }

  function Follow(out: seq<nat>, rest: Option<seq<nat>>): Option<seq<nat>> {
    match rest
    case None => None
    case Some(e) => Some(out + e)
  }

  lemma FollowFollow(x: seq<nat>, y: seq<nat>, rest: Option<seq<nat>>)
    ensures Follow(x, Follow(y, rest)) == Follow(x + y, rest)
  {
    if rest.Some? { assert x + (y + rest.value) == (x + y) + rest.value; }
  }

  lemma FollowEmpty(rest: Option<seq<nat>>)
    ensures Follow([], rest) == rest
  {
    if rest.Some? { assert [] + rest.value == rest.value; }
  }

  /** Collecting the addresses is reading the records and picking them out. */
  lemma {:induction false} CollectIsAddresses(msg: seq<byte>, pos: nat, count: nat)
    ensures Collect(msg, pos, count).Some? <==>
            RecordsAt(msg, pos, count).Some? && Clean(RecordsAt(msg, pos, count).value)
    ensures Collect(msg, pos, count).Some? ==>
              Collect(msg, pos, count).value == Addresses(RecordsAt(msg, pos, count).value)
    decreases count
  {
    if count > 0 && RecordAt(msg, pos).Some? {
      var (r, end) := RecordAt(msg, pos).value;
      CollectIsAddresses(msg, end, count - 1);
      if RecordsAt(msg, end, count - 1).Some? {
        var rest := RecordsAt(msg, end, count - 1).value;
        CleanCons(r, rest);
      }
    }
  }

  lemma CleanCons(r: Record, rest: seq<Record>)
    ensures Clean([r] + rest) <==> (IsAddress(r) ==> |r.data| == 4) && Clean(rest)
    ensures ([r] + rest)[0] == r && ([r] + rest)[1..] == rest
    ensures Clean([r] + rest) ==>
              Addresses([r] + rest) == (if IsAddress(r) then [At32(r.data, 0)] else []) + Addresses(rest)
  {
    var rs := [r] + rest;
    assert rs[1..] == rest;
    if Clean(rs) {
      assert IsAddress(rs[0]) ==> |rs[0].data| == 4;
      forall i | 0 <= i < |rest| && IsAddress(rest[i]) ensures |rest[i].data| == 4 { assert rest[i] == rs[i + 1]; }
    }
  }

  /** A header that answers our query: a response to a standard query, not
      truncated, without error, with one question. */
  predicate HeaderOk(msg: seq<byte>, txid: nat) {
    && Standard(msg, txid) && !Truncated(msg) && At16(msg, 2) % 16 == 0 && At16(msg, 4) == 1
  }

  predicate Standard(msg: seq<byte>, txid: nat) {
    |msg| >= HEADER && At16(msg, 0) == txid && At16(msg, 2) >= 0x8000 && At16(msg, 2) / 0x800 % 16 == 0
  }

  predicate Truncated(msg: seq<byte>)
    requires |msg| >= HEADER
  {
    At16(msg, 2) / 0x200 % 2 == 1
  }

  /** The question is ours. */
  predicate QuestionOk(msg: seq<byte>, qs: seq<Label>) {
    && Matches(msg, HEADER, MAX_JUMPS, qs)
    && var end := NameAt(msg, HEADER, MAX_JUMPS).value.end;
      end + 4 <= |msg| && At16(msg, end) == TYPE_A && At16(msg, end + 2) == CLASS_IN
  }

  function AnswersAt(msg: seq<byte>, qs: seq<Label>): nat
    requires QuestionOk(msg, qs)
  {
    NameAt(msg, HEADER, MAX_JUMPS).value.end + 4
  }

  /** What an accepted response says. */
  predicate Accepts(msg: seq<byte>, txid: nat, qs: seq<Label>, rs: seq<Record>) {
    HeaderOk(msg, txid) && QuestionOk(msg, qs) && RecordsAt(msg, AnswersAt(msg, qs), At16(msg, 6)) == Some(rs)
      && Clean(rs)
  }

  method CheckHeader(msg: seq<byte>, txid: nat) returns (e: Option<Errno>)
    ensures e.None? <==> HeaderOk(msg, txid)
    ensures e.Some? ==>
      e.value == if Standard(msg, txid) && Truncated(msg) then MessageTooLong
                 else if Standard(msg, txid) && At16(msg, 2) % 16 == 3 then NotFound else InvalidArgument
  {
    if |msg| < HEADER || At16(msg, 0) != txid { return Some(InvalidArgument); }
    var flags := At16(msg, 2);
    if flags < 0x8000 || flags / 0x800 % 16 != 0 { return Some(InvalidArgument); }
    if flags / 0x200 % 2 == 1 { return Some(MessageTooLong); }
    if flags % 16 == 3 { return Some(NotFound); }
    if flags % 16 != 0 || At16(msg, 4) != 1 { return Some(InvalidArgument); }
    e := None;
  }

  method ReadRecord(msg: seq<byte>, pos: nat) returns (r: Option<(Record, nat)>)
    ensures r.Some? <==> RecordAt(msg, pos).Some?
    ensures r.Some? ==>
      && r.value.1 == RecordAt(msg, pos).value.1 && r.value.0.kind == RecordAt(msg, pos).value.0.kind
      && r.value.0.net == RecordAt(msg, pos).value.0.net && r.value.0.data == RecordAt(msg, pos).value.0.data
  {
    var end := SkipName(msg, pos);
    if end.None? || end.value + 10 > |msg| { return None; }
    var len := At16(msg, end.value + 8);
    var start := end.value + 10;
    if start + len > |msg| { return None; }
    r := Some((Record([], At16(msg, end.value), At16(msg, end.value + 2), msg[start..start + len]), start + len));
  }

  /** Gathers the addresses of `count` records. */
  method Gather(msg: seq<byte>, start: nat, count: nat, capacity: nat) returns (r: Result<seq<nat>>)
    ensures r.Ok? <==> Collect(msg, start, count).Some? && |Collect(msg, start, count).value| <= capacity
    ensures r.Ok? ==> r.value == Collect(msg, start, count).value
    ensures r.Err? ==> r.errno == if |Lead(msg, start, count)| > capacity then OutOfRange else InvalidArgument
  {
    var out, pos, left: nat := [], start, count;
    ghost var whole, lead := Collect(msg, start, count), Lead(msg, start, count);
    FollowEmpty(whole);
    while left > 0
      invariant |out| <= capacity && whole == Follow(out, Collect(msg, pos, left))
                && |lead| == |out| + |Lead(msg, pos, left)|
    {
      var rec := ReadRecord(msg, pos);
      if rec.None? { return Err(InvalidArgument); }
      var record, next := rec.value.0, rec.value.1;
      CollectStep(msg, pos, left, next);
      if IsAddress(record) {
        if |record.data| != 4 { return Err(InvalidArgument); }
        if |out| >= capacity { return Err(OutOfRange); }
        FollowFollow(out, [At32(record.data, 0)], Collect(msg, next, left - 1));
        out := out + [At32(record.data, 0)];
      }
      pos, left := next, left - 1;
    }
    assert out + [] == out;
    r := Ok(out);
  }

  lemma CollectStep(msg: seq<byte>, pos: nat, left: nat, next: nat)
    requires left > 0 && RecordAt(msg, pos).Some? && RecordAt(msg, pos).value.1 == next
    ensures var r := RecordAt(msg, pos).value.0;
      Collect(msg, pos, left) ==
        if !IsAddress(r) then Collect(msg, next, left - 1)
        else if |r.data| != 4 then None
        else Follow([At32(r.data, 0)], Collect(msg, next, left - 1))
    ensures var r := RecordAt(msg, pos).value.0;
      |Lead(msg, pos, left)| ==
        if !IsAddress(r) then |Lead(msg, next, left - 1)| else if |r.data| != 4 then 0
          else 1 + |Lead(msg, next, left - 1)|
  {
  }

  /** Checks the question and returns where the answers start. */
  method CheckQuestion(msg: seq<byte>, qname: seq<byte>, ghost qs: seq<Label>) returns (r: Option<nat>)
    requires Labels(qs) && qname == Wire(qs) && |msg| >= HEADER
    ensures r.Some? <==> QuestionOk(msg, qs)
    ensures r.Some? ==> r.value == AnswersAt(msg, qs)
  {
    WireIsWhole(qs);
    SpellsIffMatches(msg, HEADER, MAX_JUMPS, qs);
    var end := MatchName(msg, HEADER, qname);
    if end.None? || end.value + 4 > |msg| { return None; }
    if At16(msg, end.value) != TYPE_A || At16(msg, end.value + 2) != CLASS_IN { return None; }
    r := Some(end.value + 4);
  }

  /** Parses a response to the query for `qs`: the addresses are those of its
      address records, in order. */
  method ParseResponse(msg: seq<byte>, txid: nat, qname: seq<byte>, ghost qs: seq<Label>, capacity: nat)
    returns (r: Result<seq<nat>>)
    requires Labels(qs) && qname == Wire(qs)
    ensures r.Ok? <==> exists rs :: Accepts(msg, txid, qs, rs) && 0 < |Addresses(rs)| <= capacity
    ensures forall rs :: Accepts(msg, txid, qs, rs) ==>
      r == if Addresses(rs) == [] then Err(NotFound)
           else if |Addresses(rs)| > capacity then Err(OutOfRange)
           else Ok(Addresses(rs))
    ensures !HeaderOk(msg, txid) || !QuestionOk(msg, qs) ==>
      r == Err(if Standard(msg, txid) && Truncated(msg) then MessageTooLong
               else if Standard(msg, txid) && At16(msg, 2) % 16 == 3 then NotFound else InvalidArgument)
    ensures HeaderOk(msg, txid) && QuestionOk(msg, qs) && (forall rs :: !Accepts(msg, txid, qs, rs)) ==>
      r == Err(if |Lead(msg, AnswersAt(msg, qs), At16(msg, 6))| > capacity then OutOfRange else InvalidArgument)
  {
    var e := CheckHeader(msg, txid);
    if e.Some? { return Err(e.value); }
    var start := CheckQuestion(msg, qname, qs);
    if start.None? { return Err(InvalidArgument); }
    r := Gather(msg, start.value, At16(msg, 6), capacity);
    CollectIsAddresses(msg, start.value, At16(msg, 6));
    if Collect(msg, start.value, At16(msg, 6)).Some? { LeadIsAll(msg, start.value, At16(msg, 6)); }
    if r.Ok? {
      ghost var rs := RecordsAt(msg, start.value, At16(msg, 6)).value;
      assert Accepts(msg, txid, qs, rs);
      if r.value == [] { r := Err(NotFound); }
    }
  }
}

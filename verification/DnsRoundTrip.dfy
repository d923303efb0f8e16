/**
 Responses as a server writes them: the question echoed, then records whose
 names may end in a pointer to any name, or tail of a name, written before.  The
 parser reads back what was written, up to its limit on chained pointers.
 */
module DnsRoundTrip {
  import opened Common
  import opened Bytes
  import opened DnsNames
  import opened DnsEncode
  import opened DnsWalk
  import opened DnsMessages

  const POINTER_LIMIT := 0x4000

  /** How a written name ends. */
  datatype Tail = Root | To(target: nat)

  /** A record to be written: its own labels, then the root or a pointer. */
  datatype Answer = Answer(own: seq<Label>, tail: Tail, kind: nat, net: nat, ttl: seq<byte>, data: seq<byte>)

  predicate Writable(a: Answer) {
    && Labels(a.own) && a.kind < 0x10000 && a.net < 0x10000 && |a.ttl| == 4 && |a.data| < 0x10000
    && (a.tail.To? ==> a.tail.target < POINTER_LIMIT)
  }

  function TailBytes(tail: Tail): seq<byte>
    requires tail.To? ==> tail.target < POINTER_LIMIT
  {
    if tail.Root? then [0] else [0xc0 + tail.target / 256] + [tail.target % 256]
  }

  function NameBytes(own: seq<Label>, tail: Tail): seq<byte>
    requires Labels(own) && (tail.To? ==> tail.target < POINTER_LIMIT)
  {
    Prefixed(own) + TailBytes(tail)
  }

  function Fixed(a: Answer): (f: seq<byte>)
    requires Writable(a)
    ensures |f| == 10
  {
    Be16(a.kind) + Be16(a.net) + a.ttl + Be16(|a.data|)
  }

  function RecordBytes(a: Answer): seq<byte>
    requires Writable(a)
  {
    NameBytes(a.own, a.tail) + (Fixed(a) + a.data)
  }

  function AllBytes(answers: seq<Answer>): seq<byte>
    requires forall i :: 0 <= i < |answers| ==> Writable(answers[i])
  {
    if answers == [] then [] else RecordBytes(answers[0]) + AllBytes(answers[1..])
  }

  // What the writer knows: which names stand where.

  /** A name that has been written: its labels, the pointers that lead to its
      last label, and where it ends. */
  datatype Known = Known(labels: seq<Label>, jumps: nat, end: nat)

  type Names = map<nat, Known>

  predicate TailKnown(names: Names, tail: Tail) { tail.To? ==> tail.target in names }

  function TailAt(names: Names, tail: Tail, pos: nat): Known
    requires TailKnown(names, tail)
  {
    if tail.Root? then Known([], 0, pos + 1)
      else Known(names[tail.target].labels, names[tail.target].jumps + 1, pos + 2)
  }

  /** Every label of a name written at `pos` starts a name that can be pointed to. */
  function Entered(names: Names, pos: nat, own: seq<Label>, tail: Known): Names
    decreases |own|
  {
    if own == [] then names[pos := tail]
    else Entered(names[pos := Known(own + tail.labels, tail.jumps, tail.end)], pos + 1 + |own[0]|, own[1..], tail)
  }

  function NameOf(a: Answer, names: Names, pos: nat): Known
    requires Writable(a) && TailKnown(names, a.tail)
  {
    var t := TailAt(names, a.tail, pos + |Prefixed(a.own)|);
    Known(a.own + t.labels, t.jumps, t.end)
  }

  function NamesAfter(a: Answer, names: Names, pos: nat): Names
    requires Writable(a) && TailKnown(names, a.tail)
  {
    Entered(names, pos, a.own, TailAt(names, a.tail, pos + |Prefixed(a.own)|))
  }

  /** Every pointer leads to a name written before it. */
  predicate PointsBack(answers: seq<Answer>, names: Names, pos: nat)
    decreases |answers|
  {
    answers == [] ||
    (&& Writable(answers[0]) && TailKnown(names, answers[0].tail)
     && PointsBack(answers[1..], NamesAfter(answers[0], names, pos), pos + |RecordBytes(answers[0])|))
  }

  /** No name takes more pointers than the parser follows. */
  predicate Shallow(answers: seq<Answer>, names: Names, pos: nat)
    requires PointsBack(answers, names, pos)
    decreases |answers|
  {
    answers == [] ||
    (&& NameOf(answers[0], names, pos).jumps <= MAX_JUMPS
     && Shallow(answers[1..], NamesAfter(answers[0], names, pos), pos + |RecordBytes(answers[0])|))
  }

  function RecordOf(a: Answer, names: Names, pos: nat): Record
    requires Writable(a) && TailKnown(names, a.tail)
  {
    Record(NameOf(a, names, pos).labels, a.kind, a.net, a.data)
  }

  function AllRecords(answers: seq<Answer>, names: Names, pos: nat): (rs: seq<Record>)
    requires PointsBack(answers, names, pos)
    ensures |rs| == |answers|
    decreases |answers|
  {
    if answers == [] then []
    else [RecordOf(answers[0], names, pos)]
         + AllRecords(answers[1..], NamesAfter(answers[0], names, pos), pos + |RecordBytes(answers[0])|)
  }

  // What the writer knows is what the parser reads.

  /** The name takes exactly as many jumps as it says. */
  predicate True(msg: seq<byte>, pos: nat, k: Known) {
    Reads(msg, pos, k.jumps, k.labels, k.end) && (k.jumps > 0 ==> NameAt(msg, pos, k.jumps - 1).None?)
  }

  ghost predicate AllTrue(msg: seq<byte>, names: Names) {
    forall pos {:trigger True(msg, pos, names[pos])} :: pos in names ==> True(msg, pos, names[pos])
  }

  /** More jumps to spare change nothing. */
  lemma {:induction false} SpareJumps(msg: seq<byte>, pos: nat, j: nat, k: nat)
    requires NameAt(msg, pos, j).Some? && j <= k
    ensures NameAt(msg, pos, k) == NameAt(msg, pos, j)
    decreases j, |msg| - pos
  {
    var b: int := msg[pos];
    if b >= 0xc0 {
      SpareJumps(msg, (b - 0xc0) * 256 + msg[pos + 1], j - 1, k - 1);
    } else if b > 0 {
      SpareJumps(msg, pos + 1 + b, j, k);
    }
  }

  lemma PointerStep(msg: seq<byte>, pos: nat, target: nat, jumps: nat)
    requires target < POINTER_LIMIT && Holds(msg, pos, TailBytes(To(target)))
    ensures PointsTo(msg, pos, target) || target >= |msg|
    ensures jumps == 0 ==> NameAt(msg, pos, jumps).None?
    ensures jumps > 0 ==> (NameAt(msg, pos, jumps).Some? <==> NameAt(msg, target, jumps - 1).Some?)
    ensures jumps > 0 && NameAt(msg, target, jumps - 1).Some? ==>
              Reads(msg, pos, jumps, NameAt(msg, target, jumps - 1).value.labels, pos + 2)
  {
    HoldsBoth(msg, pos, [0xc0 + target / 256], [target % 256]);
    HoldsByte(msg, pos, 0xc0 + target / 256);
    HoldsByte(msg, pos + 1, target % 256);
    if target >= |msg| && jumps > 0 { OutsideIsNothing(msg, target, jumps - 1); }
  }

  lemma OutsideIsNothing(msg: seq<byte>, pos: nat, jumps: nat)
    requires pos >= |msg|
    ensures NameAt(msg, pos, jumps).None?
  {
  }

  lemma TailReads(msg: seq<byte>, names: Names, tail: Tail, pos: nat)
    requires (tail.To? ==> tail.target < POINTER_LIMIT) && Holds(msg, pos, TailBytes(tail))
    requires TailKnown(names, tail) && AllTrue(msg, names)
    ensures True(msg, pos, TailAt(names, tail, pos))
  {
    if tail.Root? {
      RootReads(msg, pos, 0);
    } else {
      var k := names[tail.target];
      assert True(msg, tail.target, k);
      PointerStep(msg, pos, tail.target, k.jumps + 1);
      PointerStep(msg, pos, tail.target, k.jumps);
    }
  }

  lemma PrefixIsTrue(msg: seq<byte>, own: seq<Label>, pos: nat, end: nat, k: Known)
    requires Labels(own) && Holds(msg, pos, Prefixed(own)) && end == pos + |Prefixed(own)| && True(msg, end, k)
    ensures True(msg, pos, Known(own + k.labels, k.jumps, k.end))
  {
    PrefixReadsAs(own, msg, pos, end, k.jumps, k.labels, k.end);
    if k.jumps > 0 { PrefixStops(own, msg, pos, end, k.jumps - 1); }
  }

  lemma PrefixStops(own: seq<Label>, msg: seq<byte>, pos: nat, at: nat, jumps: nat)
    requires Labels(own) && Holds(msg, pos, Prefixed(own)) && at == pos + |Prefixed(own)|
             && NameAt(msg, at, jumps).None?
    ensures NameAt(msg, pos, jumps).None?
  {
    PrefixReads(own, msg, pos, at, jumps);
  }

  lemma PrefixReadsAs(own: seq<Label>, msg: seq<byte>, pos: nat, at: nat, jumps: nat, labels: seq<Label>, end: nat)
    requires Labels(own) && Holds(msg, pos, Prefixed(own)) && at == pos + |Prefixed(own)|
             && Reads(msg, at, jumps, labels, end)
    ensures Reads(msg, pos, jumps, own + labels, end)
  {
    PrefixReads(own, msg, pos, at, jumps);
  }

  lemma {:induction false} EnteredIsTrue(msg: seq<byte>, names: Names, pos: nat, own: seq<Label>, end: nat, k: Known)
    requires Labels(own) && Holds(msg, pos, Prefixed(own)) && end == pos + |Prefixed(own)| && True(msg, end, k)
    requires AllTrue(msg, names)
    ensures AllTrue(msg, Entered(names, pos, own, k))
    decreases |own|
  {
    if own != [] {
      PrefixIsTrue(msg, own, pos, end, k);
      PrefixedCons(own);
      HoldsBoth(msg, pos, [|own[0]|], own[0] + Prefixed(own[1..]));
      HoldsBoth(msg, pos + 1, own[0], Prefixed(own[1..]));
      var more := names[pos := Known(own + k.labels, k.jumps, k.end)];
      EnteredIsTrue(msg, more, pos + 1 + |own[0]|, own[1..], end, k);
    }
  }

  /** With the parser's limit, a name is read exactly when it takes no more jumps. */
  lemma TrueWithin(msg: seq<byte>, pos: nat, k: Known, limit: nat)
    requires True(msg, pos, k)
    ensures NameAt(msg, pos, limit).Some? <==> k.jumps <= limit
    ensures k.jumps <= limit ==> Reads(msg, pos, limit, k.labels, k.end)
  {
    if k.jumps <= limit {
      SpareJumps(msg, pos, k.jumps, limit);
    } else if NameAt(msg, pos, limit).Some? {
      SpareJumps(msg, pos, limit, k.jumps - 1);
    }
  }

  lemma NameReads(a: Answer, names: Names, msg: seq<byte>, pos: nat)
    requires Writable(a) && TailKnown(names, a.tail) && AllTrue(msg, names) && Holds(msg, pos, NameBytes(a.own, a.tail))
    ensures True(msg, pos, NameOf(a, names, pos)) && AllTrue(msg, NamesAfter(a, names, pos))
    ensures NameOf(a, names, pos).end == pos + |NameBytes(a.own, a.tail)|
  {
    var end := pos + |Prefixed(a.own)|;
    HoldsBoth(msg, pos, Prefixed(a.own), TailBytes(a.tail));
    TailReads(msg, names, a.tail, end);
    var k := TailAt(names, a.tail, end);
    PrefixIsTrue(msg, a.own, pos, end, k);
    EnteredIsTrue(msg, names, pos, a.own, end, k);
  }

  lemma Reads16(msg: seq<byte>, pos: nat, v: nat)
    requires v < 0x10000 && Holds(msg, pos, Be16(v))
    ensures pos + 2 <= |msg| && At16(msg, pos) == v
  {
    assert msg[pos..pos + 2][0] == v / 256 && msg[pos..pos + 2][1] == v % 256;
  }

  lemma FixedReads(a: Answer, msg: seq<byte>, pos: nat)
    requires Writable(a) && Holds(msg, pos, Fixed(a))
    ensures At16(msg, pos) == a.kind && At16(msg, pos + 2) == a.net && At16(msg, pos + 8) == |a.data|
  {
    var kind, net, len := Be16(a.kind), Be16(a.net), Be16(|a.data|);
    assert Fixed(a) == kind + (net + (a.ttl + len));
    HoldsBoth(msg, pos, kind, net + (a.ttl + len));
    HoldsBoth(msg, pos + 2, net, a.ttl + len);
    HoldsBoth(msg, pos + 4, a.ttl, len);
    Reads16(msg, pos, a.kind);
    Reads16(msg, pos + 2, a.net);
    Reads16(msg, pos + 8, |a.data|);
  }

  lemma RecordReads(a: Answer, msg: seq<byte>, pos: nat, next: nat, k: Known)
    requires Writable(a) && Holds(msg, pos, RecordBytes(a)) && next == pos + |RecordBytes(a)|
    requires True(msg, pos, k) && k.end == pos + |NameBytes(a.own, a.tail)|
    ensures RecordAt(msg, pos).Some? <==> k.jumps <= MAX_JUMPS
    ensures RecordAt(msg, pos).Some? ==>
              RecordAt(msg, pos).value.0 == Record(k.labels, a.kind, a.net, a.data)
                && RecordAt(msg, pos).value.1 == next
  {
    HoldsBoth(msg, pos, NameBytes(a.own, a.tail), Fixed(a) + a.data);
    TrueWithin(msg, pos, k, MAX_JUMPS);
    if k.jumps <= MAX_JUMPS { RestReads(a, msg, pos, k.labels, k.end); } else { NoNameNoRecord(msg, pos); }
  }

  lemma NoNameNoRecord(msg: seq<byte>, pos: nat)
    requires NameAt(msg, pos, MAX_JUMPS).None?
    ensures RecordAt(msg, pos).None?
  {
  }

  lemma RestReads(a: Answer, msg: seq<byte>, pos: nat, labels: seq<Label>, end: nat)
    requires Writable(a) && Reads(msg, pos, MAX_JUMPS, labels, end) && Holds(msg, end, Fixed(a) + a.data)
    ensures RecordAt(msg, pos).Some? && RecordAt(msg, pos).value.0 == Record(labels, a.kind, a.net, a.data)
    ensures RecordAt(msg, pos).value.1 == end + 10 + |a.data|
  {
    HoldsBoth(msg, end, Fixed(a), a.data);
    FixedReads(a, msg, end);
  }

  /** The records are read exactly when no name is too deep, and then as written. */
  lemma {:induction false} RecordsRead(answers: seq<Answer>, names: Names, msg: seq<byte>, pos: nat)
    requires (forall i :: 0 <= i < |answers| ==> Writable(answers[i])) && PointsBack(answers, names, pos)
    requires Holds(msg, pos, AllBytes(answers)) && AllTrue(msg, names)
    ensures RecordsAt(msg, pos, |answers|).Some? <==> Shallow(answers, names, pos)
    ensures Shallow(answers, names, pos) ==> RecordsAt(msg, pos, |answers|).value == AllRecords(answers, names, pos)
    decreases |answers|
  {
    if answers != [] {
      var a := answers[0];
      var next, after := pos + |RecordBytes(a)|, NamesAfter(a, names, pos);
      HoldsBoth(msg, pos, RecordBytes(a), AllBytes(answers[1..]));
      FirstReads(a, names, msg, pos, next);
      RecordsRead(answers[1..], after, msg, next);
      RecordsCons(msg, pos, next, |answers| - 1);
      Unfold(answers, names, pos, next, after);
    }
  }

  lemma Unfold(answers: seq<Answer>, names: Names, pos: nat, next: nat, after: Names)
    requires answers != [] && PointsBack(answers, names, pos)
    requires next == pos + |RecordBytes(answers[0])| && after == NamesAfter(answers[0], names, pos)
    ensures PointsBack(answers[1..], after, next)
    ensures Shallow(answers, names, pos) <==>
            NameOf(answers[0], names, pos).jumps <= MAX_JUMPS && Shallow(answers[1..], after, next)
    ensures AllRecords(answers, names, pos)
            == [RecordOf(answers[0], names, pos)] + AllRecords(answers[1..], after, next)
  {
  }

  lemma FirstReads(a: Answer, names: Names, msg: seq<byte>, pos: nat, next: nat)
    requires Writable(a) && TailKnown(names, a.tail) && AllTrue(msg, names)
    requires Holds(msg, pos, RecordBytes(a)) && next == pos + |RecordBytes(a)|
    ensures RecordAt(msg, pos).Some? <==> NameOf(a, names, pos).jumps <= MAX_JUMPS
    ensures RecordAt(msg, pos).Some? ==>
              RecordAt(msg, pos).value.0 == RecordOf(a, names, pos) && RecordAt(msg, pos).value.1 == next
    ensures AllTrue(msg, NamesAfter(a, names, pos))
  {
    HoldsBoth(msg, pos, NameBytes(a.own, a.tail), Fixed(a) + a.data);
    NameReads(a, names, msg, pos);
    RecordReads(a, msg, pos, next, NameOf(a, names, pos));
  }

  lemma RecordsCons(msg: seq<byte>, pos: nat, next: nat, k: nat)
    requires RecordAt(msg, pos).Some? ==> RecordAt(msg, pos).value.1 == next
    ensures RecordsAt(msg, pos, k + 1).Some? <==> RecordAt(msg, pos).Some? && RecordsAt(msg, next, k).Some?
    ensures RecordsAt(msg, pos, k + 1).Some? ==>
              RecordsAt(msg, pos, k + 1).value == [RecordAt(msg, pos).value.0] + RecordsAt(msg, next, k).value
  {
  }

  /** A response: header, question, records, and whatever sections follow. */
  function Response(txid: nat, flags: nat, counts: seq<byte>, asked: seq<Label>, answers: seq<Answer>,
                    more: seq<byte>): seq<byte>
    requires txid < 0x10000 && flags < 0x10000 && |counts| == 4 && Labels(asked) && |answers| < 0x10000
    requires forall i :: 0 <= i < |answers| ==> Writable(answers[i])
  {
    Header(txid, flags, 1, |answers|) + counts + Wire(asked) + Be16(TYPE_A) + Be16(CLASS_IN) + AllBytes(answers) + more
  }

  /** Flags of a response without error: a standard query's, not truncated. */
  predicate Successful(flags: nat) { flags >= 0x8000 && flags / 0x800 % 16 == 0 && flags / 0x200 % 2 == 0
              && flags % 16 == 0 }

  lemma HeaderReads(txid: nat, flags: nat, n: nat, msg: seq<byte>)
    requires txid < 0x10000 && flags < 0x10000 && n < 0x10000 && Holds(msg, 0, Header(txid, flags, 1, n))
    ensures At16(msg, 0) == txid && At16(msg, 2) == flags && At16(msg, 4) == 1 && At16(msg, 6) == n
  {
    assert Header(txid, flags, 1, n) == Be16(txid) + (Be16(flags) + (Be16(1) + Be16(n)));
    HoldsBoth(msg, 0, Be16(txid), Be16(flags) + (Be16(1) + Be16(n)));
    HoldsBoth(msg, 2, Be16(flags), Be16(1) + Be16(n));
    HoldsBoth(msg, 4, Be16(1), Be16(n));
    Reads16(msg, 0, txid);
    Reads16(msg, 2, flags);
    Reads16(msg, 4, 1);
    Reads16(msg, 6, n);
  }

  /** What is known once the question has been written. */
  function AskedNames(asked: seq<Label>): Names
    requires Labels(asked)
  {
    Entered(map[], HEADER, asked, Known([], 0, HEADER + |Wire(asked)|))
  }

  function FirstRecord(asked: seq<Label>): nat
    requires Labels(asked)
  {
    HEADER + |Wire(asked)| + 4
  }

  lemma QuestionReads(asked: seq<Label>, msg: seq<byte>)
    requires Labels(asked) && Holds(msg, HEADER, Wire(asked) + (Be16(TYPE_A) + Be16(CLASS_IN)))
    ensures QuestionOk(msg, LowerAll(asked)) && AnswersAt(msg, LowerAll(asked)) == FirstRecord(asked)
    ensures AllTrue(msg, AskedNames(asked))
  {
    var end, root := HEADER + |Wire(asked)|, HEADER + |Prefixed(asked)|;
    HoldsBoth(msg, HEADER, Wire(asked), Be16(TYPE_A) + Be16(CLASS_IN));
    HoldsBoth(msg, end, Be16(TYPE_A), Be16(CLASS_IN));
    WireReads(asked, msg, HEADER, MAX_JUMPS);
    Reads16(msg, end, TYPE_A);
    Reads16(msg, end + 2, CLASS_IN);
    HoldsBoth(msg, HEADER, Prefixed(asked), [0]);
    RootReads(msg, root, 0);
    EnteredIsTrue(msg, map[], HEADER, asked, root, Known([], 0, end));
  }

  /** Where the parts of a message stand. */
  lemma PartsHold(msg: seq<byte>, h: seq<byte>, counts: seq<byte>, q: seq<byte>, records: seq<byte>, more: seq<byte>)
    requires |h| == 8 && |counts| == 4 && msg == h + (counts + (q + (records + more)))
    ensures Holds(msg, 0, h) && Holds(msg, HEADER, q) && Holds(msg, HEADER + |q|, records)
  {
    assert msg[0..|msg|] == msg;
    HoldsBoth(msg, 0, h, counts + (q + (records + more)));
    HoldsBoth(msg, 8, counts, q + (records + more));
    HoldsBoth(msg, HEADER, q, records + more);
    HoldsBoth(msg, HEADER + |q|, records, more);
  }

  lemma ResponseForm(h: seq<byte>, counts: seq<byte>, w: seq<byte>, a: seq<byte>, c: seq<byte>, records: seq<byte>,
                     more: seq<byte>)
    ensures h + counts + w + a + c + records + more == h + (counts + ((w + (a + c)) + (records + more)))
  {
  }

  /** A response as a server may write it. */
  predicate WellFormed(txid: nat, flags: nat, counts: seq<byte>, asked: seq<Label>, answers: seq<Answer>) {
    && txid < 0x10000 && flags < 0x10000 && |counts| == 4 && Labels(asked) && |answers| < 0x10000
    && (forall i :: 0 <= i < |answers| ==> Writable(answers[i]))
    && Successful(flags) && PointsBack(answers, AskedNames(asked), FirstRecord(asked))
  }

  /** Every such response is accepted exactly when none of its names chains more
      than sixteen pointers and its address records are four bytes long, and it
      then says exactly its records. */
  lemma ResponseIsAcceptedIff(txid: nat, flags: nat, counts: seq<byte>, asked: seq<Label>, answers: seq<Answer>,
                              more: seq<byte>)
    requires WellFormed(txid, flags, counts, asked, answers)
    ensures var msg, names, first := Response(txid, flags, counts, asked, answers, more), AskedNames(asked),
            FirstRecord(asked);
            var rs := AllRecords(answers, names, first);
            forall said :: Accepts(msg, txid, LowerAll(asked), said) <==>
              said == rs && Shallow(answers, names, first) && Clean(rs)
  {
    var msg := Response(txid, flags, counts, asked, answers, more);
    var h := Header(txid, flags, 1, |answers|);
    ResponseForm(h, counts, Wire(asked), Be16(TYPE_A), Be16(CLASS_IN), AllBytes(answers), more);
    var q := Wire(asked) + (Be16(TYPE_A) + Be16(CLASS_IN));
    PartsHold(msg, h, counts, q, AllBytes(answers), more);
    HeaderReads(txid, flags, |answers|, msg);
    QuestionReads(asked, msg);
    RecordsRead(answers, AskedNames(asked), msg, FirstRecord(asked));
  }

  // The limit is met exactly.

  /** `n` address records, each named by a pointer to the name of the one before. */
  function Chain(n: nat, pos: nat, target: nat): (answers: seq<Answer>)
    requires target < pos && pos + 16 * n <= POINTER_LIMIT
    ensures |answers| == n && forall i :: 0 <= i < n ==> Writable(answers[i])
  {
    if n == 0 then []
    else [Answer([], To(target), TYPE_A, CLASS_IN, [0, 0, 0, 0], [127, 0, 0, 1])] + Chain(n - 1, pos + 16, pos)
  }

  /** Sixteen chained pointers are followed and seventeen are not. */
  lemma {:induction false} ChainIsShallowIff(n: nat, names: Names, pos: nat, target: nat)
    requires target < pos && pos + 16 * n <= POINTER_LIMIT && target in names
    ensures PointsBack(Chain(n, pos, target), names, pos)
    ensures Shallow(Chain(n, pos, target), names, pos) <==> n == 0 || names[target].jumps + n <= MAX_JUMPS
    decreases n
  {
    if n > 0 {
      var answers := Chain(n, pos, target);
      var a := answers[0];
      assert |RecordBytes(a)| == 16;
      assert answers[1..] == Chain(n - 1, pos + 16, pos);
      var after := NamesAfter(a, names, pos);
      assert Entered(names, pos, [], TailAt(names, a.tail, pos))[pos].jumps == names[target].jumps + 1;
      ChainIsShallowIff(n - 1, after, pos + 16, pos);
    }
  }

  /** An address record for `name`, written in full. */
  function Plain(name: seq<Label>, address: seq<byte>): Answer {
    Answer(name, Root, TYPE_A, CLASS_IN, [0, 0, 0, 0], address)
  }

  lemma PlainIsShallow(name: seq<Label>, address: seq<byte>, names: Names, pos: nat)
    requires Labels(name) && |address| == 4
    ensures Writable(Plain(name, address)) && PointsBack([Plain(name, address)], names, pos)
    ensures Shallow([Plain(name, address)], names, pos)
    ensures AllRecords([Plain(name, address)], names, pos) == [Record(name, TYPE_A, CLASS_IN, address)]
  {
    var answers := [Plain(name, address)];
    assert answers[1..] == [] && name + [] == name;
  }

  /** Whatever name was asked for, an address of any other is taken for the answer. */
  lemma StrangerIsAccepted(txid: nat, asked: seq<Label>, other: seq<Label>, address: seq<byte>, more: seq<byte>)
    requires txid < 0x10000 && Labels(asked) && Labels(other) && |address| == 4 && LowerAll(other) != LowerAll(asked)
    ensures Writable(Plain(other, address))
    ensures var rs := [Record(other, TYPE_A, CLASS_IN, address)];
            && Accepts(Response(txid, 0x8180, [0, 0, 0, 0], asked, [Plain(other, address)], more), txid,
                 LowerAll(asked), rs)
            && Addresses(rs) == [At32(address, 0)] && !AllOwn(rs, LowerAll(asked))
  {
    var rs := [Record(other, TYPE_A, CLASS_IN, address)];
    PlainIsShallow(other, address, AskedNames(asked), FirstRecord(asked));
    ResponseIsAcceptedIff(txid, 0x8180, [0, 0, 0, 0], asked, [Plain(other, address)], more);
    assert rs[1..] == [] && IsAddress(rs[0]);
  }

  lemma LowerTwice(ls: seq<Label>)
    ensures LowerAll(LowerAll(ls)) == LowerAll(ls)
  {
    forall i | 0 <= i < |ls| ensures Lower(Lower(ls[i])) == Lower(ls[i]) {
      assert forall j :: 0 <= j < |ls[i]| ==> Lower(Lower(ls[i]))[j] == Lower(ls[i])[j];
    }
  }

  /** A response that echoes the question of a query built for `h` is accepted
      as the answer to it, under the same condition. */
  lemma AnswersTheQuery(h: seq<byte>, txid: nat, flags: nat, counts: seq<byte>, answers: seq<Answer>, more: seq<byte>)
    requires ValidHost(h) && Labels(LowerAll(Split(h))) && WellFormed(txid, flags, counts, LowerAll(Split(h)), answers)
    ensures var qs := LowerAll(Split(h));
            var msg, names, first := Response(txid, flags, counts, qs, answers, more), AskedNames(qs), FirstRecord(qs);
            var rs := AllRecords(answers, names, first);
            forall said :: Accepts(msg, txid, qs, said) <==> said == rs && Shallow(answers, names, first) && Clean(rs)
  {
    LowerTwice(Split(h));
    ResponseIsAcceptedIff(txid, flags, counts, LowerAll(Split(h)), answers, more);
  }
}

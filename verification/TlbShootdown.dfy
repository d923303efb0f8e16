/**
 The cross-CPU TLB shootdown as a protocol of interleaved steps.  CPUs request
 invalidations through one shared slot; each IPI sent makes the target run the
 handler once.  Every read and write of the slot is a step of its own.
 */
module TlbShootdown {
  import opened Common

  datatype Scope = Page | Range | AddressSpace

  /** What a CPU is asked to drop from its TLB. */
  datatype Work = Work(scope: Scope, start: nat, length: nat)

  datatype Request = Request(work: Work, mask: set<Cpu>, requireCompletion: bool)

  /** An empty mask stands for the requesting CPU alone. */
  function Targets(c: Cpu, r: Request): set<Cpu> { if r.mask == {} then {c} else r.mask }

  function Remote(c: Cpu, r: Request): set<Cpu> { Targets(c, r) - {c} }

  /** Where a requester stands; `t0` is the length of the log when its call began. */
  datatype Caller =
    | Out
    | Begun(r: Request, t0: nat)
    | LocalDone(r: Request, t0: nat)
    | Writing(r: Request, t0: nat, fields: nat)
    | Sending(r: Request, t0: nat, sent: set<Cpu>)
    | Acknowledged(r: Request, t0: nat)
    | Closed(r: Request, t0: nat)
    | Returned(r: Request, t0: nat)
    | Failing(r: Request)
    | FailClosed(r: Request)
    | Halted

  /** Where a handler stands, with what it has read so far. */
  datatype Handler =
    | Away
    | Entered
    | SawActive
    | SawTarget
    | SawScope(scope: Scope)
    | SawStart(scope: Scope, start: nat)
    | SawLength(work: Work)
    | Flushed(work: Work)

  datatype Slot = Slot(active: bool, scope: Scope, start: nat, length: nat, target: set<Cpu>, ack: set<Cpu>)

  datatype Event = Event(cpu: Cpu, work: Work)

  /** `ipis` counts the IPIs sent to each CPU and not yet taken by it. */
  datatype State = State(callers: seq<Caller>, handlers: seq<Handler>, ipis: seq<nat>, lock: set<Cpu>,
                         slot: Slot, log: seq<Event>)

  datatype Action =
    | Begin(c: Cpu, r: Request)
    | Local(c: Cpu)
    | Refuse(c: Cpu)
    | FinishLocal(c: Cpu)
    | Lock(c: Cpu)
    | Write(c: Cpu)
    | Activate(c: Cpu)
    | Send(c: Cpu, d: Cpu)
    | SeeAcks(c: Cpu)
    | GiveUp(c: Cpu)
    | Deactivate(c: Cpu)
    | Unlock(c: Cpu)
    | Take(c: Cpu)
    | ReadActive(c: Cpu)
    | ReadTarget(c: Cpu)
    | ReadScope(c: Cpu)
    | ReadStart(c: Cpu)
    | ReadLength(c: Cpu)
    | Flush(c: Cpu)
    | Ack(c: Cpu)

  predicate WellFormed(s: State) { |s.callers| == MAX_CPUS && |s.handlers| == MAX_CPUS && |s.ipis| == MAX_CPUS }

  const INIT := State(seq(MAX_CPUS, _ => Out), seq(MAX_CPUS, _ => Away), seq(MAX_CPUS, _ => 0), {},
                      Slot(false, Page, 0, 0, {}, {}), [])

  const FIELDS := 5

  predicate Enabled(s: State, a: Action)
    requires WellFormed(s)
  {
    var me, h := s.callers[a.c], s.handlers[a.c];
    match a
    case Begin(c, r) => me.Out? || me.Returned?
    case Local(c) => me.Begun?
    case Refuse(c) => me.LocalDone? && Remote(c, me.r) != {} && !me.r.requireCompletion
    case FinishLocal(c) => me.LocalDone? && Remote(c, me.r) == {}
    case Lock(c) => me.LocalDone? && Remote(c, me.r) != {} && me.r.requireCompletion && s.lock == {}
    case Write(c) => me.Writing? && me.fields < FIELDS
    case Activate(c) => me.Writing? && me.fields == FIELDS
    case Send(c, d) => me.Sending? && d in Remote(c, me.r) && d !in me.sent
    case SeeAcks(c) => me.Sending? && me.sent == Remote(c, me.r) && Remote(c, me.r) <= s.slot.ack
    case GiveUp(c) => me.Sending?
    case Deactivate(c) => me.Acknowledged? || me.Failing?
    case Unlock(c) => me.Closed? || me.FailClosed?
    case Take(c) => h.Away? && s.ipis[c] > 0
    case ReadActive(c) => h.Entered?
    case ReadTarget(c) => h.SawActive?
    case ReadScope(c) => h.SawTarget?
    case ReadStart(c) => h.SawScope?
    case ReadLength(c) => h.SawStart?
    case Flush(c) => h.SawLength?
    case Ack(c) => h.Flushed?
  }

  function WriteField(slot: Slot, c: Cpu, r: Request, field: nat): Slot {
    match field
    case 0 => slot.(scope := r.work.scope)
    case 1 => slot.(start := r.work.start)
    case 2 => slot.(length := r.work.length)
    case 3 => slot.(target := Remote(c, r))
    case _ => slot.(ack := {})
  }

  function Caller'(s: State, c: Cpu, p: Caller): State
    requires WellFormed(s)
  {
    s.(callers := s.callers[c := p])
  }

  function Handler'(s: State, c: Cpu, h: Handler): State
    requires WellFormed(s)
  {
    s.(handlers := s.handlers[c := h])
  }

  function Do(s: State, a: Action): (t: State)
    requires WellFormed(s) && Enabled(s, a)
    ensures WellFormed(t)
  {
    var me, h := s.callers[a.c], s.handlers[a.c];
    match a
    case Begin(c, r) => Caller'(s, c, Begun(r, |s.log|))
    case Local(c) =>
      var t := if c in Targets(c, me.r) then s.(log := s.log + [Event(c, me.r.work)]) else s;
      Caller'(t, c, LocalDone(me.r, me.t0))
    case Refuse(c) => Caller'(s, c, Halted)
    case FinishLocal(c) => Caller'(s, c, Returned(me.r, me.t0))
    case Lock(c) => Caller'(s, c, Writing(me.r, me.t0, 0)).(lock := {c})
    case Write(c) => Caller'(s, c, Writing(me.r, me.t0, me.fields + 1)).(slot := WriteField(s.slot, c, me.r, me.fields))
    case Activate(c) => Caller'(s, c, Sending(me.r, me.t0, {})).(slot := s.slot.(active := true))
    case Send(c, d) => Caller'(s, c, Sending(me.r, me.t0, me.sent + {d})).(ipis := s.ipis[d := s.ipis[d] + 1])
    case SeeAcks(c) => Caller'(s, c, Acknowledged(me.r, me.t0))
    case GiveUp(c) => Caller'(s, c, Failing(me.r))
    case Deactivate(c) =>
      Caller'(s, c, if me.Acknowledged? then Closed(me.r, me.t0)
          else FailClosed(me.r)).(slot := s.slot.(active := false))
    case Unlock(c) => Caller'(s, c, if me.Closed? then Returned(me.r, me.t0) else Halted).(lock := {})
    case Take(c) => Handler'(s, c, Entered).(ipis := s.ipis[c := s.ipis[c] - 1])
    case ReadActive(c) => Handler'(s, c, if s.slot.active then SawActive else Away)
    case ReadTarget(c) => Handler'(s, c, if c in s.slot.target then SawTarget else Away)
    case ReadScope(c) => Handler'(s, c, SawScope(s.slot.scope))
    case ReadStart(c) => Handler'(s, c, SawStart(h.scope, s.slot.start))
    case ReadLength(c) => Handler'(s, c, SawLength(Work(h.scope, h.start, s.slot.length)))
    case Flush(c) => Handler'(s, c, Flushed(h.work)).(log := s.log + [Event(c, h.work)])
    case Ack(c) => Handler'(s, c, Away).(slot := s.slot.(ack := s.slot.ack + {c}))
  }

  // The invariant of runs without a panic.

  /** CPU `c` has done `w` since the log had length `t0`. */
  predicate Did(log: seq<Event>, t0: nat, c: Cpu, w: Work) {
    exists i :: t0 <= i < |log| && log[i] == Event(c, w)
  }

  predicate Holding(p: Caller) {
    p.Writing? || p.Sending? || p.Acknowledged? || p.Closed? || p.Failing? || p.FailClosed?
  }

  /** IPIs on their way to `c` and the handler they started. */
  function Outstanding(s: State, c: Cpu): nat
    requires WellFormed(s)
  {
    s.ipis[c] + if s.handlers[c].Away? then 0 else 1
  }

  /** The first `n` fields of the slot are those of the request. */
  predicate Written(slot: Slot, c: Cpu, r: Request, n: nat) {
    && (n > 0 ==> slot.scope == r.work.scope)
    && (n > 1 ==> slot.start == r.work.start)
    && (n > 2 ==> slot.length == r.work.length)
    && (n > 3 ==> slot.target == Remote(c, r))
  }

  predicate AllDid(s: State, c: Cpu, r: Request, t0: nat) {
    forall d :: d in Targets(c, r) ==> Did(s.log, t0, d, r.work)
  }

  predicate CallerOk(s: State, c: Cpu)
    requires WellFormed(s)
  {
    var me := s.callers[c];
    && (me.Begun? || me.LocalDone? || me.Writing? || me.Sending? || me.Acknowledged? || me.Closed? || me.Returned? ==>
          me.t0 <= |s.log|)
    && (me.LocalDone? || me.Writing? || me.Sending? ==> c in Targets(c, me.r) ==> Did(s.log, me.t0, c, me.r.work))
    && (me.Writing? ==>
         me.fields <= FIELDS && Written(s.slot, c, me.r, me.fields) && (me.fields == FIELDS ==> s.slot.ack == {}))
    && (me.Sending? ==>
          && s.slot.active && Written(s.slot, c, me.r, FIELDS) && me.sent <= Remote(c, me.r) && s.slot.ack <= me.sent
          && forall d :: d in s.slot.ack ==> Did(s.log, me.t0, d, me.r.work))
    && (me.Acknowledged? || me.Closed? || me.Returned? ==> AllDid(s, c, me.r, me.t0))
    && !me.Failing? && !me.FailClosed?
  }

  /** The handler of `d` runs on behalf of the request of `o`. */
  predicate Serving(s: State, o: Cpu, d: Cpu)
    requires WellFormed(s)
  {
    var me, h := s.callers[o], s.handlers[d];
    && me.Sending? && d in me.sent && d !in s.slot.ack
    && (h.SawScope? || h.SawStart? ==> h.scope == me.r.work.scope)
    && (h.SawStart? ==> h.start == me.r.work.start)
    && (h.SawLength? || h.Flushed? ==> h.work == me.r.work)
    && (h.Flushed? ==> Did(s.log, me.t0, d, me.r.work))
  }

  predicate HandlerOk(s: State, d: Cpu)
    requires WellFormed(s)
  {
    Outstanding(s, d) > 0 ==> Outstanding(s, d) == 1 && s.lock != {} && forall o :: o in s.lock ==> Serving(s, o, d)
  }

  predicate LockOk(s: State)
    requires WellFormed(s)
  {
    && (forall c: Cpu :: c in s.lock <==> Holding(s.callers[c]))
    && (forall c, d :: c in s.lock && d in s.lock ==> c == d)
  }

  ghost predicate Inv(s: State) {
    && WellFormed(s) && LockOk(s)
    && (forall c: Cpu {:trigger CallerOk(s, c)} :: CallerOk(s, c))
    && (forall d: Cpu {:trigger HandlerOk(s, d)} :: HandlerOk(s, d))
  }

  lemma InitInv()
    ensures Inv(INIT)
  {
  }

  lemma DidGrows(log: seq<Event>, e: Event)
    ensures forall t0: nat, c, w :: Did(log, t0, c, w) ==> Did(log + [e], t0, c, w)
    ensures forall t0: nat :: t0 <= |log| ==> Did(log + [e], t0, e.cpu, e.work)
  {
    var more := log + [e];
    forall t0: nat, c, w | Did(log, t0, c, w) ensures Did(more, t0, c, w) {
      var i :| t0 <= i < |log| && log[i] == Event(c, w);
      assert more[i] == Event(c, w);
    }
    assert more[|log|] == e;
  }

  /** Steps of a requester that does not hold the slot. */
  lemma OutsideStep(s: State, a: Action)
    requires Inv(s) && Enabled(s, a) && (a.Begin? || a.Local? || a.Refuse? || a.FinishLocal?)
    ensures Inv(Do(s, a))
  {
    var t := Do(s, a);
    assert CallerOk(s, a.c);
    assert a.c !in s.lock;
    if a.Local? { DidGrows(s.log, Event(a.c, s.callers[a.c].r.work)); }
    if a.FinishLocal? {
      var r := s.callers[a.c].r;
      assert forall d :: d in Targets(a.c, r) ==> d == a.c || d in Remote(a.c, r);
    }
    forall c: Cpu ensures CallerOk(t, c) { assert CallerOk(s, c); }
    forall d: Cpu ensures HandlerOk(t, d) { assert HandlerOk(s, d); }
  }

  /** Nothing is outstanding unless a request is being served. */
  lemma Quiet(s: State, c: Cpu, d: Cpu)
    requires Inv(s) && c in s.lock && !s.callers[c].Sending?
    ensures Outstanding(s, d) == 0
  {
    assert HandlerOk(s, d);
  }

  lemma HolderStep(s: State, a: Action)
    requires Inv(s) && Enabled(s, a) && (a.Lock? || a.Write? || a.Activate? || a.Deactivate? || a.Unlock?)
    ensures Inv(Do(s, a))
  {
    var t := Do(s, a);
    assert CallerOk(s, a.c);
    forall d: Cpu ensures HandlerOk(t, d) {
      assert HandlerOk(s, d);
      if !a.Lock? { Quiet(s, a.c, d); }
    }
    forall c: Cpu ensures CallerOk(t, c) { assert CallerOk(s, c); }
  }

  lemma SendStep(s: State, a: Action)
    requires Inv(s) && Enabled(s, a) && (a.Send? || a.SeeAcks?)
    ensures Inv(Do(s, a))
  {
    var t := Do(s, a);
    assert CallerOk(s, a.c) && a.c in s.lock;
    forall c: Cpu ensures CallerOk(t, c) { assert CallerOk(s, c); }
    forall d: Cpu ensures HandlerOk(t, d) {
      assert HandlerOk(s, d);
      if Outstanding(s, d) > 0 { assert Serving(s, a.c, d); }
    }
  }

  /** Steps in which a handler only reads. */
  lemma EntryStep(s: State, a: Action)
    requires Inv(s) && Enabled(s, a) && (a.Take? || a.ReadActive? || a.ReadTarget?)
    ensures Inv(Do(s, a))
  {
    var t := Do(s, a);
    assert HandlerOk(s, a.c);
    var o :| o in s.lock;
    assert Serving(s, o, a.c) && CallerOk(s, o);
    forall c: Cpu ensures CallerOk(t, c) { assert CallerOk(s, c); }
    forall d: Cpu ensures HandlerOk(t, d) { assert HandlerOk(s, d); }
  }

  lemma FieldStep(s: State, a: Action)
    requires Inv(s) && Enabled(s, a) && (a.ReadScope? || a.ReadStart? || a.ReadLength?)
    ensures Inv(Do(s, a))
  {
    var t := Do(s, a);
    assert HandlerOk(s, a.c);
    var o :| o in s.lock;
    assert Serving(s, o, a.c) && CallerOk(s, o);
    forall c: Cpu ensures CallerOk(t, c) { assert CallerOk(s, c); }
    forall d: Cpu ensures HandlerOk(t, d) { assert HandlerOk(s, d); }
  }

  lemma FlushStep(s: State, a: Action)
    requires Inv(s) && Enabled(s, a) && a.Flush?
    ensures Inv(Do(s, a))
  {
    var t := Do(s, a);
    assert HandlerOk(s, a.c);
    var o :| o in s.lock;
    assert Serving(s, o, a.c) && CallerOk(s, o);
    DidGrows(s.log, Event(a.c, s.handlers[a.c].work));
    forall c: Cpu ensures CallerOk(t, c) { assert CallerOk(s, c); }
    forall d: Cpu ensures HandlerOk(t, d) { assert HandlerOk(s, d); }
  }

  lemma AckStep(s: State, a: Action)
    requires Inv(s) && Enabled(s, a) && a.Ack?
    ensures Inv(Do(s, a))
  {
    var t := Do(s, a);
    assert HandlerOk(s, a.c);
    var o :| o in s.lock;
    assert Serving(s, o, a.c) && CallerOk(s, o);
    forall c: Cpu ensures CallerOk(t, c) { assert CallerOk(s, c); }
    forall d: Cpu ensures HandlerOk(t, d) { assert HandlerOk(s, d); }
  }

  lemma Preserved(s: State, a: Action)
    requires Inv(s) && Enabled(s, a) && !a.GiveUp?
    ensures Inv(Do(s, a))
  {
    if a.Begin? || a.Local? || a.Refuse? || a.FinishLocal? { OutsideStep(s, a); }
    else if a.Lock? || a.Write? || a.Activate? || a.Deactivate? || a.Unlock? { HolderStep(s, a); }
    else if a.Send? || a.SeeAcks? { SendStep(s, a); }
    else if a.Flush? { FlushStep(s, a); }
    else if a.Ack? { AckStep(s, a); }
    else if a.Take? || a.ReadActive? || a.ReadTarget? { EntryStep(s, a); }
    else { FieldStep(s, a); }
  }

  // Whole runs.

  ghost predicate IsRun(s: State, run: seq<Action>, t: State)
    requires WellFormed(s)
    decreases |run|
  {
    if run == [] then t == s
    else Enabled(s, run[0]) && IsRun(Do(s, run[0]), run[1..], t)
  }

  lemma {:induction false} RunInv(s: State, run: seq<Action>, t: State)
    requires Inv(s) && IsRun(s, run, t) && (forall i :: 0 <= i < |run| ==> !run[i].GiveUp?)
    ensures Inv(t)
    decreases |run|
  {
    if run != [] {
      Preserved(s, run[0]);
      RunInv(Do(s, run[0]), run[1..], t);
    }
  }

  /** No requester gives up, by failed delivery or timeout, in the run. */
  predicate NobodyGivesUp(run: seq<Action>) { forall i :: 0 <= i < |run| ==> !run[i].GiveUp? }

  /** In every interleaving in which no requester has given up, a call that has
      returned has had its work done by every one of its targets since it began. */
  lemma ReturnsAreTruthful(run: seq<Action>, t: State, c: Cpu, d: Cpu)
    requires IsRun(INIT, run, t) && NobodyGivesUp(run) && WellFormed(t)
    requires t.callers[c].Returned? && d in Targets(c, t.callers[c].r)
    ensures Did(t.log, t.callers[c].t0, d, t.callers[c].r.work)
  {
    InitInv();
    RunInv(INIT, run, t);
    assert CallerOk(t, c);
  }

  /** In those interleavings the acknowledgements a requester sees are its own:
      each is of a CPU that has done this very work since this call began. */
  lemma AcksAreOwn(run: seq<Action>, t: State, c: Cpu, d: Cpu)
    requires IsRun(INIT, run, t) && NobodyGivesUp(run) && WellFormed(t)
    requires t.callers[c].Sending? && d in t.slot.ack
    ensures d in t.callers[c].sent && Did(t.log, t.callers[c].t0, d, t.callers[c].r.work)
  {
    InitInv();
    RunInv(INIT, run, t);
    assert CallerOk(t, c);
  }

  // A requester that gives up unlocks the slot before it halts.  What it leaves
  // outstanding decides whether later calls can be trusted.

  lemma {:induction false} Extend(s: State, run: seq<Action>, t: State, a: Action)
    requires WellFormed(s) && IsRun(s, run, t) && WellFormed(t) && Enabled(t, a)
    ensures IsRun(s, run + [a], Do(t, a))
    decreases |run|
  {
    if run == [] {
      assert ([a])[1..] == [];
    } else {
      Extend(Do(s, run[0]), run[1..], t, a);
      assert (run + [a])[1..] == run[1..] + [a];
    }
  }

  lemma {:induction false} Concat(s: State, run: seq<Action>, t: State, more: seq<Action>, u: State)
    requires WellFormed(s) && IsRun(s, run, t) && WellFormed(t) && IsRun(t, more, u)
    ensures IsRun(s, run + more, u)
    decreases |run|
  {
    if run == [] {
      assert run + more == more;
    } else {
      Concat(Do(s, run[0]), run[1..], t, more, u);
      assert (run + more)[1..] == run[1..] + more;
    }
  }

  lemma TakeLock(s: State, b: Cpu, c: Cpu, r: Request) returns (run: seq<Action>, t: State)
    requires WellFormed(s) && b != c && (s.callers[b].Out? || s.callers[b].Returned?) && s.lock == {}
    requires r.mask == {c} && r.requireCompletion
    ensures IsRun(s, run, t) && NobodyGivesUp(run)
    ensures t == State(s.callers[b := Writing(r, |s.log|, 0)], s.handlers, s.ipis, {b}, s.slot, s.log)
  {
    assert Remote(b, r) == {c};
    Extend(s, [], s, Begin(b, r));
    run, t := [Begin(b, r)], Do(s, Begin(b, r));
    Extend(s, run, t, Local(b));
    run, t := run + [Local(b)], Do(t, Local(b));
    Extend(s, run, t, Lock(b));
    run, t := run + [Lock(b)], Do(t, Lock(b));
    assert t.callers == s.callers[b := Writing(r, |s.log|, 0)];
  }

  /** One field write of the slot's holder. */
  lemma WriteOne(s: State, b: Cpu, r: Request, t0: nat, n: nat) returns (t: State)
    requires WellFormed(s) && s.callers[b] == Writing(r, t0, n) && n < FIELDS
    ensures WellFormed(t) && IsRun(s, [Write(b)], t)
    ensures t == State(s.callers[b := Writing(r, t0, n + 1)], s.handlers, s.ipis, s.lock,
              WriteField(s.slot, b, r, n), s.log)
  {
    t := Do(s, Write(b));
    Extend(s, [], s, Write(b));
  }

  lemma {:induction false} WriteAll(s: State, b: Cpu, r: Request, t0: nat, n: nat) returns (run: seq<Action>, t: State)
    requires WellFormed(s) && s.callers[b] == Writing(r, t0, n) && n <= FIELDS && Written(s.slot, b, r, n)
    requires n == FIELDS ==> s.slot.ack == {}
    ensures IsRun(s, run, t) && NobodyGivesUp(run)
    ensures t == State(s.callers[b := Writing(r, t0, FIELDS)], s.handlers, s.ipis, s.lock,
                       Slot(s.slot.active, r.work.scope, r.work.start, r.work.length, Remote(b, r), {}), s.log)
    decreases FIELDS - n
  {
    if n == FIELDS {
      run, t := [], s;
    } else {
      var u := WriteOne(s, b, r, t0, n);
      run, t := WriteAll(u, b, r, t0, n + 1);
      Concat(s, [Write(b)], u, run, t);
      run := [Write(b)] + run;
      assert t.callers == s.callers[b := Writing(r, t0, FIELDS)];
    }
  }

  /** A free requester publishes work for `c` alone. */
  lemma Publish(s: State, b: Cpu, c: Cpu, r: Request) returns (run: seq<Action>, t: State)
    requires WellFormed(s) && b != c && (s.callers[b].Out? || s.callers[b].Returned?) && s.lock == {}
    requires r.mask == {c} && r.requireCompletion
    ensures IsRun(s, run, t) && NobodyGivesUp(run)
    ensures t == State(s.callers[b := Sending(r, |s.log|, {c})], s.handlers, s.ipis[c := s.ipis[c] + 1], {b},
                       Slot(true, r.work.scope, r.work.start, r.work.length, {c}, {}), s.log)
  {
    assert Remote(b, r) == {c};
    var first, u := TakeLock(s, b, c, r);
    var second;
    second, t := WriteAndSend(u, b, c, r, |s.log|);
    Overwrite(s.callers, b, Writing(r, |s.log|, 0), Sending(r, |s.log|, {c}));
    assert t == State(s.callers[b := Sending(r, |s.log|, {c})], s.handlers, s.ipis[c := s.ipis[c] + 1], {b},
                      Slot(true, r.work.scope, r.work.start, r.work.length, {c}, {}), s.log);
    Concat(s, first, u, second, t);
    run := first + second;
  }

  lemma WriteAndSend(s: State, b: Cpu, c: Cpu, r: Request, t0: nat) returns (run: seq<Action>, t: State)
    requires WellFormed(s) && s.callers[b] == Writing(r, t0, 0) && Remote(b, r) == {c}
    ensures IsRun(s, run, t) && NobodyGivesUp(run)
    ensures t == State(s.callers[b := Sending(r, t0, {c})], s.handlers, s.ipis[c := s.ipis[c] + 1], s.lock,
                       Slot(true, r.work.scope, r.work.start, r.work.length, {c}, {}), s.log)
  {
    var first, u := WriteAll(s, b, r, t0, 0);
    var second;
    second, t := SendOne(u, b, c, r, t0);
    Concat(s, first, u, second, t);
    run := first + second;
    Overwrite(s.callers, b, Writing(r, t0, FIELDS), Sending(r, t0, {c}));
  }

  lemma SendOne(s: State, b: Cpu, c: Cpu, r: Request, t0: nat) returns (run: seq<Action>, t: State)
    requires WellFormed(s) && s.callers[b] == Writing(r, t0, FIELDS) && Remote(b, r) == {c}
    ensures IsRun(s, run, t) && NobodyGivesUp(run)
    ensures t == State(s.callers[b := Sending(r, t0, {c})], s.handlers, s.ipis[c := s.ipis[c] + 1], s.lock,
              s.slot.(active := true), s.log)
  {
    assert {} + {c} == {c};
    Extend(s, [], s, Activate(b));
    run, t := [Activate(b)], Do(s, Activate(b));
    Extend(s, run, t, Send(b, c));
    run, t := run + [Send(b, c)], Do(t, Send(b, c));
    assert t.callers == s.callers[b := Sending(r, t0, {c})];
  }

  lemma Overwrite(q: seq<Caller>, b: Cpu, x: Caller, y: Caller)
    requires |q| == MAX_CPUS
    ensures q[b := x][b := y] == q[b := y]
  {
  }

  /** A handler on its way in finds the request that is active now. */
  lemma Arrive(s: State, c: Cpu) returns (run: seq<Action>, t: State)
    requires WellFormed(s) && s.slot.active && c in s.slot.target
    requires s.handlers[c].Entered? || s.handlers[c].SawActive? || (s.handlers[c].Away? && s.ipis[c] > 0)
    ensures IsRun(s, run, t) && NobodyGivesUp(run)
    ensures WellFormed(t)
            && t == State(s.callers, s.handlers[c := SawTarget], s.ipis[c := t.ipis[c]], s.lock, s.slot, s.log)
    ensures t.ipis[c] == s.ipis[c] - if s.handlers[c].Away? then 1 else 0
  {
    run, t := [], s;
    if s.handlers[c].Away? {
      Extend(s, run, t, Take(c));
      run, t := run + [Take(c)], Do(t, Take(c));
    }
    if t.handlers[c].Entered? {
      Extend(s, run, t, ReadActive(c));
      run, t := run + [ReadActive(c)], Do(t, ReadActive(c));
    }
    Extend(s, run, t, ReadTarget(c));
    run, t := run + [ReadTarget(c)], Do(t, ReadTarget(c));
    assert t.handlers == s.handlers[c := SawTarget];
  }

  predicate PastCheck(h: Handler) { !h.Away? && !h.Entered? && !h.SawActive? }

  /** A handler past its checks goes on to flush whatever it reads. */
  lemma {:induction false} FlushOn(s: State, c: Cpu) returns (run: seq<Action>, t: State, w: Work)
    requires WellFormed(s) && PastCheck(s.handlers[c])
    ensures IsRun(s, run, t) && NobodyGivesUp(run)
    ensures t == State(s.callers, s.handlers[c := Flushed(w)], s.ipis, s.lock, s.slot, t.log)
    decreases match s.handlers[c] case SawTarget => 4 case SawScope(_) => 3 case SawStart(_,
                _) => 2 case SawLength(_) => 1 case _ => 0
  {
    var h := s.handlers[c];
    if h.Flushed? {
      run, t, w := [], s, h.work;
      assert s.handlers[c := h] == s.handlers;
    } else {
      var a := match h case SawTarget => ReadScope(c) case SawScope(_) => ReadStart(c) case SawStart(_,
          _) => ReadLength(c) case _ => Flush(c);
      var u := Do(s, a);
      Extend(s, [], s, a);
      run, t, w := FlushOn(u, c);
      Concat(s, [a], u, run, t);
      run := [a] + run;
      assert t.handlers == s.handlers[c := Flushed(w)];
    }
  }

  /** An acknowledgement from `c` is all that the requester waits for. */
  lemma Close(s: State, b: Cpu, c: Cpu) returns (run: seq<Action>, t: State)
    requires WellFormed(s) && s.callers[b].Sending? && Remote(b, s.callers[b].r) == {c} && s.callers[b].sent == {c}
             && c in s.slot.ack
    ensures IsRun(s, run, t) && NobodyGivesUp(run)
    ensures t == State(s.callers[b := Returned(s.callers[b].r, s.callers[b].t0)], s.handlers, s.ipis, {},
              s.slot.(active := false), s.log)
  {
    var r, t0 := s.callers[b].r, s.callers[b].t0;
    Extend(s, [], s, SeeAcks(b));
    run, t := [SeeAcks(b)], Do(s, SeeAcks(b));
    Extend(s, run, t, Deactivate(b));
    run, t := run + [Deactivate(b)], Do(t, Deactivate(b));
    Extend(s, run, t, Unlock(b));
    run, t := run + [Unlock(b)], Do(t, Unlock(b));
    assert t.callers == s.callers[b := Returned(r, t0)];
  }

  /** A handler left past its checks acknowledges the next request unseen. */
  lemma FalseAck(s: State, b: Cpu, c: Cpu, r: Request) returns (run: seq<Action>, t: State)
    requires WellFormed(s) && b != c && (s.callers[b].Out? || s.callers[b].Returned?) && s.lock == {}
             && PastCheck(s.handlers[c])
    requires r.mask == {c} && r.requireCompletion
    ensures IsRun(s, run, t) && NobodyGivesUp(run) && WellFormed(t)
    ensures t.callers[b].Returned? && t.callers[b].r == r && c in Targets(b, r)
            && !Did(t.log, t.callers[b].t0, c, r.work)
  {
    assert Remote(b, r) == {c};
    var first, u, w := FlushOn(s, c);
    var second, v := Publish(u, b, c, r);
    Concat(s, first, u, second, v);
    run := first + second;
    Extend(s, run, v, Ack(c));
    run, v := run + [Ack(c)], Do(v, Ack(c));
    var third;
    third, t := Close(v, b, c);
    Concat(s, run, v, third, t);
    run := run + third;
  }

  /** An IPI left over makes one handler run too many, and the surplus run can
      be stopped past its checks with the slot free again. */
  lemma LeaveBehind(s: State, b: Cpu, c: Cpu, r: Request) returns (run: seq<Action>, t: State)
    requires WellFormed(s) && b != c && (s.callers[b].Out? || s.callers[b].Returned?) && s.lock == {}
    requires Outstanding(s, c) > 0 && !PastCheck(s.handlers[c]) && r.mask == {c} && r.requireCompletion
    ensures IsRun(s, run, t) && NobodyGivesUp(run) && WellFormed(t)
    ensures t.callers[b].Returned? && t.lock == {} && PastCheck(t.handlers[c])
  {
    assert Remote(b, r) == {c};
    var run1, s1 := Publish(s, b, c, r);
    var run2, s2 := ServeOnce(s1, c);
    Concat(s, run1, s1, run2, s2);
    var run3, s3 := Arrive(s2, c);
    Concat(s, run1 + run2, s2, run3, s3);
    var run4;
    run4, t := Close(s3, b, c);
    Concat(s, run1 + run2 + run3, s3, run4, t);
    run := run1 + run2 + run3 + run4;
  }

  /** One handler run, from wherever it stands, to its acknowledgement. */
  lemma ServeOnce(s: State, c: Cpu) returns (run: seq<Action>, t: State)
    requires WellFormed(s) && s.slot.active && c in s.slot.target
    requires s.handlers[c].Entered? || s.handlers[c].SawActive? || (s.handlers[c].Away? && s.ipis[c] > 0)
    ensures IsRun(s, run, t) && NobodyGivesUp(run) && WellFormed(t)
    ensures t.callers == s.callers && t.handlers[c].Away? && t.lock == s.lock
            && t.slot == s.slot.(ack := s.slot.ack + {c})
    ensures t.ipis[c] == s.ipis[c] - if s.handlers[c].Away? then 1 else 0
  {
    var run1, s1 := Arrive(s, c);
    var run2, s2, w := FlushOn(s1, c);
    Concat(s, run1, s1, run2, s2);
    Extend(s, run1 + run2, s2, Ack(c));
    run, t := run1 + run2 + [Ack(c)], Do(s2, Ack(c));
  }

  predicate OtherFree(s: State, c: Cpu)
    requires WellFormed(s)
  {
    exists b: Cpu :: b != c && s.callers[b].Out?
  }

  /** With the slot free and nobody inside a call, every later call can be
      trusted, in every continuation in which nobody gives up, ... */
  ghost predicate Trustworthy(s: State)
    requires WellFormed(s)
  {
    forall run, t, c: Cpu, d: Cpu {:trigger IsRun(s, run, t), Did(t.log, t.callers[c].t0, d, t.callers[c].r.work)} ::
      IsRun(s, run, t) && NobodyGivesUp(run) && WellFormed(t) && t.callers[c].Returned?
        && d in Targets(c, t.callers[c].r) ==>
        Did(t.log, t.callers[c].t0, d, t.callers[c].r.work)
  }

  /** ... exactly when no IPI is on its way and no handler is running.  A call
      that gave up may have left one, and then the guarantee is lost. */
  lemma TrustIffNothingOutstanding(s: State)
    requires WellFormed(s) && s.lock == {} && (forall c: Cpu :: s.callers[c].Out? || s.callers[c].Halted?)
    requires forall c: Cpu {:trigger OtherFree(s, c)} :: OtherFree(s, c)
    ensures Trustworthy(s) <==> forall c: Cpu :: Outstanding(s, c) == 0
  {
    if forall c: Cpu :: Outstanding(s, c) == 0 {
      assert Inv(s);
      forall run, t, c: Cpu, d: Cpu
        | IsRun(s, run, t) && NobodyGivesUp(run) && WellFormed(t) && t.callers[c].Returned?
          && d in Targets(c, t.callers[c].r)
        ensures Did(t.log, t.callers[c].t0, d, t.callers[c].r.work)
      {
        RunInv(s, run, t);
        assert CallerOk(t, c);
      }
    } else {
      var c: Cpu :| Outstanding(s, c) != 0;
      assert OtherFree(s, c);
      var b: Cpu :| b != c && s.callers[b].Out?;
      var r := Request(Work(Page, 0, 0), {c}, true);
      var run, t := [], s;
      if !PastCheck(s.handlers[c]) { run, t := LeaveBehind(s, b, c, r); }
      var more, u := FalseAck(t, b, c, r);
      Concat(s, run, t, more, u);
      assert !Did(u.log, u.callers[b].t0, c, u.callers[b].r.work);
    }
  }

  /** The holder of the slot gives up and halts, leaving what it has sent. */
  lemma GiveUpAndHalt(s: State, b: Cpu, r: Request) returns (run: seq<Action>, t: State)
    requires WellFormed(s) && s.callers[b].Sending? && s.callers[b].r == r
    ensures IsRun(s, run, t) && GiveUp(b) in run
    ensures t == State(s.callers[b := Halted], s.handlers, s.ipis, {}, s.slot.(active := false), s.log)
  {
    Extend(s, [], s, GiveUp(b));
    run, t := [GiveUp(b)], Do(s, GiveUp(b));
    Extend(s, run, t, Deactivate(b));
    run, t := run + [Deactivate(b)], Do(t, Deactivate(b));
    Extend(s, run, t, Unlock(b));
    run, t := run + [Unlock(b)], Do(t, Unlock(b));
    assert t.callers == s.callers[b := Halted];
  }

  /** A run in which the guarantee is lost: one request, given up before its IPI
      was taken. */
  lemma GivingUpLosesTrust() returns (run: seq<Action>, t: State)
    ensures IsRun(INIT, run, t) && WellFormed(t) && GiveUp(0) in run && t.lock == {}
    ensures (forall c: Cpu :: t.callers[c].Out? || t.callers[c].Halted?) && Outstanding(t, 1) == 1 && !Trustworthy(t)
  {
    var r := Request(Work(Page, 0, 0), {1}, true);
    var first, s := Publish(INIT, 0, 1, r);
    var second;
    second, t := GiveUpAndHalt(s, 0, r);
    Concat(INIT, first, s, second, t);
    run := first + second;
    assert t.callers[2].Out? && t.callers[3].Out?;
    forall c: Cpu ensures OtherFree(t, c) { assert (if c == 2 then 3 else 2) != c; }
    TrustIffNothingOutstanding(t);
  }
}

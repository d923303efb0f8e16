/**
 Whole runs of the block request protocol: any interleaving of arming, the
 status store that follows it, completion interrupts, cancellation, deadlines,
 issue failures and collection.
 */
module BlockRuns {
  import opened Common
  import opened BlockRequests
  import opened BlockIo
  import opened BlockQueues

  datatype Event =
    | Begun(r: RequestId, canBlock: bool)
    | StoredBy(r: RequestId)
    | Completed(token: Option<Token>, final: Status)
    | CancelledBy(r: RequestId)
    | Deadline(r: RequestId)
    | IssueRefused(r: RequestId, cause: Status)
    | Collected(r: RequestId)

  /** What an event came to: it was not allowed, it did nothing, it used a missing
      queue, a request was armed or turned down, its outcome was published, its
      status was stored, or a waiter was told `s`. */
  datatype Mark =
    | Skipped
    | Quiet
    | Faulted
    | Opened(r: RequestId)
    | Declined(r: RequestId, s: Status)
    | Closed(r: RequestId, s: Status)
    | Stored(r: RequestId)
    | Answered(r: RequestId, s: Status)

  /** Where a request stands: armed with the store outstanding, before and after
      its outcome; or with the store made, in time or too late. */
  datatype Phase = Idle | Open | Shut | Kept | Lost

  predicate Concerns(m: Mark, r: RequestId) { !m.Skipped? && !m.Quiet? && !m.Faulted? && m.r == r }

  function Next(p: Phase, m: Mark): Phase {
    match m
    case Opened(_) => Open
    case Declined(_, _) => Idle
    case Closed(_, _) => if p.Open? then Shut else p
    case Stored(_) => if p.Open? then Kept else if p.Shut? then Lost else p
    case _ => p
  }

  function PhaseOf(log: seq<Mark>, r: RequestId): Phase {
    if log == [] then Idle
    else
      var n := |log| - 1;
      var p := PhaseOf(log[..n], r);
      if Concerns(log[n], r) then Next(p, log[n]) else p
  }

  /** The arming of `r` has not returned yet. */
  predicate Arming(log: seq<Mark>, r: RequestId) { PhaseOf(log, r).Open? || PhaseOf(log, r).Shut? }

  predicate Busy(log: seq<Mark>, e: Event) { (e.Begun? || e.StoredBy?) && Arming(log, e.r) }

  /** The caller keeps to the protocol: a request is armed only when it is in no
      queue and an earlier arming of it has returned, and waited for only once
      its device has a queue. */
  predicate Proper(requests: map<RequestId, Request>, queues: map<DeviceId, Queue>, busy: bool, e: Event) {
    match e
    case Begun(r, _) => r in requests && !requests[r].queued && !busy && Sound(requests[r])
    case StoredBy(r) => busy && r in requests
    case Completed(t, _) => t.Some? ==> t.value.request in requests
    case CancelledBy(r) => r in requests
    case Deadline(r) => r in requests && requests[r].device in queues
    case IssueRefused(r, _) => r in requests && requests[r].device in queues
    case Collected(r) => r in requests && requests[r].device in queues && Terminal(requests[r].state)
  }

  // What each event does.

  /** What is said of a request comes down to its rejections. */
  ghost predicate Unmoved(v: View, u: View) {
    && u.arms == v.arms && u.armOf == v.armOf && u.requests.Keys == v.requests.Keys
    && forall x :: x in v.requests ==> u.requests[x] == v.requests[x].(rejection := u.requests[x].rejection)
  }

  ghost predicate OthersKept(v: View, u: View, r: RequestId) {
    u.requests.Keys == v.requests.Keys && forall x :: x in v.requests && x != r ==> u.requests[x] == v.requests[x]
  }

  /** The pending arm of `r` gets the outcome `s`, and no other arm changes. */
  ghost predicate Closes(v: View, u: View, r: RequestId, s: Status) { Settles(v, u, r, s) && u.armOf == v.armOf }

  ghost predicate Begins(v: View, u: View, r: RequestId) {
    && r in u.requests && u.requests[r].state.Pending? && u.requests[r].queued && OthersKept(v, u, r)
    && |u.arms| == |v.arms| + 1 && u.arms[..|v.arms|] == v.arms
    && u.arms[|v.arms|].token.request == r && u.arms[|v.arms|].outcome.None?
    && u.armOf == v.armOf[r := |v.arms|]
  }

  ghost predicate Declines(v: View, u: View, r: RequestId, s: Status) {
    && r in u.requests && u.requests[r].state.Invalid? && !u.requests[r].queued && u.requests[r].status == s
    && OthersKept(v, u, r) && u.arms == v.arms && u.armOf == v.armOf
  }

  ghost predicate Tells(v: View, u: View, r: RequestId, s: Status) {
    && r in v.requests && r in u.requests && s == v.requests[r].status && !u.requests[r].queued
    && u.requests[r].state == v.requests[r].state && OthersKept(v, u, r) && u.arms == v.arms && u.armOf == v.armOf
  }

  /** A pending request is settled with `s`; any other is left alone. */
  ghost predicate ClosesIfPending(v: View, u: View, r: RequestId, s: Status, m: Mark)
    requires r in v.requests
  {
    if v.requests[r].state.Pending? then m == Closed(r, s) && Closes(v, u, r, s) else m == Quiet && Unmoved(v, u)
  }

  /** The one mark and the effect of a proper event. */
  ghost predicate Acts(devices: map<DeviceId, Device>, v: View, e: Event, m: Mark, u: View)
    requires Bounded(devices) && Proper(v.requests, v.queues, e.StoredBy?, e)
  {
    match e
    case Begun(r, canBlock) =>
      var s := ArmResult(devices, v.queues, v.requests[r], canBlock);
      if s.Success? then m == Opened(r) && Begins(v, u, r) else m == Declined(r, s) && Declines(v, u, r, s)
    case StoredBy(r) =>
      m == Stored(r) && u == v.(requests := v.requests[r := v.requests[r].(status := WouldBlock)])
    case Completed(t, final) =>
      if t.Some? && Acceptable(v, t.value, final) then
        && m == Closed(t.value.request, final) && Closes(v, u, t.value.request, final)
        && v.arms[v.armOf[t.value.request]].token == t.value
      else m == Quiet && Unmoved(v, u)
    case CancelledBy(r) =>
      if v.requests[r].device !in v.queues && |v.queues| == MAX_QUEUES then m == Faulted && u == v
      else ClosesIfPending(v, u, r, Cancelled, m)
    case Deadline(r) => ClosesIfPending(v, u, r, PendingTimeout, m)
    case IssueRefused(r, cause) => ClosesIfPending(v, u, r, cause, m)
    case Collected(r) => m == Answered(r, v.requests[r].status) && Tells(v, u, r, v.requests[r].status)
  }

  lemma BusyIsProper(requests: map<RequestId, Request>, queues: map<DeviceId, Queue>, busy: bool, e: Event)
    requires Proper(requests, queues, busy, e)
    ensures Proper(requests, queues, e.StoredBy?, e)
  {
  }

  /** What event `e` does after `log`, skipped when its caller may not make it. */
  ghost predicate Happens(devices: map<DeviceId, Device>, log: seq<Mark>, v: View, e: Event, m: Mark, u: View)
    requires Bounded(devices)
  {
    if Proper(v.requests, v.queues, Busy(log, e), e) then
      BusyIsProper(v.requests, v.queues, Busy(log, e), e);
      Acts(devices, v, e, m, u)
    else m == Skipped && u == v
  }

  // The history and the state agree.

  ghost predicate AgreeAt(v: View, overtaken: set<RequestId>, arming: set<RequestId>, p: Phase, r: RequestId) {
    && (r in arming <==> p.Open? || p.Shut?)
    && (p.Open? ==> r in v.requests && v.requests[r].state.Pending?)
    && (p.Shut? ==> r in v.requests && Terminal(v.requests[r].state) && r in v.armOf)
    && (r in overtaken <==> p.Lost?)
  }

  ghost predicate Agree(v: View, overtaken: set<RequestId>, arming: set<RequestId>, log: seq<Mark>) {
    forall r {:trigger PhaseOf(log, r)} :: AgreeAt(v, overtaken, arming, PhaseOf(log, r), r)
  }

  /** As far as the phases go, nothing happened to `x`. */
  ghost predicate Alike(v: View, u: View, x: RequestId) {
    && (x in v.requests <==> x in u.requests) && (x in v.requests ==> u.requests[x].state == v.requests[x].state)
    && (x in v.armOf <==> x in u.armOf)
  }

  lemma PhaseNext(log: seq<Mark>, m: Mark, r: RequestId)
    ensures PhaseOf(log + [m], r) == if Concerns(m, r) then Next(PhaseOf(log, r), m) else PhaseOf(log, r)
  {
    assert (log + [m])[..|log|] == log;
  }

  /** A step that concerns `r` alone. */
  lemma AgreesNext(v: View, overtaken: set<RequestId>, arming: set<RequestId>, log: seq<Mark>,
                   u: View, over: set<RequestId>, arms: set<RequestId>, m: Mark, r: RequestId)
    requires Agree(v, overtaken, arming, log) && forall x :: Concerns(m, x) ==> x == r
    requires forall x :: x != r ==> Alike(v, u, x) && (x in over <==> x in overtaken) && (x in arms <==> x in arming)
    requires AgreeAt(u, over, arms, if Concerns(m, r) then Next(PhaseOf(log, r), m) else PhaseOf(log, r), r)
    ensures Agree(u, over, arms, log + [m])
  {
    forall x ensures AgreeAt(u, over, arms, PhaseOf(log + [m], x), x) {
      PhaseNext(log, m, x);
      if x != r { assert Alike(v, u, x) && AgreeAt(v, overtaken, arming, PhaseOf(log, x), x); }
    }
  }

  /** Publishing the outcome of `r` closes its phase. */
  lemma SettlingAgrees(v: View, overtaken: set<RequestId>, arming: set<RequestId>, log: seq<Mark>, u: View,
                       r: RequestId, s: Status)
    requires AllTold(v, overtaken) && Agree(v, overtaken, arming, log) && Closes(v, u, r, s)
    ensures Agree(u, overtaken, arming, log + [Closed(r, s)])
  {
    assert AgreeAt(v, overtaken, arming, PhaseOf(log, r), r);
    AgreesNext(v, overtaken, arming, log, u, overtaken, arming, Closed(r, s), r);
  }

  /** Nothing that matters to the phases happened. */
  lemma QuietAgrees(v: View, overtaken: set<RequestId>, arming: set<RequestId>, log: seq<Mark>, u: View, m: Mark)
    requires Agree(v, overtaken, arming, log) && (m.Skipped? || m.Quiet? || m.Faulted? || m.Answered?)
    requires forall x :: Alike(v, u, x)
    ensures Agree(u, overtaken, arming, log + [m])
  {
    forall x ensures AgreeAt(u, overtaken, arming, PhaseOf(log + [m], x), x) {
      PhaseNext(log, m, x);
      assert Alike(v, u, x) && AgreeAt(v, overtaken, arming, PhaseOf(log, x), x);
    }
  }

  // Outcomes.

  lemma SettlesOnce(v: View, u: View, r: RequestId, s: Status)
    requires Settles(v, u, r, s)
    ensures Outcomes(u.arms) == Outcomes(v.arms) + 1
  {
    OutcomesUpdate(v.arms, v.armOf[r], Arm(v.arms[v.armOf[r]].token, Some(s)));
  }

  lemma BeginningSettlesNothing(v: View, u: View, r: RequestId)
    requires Begins(v, u, r)
    ensures Extends(v.arms, u.arms) && Outcomes(u.arms) == Outcomes(v.arms)
  {
    assert u.arms == v.arms + [u.arms[|v.arms|]];
    OutcomesAppend(v.arms, u.arms[|v.arms|]);
  }

  lemma ExtendsFurther(x: seq<Arm>, y: seq<Arm>, z: seq<Arm>)
    requires Extends(x, y) && Extends(y, z)
    ensures Extends(x, z)
  {
  }

  /** Every proper event publishes one outcome or none, and takes none back. */
  lemma ActsExtends(devices: map<DeviceId, Device>, v: View, e: Event, m: Mark, u: View)
    requires Bounded(devices) && Proper(v.requests, v.queues, e.StoredBy?, e) && Acts(devices, v, e, m, u)
    ensures Extends(v.arms, u.arms) && Outcomes(u.arms) == Outcomes(v.arms) + if m.Closed? then 1 else 0
  {
    if m.Closed? {
      SettlesOnce(v, u, m.r, m.s);
      SettlesExtends(v, u, m.r, m.s);
    } else if m.Opened? {
      BeginningSettlesNothing(v, u, m.r);
    }
  }

  // The arm that a waiter waits for.

  function Opens(log: seq<Mark>): nat {
    if log == [] then 0 else Opens(log[..|log| - 1]) + if log[|log| - 1].Opened? then 1 else 0
  }

  /** The latest arm of every request: arms are numbered as they are opened. */
  function LatestArm(first: nat, before: map<RequestId, nat>, log: seq<Mark>): map<RequestId, nat> {
    if log == [] then before
    else
      var n := |log| - 1;
      var latest := LatestArm(first, before, log[..n]);
      if log[n].Opened? then latest[log[n].r := first + Opens(log[..n])] else latest
  }

  /** A request has an arm exactly when it had one before or was armed since. */
  lemma {:induction false} HasArmIff(first: nat, before: map<RequestId, nat>, log: seq<Mark>, r: RequestId)
    ensures r in LatestArm(first, before, log) <==> r in before || Opened(r) in log
  {
    if log != [] {
      var n := |log| - 1;
      HasArmIff(first, before, log[..n], r);
      assert log == log[..n] + [log[n]];
    }
  }

  /** What is told for an arm: its outcome, or that the call would block, the
      latter exactly when the outcome came before the status store. */
  ghost predicate Heard(a: Arm, r: RequestId, s: Status, p: Phase) {
    a.token.request == r && a.outcome.Some? && Answer(a.outcome.value, s, p.Lost?)
  }

  /** Whoever is told something of a request that has been armed is told of its
      latest arm. */
  ghost predicate HeardAt(arms: seq<Arm>, first: nat, before: map<RequestId, nat>, log: seq<Mark>, i: nat)
    requires i < |log|
  {
    log[i].Answered? ==>
      var r, latest := log[i].r, LatestArm(first, before, log[..i]);
      r in latest ==> latest[r] < |arms| && Heard(arms[latest[r]], r, log[i].s, PhaseOf(log[..i], r))
  }

  ghost predicate AllHeard(arms: seq<Arm>, first: nat, before: map<RequestId, nat>, log: seq<Mark>) {
    forall i :: 0 <= i < |log| ==> HeardAt(arms, first, before, log, i)
  }

  ghost predicate AnswerRight(v: View, log: seq<Mark>, m: Mark) {
    m.Answered? && m.r in v.armOf ==>
      v.armOf[m.r] < |v.arms| && Heard(v.arms[v.armOf[m.r]], m.r, m.s, PhaseOf(log, m.r))
  }

  /** Answers stay right, for no outcome changes. */
  lemma StillHeard(before: seq<Arm>, u: View, first: nat, start: map<RequestId, nat>, log: seq<Mark>, m: Mark)
    requires AllHeard(before, first, start, log) && Extends(before, u.arms)
    requires AnswerRight(u, log, m) && (m.Answered? ==> u.armOf == LatestArm(first, start, log))
    ensures AllHeard(u.arms, first, start, log + [m])
  {
    forall i | 0 <= i < |log| + 1 ensures HeardAt(u.arms, first, start, log + [m], i) {
      if i < |log| {
        assert HeardAt(before, first, start, log, i);
        assert (log + [m])[..i] == log[..i];
      } else {
        assert (log + [m])[..i] == log;
      }
    }
  }

  // One event.

  /** The event did what it does, and history and state still agree. */
  ghost predicate Done(devices: map<DeviceId, Device>, v: View, log: seq<Mark>, e: Event, m: Mark, u: View,
                       overtaken: set<RequestId>, arming: set<RequestId>)
    requires Bounded(devices) && Proper(v.requests, v.queues, e.StoredBy?, e)
  {
    Acts(devices, v, e, m, u) && Agree(u, overtaken, arming, log + [m]) && AnswerRight(u, log, m)
  }

  ghost predicate Ready(b: BlockQueues, arming: set<RequestId>, log: seq<Mark>, e: Event)
    reads b
  {
    && b.Ok() && Agree(b.V(), b.overtaken, arming, log)
    && Proper(b.requests, b.queues, Busy(log, e), e) && Proper(b.requests, b.queues, e.StoredBy?, e)
  }

  method Begin(b: BlockQueues, r: RequestId, canBlock: bool, arming: set<RequestId>, ghost log: seq<Mark>)
    returns (m: Mark, now: set<RequestId>)
    requires Ready(b, arming, log, Begun(r, canBlock))
    modifies b
    ensures b.Ok() && Done(b.devices, old(b.V()), log, Begun(r, canBlock), m, b.V(), b.overtaken, now)
  {
    ghost var v, over := b.V(), b.overtaken;
    assert AgreeAt(v, over, arming, PhaseOf(log, r), r);
    var s, token := b.BeginArm(r, canBlock);
    if s.Success? {
      assert b.arms[..|v.arms|] == v.arms;
      m, now := Opened(r), arming + {r};
    } else {
      m, now := Declined(r, s), arming;
    }
    AgreesNext(v, over, arming, log, b.V(), b.overtaken, now, m, r);
  }

  method Store(b: BlockQueues, r: RequestId, arming: set<RequestId>, ghost log: seq<Mark>)
    returns (m: Mark, now: set<RequestId>)
    requires Ready(b, arming, log, StoredBy(r))
    modifies b
    ensures b.Ok() && Done(b.devices, old(b.V()), log, StoredBy(r), m, b.V(), b.overtaken, now)
  {
    ghost var v, over := b.V(), b.overtaken;
    assert AgreeAt(v, over, arming, PhaseOf(log, r), r);
    b.StoreStatus(r);
    m, now := Stored(r), arming - {r};
    AgreesNext(v, over, arming, log, b.V(), b.overtaken, now, m, r);
  }

  predicate Settling(e: Event) { e.Completed? || e.CancelledBy? || e.Deadline? || e.IssueRefused? }

  /** Completion, cancellation, deadline and issue failure: each settles a
      request or leaves all of them as they are. */
  method Settle(b: BlockQueues, e: Event, ghost arming: set<RequestId>, ghost log: seq<Mark>) returns (m: Mark)
    requires Settling(e) && Ready(b, arming, log, e)
    modifies b
    ensures b.Ok() && Done(b.devices, old(b.V()), log, e, m, b.V(), b.overtaken, arming)
  {
    ghost var v := b.V();
    m := SettleOnly(b, e);
    if m.Closed? {
      SettlingAgrees(v, b.overtaken, arming, log, b.V(), m.r, m.s);
    } else {
      QuietAgrees(v, b.overtaken, arming, log, b.V(), m);
    }
  }

  method SettleOnly(b: BlockQueues, e: Event) returns (m: Mark)
    requires b.Ok() && Settling(e) && Proper(b.requests, b.queues, false, e)
    modifies b
    ensures b.Ok() && b.overtaken == old(b.overtaken) && Acts(b.devices, old(b.V()), e, m, b.V())
  {
    match e {
      case Completed(token, final) =>
        var s := b.Complete(token, final);
        m := if s.Success? then Closed(token.value.request, final) else Quiet;
      case CancelledBy(r) =>
        var faulted, s := b.Cancel(r);
        m := if faulted then Faulted else if s.Success? then Closed(r, Cancelled) else Quiet;
      case Deadline(r) =>
        m := if b.requests[r].state.Pending? then Closed(r, PendingTimeout) else Quiet;
        var s := b.TimeOut(r);
      case IssueRefused(r, cause) =>
        m := if b.requests[r].state.Pending? then Closed(r, cause) else Quiet;
        var s := b.IssueFailed(r, cause);
    }
  }

  method Tell(b: BlockQueues, r: RequestId, ghost arming: set<RequestId>, ghost log: seq<Mark>) returns (m: Mark)
    requires Ready(b, arming, log, Collected(r))
    modifies b
    ensures b.Ok() && Done(b.devices, old(b.V()), log, Collected(r), m, b.V(), b.overtaken, arming)
  {
    ghost var v := b.V();
    assert AgreeAt(v, b.overtaken, arming, PhaseOf(log, r), r);
    assert Told(v, b.overtaken, r);
    var s := b.Collect(r);
    m := Answered(r, s);
    QuietAgrees(v, b.overtaken, arming, log, b.V(), m);
  }

  method Perform(b: BlockQueues, e: Event, arming: set<RequestId>, ghost log: seq<Mark>)
    returns (m: Mark, now: set<RequestId>)
    requires Ready(b, arming, log, e)
    modifies b
    ensures b.Ok() && Done(b.devices, old(b.V()), log, e, m, b.V(), b.overtaken, now)
  {
    now := arming;
    match e {
      case Begun(r, canBlock) => m, now := Begin(b, r, canBlock, arming, log);
      case StoredBy(r) => m, now := Store(b, r, arming, log);
      case Collected(r) => m := Tell(b, r, arming, log);
      case _ => m := Settle(b, e, arming, log);
    }
  }

  // Whole runs.

  function Closings(log: seq<Mark>): nat {
    if log == [] then 0 else Closings(log[..|log| - 1]) + if log[|log| - 1].Closed? then 1 else 0
  }

  /** Through the views `vs` every event has had its effect and its mark. */
  ghost predicate Chain(devices: map<DeviceId, Device>, events: seq<Event>, log: seq<Mark>, vs: seq<View>) {
    && Bounded(devices) && |log| == |events| && |vs| == |events| + 1
    && forall i :: 0 <= i < |events| ==> ChainAt(devices, events, log, vs, i)
  }

  ghost predicate ChainAt(devices: map<DeviceId, Device>, events: seq<Event>, log: seq<Mark>, vs: seq<View>, i: nat)
    requires Bounded(devices) && i < |events| == |log| && |vs| == |events| + 1
  {
    Happens(devices, log[..i], vs[i], events[i], log[i], vs[i + 1])
  }

  lemma ChainNext(devices: map<DeviceId, Device>, events: seq<Event>, log: seq<Mark>, vs: seq<View>, n: nat, m: Mark,
                  u: View)
    requires n < |events| && Chain(devices, events[..n], log, vs) && Happens(devices, log, vs[n], events[n], m, u)
    ensures Chain(devices, events[..n + 1], log + [m], vs + [u])
  {
    var es, l, ws := events[..n + 1], log + [m], vs + [u];
    forall i | 0 <= i < n + 1 ensures ChainAt(devices, es, l, ws, i) {
      if i < n {
        assert ChainAt(devices, events[..n], log, vs, i);
        assert l[..i] == log[..i] && es[i] == events[..n][i];
      } else {
        assert l[..i] == log;
      }
    }
  }

  /** What a run has come to so far. */
  ghost predicate SoFar(start: View, v: View, overtaken: set<RequestId>, arming: set<RequestId>, log: seq<Mark>) {
    && Agree(v, overtaken, arming, log)
    && Extends(start.arms, v.arms) && Outcomes(v.arms) == Outcomes(start.arms) + Closings(log)
    && |v.arms| == |start.arms| + Opens(log) && v.armOf == LatestArm(|start.arms|, start.armOf, log)
    && AllHeard(v.arms, |start.arms|, start.armOf, log)
  }

  lemma SoFarNext(devices: map<DeviceId, Device>, start: View, v: View, arming: set<RequestId>, over: set<RequestId>,
                  log: seq<Mark>, e: Event, m: Mark, u: View, over': set<RequestId>, arming': set<RequestId>)
    requires SoFar(start, v, over, arming, log) && Bounded(devices)
    requires Proper(v.requests, v.queues, e.StoredBy?, e) && Done(devices, v, log, e, m, u, over', arming')
    ensures SoFar(start, u, over', arming', log + [m])
  {
    ActsExtends(devices, v, e, m, u);
    ExtendsFurther(start.arms, v.arms, u.arms);
    assert (log + [m])[..|log|] == log;
    StillHeard(v.arms, u, |start.arms|, start.armOf, log, m);
  }

  lemma SkippedNext(start: View, v: View, over: set<RequestId>, arming: set<RequestId>, log: seq<Mark>)
    requires SoFar(start, v, over, arming, log)
    ensures SoFar(start, v, over, arming, log + [Skipped])
  {
    QuietAgrees(v, over, arming, log, v, Skipped);
    assert (log + [Skipped])[..|log|] == log;
    StillHeard(v.arms, v, |start.arms|, start.armOf, log, Skipped);
  }

  /** Over any run: every event has exactly its effect, or is skipped exactly when
      its caller may not make it; a published outcome never changes, and every
      event that publishes one settles an arm of its own; what is armed is what
      has an outcome or is still pending; and a waiter is told the outcome of the
      latest arm of its request exactly when that did not come between the two
      halves of arming. */
  method Run(b: BlockQueues, events: seq<Event>) returns (log: seq<Mark>, ghost vs: seq<View>)
    requires b.Ok() && b.overtaken == {}
    modifies b
    ensures b.Ok() && Chain(b.devices, events, log, vs) && vs[0] == old(b.V()) && vs[|events|] == b.V()
    ensures Extends(old(b.arms), b.arms) && Outcomes(b.arms) == Outcomes(old(b.arms)) + Closings(log)
    ensures |b.arms| == Outcomes(b.arms) + |PendingSet(b.V())|
    ensures AllHeard(b.arms, |old(b.arms)|, old(b.armOf), log)
  {
    ghost var start := b.V();
    log, vs := [], [start];
    var arming: set<RequestId> := {};
    for i := 0 to |events|
      invariant b.Ok() && Chain(b.devices, events[..i], log, vs) && vs[0] == start && vs[i] == b.V()
      invariant SoFar(start, b.V(), b.overtaken, arming, log)
    {
      var m;
      ghost var l := log;
      m, arming := Step(b, events[i], arming, start, log);
      ChainNext(b.devices, events, l, vs, i, m, b.V());
      log, vs := log + [m], vs + [b.V()];
    }
    assert events[..|events|] == events;
    ArmsAreAccountedFor(b.V());
  }

  method Step(b: BlockQueues, e: Event, arming: set<RequestId>, ghost start: View, ghost log: seq<Mark>)
    returns (m: Mark, now: set<RequestId>)
    requires b.Ok() && SoFar(start, b.V(), b.overtaken, arming, log)
    modifies b
    ensures b.Ok() && Happens(b.devices, log, old(b.V()), e, m, b.V())
    ensures SoFar(start, b.V(), b.overtaken, now, log + [m])
  {
    ghost var v, over := b.V(), b.overtaken;
    if e.Begun? || e.StoredBy? { assert AgreeAt(v, over, arming, PhaseOf(log, e.r), e.r); }
    if Proper(b.requests, b.queues, (e.Begun? || e.StoredBy?) && e.r in arming, e) {
      BusyIsProper(b.requests, b.queues, Busy(log, e), e);
      m, now := Perform(b, e, arming, log);
      SoFarNext(b.devices, start, v, arming, over, log, e, m, b.V(), b.overtaken, now);
    } else {
      m, now := Skipped, arming;
      SkippedNext(start, v, over, arming, log);
    }
  }

  // Two runs that go wrong.

  /** A cancellation between the two halves of arming: the arm's outcome is that
      it was cancelled, and the waiter is told that it would block. */
  method CancelledBeforeStored(b: BlockQueues, r: RequestId) returns (cancelled: Status, told: Status)
    requires b.Ok() && Proper(b.requests, b.queues, false, Begun(r, true))
    requires ArmResult(b.devices, b.queues, b.requests[r], true).Success?
    modifies b
    ensures cancelled.Success? && told.WouldBlock?
    ensures |b.arms| == |old(b.arms)| + 1 && b.arms[|old(b.arms)|].outcome == Some(Cancelled)
  {
    var begun, token := b.BeginArm(r, true);
    cancelled, told := CancelStoreCollect(b, r);
  }

  method CancelStoreCollect(b: BlockQueues, r: RequestId) returns (cancelled: Status, told: Status)
    requires b.Ok() && r in b.requests && b.requests[r].state.Pending? && r in b.armOf && b.armOf[r] < |b.arms|
    modifies b
    ensures cancelled.Success? && told.WouldBlock?
    ensures |b.arms| == |old(b.arms)| && b.arms[old(b.armOf)[r]].outcome == Some(Cancelled)
  {
    var faulted;
    faulted, cancelled := b.Cancel(r);
    b.StoreStatus(r);
    told := b.Collect(r);
  }

  /** One sector of one device is enough for it. */
  method OneRequestMisled(x: Request) returns (told: Status, b: BlockQueues)
    requires x.device == 0 && x.operation.Read? && x.lba == 0 && x.sectorCount == 1 && x.hasBuffer && x.bufferLen == 512
    requires !x.queued && !x.state.Pending?
    ensures told.WouldBlock? && |b.arms| == 1 && b.arms[0].outcome == Some(Cancelled)
  {
    b := new BlockQueues(map[0 := Device(512, 1, true, false)], map[0 := x]);
    var cancelled;
    cancelled, told := CancelledBeforeStored(b, 0);
  }

  /** With eight devices served, cancelling a request for a ninth goes wrong. */
  method NinthDeviceFaults(x: Request) returns (b: BlockQueues, faulted: bool)
    requires !x.queued && !x.state.Pending?
    ensures faulted
  {
    b := new BlockQueues(map[], map[0 := x.(device := MAX_QUEUES)]);
    var d := 0;
    while d < MAX_QUEUES
      invariant d <= MAX_QUEUES && b.Ok() && fresh(b) && b.requests == map[0 := x.(device := MAX_QUEUES)]
      invariant (forall q :: q in b.queues ==> q < d) && |b.queues| == d
    {
      var found := b.QueueFor(d);
      d := d + 1;
    }
    var s;
    faulted, s := b.Cancel(0);
  }
}

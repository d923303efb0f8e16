/**
 The critical sections of the block request queues, as methods that update the
 queues and requests in place.
 */
module BlockQueues {
  import opened Common
  import opened BlockRequests
  import opened BlockIo

  /** A completion that the queue will accept: an allowed status and the token
      of the arm that the slot's occupant is pending on. */
  ghost predicate Acceptable(v: View, t: Token, s: Status) {
    && CompletionAllowed(s) && t.device in v.queues && t.slot < CAPACITY && |v.queues[t.device].slots| == CAPACITY
    && v.queues[t.device].slots[t.slot] == Some(t.request) && |v.queues[t.device].generations| == CAPACITY
    && v.queues[t.device].generations[t.slot] == t.generation
    && t.request in v.requests && v.requests[t.request].state.Pending?
  }

  /** `r` went from no queue into a free slot of its device under `t`. */
  ghost predicate Placed(v: View, u: View, r: RequestId, t: Token) {
    && r in v.requests && v.requests[r].device in v.queues && t.request == r && t.device == v.requests[r].device
    && t.slot < CAPACITY && ShapeOk(v, t.device) && v.queues[t.device].slots[t.slot].None?
    && v.queues[t.device].generations[t.slot] < U32 && u == Enqueued(v, r, t.slot)
  }

  /** Exactly the arm that `r` was pending on got the outcome `s`. */
  ghost predicate Settles(v: View, u: View, r: RequestId, s: Status) {
    && r in v.requests && v.requests[r].state.Pending? && r in v.armOf && v.armOf[r] < |v.arms|
    && v.arms[v.armOf[r]].token.request == r && v.arms[v.armOf[r]].outcome.None?
    && u.arms == v.arms[v.armOf[r] := Arm(v.arms[v.armOf[r]].token, Some(s))]
    && u.requests.Keys == v.requests.Keys && (forall x :: x in v.requests && x != r ==> u.requests[x] == v.requests[x])
    && Terminal(u.requests[r].state) && u.requests[r].status == s && u.requests[r].device == v.requests[r].device
  }

  lemma SettlesExtends(v: View, u: View, r: RequestId, s: Status)
    requires Settles(v, u, r, s)
    ensures Extends(v.arms, u.arms)
  {
  }

  lemma AcceptedArm(v: View, t: Token)
    requires Inv(v) && Acceptable(v, t, Success)
    ensures t.request in v.armOf && v.armOf[t.request] < |v.arms| && v.arms[v.armOf[t.request]].token == t
  {
    assert ShapeOk(v, t.device) && SlotOk(v, t.device, t.slot);
  }

  /** Once the arm of a token has its outcome, whatever it was, that token is
      never accepted again, so no stale token completes a later occupant of its
      slot: not while the slot has been used fewer than 2^32 - 1 times. */
  lemma TokenIsSpent(v: View, a: nat, s: Status)
    requires Inv(v) && a < |v.arms| && v.arms[a].outcome.Some?
    requires Uses(v.arms, v.arms[a].token.device, v.arms[a].token.slot) < U32 - 1
    ensures !Acceptable(v, v.arms[a].token, s)
  {
    var t := v.arms[a].token;
    if Acceptable(v, t, s) {
      AcceptedArm(v, t);
      PendingHolds(v, t.request);
      var b := v.armOf[t.request];
      TokensAreUnique(v, if a < b then a else b, if a < b then b else a);
    }
  }

  /** The queue of `d` holds one request more. */
  ghost predicate Longer(before: map<DeviceId, Queue>, after: map<DeviceId, Queue>, d: DeviceId) {
    d in after && after[d].active == 1 + if d in before then before[d].active else 0
  }

  /** The queue of `d` holds one request fewer. */
  ghost predicate Shorter(before: map<DeviceId, Queue>, after: map<DeviceId, Queue>, d: DeviceId) {
    d in before && d in after && after[d].active == before[d].active - 1
  }

  lemma SameDevice(v: View, r: RequestId, t: Token)
    requires Inv(v) && Acceptable(v, t, Success) && t.request == r
    ensures v.requests[r].device == t.device && v.requests[r].queued
  {
    assert ShapeOk(v, t.device) && SlotOk(v, t.device, t.slot);
  }

  lemma Collectable(v: View, r: RequestId)
    requires Inv(v) && r in v.requests && v.requests[r].queued
    ensures v.requests[r].device in v.queues
  {
    assert RequestOk(v, r);
  }

  /** The sizes of the devices fit their fields. */
  predicate Bounded(devices: map<DeviceId, Device>) {
    forall d :: d in devices ==> devices[d].sectorSize < U32 && devices[d].totalSectors < WORD
  }

  predicate Sound(x: Request) { x.lba < WORD && x.sectorCount < U32 && x.bufferLen < WORD }

  /** Whether the fields of a request are right for its device. */
  function Verdict(devices: map<DeviceId, Device>, x: Request): Status
    requires Bounded(devices) && Sound(x)
  {
    var known := x.device in devices;
    Validate(x, known, if known then devices[x.device] else Device(0, 0, false, false))
  }

  /** How arming a request ends: it succeeds exactly when the request is valid,
      the caller can wait, and the queue of the device is not full or can still be made. */
  function ArmResult(devices: map<DeviceId, Device>, queues: map<DeviceId, Queue>, x: Request, canBlock: bool)
    : (s: Status)
    requires Bounded(devices) && Sound(x)
    ensures s.Success? <==>
              && canBlock && Verdict(devices, x).Success?
              && if x.device in queues then queues[x.device].active < CAPACITY else |queues| < MAX_QUEUES
  {
    var verdict := Verdict(devices, x);
    if !verdict.Success? then verdict
    else if !canBlock then WouldBlock
    else SlotResult(queues, x.device)
  }

  function SlotResult(queues: map<DeviceId, Queue>, d: DeviceId): (s: Status) {
    if d !in queues then if |queues| < MAX_QUEUES then Success else InvalidRequest
    else if queues[d].active < CAPACITY then Success else QueueFull
  }

  /** What a driver does with a request: it works it off and reports a status, it
      refuses to start it, or it never reports in time. */
  datatype Driver = Works(final: Status) | Refuses(cause: Status) | Stalls

  /** What the submitter then gets; a status that no completion may carry is turned down. */
  function ResultOf(d: Driver): Status {
    match d
    case Works(final) => if CompletionAllowed(final) then final else CompletionRejected
    case Refuses(cause) => cause
    case Stalls => PendingTimeout
  }

  /** What a waiter is told: the outcome, unless that was written over. */
  predicate Answer(outcome: Status, s: Status, overtaken: bool) { s == if overtaken then WouldBlock else outcome }

  class BlockQueues {
    const devices: map<DeviceId, Device>
    var requests: map<RequestId, Request>
    var queues: map<DeviceId, Queue>
    var terminals: nat
    var rejections: nat
    ghost var arms: seq<Arm>
    ghost var armOf: map<RequestId, nat>
    /** Submissions turned down before they were armed. */
    ghost var refused: nat
    /** Requests whose status was written over after their outcome was published. */
    ghost var overtaken: set<RequestId>

    ghost function V(): View
      reads this
    {
      View(requests, queues, arms, armOf)
    }

    ghost predicate Ok()
      reads this
    {
      && Inv(V()) && AllTold(V(), overtaken) && terminals == refused + Outcomes(arms)
      && Bounded(devices)
    }

    constructor (devices: map<DeviceId, Device>, requests: map<RequestId, Request>)
      requires Bounded(devices)
      requires forall r :: r in requests ==> !requests[r].queued && !requests[r].state.Pending?
      ensures Ok() && this.devices == devices && this.requests == requests && queues == map[] && arms == []
      ensures armOf == map[] && overtaken == {}
    {
      this.devices, this.requests, queues := devices, requests, map[];
      terminals, rejections := 0, 0;
      arms, armOf, refused, overtaken := [], map[], 0, {};
    }

    /** The queue of a device, made on first use; there is room for eight. */
    method QueueFor(d: DeviceId) returns (found: bool)
      requires Ok()
      modifies this`queues
      ensures Ok() && found == (d in old(queues) || |old(queues)| < MAX_QUEUES)
      ensures queues == if d !in old(queues) && found then old(queues)[d := EmptyQueue()] else old(queues)
    {
      if d in queues { return true; }
      if |queues| == MAX_QUEUES { return false; }
      ghost var v := V();
      NewQueueKeeps(v, d);
      queues := queues[d := EmptyQueue()];
      SameTells(v, overtaken, V());
      return true;
    }

    /** The first free slot, or CAPACITY. */
    method FirstFree(slots: seq<Option<RequestId>>) returns (i: nat)
      requires |slots| == CAPACITY
      ensures i <= CAPACITY && (i < CAPACITY ==> slots[i].None?) && forall j :: 0 <= j < i ==> slots[j].Some?
    {
      i := 0;
      while i < CAPACITY
        invariant i <= CAPACITY && forall j :: 0 <= j < i ==> slots[j].Some?
      {
        if slots[i].None? { return; }
        i := i + 1;
      }
    }

    /** Put a prepared request into the free slot `i` under a new generation. */
    method Place(r: RequestId, i: nat) returns (token: Token)
      requires r in requests && requests[r].device in queues
      requires i < |queues[requests[r].device].slots| && i < |queues[requests[r].device].generations|
      requires queues[requests[r].device].generations[i] < U32
      modifies this`requests, this`queues, this`arms, this`armOf
      ensures V() == Enqueued(old(V()), r, i)
      ensures token == Token(r, old(requests)[r].device, i,
                NextGeneration(old(queues)[old(requests)[r].device].generations[i]))
    {
      var d := requests[r].device;
      var q := queues[d];
      var g := NextGeneration(q.generations[i]);
      token := Token(r, d, i, g);
      queues := queues[d := Queue(q.slots[i := Some(r)], q.generations[i := g], q.active + 1)];
      requests := requests[r := requests[r].(slot := i, generation := g, queued := true, state := Pending,
          reason := NoReason,
                                             rejection := NotRejected)];
      armOf := armOf[r := |arms|];
      arms := arms + [Arm(token, None)];
    }

    /** Queue a prepared request, unless all slots are taken. */
    method Enqueue(r: RequestId) returns (s: Status, token: Token)
      requires Ok() && r in requests && !requests[r].queued && requests[r].device in queues && r !in overtaken
      modifies this`requests, this`queues, this`arms, this`armOf
      ensures Ok() && (s.Success? || s.QueueFull?)
      ensures s.Success? <==> old(queues[requests[r].device].active) < CAPACITY
      ensures s.QueueFull? ==> V() == old(V())
      ensures s.Success? ==> arms == old(arms) + [Arm(token, None)] && Placed(old(V()), V(), r, token)
      ensures s.Success? ==> forall j :: 0 <= j < token.slot ==> old(queues[requests[r].device].slots)[j].Some?
    {
      token := Token(r, requests[r].device, NO_SLOT, 0);
      ghost var v := V();
      var q := queues[requests[r].device];
      assert ShapeOk(v, requests[r].device);
      OccupiedFull(q.slots);
      if q.active >= CAPACITY { return QueueFull, token; }
      var i := FirstFree(q.slots);
      if i == CAPACITY { return QueueFull, token; }
      EnqueueKeeps(v, r, i);
      EnqueueTells(v, overtaken, r, i);
      token := Place(r, i);
      OutcomesAppend(v.arms, Arm(token, None));
      s := Success;
    }

    /** A submission is turned down; the request says why. */
    method Refuse(r: RequestId, s: Status)
      requires Ok() && r in requests && !requests[r].queued && r !in overtaken
      modifies this`requests, this`terminals, this`refused
      ensures Ok() && queues == old(queues) && arms == old(arms) && terminals == old(terminals) + 1
      ensures r in requests && requests == old(requests)[r := requests[r]]
      ensures requests[r].status == s && requests[r].state.Invalid? && !requests[r].queued
    {
      var y := requests[r].(status := s, state := Invalid, reason := ReasonFor(s));
      TouchKeeps(V(), r, y);
      TouchTells(V(), overtaken, r, y, overtaken);
      requests := requests[r := y];
      terminals := terminals + 1;
      refused := refused + 1;
    }

    /** Validate and arm a request that is in no queue, with nothing in between:
        on success it is pending under a new token and not yet settled. */
    method ArmPending(r: RequestId, canBlock: bool) returns (s: Status, token: Token)
      requires Ok() && r in requests && !requests[r].queued
      requires Sound(requests[r])
      modifies this
      ensures Ok() && Extends(old(arms), arms) && overtaken == old(overtaken) - {r}
      ensures requests.Keys == old(requests).Keys && forall x :: x in requests && x != r ==>
                requests[x] == old(requests)[x]
      ensures s.Success? ==>
                && arms == old(arms) + [Arm(token, None)] && token.device == old(requests)[r].device
                && Arrived(r, token)
                && armOf == old(armOf)[r := |old(arms)|] && Longer(old(queues), queues, token.device)
                && requests[r].status.WouldBlock?
      ensures !s.Success? ==>
                arms == old(arms) && !requests[r].queued && requests[r].state.Invalid? && requests[r].status == s
      ensures !s.Success? ==> armOf == old(armOf)
      ensures s == ArmResult(devices, old(queues), old(requests)[r], canBlock)
    {
      s, token := BeginArm(r, canBlock);
      if s.Success? { StoreStatus(r); }
    }

    /** What arming does last, after the lock is released: the request is marked
        as not finished, whatever has become of it meanwhile. */
    method StoreStatus(r: RequestId)
      requires Ok() && r in requests
      modifies this`requests, this`overtaken
      ensures Ok() && requests == old(requests)[r := old(requests)[r].(status := WouldBlock)]
      ensures overtaken == if Terminal(old(requests)[r].state) && r in armOf then old(overtaken) + {r}
              else old(overtaken)
    {
      var y := requests[r].(status := WouldBlock);
      ghost var after := if Terminal(y.state) && r in armOf then overtaken + {r} else overtaken;
      assert RequestOk(V(), r);
      TouchKeeps(V(), r, y);
      TouchTells(V(), overtaken, r, y, after);
      requests := requests[r := y];
      overtaken := after;
    }

    /** Validate a request that is in no queue and queue it.  On success it is
        pending under a new token; otherwise it is in no queue and nothing was armed. */
    method BeginArm(r: RequestId, canBlock: bool) returns (s: Status, token: Token)
      requires Ok() && r in requests && !requests[r].queued
      requires Sound(requests[r])
      modifies this
      ensures Ok() && Extends(old(arms), arms) && overtaken == old(overtaken) - {r}
      ensures requests.Keys == old(requests).Keys && forall x :: x in requests && x != r ==>
                requests[x] == old(requests)[x]
      ensures s.Success? ==>
                && arms == old(arms) + [Arm(token, None)] && token.device == old(requests)[r].device
                && Arrived(r, token)
                && armOf == old(armOf)[r := |old(arms)|] && Longer(old(queues), queues, token.device)
      ensures !s.Success? ==>
                arms == old(arms) && !requests[r].queued && requests[r].state.Invalid? && requests[r].status == s
      ensures !s.Success? ==> armOf == old(armOf)
      ensures s == ArmResult(devices, old(queues), old(requests)[r], canBlock)
    {
      token := Token(r, requests[r].device, NO_SLOT, 0);
      s := Prepare(r);
      if s.Success? { s, token := Join(r, canBlock); } else { Refuse(r, s); }
    }

    /** A valid request is queued if its caller can wait for it and there is room. */
    method Join(r: RequestId, canBlock: bool) returns (s: Status, token: Token)
      requires Ok() && r in requests && !requests[r].queued && r !in overtaken
      modifies this`requests, this`queues, this`arms, this`armOf, this`terminals, this`refused
      ensures Ok() && Extends(old(arms), arms)
      ensures requests.Keys == old(requests).Keys && forall x :: x in requests && x != r ==>
                requests[x] == old(requests)[x]
      ensures s.Success? ==>
                && arms == old(arms) + [Arm(token, None)] && token.device == old(requests)[r].device
                && Arrived(r, token)
                && armOf == old(armOf)[r := |old(arms)|] && Longer(old(queues), queues, token.device)
      ensures !s.Success? ==>
                arms == old(arms) && !requests[r].queued && requests[r].state.Invalid? && requests[r].status == s
      ensures !s.Success? ==> armOf == old(armOf)
      ensures s == if canBlock then SlotResult(old(queues), old(requests)[r].device) else WouldBlock
    {
      token := Token(r, requests[r].device, NO_SLOT, 0);
      s := WouldBlock;
      if canBlock { s, token := Admit(r); }
      if !s.Success? { Refuse(r, s); }
    }

    /** Validate a request and reset its outcome. */
    method Prepare(r: RequestId) returns (s: Status)
      requires Ok() && r in requests && !requests[r].queued
      requires Sound(requests[r])
      modifies this`requests, this`overtaken
      ensures Ok() && requests == old(requests)[r := Prepared(old(requests)[r], s)] && overtaken == old(overtaken) - {r}
      ensures s == Verdict(devices, old(requests)[r])
    {
      var q := requests[r];
      s := Verdict(devices, q);
      TouchKeeps(V(), r, Prepared(q, s));
      TouchTells(V(), overtaken, r, Prepared(q, s), overtaken - {r});
      requests := requests[r := Prepared(q, s)];
      overtaken := overtaken - {r};
    }

    /** Find the device's queue and a slot in it. */
    method Admit(r: RequestId) returns (s: Status, token: Token)
      requires Ok() && r in requests && !requests[r].queued && r !in overtaken
      modifies this`requests, this`queues, this`arms, this`armOf
      ensures Ok()
      ensures s.Success? ==>
                && arms == old(arms) + [Arm(token, None)] && token.device == old(requests)[r].device
                && Arrived(r, token)
                && armOf == old(armOf)[r := |old(arms)|] && Longer(old(queues), queues, token.device)
      ensures requests.Keys == old(requests).Keys && forall x :: x in requests && x != r ==>
                requests[x] == old(requests)[x]
      ensures !s.Success? ==> requests == old(requests) && arms == old(arms) && armOf == old(armOf)
      ensures s == SlotResult(old(queues), old(requests)[r].device)
    {
      var d := requests[r].device;
      token := Token(r, d, NO_SLOT, 0);
      var found := QueueFor(d);
      if !found { return InvalidRequest, token; }
      s, token := Enqueue(r);
      if s.Success? { assert ShapeOk(V(), d); }
    }

    /** `r` is pending in a queue and `token` would complete it. */
    ghost predicate Arrived(r: RequestId, token: Token)
      reads this
    {
      r in requests && requests[r].state.Pending? && requests[r].queued && token.request == r
        && Acceptable(V(), token, Success)
    }

    /** Publish the one outcome of a pending request. */
    method SetTerminal(r: RequestId, s: Status, why: Reason)
      requires Ok() && r in requests && requests[r].state.Pending?
      modifies this`requests, this`arms, this`terminals
      ensures Ok() && terminals == old(terminals) + 1 && Settles(old(V()), V(), r, s)
      ensures requests[r].queued && requests[r].device == old(requests)[r].device
              && requests[r].wakeIssued == old(requests)[r].wakeIssued
    {
      ghost var v := V();
      PublishKeeps(v, r, s, why);
      PublishTells(v, overtaken, r, s, why);
      PendingHolds(v, r);
      OutcomesUpdate(arms, armOf[r], Arm(arms[armOf[r]].token, Some(s)));
      requests := requests[r := Finished(requests[r], s, why)];
      arms := arms[armOf[r] := Arm(arms[armOf[r]].token, Some(s))];
      terminals := terminals + 1;
    }

    /** Give back the slot of a request that is no longer pending. */
    method ReleaseSlot(r: RequestId)
      requires Ok() && r in requests && !requests[r].state.Pending? && requests[r].device in queues
      modifies this`requests, this`queues
      ensures Ok()
      ensures requests == old(requests)[r := if old(requests)[r].queued then Unqueued(old(requests)[r])
                else old(requests)[r]]
      ensures queues.Keys == old(queues).Keys && forall d :: d in queues && d != old(requests)[r].device ==>
                queues[d] == old(queues)[d]
      ensures queues[old(requests)[r].device].active ==
                old(queues)[old(requests)[r].device].active - if old(requests)[r].queued then 1 else 0
    {
      ghost var v := V();
      ReleaseKeeps(v, r);
      assert RequestOk(v, r);
      var x := requests[r];
      if !x.queued { return; }
      var q := queues[x.device];
      assert ShapeOk(v, x.device);
      if x.slot < CAPACITY && q.slots[x.slot] == Some(r) {
        queues := queues[x.device := Queue(q.slots[x.slot := None], q.generations, if q.active > 0 then q.active - 1
            else 0)];
      }
      requests := requests[r := Unqueued(x)];
      ReleaseTells(v, overtaken, r, V());
    }

    method MarkWoken(r: RequestId)
      requires Ok() && r in requests && !requests[r].state.Pending?
      modifies this`requests
      ensures Ok() && requests == old(requests)[r := old(requests)[r].(wakeIssued := true)]
    {
      assert Told(V(), overtaken, r);
      TouchKeeps(V(), r, requests[r].(wakeIssued := true));
      TouchTells(V(), overtaken, r, requests[r].(wakeIssued := true), overtaken);
      requests := requests[r := requests[r].(wakeIssued := true)];
    }

    /** Why a completion with token `t` is turned down, if it is. */
    method Judge(t: Token) returns (why: Rejection)
      requires Ok() && t.device in queues && t.request in requests
      ensures why.NotRejected? <==> Acceptable(V(), t, Success)
      ensures !why.DeviceMismatch? && !why.RequestGenerationMismatch?
    {
      var q := queues[t.device];
      assert ShapeOk(V(), t.device);
      if t.slot >= CAPACITY { return InvalidSlot; }
      assert SlotOk(V(), t.device, t.slot);
      var x := requests[t.request];
      if q.slots[t.slot].None? {
        why := if q.generations[t.slot] == t.generation then LateCompletion else SlotReuseProtected;
      } else if q.slots[t.slot] != Some(t.request) {
        why := if q.generations[t.slot] == t.generation then RequestMismatch else SlotReuseProtected;
      } else if x.device != t.device {
        why := DeviceMismatch;
      } else if q.generations[t.slot] != t.generation {
        why := GenerationMismatch;
      } else if x.generation != t.generation {
        why := RequestGenerationMismatch;
      } else if !x.state.Pending? {
        why := if x.state.TimeoutOrCancelled? then LateCompletion else DuplicateCompletion;
      } else {
        why := NotRejected;
      }
    }

    /** A completion interrupt.  It is accepted exactly when its token is that of
        the arm the slot's occupant is pending on, and then settles that arm; a
        rejected one changes nothing but a diagnostic of the request it names. */
    method Complete(token: Option<Token>, final: Status) returns (s: Status)
      requires Ok() && (token.Some? ==> token.value.request in requests)
      modifies this`requests, this`arms, this`terminals, this`rejections
      ensures Ok() && Extends(old(arms), arms) && (s.Success? || s.CompletionRejected?)
      ensures s.Success? <==> token.Some? && old(Acceptable(V(), token.value, final))
      ensures s.Success? ==>
                && Settles(old(V()), V(), token.value.request, final)
                && old(arms)[old(armOf)[token.value.request]].token == token.value
                && requests[token.value.request].wakeIssued && requests[token.value.request].queued
                && terminals == old(terminals) + 1 && rejections == old(rejections)
      ensures !s.Success? ==>
                && arms == old(arms) && terminals == old(terminals) && rejections == old(rejections) + 1
                && (token.None? ==> requests == old(requests))
                && (token.Some? ==>
                      var r := token.value.request;
                      && r in requests
                      && requests == old(requests)[r := old(requests)[r].(rejection := requests[r].rejection)])
    {
      if token.None? || !CompletionAllowed(final) || token.value.device !in queues {
        rejections := rejections + 1;
        KeepRejection(token);
        return CompletionRejected;
      }
      var why := Judge(token.value);
      if !why.NotRejected? {
        Reject(token.value.request, why);
        s := CompletionRejected;
      } else {
        Accept(token.value, final);
        s := Success;
      }
    }

    method Reject(r: RequestId, why: Rejection)
      requires Ok() && r in requests
      modifies this`requests, this`rejections
      ensures Ok() && rejections == old(rejections) + 1
              && requests == old(requests)[r := old(requests)[r].(rejection := why)]
    {
      assert RequestOk(V(), r);
      assert Told(V(), overtaken, r);
      TouchKeeps(V(), r, requests[r].(rejection := why));
      TouchTells(V(), overtaken, r, requests[r].(rejection := why), overtaken);
      requests := requests[r := requests[r].(rejection := why)];
      rejections := rejections + 1;
    }

    method Accept(t: Token, final: Status)
      requires Ok() && Acceptable(V(), t, final)
      modifies this`requests, this`arms, this`terminals
      ensures Ok() && Extends(old(arms), arms) && terminals == old(terminals) + 1
      ensures Settles(old(V()), V(), t.request, final) && old(arms)[old(armOf)[t.request]].token == t
      ensures requests[t.request].wakeIssued && requests[t.request].queued
    {
      ghost var v := V();
      AcceptedArm(v, t);
      SetTerminal(t.request, final, ReasonFor(final));
      SettlesExtends(v, V(), t.request, final);
      if !requests[t.request].wakeIssued { MarkWoken(t.request); }
    }

    lemma KeepRejection(token: Option<Token>)
      requires token.Some? ==> token.value.request in requests
      ensures token.Some? ==>
                var r := token.value.request;
                requests == requests[r := requests[r].(rejection := requests[r].rejection)]
    {
    }

    /** A request still pending is settled with `s` and loses its slot. */
    method IssueOutcome(r: RequestId, s: Status, why: Reason) returns (now: Status)
      requires Ok() && r in requests && requests[r].device in queues
      modifies this`requests, this`queues, this`arms, this`terminals
      ensures Ok() && Extends(old(arms), arms) && r in requests && now == requests[r].status
      ensures old(requests)[r].state.Pending? ==>
                && Settles(old(V()), V(), r, s) && !requests[r].queued && terminals == old(terminals) + 1
                && Shorter(old(queues), queues, old(requests)[r].device)
      ensures !old(requests)[r].state.Pending? ==> V() == old(V()) && terminals == old(terminals)
    {
      ghost var v := V();
      if requests[r].state.Pending? {
        SetTerminal(r, s, why);
        SettlesExtends(v, V(), r, s);
        ReleaseSlot(r);
      }
      now := requests[r].status;
    }

    /** The deadline of a waiter passed.  A request still pending times out and
        loses its slot; one that was completed meanwhile keeps both. */
    method TimeOut(r: RequestId) returns (s: Status)
      requires Ok() && r in requests && requests[r].device in queues
      modifies this`requests, this`queues, this`arms, this`terminals
      ensures Ok() && Extends(old(arms), arms) && r in requests && s == requests[r].status
      ensures old(requests)[r].state.Pending? ==>
                Settles(old(V()), V(), r, PendingTimeout) && Shorter(old(queues), queues, old(requests)[r].device)
      ensures requests[r].queued <==> old(requests)[r].queued && !old(requests)[r].state.Pending?
      ensures !old(requests)[r].state.Pending? ==> V() == old(V())
    {
      assert RequestOk(V(), r);
      s := IssueOutcome(r, PendingTimeout, TimeoutReason);
    }

    /** The driver refused to start a request; if it is still pending it fails. */
    method IssueFailed(r: RequestId, cause: Status) returns (s: Status)
      requires Ok() && r in requests && requests[r].device in queues
      modifies this`requests, this`queues, this`arms, this`terminals
      ensures Ok() && Extends(old(arms), arms) && r in requests && s == requests[r].status
      ensures old(requests)[r].state.Pending? ==>
                Settles(old(V()), V(), r, cause) && !requests[r].queued
                  && Shorter(old(queues), queues, old(requests)[r].device)
      ensures !old(requests)[r].state.Pending? ==> V() == old(V())
    {
      s := IssueOutcome(r, cause, IssueFailureReason);
    }

    /** Cancel a request if it is still pending.  With the table of queues full
        and none of them the device's, the code goes on with no queue at all:
        that is the fault, and it never befalls a pending request. */
    method Cancel(r: RequestId) returns (faulted: bool, s: Status)
      requires Ok() && r in requests
      modifies this`requests, this`queues, this`arms, this`terminals, this`rejections
      ensures Ok() && Extends(old(arms), arms)
      ensures faulted <==> old(requests)[r].device !in old(queues) && |old(queues)| == MAX_QUEUES
      ensures faulted ==>
                V() == old(V()) && !requests[r].state.Pending? && s.InvalidRequest? && rejections == old(rejections)
      ensures !faulted ==> s.Success? || s.CompletionRejected?
      ensures s.Success? <==> old(requests)[r].state.Pending?
      ensures s.Success? ==>
                && Settles(old(V()), V(), r, Cancelled) && !requests[r].queued && requests[r].wakeIssued
                && terminals == old(terminals) + 1 && requests[r].device in queues
      ensures s.CompletionRejected? ==>
                requests == old(requests) && arms == old(arms) && terminals == old(terminals)
                  && rejections == old(rejections) + 1
    {
      assert RequestOk(V(), r);
      var found := QueueFor(requests[r].device);
      if !found { return true, InvalidRequest; }
      faulted := false;
      if !requests[r].state.Pending? {
        rejections := rejections + 1;
        return false, CompletionRejected;
      }
      CancelNow(r);
      s := Success;
    }

    method CancelNow(r: RequestId)
      requires Ok() && r in requests && requests[r].state.Pending? && requests[r].device in queues
      modifies this`requests, this`queues, this`arms, this`terminals
      ensures Ok() && Extends(old(arms), arms) && Settles(old(V()), V(), r, Cancelled)
      ensures !requests[r].queued && requests[r].wakeIssued && terminals == old(terminals) + 1
              && requests[r].device in queues
    {
      var s := IssueOutcome(r, Cancelled, CancelledReason);
      if !requests[r].wakeIssued { MarkWoken(r); }
    }

    /** A waiter finds its request finished, and gives the slot back. */
    method Collect(r: RequestId) returns (s: Status)
      requires Ok() && r in requests && requests[r].device in queues && Terminal(requests[r].state)
      modifies this`requests, this`queues
      ensures Ok() && r in requests && s == old(requests)[r].status && !requests[r].queued && arms == old(arms)
      ensures r in armOf ==>
              armOf[r] < |arms| && arms[armOf[r]].outcome.Some?
                && Answer(arms[armOf[r]].outcome.value, s, r in overtaken)
      ensures requests == old(requests)[r := requests[r]] && requests[r].state == old(requests)[r].state
      ensures queues.Keys == old(queues).Keys
      ensures queues[old(requests)[r].device].active
              == old(queues)[old(requests)[r].device].active - if old(requests)[r].queued then 1 else 0
    {
      assert Told(V(), overtaken, r);
      ReleaseSlot(r);
      s := requests[r].status;
    }

    /** Submit and wait.  Either nothing was armed, or exactly one outcome was
        published and the caller gets it; the device's queue then holds as many
        requests as before. */
    method SubmitSync(r: RequestId, canBlock: bool, driver: Driver) returns (s: Status)
      requires Ok() && r in requests && !requests[r].queued
      requires Sound(requests[r])
      modifies this
      ensures Ok() && Extends(old(arms), arms) && r in requests && !requests[r].queued
      ensures arms == old(arms)
              || (|arms| == |old(arms)| + 1 && arms[|old(arms)|].outcome == Some(ResultOf(driver))
                   && s == ResultOf(driver))
      ensures arms == old(arms) ==> requests[r].state.Invalid? && requests[r].status == s
      ensures var armed := ArmResult(devices, old(queues), old(requests)[r], canBlock);
              (arms != old(arms) <==> armed.Success?) && (arms == old(arms) ==> s == armed)
      ensures arms != old(arms) && old(requests)[r].device in old(queues) ==>
                old(requests)[r].device in queues
                  && queues[old(requests)[r].device].active == old(queues)[old(requests)[r].device].active
    {
      var token;
      s, token := ArmPending(r, canBlock);
      if s.Success? { s := Finish(r, token, driver); }
    }

    /** The driver deals with the request it was just given, and the caller sees what came of it. */
    method Finish(r: RequestId, token: Token, driver: Driver) returns (s: Status)
      requires Ok() && Arrived(r, token) && r in armOf && armOf[r] < |arms|
      modifies this`requests, this`queues, this`arms, this`terminals, this`rejections
      ensures Ok() && r in requests && !requests[r].queued && s == ResultOf(driver)
      ensures arms == old(arms)[old(armOf)[r] := Arm(old(arms)[old(armOf)[r]].token, Some(s))]
      ensures Shorter(old(queues), queues, token.device)
    {
      SameDevice(V(), r, token);
      match driver {
        case Works(final) =>
          var accepted := Complete(Some(token), final);
          if accepted.Success? {
            Collectable(V(), r);
            s := Collect(r);
          } else {
            s := IssueFailed(r, accepted);
          }
        case Refuses(cause) =>
          s := IssueFailed(r, cause);
        case Stalls =>
          s := TimeOut(r);
      }
    }
  }
}

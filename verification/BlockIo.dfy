/**
 The block request protocol.  Every change is one critical section of a queue
 lock, one lock-free read of a waiter, or the status store that arming makes
 after it has let go of the lock, so any interleaving of arming, completion,
 cancellation, timeout and issue failure is a sequence of these.  `arms` records
 every accepted arm and the outcome published for it.
 */
module BlockIo {
  import opened Common
  import opened BlockRequests

  /** One accepted arm of a request: the token it was given and its outcome. */
  datatype Arm = Arm(token: Token, outcome: Option<Status>)

  /** How often a slot has been used. */
  ghost function Uses(arms: seq<Arm>, d: DeviceId, i: nat): nat {
    if arms == [] then 0
    else Uses(arms[..|arms| - 1], d, i)
         + if arms[|arms| - 1].token.device == d && arms[|arms| - 1].token.slot == i then 1 else 0
  }

  datatype View = View(requests: map<RequestId, Request>, queues: map<DeviceId, Queue>, arms: seq<Arm>,
                       armOf: map<RequestId, nat>)

  predicate ShapeOk(v: View, d: DeviceId)
    requires d in v.queues
  {
    var q := v.queues[d];
    |q.slots| == CAPACITY && |q.generations| == CAPACITY && q.active == Occupied(q.slots)
  }

  /** An occupied slot agrees with the request in it and with the arm that put it there. */
  predicate SlotOk(v: View, d: DeviceId, i: nat)
    requires d in v.queues && i < |v.queues[d].slots| && i < |v.queues[d].generations|
  {
    var q := v.queues[d];
    q.slots[i].Some? ==>
      var r := q.slots[i].value;
      && r in v.requests && v.requests[r].queued && v.requests[r].slot == i && v.requests[r].device == d
      && v.requests[r].generation == q.generations[i]
      && r in v.armOf && v.armOf[r] < |v.arms| && v.arms[v.armOf[r]].token == Token(r, d, i, q.generations[i])
  }

  /** A queued request sits in its slot; it is Pending exactly until its arm has an outcome. */
  predicate RequestOk(v: View, r: RequestId)
    requires r in v.requests
  {
    var q := v.requests[r];
    && (q.state.Pending? ==> q.queued)
    && (q.queued ==>
          && q.device in v.queues && q.slot < CAPACITY && |v.queues[q.device].slots| == CAPACITY
          && v.queues[q.device].slots[q.slot] == Some(r)
          && r in v.armOf && v.armOf[r] < |v.arms|
          && (q.state.Pending? <==> v.arms[v.armOf[r]].outcome.None?)
          && (!q.state.Pending? ==> Terminal(q.state)))
  }

  predicate ArmOk(v: View, a: nat)
    requires a < |v.arms|
  {
    var r := v.arms[a].token.request;
    v.arms[a].outcome.None? ==> r in v.requests && v.requests[r].state.Pending? && r in v.armOf && v.armOf[r] == a
  }

  ghost predicate GenerationOk(v: View, a: nat)
    requires a < |v.arms|
  {
    var t := v.arms[a].token;
    t.device in v.queues && t.slot < CAPACITY && t.generation == GenerationAt(Uses(v.arms[..a], t.device, t.slot) + 1)
  }

  ghost predicate CounterOk(v: View, d: DeviceId, i: nat)
    requires d in v.queues && i < |v.queues[d].generations|
  {
    v.queues[d].generations[i] == GenerationAt(Uses(v.arms, d, i))
  }

  ghost predicate Inv(v: View) {
    && |v.queues| <= MAX_QUEUES
    && (forall d {:trigger ShapeOk(v, d)} :: d in v.queues ==> ShapeOk(v, d))
    && (forall d, i {:trigger SlotOk(v, d, i)} :: d in v.queues && ShapeOk(v, d) && 0 <= i < CAPACITY ==>
         SlotOk(v, d, i))
    && (forall d, i {:trigger CounterOk(v, d, i)} :: d in v.queues && ShapeOk(v, d) && 0 <= i < CAPACITY ==>
         CounterOk(v, d, i))
    && (forall r {:trigger RequestOk(v, r)} :: r in v.requests ==> RequestOk(v, r))
    && (forall a {:trigger ArmOk(v, a)} :: 0 <= a < |v.arms| ==> ArmOk(v, a))
    && (forall a {:trigger GenerationOk(v, a)} :: 0 <= a < |v.arms| ==> GenerationOk(v, a))
  }

  // The changes the critical sections make.

  function Enqueued(v: View, r: RequestId, i: nat): View
    requires r in v.requests && v.requests[r].device in v.queues
    requires i < |v.queues[v.requests[r].device].slots| && i < |v.queues[v.requests[r].device].generations|
    requires v.queues[v.requests[r].device].generations[i] < U32
  {
    var q := v.requests[r];
    var k := v.queues[q.device];
    var g := NextGeneration(k.generations[i]);
    View(v.requests[r := q.(slot := i, generation := g, queued := true, state := Pending, reason := NoReason,
                            rejection := NotRejected)],
         v.queues[q.device := Queue(k.slots[i := Some(r)], k.generations[i := g], k.active + 1)],
         v.arms + [Arm(Token(r, q.device, i, g), None)],
         v.armOf[r := |v.arms|])
  }

  /** The request is published as finished; its slot is kept or released. */
  function Published(v: View, r: RequestId, s: Status, why: Reason): View
    requires r in v.requests && r in v.armOf && v.armOf[r] < |v.arms|
  {
    var a := v.armOf[r];
    View(v.requests[r := Finished(v.requests[r], s, why)], v.queues,
         v.arms[a := Arm(v.arms[a].token, Some(s))], v.armOf)
  }

  function Released(v: View, r: RequestId): View
    requires r in v.requests && v.requests[r].device in v.queues
    requires v.requests[r].queued ==>
               v.requests[r].slot < |v.queues[v.requests[r].device].slots| && v.queues[v.requests[r].device].active > 0
  {
    var q := v.requests[r];
    var k := v.queues[q.device];
    if !q.queued then v
    else View(v.requests[r := Unqueued(q)],
              v.queues[q.device := Queue(k.slots[q.slot := None], k.generations, k.active - 1)], v.arms, v.armOf)
  }

  lemma {:induction false} UsesAppend(arms: seq<Arm>, x: Arm, d: DeviceId, i: nat)
    ensures Uses(arms + [x], d, i) == Uses(arms, d, i) + if x.token.device == d && x.token.slot == i then 1 else 0
  {
    assert (arms + [x])[..|arms|] == arms;
  }

  lemma {:induction false} UsesOutcome(arms: seq<Arm>, a: nat, o: Option<Status>, d: DeviceId, i: nat)
    requires a < |arms|
    ensures Uses(arms[a := Arm(arms[a].token, o)], d, i) == Uses(arms, d, i)
  {
    var n := |arms| - 1;
    var b := arms[a := Arm(arms[a].token, o)];
    if a < n {
      UsesOutcome(arms[..n], a, o, d, i);
      assert b[..n] == arms[..n][a := Arm(arms[a].token, o)];
    } else {
      assert b[..n] == arms[..n];
    }
  }

  /** The request can go into the free slot `i` of its device's queue. */
  ghost predicate Enqueueable(v: View, r: RequestId, i: nat) {
    && Inv(v) && r in v.requests && !v.requests[r].queued && v.requests[r].device in v.queues && i < CAPACITY
    && ShapeOk(v, v.requests[r].device) && v.queues[v.requests[r].device].slots[i].None?
    && CounterOk(v, v.requests[r].device, i) && v.queues[v.requests[r].device].generations[i] < U32
  }

  lemma EnqueueSlots(v: View, r: RequestId, i: nat, e: DeviceId, j: nat)
    requires Enqueueable(v, r, i) && e in v.queues && j < CAPACITY
    ensures ShapeOk(Enqueued(v, r, i), e) && SlotOk(Enqueued(v, r, i), e, j) && CounterOk(Enqueued(v, r, i), e, j)
  {
    var d, u := v.requests[r].device, Enqueued(v, r, i);
    OccupiedUpdate(v.queues[d].slots, i, Some(r));
    NextIsNext(Uses(v.arms, d, i));
    assert RequestOk(v, r);
    assert ShapeOk(v, e) && SlotOk(v, e, j) && CounterOk(v, e, j);
    UsesAppend(v.arms, u.arms[|v.arms|], e, j);
  }

  lemma EnqueueArms(v: View, r: RequestId, i: nat, a: nat)
    requires Enqueueable(v, r, i) && a <= |v.arms|
    ensures ArmOk(Enqueued(v, r, i), a) && GenerationOk(Enqueued(v, r, i), a)
  {
    var u := Enqueued(v, r, i);
    NextIsNext(Uses(v.arms, v.requests[r].device, i));
    assert RequestOk(v, r);
    if a < |v.arms| {
      assert ArmOk(v, a) && GenerationOk(v, a);
      assert u.arms[..a] == v.arms[..a];
    } else {
      assert u.arms[..a] == v.arms;
    }
  }

  lemma EnqueueKeeps(v: View, r: RequestId, i: nat)
    requires Inv(v) && r in v.requests && !v.requests[r].queued && v.requests[r].device in v.queues && i < CAPACITY
    requires ShapeOk(v, v.requests[r].device) && v.queues[v.requests[r].device].slots[i].None?
    ensures v.queues[v.requests[r].device].generations[i] < U32 && Inv(Enqueued(v, r, i))
  {
    var d := v.requests[r].device;
    assert CounterOk(v, d, i);
    NextIsNext(Uses(v.arms, d, i));
    var u := Enqueued(v, r, i);
    forall e | e in u.queues ensures ShapeOk(u, e) { EnqueueSlots(v, r, i, e, 0); }
    forall e, j | e in u.queues && 0 <= j < CAPACITY ensures SlotOk(u, e, j) && CounterOk(u, e, j) {
      EnqueueSlots(v, r, i, e, j);
    }
    forall r' | r' in u.requests ensures RequestOk(u, r') { assert RequestOk(v, r'); }
    forall a | 0 <= a < |u.arms| ensures ArmOk(u, a) && GenerationOk(u, a) { EnqueueArms(v, r, i, a); }
  }

  lemma PublishKeeps(v: View, r: RequestId, s: Status, why: Reason)
    requires Inv(v) && r in v.requests && v.requests[r].state.Pending?
    ensures v.requests[r].queued && r in v.armOf && v.armOf[r] < |v.arms| && v.arms[v.armOf[r]].outcome.None?
    ensures Inv(Published(v, r, s, why))
  {
    assert RequestOk(v, r);
    var u, a := Published(v, r, s, why), v.armOf[r];
    var q := v.requests[r];
    assert ShapeOk(v, q.device) && SlotOk(v, q.device, q.slot);
    forall e | e in u.queues ensures ShapeOk(u, e) { assert ShapeOk(v, e); }
    forall e, j | e in u.queues && 0 <= j < CAPACITY ensures SlotOk(u, e, j) && CounterOk(u, e, j) {
      assert ShapeOk(v, e) && SlotOk(v, e, j) && CounterOk(v, e, j);
      UsesOutcome(v.arms, a, Some(s), e, j);
    }
    forall r' | r' in u.requests ensures RequestOk(u, r') {
      assert RequestOk(v, r');
      if r' != r && v.requests[r'].queued { DistinctArms(v, r, r'); }
    }
    forall b | 0 <= b < |u.arms| ensures ArmOk(u, b) && GenerationOk(u, b) {
      assert ArmOk(v, b) && GenerationOk(v, b);
      if b <= a {
        assert u.arms[..b] == v.arms[..b];
      } else {
        UsesOutcome(v.arms[..b], a, Some(s), v.arms[b].token.device, v.arms[b].token.slot);
        assert u.arms[..b] == v.arms[..b][a := Arm(v.arms[a].token, Some(s))];
      }
    }
  }

  lemma DistinctArms(v: View, r: RequestId, r': RequestId)
    requires Inv(v) && r in v.requests && r' in v.requests && r != r' && v.requests[r].queued && v.requests[r'].queued
    ensures r in v.armOf && r' in v.armOf && v.armOf[r] != v.armOf[r']
  {
    var q, q' := v.requests[r], v.requests[r'];
    assert RequestOk(v, r) && RequestOk(v, r');
    assert ShapeOk(v, q.device) && ShapeOk(v, q'.device);
    assert SlotOk(v, q.device, q.slot) && SlotOk(v, q'.device, q'.slot);
  }

  lemma ReleaseSlots(v: View, r: RequestId, e: DeviceId, j: nat)
    requires Inv(v) && r in v.requests && v.requests[r].queued && RequestOk(v, r) && ShapeOk(v, v.requests[r].device)
    requires v.queues[v.requests[r].device].active > 0 && e in v.queues && j < CAPACITY
    ensures ShapeOk(Released(v, r), e) && SlotOk(Released(v, r), e, j) && CounterOk(Released(v, r), e, j)
  {
    var q := v.requests[r];
    OccupiedUpdate(v.queues[q.device].slots, q.slot, None);
    assert ShapeOk(v, e) && SlotOk(v, e, j) && CounterOk(v, e, j);
  }

  lemma ReleaseKeeps(v: View, r: RequestId)
    requires Inv(v) && r in v.requests && v.requests[r].device in v.queues && !v.requests[r].state.Pending?
    ensures v.requests[r].queued ==>
              v.requests[r].slot < |v.queues[v.requests[r].device].slots| && v.queues[v.requests[r].device].active > 0
    ensures Inv(Released(v, r))
  {
    assert RequestOk(v, r);
    if v.requests[r].queued {
      var q := v.requests[r];
      assert ShapeOk(v, q.device) && SlotOk(v, q.device, q.slot);
      OccupiedUpdate(v.queues[q.device].slots, q.slot, None);
      OccupiedFull(v.queues[q.device].slots);
      var u := Released(v, r);
      forall e | e in u.queues ensures ShapeOk(u, e) { ReleaseSlots(v, r, e, 0); }
      forall e, j | e in u.queues && 0 <= j < CAPACITY ensures SlotOk(u, e, j) && CounterOk(u, e, j) {
        ReleaseSlots(v, r, e, j);
      }
      forall r' | r' in u.requests ensures RequestOk(u, r') { assert RequestOk(v, r'); }
      forall b | 0 <= b < |u.arms| ensures ArmOk(u, b) && GenerationOk(u, b) {
        assert ArmOk(v, b) && GenerationOk(v, b);
      }
    }
  }

  /** A change to fields that do not place a request, or to a request that is
      not queued and not Pending. */
  ghost predicate Touches(x: Request, y: Request) {
    || (x.queued && y.queued && y.device == x.device && y.slot == x.slot && y.generation == x.generation
         && y.state == x.state)
    || (!x.queued && !y.queued && !y.state.Pending?)
  }

  lemma TouchKeeps(v: View, r: RequestId, y: Request)
    requires Inv(v) && r in v.requests && Touches(v.requests[r], y)
    ensures Inv(View(v.requests[r := y], v.queues, v.arms, v.armOf))
  {
    var u := View(v.requests[r := y], v.queues, v.arms, v.armOf);
    assert RequestOk(v, r);
    forall e | e in u.queues ensures ShapeOk(u, e) { assert ShapeOk(v, e); }
    forall e, j | e in u.queues && 0 <= j < CAPACITY ensures SlotOk(u, e, j) && CounterOk(u, e, j) {
      assert ShapeOk(v, e) && SlotOk(v, e, j) && CounterOk(v, e, j);
    }
    forall r' | r' in u.requests ensures RequestOk(u, r') { assert RequestOk(v, r'); }
    forall b | 0 <= b < |u.arms| ensures ArmOk(u, b) && GenerationOk(u, b) { assert ArmOk(v, b) && GenerationOk(v, b); }
  }

  /** A request outside the table enters it unqueued. */
  lemma {:induction false} UnusedDevice(v: View, d: DeviceId, i: nat, n: nat)
    requires Inv(v) && d !in v.queues && n <= |v.arms|
    ensures Uses(v.arms[..n], d, i) == 0
  {
    if n > 0 {
      UnusedDevice(v, d, i, n - 1);
      assert v.arms[..n][..n - 1] == v.arms[..n - 1];
      assert GenerationOk(v, n - 1);
    }
  }

  lemma NewQueueKeeps(v: View, d: DeviceId)
    requires Inv(v) && d !in v.queues && |v.queues| < MAX_QUEUES
    ensures Inv(View(v.requests, v.queues[d := EmptyQueue()], v.arms, v.armOf))
  {
    var u := View(v.requests, v.queues[d := EmptyQueue()], v.arms, v.armOf);
    OccupiedFull(EmptyQueue().slots);
    assert v.arms[..|v.arms|] == v.arms;
    forall e | e in u.queues ensures ShapeOk(u, e) { if e != d { assert ShapeOk(v, e); } }
    forall e, j | e in u.queues && 0 <= j < CAPACITY ensures SlotOk(u, e, j) && CounterOk(u, e, j) {
      if e != d {
        assert ShapeOk(v, e) && SlotOk(v, e, j) && CounterOk(v, e, j);
      } else {
        UnusedDevice(v, d, j, |v.arms|);
      }
    }
    forall r' | r' in u.requests ensures RequestOk(u, r') { assert RequestOk(v, r'); }
    forall b | 0 <= b < |u.arms| ensures ArmOk(u, b) && GenerationOk(u, b) { assert ArmOk(v, b) && GenerationOk(v, b); }
  }

  // What a finished request tells.

  /** A finished request says the outcome of its arm, unless the status store of
      arming came after the outcome and wrote over it. */
  ghost predicate Told(v: View, overtaken: set<RequestId>, r: RequestId)
    requires r in v.requests
  {
    Terminal(v.requests[r].state) && r in v.armOf ==>
      && v.armOf[r] < |v.arms| && v.arms[v.armOf[r]].token.request == r && v.arms[v.armOf[r]].outcome.Some?
      && if r in overtaken then v.requests[r].status.WouldBlock?
         else v.arms[v.armOf[r]].outcome.value == v.requests[r].status
  }

  ghost predicate AllTold(v: View, overtaken: set<RequestId>) {
    && (forall r :: r in overtaken ==> r in v.requests && Terminal(v.requests[r].state) && r in v.armOf)
    && (forall r {:trigger Told(v, overtaken, r)} :: r in v.requests ==> Told(v, overtaken, r))
  }

  lemma EnqueueTells(v: View, overtaken: set<RequestId>, r: RequestId, i: nat)
    requires Enqueueable(v, r, i) && AllTold(v, overtaken) && r !in overtaken
    ensures AllTold(Enqueued(v, r, i), overtaken)
  {
    var u := Enqueued(v, r, i);
    forall x | x in u.requests ensures Told(u, overtaken, x) { assert Told(v, overtaken, x); }
  }

  lemma PublishTells(v: View, overtaken: set<RequestId>, r: RequestId, s: Status, why: Reason)
    requires Inv(v) && AllTold(v, overtaken) && r in v.requests && v.requests[r].state.Pending?
    ensures r in v.armOf && v.armOf[r] < |v.arms| && AllTold(Published(v, r, s, why), overtaken)
  {
    PendingHolds(v, r);
    var u := Published(v, r, s, why);
    forall x | x in u.requests ensures Told(u, overtaken, x) { assert Told(v, overtaken, x); }
  }

  lemma SameTells(v: View, overtaken: set<RequestId>, u: View)
    requires AllTold(v, overtaken) && u.requests == v.requests && u.arms == v.arms && u.armOf == v.armOf
    ensures AllTold(u, overtaken)
  {
    forall x | x in u.requests ensures Told(u, overtaken, x) { assert Told(v, overtaken, x); }
  }

  lemma ReleaseTells(v: View, overtaken: set<RequestId>, r: RequestId, u: View)
    requires AllTold(v, overtaken) && r in v.requests && u.requests == v.requests[r := Unqueued(v.requests[r])]
    requires u.arms == v.arms && u.armOf == v.armOf
    ensures AllTold(u, overtaken)
  {
    forall x | x in u.requests ensures Told(u, overtaken, x) { assert Told(v, overtaken, x); }
  }

  /** `y` says as much as before, or nothing, or was written over. */
  lemma TouchTells(v: View, overtaken: set<RequestId>, r: RequestId, y: Request, after: set<RequestId>)
    requires AllTold(v, overtaken) && r in v.requests
    requires after - {r} == overtaken - {r} && (r in after ==> Terminal(y.state) && r in v.armOf)
    requires Terminal(y.state) && r in v.armOf ==>
               && y.state == v.requests[r].state
               && if r in after then y.status.WouldBlock? else y.status == v.requests[r].status && r !in overtaken
    ensures AllTold(View(v.requests[r := y], v.queues, v.arms, v.armOf), after)
  {
    var u := View(v.requests[r := y], v.queues, v.arms, v.armOf);
    assert Told(v, overtaken, r);
    forall x | x in u.requests ensures Told(u, after, x) {
      assert Told(v, overtaken, x);
      if x != r { assert x in after <==> x in after - {r}; assert x in overtaken <==> x in overtaken - {r}; }
    }
    forall x | x in after ensures x in u.requests && Terminal(u.requests[x].state) && x in u.armOf {
      if x != r { assert x in after - {r}; }
    }
  }

  // What whole histories say.

  /** Arms are only added, and an outcome once published is never replaced. */
  ghost predicate Extends(before: seq<Arm>, after: seq<Arm>) {
    |before| <= |after| && forall a :: 0 <= a < |before| ==>
      after[a].token == before[a].token && (before[a].outcome.Some? ==> after[a] == before[a])
  }

  /** The number of arms with an outcome. */
  function Outcomes(arms: seq<Arm>): nat {
    if arms == [] then 0 else Outcomes(arms[..|arms| - 1]) + if arms[|arms| - 1].outcome.Some? then 1 else 0
  }

  lemma {:induction false} OutcomesUpdate(arms: seq<Arm>, a: nat, x: Arm)
    requires a < |arms|
    ensures Outcomes(arms[a := x]) == Outcomes(arms)
            + (if x.outcome.Some? then 1 else 0) - (if arms[a].outcome.Some? then 1 else 0)
  {
    var n := |arms| - 1;
    if a < n {
      OutcomesUpdate(arms[..n], a, x);
      assert arms[a := x][..n] == arms[..n][a := x];
    } else {
      assert arms[a := x][..n] == arms[..n];
    }
  }

  lemma OutcomesAppend(arms: seq<Arm>, x: Arm)
    ensures Outcomes(arms + [x]) == Outcomes(arms) + if x.outcome.Some? then 1 else 0
  {
    assert (arms + [x])[..|arms|] == arms;
  }

  function PendingSet(v: View): set<RequestId> { set r | r in v.requests && v.requests[r].state.Pending? }

  /** The requests pending from among the first `n` arms. */
  function PendingBelow(v: View, n: nat): set<RequestId> {
    set r | r in v.requests && v.requests[r].state.Pending? && r in v.armOf && v.armOf[r] < n
  }

  lemma {:induction false} PendingCount(v: View, n: nat)
    requires Inv(v) && n <= |v.arms|
    ensures |PendingBelow(v, n)| + Outcomes(v.arms[..n]) == n
  {
    if n == 0 {
      assert PendingBelow(v, 0) == {};
    } else {
      PendingCount(v, n - 1);
      assert v.arms[..n][..n - 1] == v.arms[..n - 1];
      var r := v.arms[n - 1].token.request;
      assert ArmOk(v, n - 1);
      forall r' | r' in PendingBelow(v, n) && r' !in PendingBelow(v, n - 1) ensures r' == r
        && v.arms[n - 1].outcome.None? {
        PendingHolds(v, r');
      }
      if v.arms[n - 1].outcome.None? {
        assert PendingBelow(v, n) == PendingBelow(v, n - 1) + {r};
      } else {
        assert PendingBelow(v, n) == PendingBelow(v, n - 1);
      }
    }
  }

  lemma PendingHolds(v: View, r: RequestId)
    requires Inv(v) && r in v.requests && v.requests[r].state.Pending?
    ensures r in v.armOf && v.armOf[r] < |v.arms| && v.arms[v.armOf[r]].token.request == r
            && v.arms[v.armOf[r]].outcome.None?
  {
    assert RequestOk(v, r);
    assert ShapeOk(v, v.requests[r].device) && SlotOk(v, v.requests[r].device, v.requests[r].slot);
  }

  /** Every accepted arm has published its outcome or is still pending, never both. */
  lemma ArmsAreAccountedFor(v: View)
    requires Inv(v)
    ensures |v.arms| == Outcomes(v.arms) + |PendingSet(v)|
  {
    PendingCount(v, |v.arms|);
    assert v.arms[..|v.arms|] == v.arms;
    forall r | r in PendingSet(v) ensures r in PendingBelow(v, |v.arms|) { PendingHolds(v, r); }
    assert PendingSet(v) == PendingBelow(v, |v.arms|);
  }

  lemma {:induction false} UsesMonotone(arms: seq<Arm>, a: nat, b: nat, d: DeviceId, i: nat)
    requires a <= b <= |arms|
    ensures Uses(arms[..a], d, i) <= Uses(arms[..b], d, i)
    ensures a < b && arms[a].token.device == d && arms[a].token.slot == i ==>
              Uses(arms[..a], d, i) < Uses(arms[..b], d, i)
    decreases b - a
  {
    if a < b {
      UsesMonotone(arms, a, b - 1, d, i);
      assert arms[..b][..b - 1] == arms[..b - 1];
    }
  }

  /** Two arms were given the same token exactly when they are of one request
      and one slot, a multiple of 2^32 - 1 uses of the slot apart. */
  lemma TokensRepeat(v: View, a: nat, b: nat)
    requires Inv(v) && a < b < |v.arms|
    ensures var x, y := v.arms[a].token, v.arms[b].token;
            x == y <==> x.request == y.request && x.device == y.device && x.slot == y.slot &&
                        (Uses(v.arms[..b], x.device, x.slot) - Uses(v.arms[..a], x.device, x.slot)) % (U32 - 1) == 0
  {
    var x := v.arms[a].token;
    assert GenerationOk(v, a) && GenerationOk(v, b);
    UsesMonotone(v.arms, a, b, x.device, x.slot);
    GenerationsRepeat(Uses(v.arms[..a], x.device, x.slot) + 1, Uses(v.arms[..b], x.device, x.slot) + 1);
  }

  /** So a slot used fewer than 2^32 - 1 times has given every arm its own token. */
  lemma TokensAreUnique(v: View, a: nat, b: nat)
    requires Inv(v) && a < b < |v.arms| && Uses(v.arms, v.arms[b].token.device, v.arms[b].token.slot) < U32 - 1
    ensures v.arms[a].token != v.arms[b].token
  {
    var y := v.arms[b].token;
    TokensRepeat(v, a, b);
    UsesMonotone(v.arms, a, b, y.device, y.slot);
    UsesMonotone(v.arms, b, |v.arms|, y.device, y.slot);
    assert v.arms[..|v.arms|] == v.arms;
  }
}

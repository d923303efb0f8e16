/**
 Block requests: the values a request and its queue are made of, validation,
 and the pure parts of the request protocol.
 */
module BlockRequests {
  import opened Common

  const CAPACITY := 8
  const MAX_QUEUES := 8
  const U32 := 0x1_0000_0000
  const NO_SLOT := 0xffff_ffff

  type RequestId = nat
  type DeviceId = nat

  datatype Operation = Read | Write

  datatype Status =
    | Success | InvalidRequest | QueueFull | DeviceNotReady | WouldBlock | PendingTimeout | Cancelled
    | CompletionRejected
    | BufferTooSmall | Overflow | Unsupported | DeviceTimeout | DeviceError | ShortRead

  datatype RequestState = Invalid | Queued | Pending | CompletedSuccess | CompletedError | TimeoutOrCancelled

  datatype Reason =
    | NoReason | SuccessReason | InvalidReason | QueueFullReason | IssueFailureReason | DeviceErrorReason
    | TimeoutReason
    | CancelledReason | RejectedReason

  datatype Rejection =
    | NotRejected | NullToken | InvalidStatus | UnknownDevice | InvalidSlot | RequestMismatch | DeviceMismatch
    | GenerationMismatch | RequestGenerationMismatch | NotPending | DuplicateCompletion | LateCompletion
    | SlotReuseProtected

  datatype Device = Device(sectorSize: nat, totalSectors: nat, canRead: bool, canWrite: bool)

  datatype Token = Token(request: RequestId, device: DeviceId, slot: nat, generation: nat)

  datatype Request = Request(device: DeviceId, operation: Operation, lba: nat, sectorCount: nat, hasBuffer: bool,
                             bufferLen: nat,
                             status: Status, state: RequestState, reason: Reason, rejection: Rejection,
                             slot: nat, generation: nat, queued: bool, wakeIssued: bool)

  /** The queue of one device. */
  datatype Queue = Queue(slots: seq<Option<RequestId>>, generations: seq<nat>, active: nat)

  function EmptyQueue(): (q: Queue)
    ensures |q.slots| == CAPACITY && |q.generations| == CAPACITY && q.active == 0
    ensures forall i :: 0 <= i < CAPACITY ==> q.slots[i].None? && q.generations[i] == 0
  {
    Queue(seq(CAPACITY, _ => None), seq(CAPACITY, _ => 0), 0)
  }

  /** Two 32-bit factors never have a product that needs more than 64 bits. */
  lemma ProductFits(n: nat, size: nat)
    requires 0 < n < U32 && size < U32
    ensures size <= (WORD - 1) / n
  {
    assert n * size <= n * U32 <= U32 * U32 - U32;
  }

  /** Whether a request may be queued.  Success means the transfer stays inside
      the device and inside the buffer, in 64-bit arithmetic that did not wrap. */
  function Validate(r: Request, known: bool, d: Device): (s: Status)
    requires r.lba < WORD && r.sectorCount < U32 && d.sectorSize < U32 && d.totalSectors < WORD && r.bufferLen < WORD
    ensures s.Success? <==>
              && known && d.sectorSize != 0 && r.hasBuffer && r.sectorCount != 0
              && (if r.operation.Read? then d.canRead else d.canWrite)
              && r.lba + r.sectorCount < WORD && (d.totalSectors == 0 || r.lba + r.sectorCount <= d.totalSectors)
              && r.sectorCount * d.sectorSize <= r.bufferLen
    ensures s in {Success, InvalidRequest, DeviceNotReady, Unsupported, Overflow, BufferTooSmall}
  {
    if !known || d.sectorSize == 0 then InvalidRequest
    else if !r.hasBuffer then InvalidRequest
    else if r.sectorCount == 0 then InvalidRequest
    else if r.operation.Read? && !d.canRead then DeviceNotReady
    else if r.operation.Write? && !d.canWrite then Unsupported
    else if r.lba > WORD - 1 - r.sectorCount then Overflow
    else if d.totalSectors != 0 && r.lba + r.sectorCount > d.totalSectors then Overflow
    else
    ProductFits(r.sectorCount, d.sectorSize);
    if d.sectorSize > (WORD - 1) / r.sectorCount then Overflow
    else if r.bufferLen < r.sectorCount * d.sectorSize then BufferTooSmall
    else Success
  }

  function ReasonFor(s: Status): Reason {
    match s
    case Success => SuccessReason
    case InvalidRequest => InvalidReason
    case QueueFull => QueueFullReason
    case PendingTimeout => TimeoutReason
    case DeviceTimeout => TimeoutReason
    case Cancelled => CancelledReason
    case CompletionRejected => RejectedReason
    case _ => DeviceErrorReason
  }

  predicate CompletionAllowed(s: Status) {
    s.Success? || s.InvalidRequest? || s.DeviceNotReady? || s.BufferTooSmall? || s.Overflow? || s.Unsupported?
    || s.DeviceTimeout? || s.DeviceError? || s.ShortRead?
  }

  predicate Terminal(s: RequestState) { s.CompletedSuccess? || s.CompletedError? || s.TimeoutOrCancelled? }

  /** A request that has just been published as finished. */
  function Finished(r: Request, s: Status, why: Reason): (t: Request)
    ensures Terminal(t.state) && t.status == s
    ensures t.state.CompletedSuccess? <==> s.Success?
    ensures t.state.TimeoutOrCancelled? <==> s.PendingTimeout? || s.Cancelled?
  {
    r.(status := s, reason := why,
       state := if s.PendingTimeout? || s.Cancelled? then TimeoutOrCancelled
                else if s.Success? then CompletedSuccess else CompletedError)
  }

  function Prepared(r: Request, s: Status): Request {
    r.(status := s, state := if s.Success? then Queued else Invalid, reason := ReasonFor(s), rejection := NotRejected,
       slot := NO_SLOT, generation := 0, queued := false, wakeIssued := false)
  }

  function Unqueued(r: Request): Request { r.(queued := false, slot := NO_SLOT) }

  // Occupied slots.

  function Occupied(slots: seq<Option<RequestId>>): (n: nat)
    ensures n <= |slots|
  {
    if slots == [] then 0
    else Occupied(slots[..|slots| - 1]) + if slots[|slots| - 1].Some? then 1 else 0
  }

  lemma {:induction false} OccupiedUpdate(slots: seq<Option<RequestId>>, i: nat, x: Option<RequestId>)
    requires i < |slots|
    ensures Occupied(slots[i := x]) == Occupied(slots) + (if x.Some? then 1 else 0) - (if slots[i].Some? then 1 else 0)
  {
    var n := |slots| - 1;
    if i < n {
      OccupiedUpdate(slots[..n], i, x);
      assert slots[i := x][..n] == slots[..n][i := x];
    } else {
      assert slots[i := x][..n] == slots[..n];
    }
  }

  lemma {:induction false} OccupiedFull(slots: seq<Option<RequestId>>)
    ensures Occupied(slots) == |slots| <==> forall i :: 0 <= i < |slots| ==> slots[i].Some?
    ensures Occupied(slots) == 0 <==> forall i :: 0 <= i < |slots| ==> slots[i].None?
  {
    if slots != [] {
      var front := slots[..|slots| - 1];
      OccupiedFull(front);
      assert forall i :: 0 <= i < |front| ==> front[i] == slots[i];
    }
  }

  // Generations.

  /** The generation of the n-th use of a slot: 1, 2, ..., 2^32 - 1, 1, ...
      with 0 for a slot never used. */
  function GenerationAt(n: nat): (g: nat)
    ensures g < U32
  {
    if n == 0 then 0 else (n - 1) % (U32 - 1) + 1
  }

  /** Bumping the 32-bit counter and skipping zero. */
  function NextGeneration(g: nat): nat
    requires g < U32
  {
    var h := (g + 1) % U32;
    if h == 0 then 1 else h
  }

  lemma NextIsNext(n: nat)
    ensures NextGeneration(GenerationAt(n)) == GenerationAt(n + 1)
  {
    if n > 0 {
      var m := U32 - 1;
      var q, k := (n - 1) / m, (n - 1) % m;
      assert n - 1 == q * m + k;
      if k + 1 < m {
        assert n == q * m + (k + 1); assert n % m == k + 1;
      } else {
        assert n == (q + 1) * m; assert n % m == 0;
      }
    }
  }

  /** Two uses of a slot share a generation exactly when they lie a multiple of
      2^32 - 1 uses apart, so fewer uses than that never repeat one. */
  lemma GenerationsRepeat(a: nat, b: nat)
    requires 1 <= a <= b
    ensures GenerationAt(a) == GenerationAt(b) <==> (b - a) % (U32 - 1) == 0
  {
    var m := U32 - 1;
    var x, y := a - 1, b - 1;
    assert x == (x / m) * m + x % m && y == (y / m) * m + y % m;
    assert y - x == (y / m - x / m) * m + (y % m - x % m);
  }
}

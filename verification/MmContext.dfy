/**
 Reference-counted address-space contexts that CPUs enter and leave, as a
 protocol of atomic steps.  An owner reference is a token; a caller of enter or
 of mark-dying holds one, unreleased, until its call is over.
 */
module MmContext {
  import opened Common

  type Id = nat
  type Token = nat

  datatype Locker = Nobody | ByCpu(cpu: Cpu) | ByOwner(token: Token)

  datatype Context = Context(refs: nat, mask: set<Cpu>, dying: bool, lock: Locker, generation: nat, owners: set<Token>,
                             freed: bool)

  /** The next atomic step of the call a CPU is in; `prev` is what it had current. */
  datatype Pc =
    | Idle
    | Locking(x: Id, prev: Option<Id>, token: Token)
    | Checking(x: Id, prev: Option<Id>, token: Token)
    | Bailing(x: Id, token: Token)
    | Retaining(x: Id, prev: Option<Id>, token: Token)
    | Marking(x: Id, prev: Option<Id>, token: Token)
    | Unlocking(x: Id, prev: Option<Id>, token: Token)
    | Setting(x: Id, prev: Option<Id>, token: Token)
    | Clearing(x: Id)
    | Releasing(x: Id)

  datatype Core = Core(current: Option<Id>, pc: Pc)

  /** An owner in the middle of marking a context as dying. */
  datatype Killer = Killer(x: Id, done: bool)

  /** `condemned` holds the contexts whose count has reached zero and whose
      memory is about to be given back. */
  datatype State = State(contexts: map<Id, Context>, cores: seq<Core>, killers: map<Token, Killer>, condemned: set<Id>)

  datatype Action =
    | Create(x: Id, token: Token)
    | RetainOwner(x: Id, token: Token, other: Token)
    | ReleaseOwner(x: Id, token: Token)
    | BeginKill(x: Id, token: Token)
    | SetDying(token: Token)
    | EndKill(token: Token)
    | BeginEnter(c: Cpu, x: Id, token: Token)
    | BeginLeave(c: Cpu)
    | Advance(c: Cpu)
    | Free(x: Id)

  function Init(): (s: State)
    ensures |s.cores| == MAX_CPUS && forall c: Cpu :: s.cores[c] == Core(None, Idle)
  {
    State(map[], seq(MAX_CPUS, _ => Core(None, Idle)), map[], {})
  }

  /** The token is in use by a call in progress. */
  predicate Pinned(s: State, token: Token) {
    || token in s.killers
    || exists c: Cpu :: c < |s.cores| && Pins(s.cores[c].pc, token)
  }

  predicate Pins(pc: Pc, token: Token) {
    (pc.Locking? || pc.Checking? || pc.Bailing? || pc.Retaining? || pc.Marking? || pc.Unlocking? || pc.Setting?)
      && pc.token == token
  }

  predicate Owns(s: State, x: Id, token: Token) { x in s.contexts && token in s.contexts[x].owners }

  predicate Enabled(s: State, a: Action)
    requires |s.cores| == MAX_CPUS
  {
    match a
    case Create(x, token) => x !in s.contexts && forall y :: y in s.contexts ==> token !in s.contexts[y].owners
    case RetainOwner(x, token, other) => Owns(s, x, token) && forall y :: y in s.contexts ==>
      other !in s.contexts[y].owners
    case ReleaseOwner(x, token) => Owns(s, x, token) && !Pinned(s, token)
    case BeginKill(x, token) => Owns(s, x, token) && token !in s.killers && s.contexts[x].lock.Nobody?
    case SetDying(token) => token in s.killers && !s.killers[token].done && s.killers[token].x in s.contexts
    case EndKill(token) => token in s.killers && s.killers[token].done && s.killers[token].x in s.contexts
    case BeginEnter(c, x, token) => s.cores[c].pc.Idle? && s.cores[c].current != Some(x) && Owns(s, x, token)
    case BeginLeave(c) => s.cores[c].pc.Idle? && s.cores[c].current.Some?
    case Advance(c) =>
      var pc := s.cores[c].pc;
      !pc.Idle? && pc.x in s.contexts && (pc.Locking? ==> s.contexts[pc.x].lock.Nobody?)
    case Free(x) => x in s.condemned && x in s.contexts
  }

  function WithContext(s: State, x: Id, k: Context): State { s.(contexts := s.contexts[x := k]) }

  function WithPc(s: State, c: Cpu, pc: Pc): State
    requires |s.cores| == MAX_CPUS
  {
    s.(cores := s.cores[c := Core(s.cores[c].current, pc)])
  }

  /** One reference less; the count reaching zero condemns the context. */
  function Dropped(s: State, x: Id): State
    requires x in s.contexts
  {
    var k := s.contexts[x];
    var n := if k.refs == 0 then 0 else k.refs - 1;
    s.(contexts := s.contexts[x := k.(refs := n)],
       condemned := if k.refs == 1 then s.condemned + {x} else s.condemned)
  }

  function Step(s: State, c: Cpu): State
    requires |s.cores| == MAX_CPUS && !s.cores[c].pc.Idle? && s.cores[c].pc.x in s.contexts
  {
    var pc := s.cores[c].pc;
    var k := s.contexts[pc.x];
    match pc
    case Idle => s
    case Locking(x, prev, tok) => WithPc(WithContext(s, x, k.(lock := ByCpu(c))), c, Checking(x, prev, tok))
    case Checking(x, prev, tok) => WithPc(s, c, if k.dying then Bailing(x, tok) else Retaining(x, prev, tok))
    case Bailing(x, tok) => WithPc(WithContext(s, x, k.(lock := Nobody)), c, Idle)
    case Retaining(x, prev, tok) => WithPc(WithContext(s, x, k.(refs := k.refs + 1)), c, Marking(x, prev, tok))
    case Marking(x, prev, tok) => WithPc(WithContext(s, x, k.(mask := k.mask + {c})), c, Unlocking(x, prev, tok))
    case Unlocking(x, prev, tok) => WithPc(WithContext(s, x, k.(lock := Nobody)), c, Setting(x, prev, tok))
    case Setting(x, prev, tok) =>
      s.(cores := s.cores[c := Core(Some(x), if prev.Some? then Clearing(prev.value) else Idle)])
    case Clearing(x) => WithPc(WithContext(s, x, k.(mask := k.mask - {c})), c, Releasing(x))
    case Releasing(x) => WithPc(Dropped(s, x), c, Idle)
  }

  function Do(s: State, a: Action): State
    requires |s.cores| == MAX_CPUS && Enabled(s, a)
  {
    match a
    case Create(x, token) => WithContext(s, x, Context(1, {}, false, Nobody, 0, {token}, false))
    case RetainOwner(x, token, other) =>
      var k := s.contexts[x];
      WithContext(s, x, k.(refs := k.refs + 1, owners := k.owners + {other}))
    case ReleaseOwner(x, token) =>
      var k := s.contexts[x];
      Dropped(WithContext(s, x, k.(owners := k.owners - {token})), x)
    case BeginKill(x, token) =>
      WithContext(s, x, s.contexts[x].(lock := ByOwner(token))).(killers := s.killers[token := Killer(x, false)])
    case SetDying(token) =>
      var x := s.killers[token].x;
      var k := s.contexts[x];
      WithContext(s, x, k.(dying := true, generation := k.generation
          + 1)).(killers := s.killers[token := Killer(x, true)])
    case EndKill(token) =>
      var x := s.killers[token].x;
      WithContext(s, x, s.contexts[x].(lock := Nobody)).(killers := s.killers - {token})
    case BeginEnter(c, x, token) => WithPc(s, c, Locking(x, s.cores[c].current, token))
    case BeginLeave(c) => s.(cores := s.cores[c := Core(None, Clearing(s.cores[c].current.value))])
    case Advance(c) => Step(s, c)
    case Free(x) => WithContext(s, x, s.contexts[x].(freed := true)).(condemned := s.condemned - {x})
  }

  // The invariant.

  /** The core counts as one reference to `x`: current, on its way in, or on its way out. */
  predicate Holds(core: Core, x: Id) {
    || core.current == Some(x)
    || ((core.pc.Marking? || core.pc.Unlocking? || core.pc.Setting? || core.pc.Clearing? || core.pc.Releasing?)
         && core.pc.x == x)
  }

  /** The core's bit stands in the mask of `x`. */
  predicate Marked(core: Core, x: Id) {
    || core.current == Some(x)
    || ((core.pc.Unlocking? || core.pc.Setting? || core.pc.Clearing?) && core.pc.x == x)
  }

  predicate Locks(pc: Pc) { pc.Checking? || pc.Bailing? || pc.Retaining? || pc.Marking? || pc.Unlocking? }

  function HolderSet(s: State, x: Id): set<Cpu>
    requires |s.cores| == MAX_CPUS
  {
    set c: Cpu | c < MAX_CPUS && Holds(s.cores[c], x)
  }

  predicate ContextOk(s: State, x: Id)
    requires |s.cores| == MAX_CPUS && x in s.contexts
  {
    var k := s.contexts[x];
    && k.refs == |k.owners| + |HolderSet(s, x)|
    && (forall c: Cpu :: c in k.mask <==> Marked(s.cores[c], x))
    && (k.refs == 0 <==> x in s.condemned || k.freed)
    && !(x in s.condemned && k.freed)
    && (k.lock.ByCpu? ==> Locks(s.cores[k.lock.cpu].pc) && s.cores[k.lock.cpu].pc.x == x)
    && (k.lock.ByOwner? ==> k.lock.token in s.killers && s.killers[k.lock.token].x == x)
  }

  predicate CoreOk(s: State, c: Cpu)
    requires |s.cores| == MAX_CPUS
  {
    var pc := s.cores[c].pc;
    && (s.cores[c].current.Some? ==> s.cores[c].current.value in s.contexts)
    && (!pc.Idle? ==> pc.x in s.contexts && s.cores[c].current != Some(pc.x))
    && (pc.Locking? || pc.Checking? || pc.Bailing? || pc.Retaining? || pc.Marking? || pc.Unlocking? || pc.Setting? ==>
         Owns(s, pc.x, pc.token))
    && (pc.Locking? || pc.Checking? || pc.Retaining? || pc.Marking? || pc.Unlocking? || pc.Setting? ==>
         pc.prev == s.cores[c].current)
    && (Locks(pc) && pc.x in s.contexts ==> s.contexts[pc.x].lock == ByCpu(c))
    && ((pc.Retaining? || pc.Marking?) && pc.x in s.contexts ==> !s.contexts[pc.x].dying)
  }

  predicate KillerOk(s: State, token: Token)
    requires token in s.killers
  {
    var j := s.killers[token];
    Owns(s, j.x, token) && s.contexts[j.x].lock == ByOwner(token)
  }

  ghost predicate Inv(s: State) {
    && |s.cores| == MAX_CPUS
    && (forall x {:trigger ContextOk(s, x)} :: x in s.contexts ==> ContextOk(s, x))
    && (forall c: Cpu {:trigger CoreOk(s, c)} :: CoreOk(s, c))
    && (forall token {:trigger KillerOk(s, token)} :: token in s.killers ==> KillerOk(s, token))
    && s.condemned <= s.contexts.Keys
  }

  lemma InitInv()
    ensures Inv(Init())
  {
  }

  /** Two references on one core never count for the same context, so moving
      one core moves a context's holders by at most that core. */
  lemma HoldersMove(s: State, t: State, c: Cpu, x: Id)
    requires |s.cores| == MAX_CPUS && |t.cores| == MAX_CPUS && (forall d: Cpu :: d != c ==> t.cores[d] == s.cores[d])
    ensures |HolderSet(t, x)| == |HolderSet(s, x)|
            + (if Holds(t.cores[c], x) then 1 else 0) - (if Holds(s.cores[c], x) then 1 else 0)
  {
    var before, after := HolderSet(s, x), HolderSet(t, x);
    var rest := before - {c};
    assert rest == after - {c};
    if c in before { assert before == rest + {c}; } else { assert before == rest; }
    if c in after { assert after == rest + {c}; } else { assert after == rest; }
  }

  lemma SameHolders(s: State, t: State, x: Id)
    requires |s.cores| == MAX_CPUS && t.cores == s.cores
    ensures HolderSet(t, x) == HolderSet(s, x)
  {
  }

  lemma OwnerStep(s: State, a: Action)
    requires Inv(s) && Enabled(s, a) && (a.Create? || a.RetainOwner? || a.ReleaseOwner? || a.Free?)
    ensures Inv(Do(s, a))
  {
    var t := Do(s, a);
    if !a.Create? { assert ContextOk(s, a.x); }
    forall x | x in t.contexts ensures ContextOk(t, x) {
      SameHolders(s, t, x);
      if x in s.contexts {
        assert ContextOk(s, x);
      } else {
        NobodyHolds(s, x);
      }
    }
    forall c: Cpu ensures CoreOk(t, c) { assert CoreOk(s, c); }
    forall token | token in t.killers ensures KillerOk(t, token) { assert KillerOk(s, token); }
  }

  lemma NobodyHolds(s: State, x: Id)
    requires Inv(s) && x !in s.contexts
    ensures HolderSet(s, x) == {} && forall c: Cpu :: !Marked(s.cores[c], x)
  {
    forall c: Cpu ensures !Holds(s.cores[c], x) { assert CoreOk(s, c); }
  }

  lemma KillStep(s: State, a: Action)
    requires Inv(s) && Enabled(s, a) && (a.BeginKill? || a.SetDying? || a.EndKill?)
    ensures Inv(Do(s, a))
  {
    var t := Do(s, a);
    if !a.BeginKill? { assert KillerOk(s, a.token); }
    var y := if a.BeginKill? then a.x else s.killers[a.token].x;
    assert ContextOk(s, y);
    forall x | x in t.contexts ensures ContextOk(t, x) {
      SameHolders(s, t, x);
      assert ContextOk(s, x);
    }
    forall c: Cpu ensures CoreOk(t, c) { assert CoreOk(s, c); }
    forall token | token in t.killers ensures KillerOk(t,
        token) { if token in s.killers { assert KillerOk(s, token); } }
  }

  lemma BeginStep(s: State, a: Action)
    requires Inv(s) && Enabled(s, a) && (a.BeginEnter? || a.BeginLeave?)
    ensures Inv(Do(s, a))
  {
    var t := Do(s, a);
    assert CoreOk(s, a.c);
    forall x | x in t.contexts ensures ContextOk(t, x) {
      HoldersMove(s, t, a.c, x);
      assert ContextOk(s, x);
    }
    forall c: Cpu ensures CoreOk(t, c) { assert CoreOk(s, c); }
    forall token | token in t.killers ensures KillerOk(t, token) { assert KillerOk(s, token); }
  }

  /** Steps that move the lock or only decide. */
  lemma LockingContexts(s: State, c: Cpu, x: Id)
    requires Inv(s) && Enabled(s, Advance(c)) && x in s.contexts
    requires s.cores[c].pc.Locking? || s.cores[c].pc.Checking? || s.cores[c].pc.Bailing? || s.cores[c].pc.Unlocking?
    ensures |Step(s, c).cores| == MAX_CPUS && x in Step(s, c).contexts && ContextOk(Step(s, c), x)
  {
    assert CoreOk(s, c) && ContextOk(s, x) && ContextOk(s, s.cores[c].pc.x);
    HoldersMove(s, Step(s, c), c, x);
  }

  /** Steps on the way in. */
  lemma EnteringContexts(s: State, c: Cpu, x: Id)
    requires Inv(s) && Enabled(s, Advance(c)) && x in s.contexts
    requires s.cores[c].pc.Retaining? || s.cores[c].pc.Marking? || s.cores[c].pc.Setting?
    ensures |Step(s, c).cores| == MAX_CPUS && x in Step(s, c).contexts && ContextOk(Step(s, c), x)
  {
    assert CoreOk(s, c) && ContextOk(s, x) && ContextOk(s, s.cores[c].pc.x);
    HoldersMove(s, Step(s, c), c, x);
  }

  /** Steps on the way out. */
  lemma LeavingContexts(s: State, c: Cpu, x: Id)
    requires Inv(s) && Enabled(s, Advance(c)) && x in s.contexts
             && (s.cores[c].pc.Clearing? || s.cores[c].pc.Releasing?)
    ensures |Step(s, c).cores| == MAX_CPUS && x in Step(s, c).contexts && ContextOk(Step(s, c), x)
  {
    assert CoreOk(s, c) && ContextOk(s, x) && ContextOk(s, s.cores[c].pc.x);
    HoldersMove(s, Step(s, c), c, x);
    if s.cores[c].pc.x == x { assert c in HolderSet(s, x); }
  }

  lemma AdvanceCores(s: State, c: Cpu, d: Cpu)
    requires Inv(s) && Enabled(s, Advance(c))
    ensures |Step(s, c).cores| == MAX_CPUS && CoreOk(Step(s, c), d)
  {
    assert CoreOk(s, c) && CoreOk(s, d);
  }

  lemma AdvanceKillers(s: State, c: Cpu, token: Token)
    requires Inv(s) && Enabled(s, Advance(c)) && token in s.killers
    ensures token in Step(s, c).killers && KillerOk(Step(s, c), token)
  {
    assert CoreOk(s, c) && KillerOk(s, token);
  }

  lemma AdvanceStep(s: State, c: Cpu)
    requires Inv(s) && Enabled(s, Advance(c))
    ensures Inv(Step(s, c))
  {
    var t, pc := Step(s, c), s.cores[c].pc;
    forall x | x in t.contexts ensures ContextOk(t, x) {
      if pc.Clearing? || pc.Releasing? { LeavingContexts(s, c, x); }
      else if pc.Retaining? || pc.Marking? || pc.Setting? { EnteringContexts(s, c, x); }
      else { LockingContexts(s, c, x); }
    }
    forall d: Cpu ensures CoreOk(t, d) { AdvanceCores(s, c, d); }
    forall token | token in t.killers ensures KillerOk(t, token) { AdvanceKillers(s, c, token); }
  }

  lemma Preserved(s: State, a: Action)
    requires Inv(s) && Enabled(s, a)
    ensures Inv(Do(s, a))
  {
    if a.Advance? {
      AdvanceStep(s, a.c);
    } else if a.BeginEnter? || a.BeginLeave? {
      BeginStep(s, a);
    } else if a.BeginKill? || a.SetDying? || a.EndKill? {
      KillStep(s, a);
    } else {
      OwnerStep(s, a);
    }
  }

  // Whole runs.

  /** `states` is a run from the initial state, one action between neighbours. */
  ghost predicate IsRun(states: seq<State>, actions: seq<Action>) {
    && |states| == |actions| + 1 && states[0] == Init()
    && forall i :: 0 <= i < |actions| ==> Follows(states[i], actions[i], states[i + 1])
  }

  ghost predicate Follows(s: State, a: Action, t: State) { |s.cores| == MAX_CPUS && Enabled(s, a) && t == Do(s, a) }

  lemma {:induction false} RunInv(states: seq<State>, actions: seq<Action>, i: nat)
    requires IsRun(states, actions) && i < |states|
    ensures Inv(states[i])
  {
    if i == 0 {
      InitInv();
    } else {
      RunInv(states, actions, i - 1);
      assert Follows(states[i - 1], actions[i - 1], states[i]);
      Preserved(states[i - 1], actions[i - 1]);
    }
  }

  /** At every point of every interleaving: a CPU's current context is allocated
      and carries the CPU's bit; the count of every context is its owners plus
      the CPUs holding it; and memory that was given back has no owner, no
      resident CPU and no bit. */
  lemma CountsAndResidence(states: seq<State>, actions: seq<Action>, i: nat, c: Cpu, x: Id)
    requires IsRun(states, actions) && i < |states|
    ensures var s := states[i];
            && |s.cores| == MAX_CPUS
            && (s.cores[c].current == Some(x) ==> x in s.contexts && c in s.contexts[x].mask && !s.contexts[x].freed)
            && (x in s.contexts ==> s.contexts[x].refs == |s.contexts[x].owners| + |HolderSet(s, x)|)
            && (x in s.contexts && s.contexts[x].freed ==>
                  s.contexts[x].owners == {} && HolderSet(s, x) == {} && s.contexts[x].mask == {})
  {
    RunInv(states, actions, i);
    var s := states[i];
    assert CoreOk(s, c);
    if x in s.contexts {
      assert ContextOk(s, x);
      if s.cores[c].current == Some(x) { assert c in HolderSet(s, x); }
      if s.contexts[x].freed {
        forall d: Cpu ensures !Marked(s.cores[d], x) { assert d !in HolderSet(s, x); }
      }
    }
  }

  /** Each step of every interleaving: a bit appears only in a context that is
      not dying, dying is for good, and a context is given back only once and
      never touched after that. */
  lemma StepsAreSafe(states: seq<State>, actions: seq<Action>, i: nat, x: Id)
    requires IsRun(states, actions) && i < |actions| && x in states[i].contexts
    ensures x in states[i + 1].contexts
    ensures var k, k' := states[i].contexts[x], states[i + 1].contexts[x];
            && (!(k'.mask <= k.mask) ==> !k.dying && !k'.dying)
            && (k.dying ==> k'.dying)
            && (k.freed ==> k' == k && actions[i] != Free(x))
  {
    RunInv(states, actions, i);
    assert Follows(states[i], actions[i], states[i + 1]);
    var s, a := states[i], actions[i];
    assert ContextOk(s, x);
    if a.Advance? { assert CoreOk(s, a.c); assert a.c in HolderSet(s, x) || !Holds(s.cores[a.c], x); }
    if a.SetDying? || a.EndKill? { assert KillerOk(s, a.token); }
  }
}

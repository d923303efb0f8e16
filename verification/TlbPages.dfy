/**
 The local half of a TLB invalidation: which pages the 64-bit loop drops.
 */
module TlbPages {
  import opened Common
  import opened TlbShootdown

  function AlignDown(v: nat): nat { v - v % PAGE_SIZE }

  /** Rounding up in 64-bit arithmetic. */
  function AlignUp(v: nat): nat { AlignDown((v + PAGE_SIZE - 1) % WORD) }

  function Span(length: nat): nat { if length == 0 then PAGE_SIZE else length }

  /** The pages a request names: those its byte range touches, or for a single
      page the one it starts in. */
  ghost predicate Named(w: Work, p: nat) {
    && p % PAGE_SIZE == 0
    && match w.scope
       case AddressSpace => true
       case Page => p == AlignDown(w.start)
       case Range => p < w.start + Span(w.length) && w.start < p + PAGE_SIZE
  }

  /** Where the loop stops. */
  function LoopEnd(w: Work): nat { AlignUp(RangeEnd(w)) }

  function RangeEnd(w: Work): nat { (w.start + Span(w.length)) % WORD }

  /** The pages dropped one by one; reloading CR3 drops them all instead. */
  method InvalidateLocally(w: Work) returns (all: bool, dropped: set<nat>)
    requires w.start < WORD && w.length < WORD
    ensures all <==> w.scope.AddressSpace?
    ensures all ==> dropped == {}
    ensures forall p :: p in dropped <==>
              !all && p % PAGE_SIZE == 0 && AlignDown(w.start) <= p < LoopEnd(w)
                && (w.scope.Page? ==> p == AlignDown(w.start))
  {
    dropped := {};
    if w.scope.AddressSpace? { return true, {}; }
    all := false;
    var first, end := AlignDown(w.start), LoopEnd(w);
    Aligned(w.start);
    Aligned((RangeEnd(w) + PAGE_SIZE - 1) % WORD);
    var vaddr := first;
    while vaddr < end
      invariant vaddr % PAGE_SIZE == 0 && vaddr >= first && (vaddr > first ==> vaddr <= end && !w.scope.Page?)
      invariant forall p :: p in dropped <==> p % PAGE_SIZE == 0 && first <= p < vaddr
    {
      forall p: nat ensures p % PAGE_SIZE == 0 && p < vaddr + PAGE_SIZE <==>
        p == vaddr || (p % PAGE_SIZE == 0 && p < vaddr) {
        NextPage(p, vaddr);
      }
      dropped := dropped + {vaddr};
      if w.scope.Page? { break; }
      vaddr := vaddr + PAGE_SIZE;
    }
  }

  lemma Aligned(v: nat)
    ensures AlignDown(v) % PAGE_SIZE == 0
  {
  }

  lemma NextPage(p: nat, vaddr: nat)
    requires vaddr % PAGE_SIZE == 0
    ensures p % PAGE_SIZE == 0 && p < vaddr + PAGE_SIZE <==> p == vaddr || (p % PAGE_SIZE == 0 && p < vaddr)
  {
  }

  /** The pages `InvalidateLocally` drops, as a predicate. */
  ghost predicate Drops(w: Work, p: nat) {
    w.scope.AddressSpace? ||
    (p % PAGE_SIZE == 0 && AlignDown(w.start) <= p < LoopEnd(w) && (w.scope.Page? ==> p == AlignDown(w.start)))
  }

  /** For a range that stays inside the address space the loop drops every named
      page exactly when the range ends before the last page: rounding its end up
      from there wraps to zero, and then nothing at all is dropped. */
  lemma DropsNamedPages(w: Work)
    requires !w.scope.AddressSpace? && w.start < WORD && w.start + Span(w.length) <= WORD
    ensures (forall p :: Named(w, p) ==> Drops(w, p)) <==> w.start + Span(w.length) <= WORD - PAGE_SIZE
    ensures w.start + Span(w.length) > WORD - PAGE_SIZE ==> forall p :: !Drops(w, p)
    ensures w.start + Span(w.length) <= WORD - PAGE_SIZE ==> forall p :: Drops(w, p) ==> Named(w, p)
  {
    var e := w.start + Span(w.length);
    var first := AlignDown(w.start);
    assert Named(w, first);
    if e > WORD - PAGE_SIZE {
      assert LoopEnd(w) == 0;
      assert !Drops(w, first);
    } else {
      assert LoopEnd(w) == AlignDown(e + PAGE_SIZE - 1);
      forall p | Named(w, p) ensures Drops(w, p) { Multiples(p, e, first, w.start); }
      forall p | Drops(w, p) ensures Named(w, p) { Multiples(p, e, first, w.start); }
    }
  }

  /** A request for the last page of the address space drops nothing. */
  lemma LastPageStays()
    ensures var w := Work(Range, WORD - PAGE_SIZE, PAGE_SIZE); Named(w, w.start) && forall p :: !Drops(w, p)
  {
    DropsNamedPages(Work(Range, WORD - PAGE_SIZE, PAGE_SIZE));
  }

  /** CPU `c` has dropped page `p` since the log had length `t0`. */
  ghost predicate Dropped(log: seq<Event>, t0: nat, c: Cpu, p: nat) {
    exists i :: t0 <= i < |log| && log[i].cpu == c && Drops(log[i].work, p)
  }

  /** The shootdown as a whole: in every interleaving in which no requester has
      given up, a returned request for a whole address space, or for a range that
      ends before the last page, means that every target has dropped every page
      named since the call began. */
  lemma ReturnedMeansDropped(run: seq<Action>, t: State, c: Cpu, d: Cpu, p: nat)
    requires IsRun(INIT, run, t) && NobodyGivesUp(run) && WellFormed(t)
    requires t.callers[c].Returned? && d in Targets(c, t.callers[c].r) && Named(t.callers[c].r.work, p)
    requires var w := t.callers[c].r.work; w.scope.AddressSpace? || w.start + Span(w.length) <= WORD - PAGE_SIZE
    ensures Dropped(t.log, t.callers[c].t0, d, p)
  {
    var w, t0 := t.callers[c].r.work, t.callers[c].t0;
    ReturnsAreTruthful(run, t, c, d);
    var i :| t0 <= i < |t.log| && t.log[i] == Event(d, w);
    if !w.scope.AddressSpace? { DropsNamedPages(w); }
    assert Drops(t.log[i].work, p);
  }

  lemma Multiples(p: nat, e: nat, first: nat, start: nat)
    requires p % PAGE_SIZE == 0 && first == AlignDown(start)
    ensures p < AlignDown(e + PAGE_SIZE - 1) <==> p < e
    ensures first <= p <==> start < p + PAGE_SIZE
  {
  }
}

/**
 The fixed table of page-table ownership records: a linear-scan array that
 behaves as a map from table frame to record, bounded by its capacity.
 */
module PageTableMetadata {
  import opened Paging
  import opened PageTree

  const CAPACITY := 512

  datatype Slot = Slot(used: bool, frame: Frame, record: Meta)

  class MetadataTable {
    const slots: array<Slot>
    /** The records by frame, and the slot each one sits in. */
    ghost var view: map<Frame, Meta>
    ghost var index: map<Frame, nat>

    ghost predicate Valid()
      reads this, slots
    {
      && slots.Length == CAPACITY
      && index.Keys == view.Keys
      && (forall f :: f in view ==> index[f] < CAPACITY && slots[index[f]] == Slot(true, f, view[f]))
      && (forall i :: 0 <= i < CAPACITY && slots[i].used ==> slots[i].frame in view && index[slots[i].frame] == i)
    }

    ghost predicate Full()
      reads slots
    {
      forall i :: 0 <= i < slots.Length ==> slots[i].used
    }

    constructor ()
      ensures Valid() && view == map[] && fresh(slots)
    {
      slots := new Slot[CAPACITY](_ => Slot(false, 0, Meta(KernelVmem, 1, 0, 0)));
      view := map[];
      index := map[];
    }

    /** The slot of the record of `frame`, or CAPACITY when there is none. */
    method Find(frame: Frame) returns (i: nat)
      requires Valid()
      ensures i <= CAPACITY && (i < CAPACITY <==> frame in view)
      ensures i < CAPACITY ==> i == index[frame]
    {
      i := 0;
      while i < CAPACITY
        invariant i <= CAPACITY
        invariant forall j :: 0 <= j < i ==> !(slots[j].used && slots[j].frame == frame)
      {
        if slots[i].used && slots[i].frame == frame { return; }
        i := i + 1;
      }
    }

    method Register(root: Frame, frame: Frame, owner: Owner, level: nat) returns (ok: bool)
      requires Valid()
      modifies this, slots
      ensures Valid()
      ensures ok <==> frame !in old(view) && !old(Full())
      ensures view == if ok then old(view)[frame := Meta(owner, level, root, 0)] else old(view)
    {
      var at := Find(frame);
      if at != CAPACITY { return false; }
      var i := 0;
      while i < CAPACITY
        invariant i <= CAPACITY
        invariant forall j :: 0 <= j < i ==> slots[j].used
      {
        if !slots[i].used {
          slots[i] := Slot(true, frame, Meta(owner, level, root, 0));
          view := view[frame := Meta(owner, level, root, 0)];
          index := index[frame := i];
          return true;
        }
        i := i + 1;
      }
      return false;
    }

    method Unregister(frame: Frame)
      requires Valid()
      modifies this, slots
      ensures Valid()
      ensures view == old(view) - {frame}
    {
      var i := Find(frame);
      if i != CAPACITY {
        slots[i] := slots[i].(used := false);
        index := index - {frame};
      }
      view := view - {frame};
    }

    method OwnedBy(frame: Frame, root: Frame, owner: Owner, level: nat) returns (b: bool)
      requires Valid()
      ensures b <==>
              frame in view && view[frame].owner == owner && view[frame].level == level && view[frame].root == root
    {
      var i := Find(frame);
      b := i != CAPACITY && slots[i].record.owner == owner && slots[i].record.level == level
        && slots[i].record.root == root;
    }

    method Increment(frame: Frame) returns (ok: bool)
      requires Valid()
      modifies this, slots
      ensures Valid()
      ensures ok <==> frame !in old(view) || old(view)[frame].count != ENTRIES
      ensures view == if ok && frame in old(view)
                      then old(view)[frame := Recount(old(view)[frame], old(view)[frame].count + 1)] else old(view)
    {
      var i := Find(frame);
      if i == CAPACITY { return true; }   // static or borrowed tables are not counted
      var m := slots[i].record;
      if m.count == ENTRIES { return false; }
      slots[i] := Slot(true, frame, Recount(m, m.count + 1));
      view := view[frame := Recount(m, m.count + 1)];
      return true;
    }

    method Decrement(frame: Frame) returns (ok: bool)
      requires Valid()
      modifies this, slots
      ensures Valid()
      ensures ok <==> frame !in old(view) || old(view)[frame].count != 0
      ensures view == if ok && frame in old(view) && old(view)[frame].count != 0
                      then old(view)[frame := Recount(old(view)[frame], old(view)[frame].count - 1)] else old(view)
    {
      var i := Find(frame);
      if i == CAPACITY { return true; }
      var m := slots[i].record;
      if m.count == 0 { return false; }
      slots[i] := Slot(true, frame, Recount(m, m.count - 1));
      view := view[frame := Recount(m, m.count - 1)];
      return true;
    }

    method Empty(frame: Frame) returns (b: bool)
      requires Valid()
      ensures b <==> frame in view && view[frame].count == 0
    {
      var i := Find(frame);
      b := i != CAPACITY && slots[i].record.count == 0;
    }
  }

  /** The table is full exactly when it holds as many records as it has slots. */
  lemma FullIsCapacity(t: MetadataTable)
    requires t.Valid()
    ensures t.Full() <==> |t.view| == CAPACITY
  {
    var used := UsedBelow(t, CAPACITY);
    assert forall f :: f in t.view ==> t.index[f] < CAPACITY;
    Pigeonhole(t, CAPACITY);
    CountIsFull(t.slots[..], CAPACITY);
    assert used == t.view.Keys;
  }

  ghost function UsedBelow(t: MetadataTable, n: nat): (s: set<Frame>)
    requires t.Valid() && n <= CAPACITY
    reads t, t.slots
    ensures forall f :: f in s <==> f in t.view && t.index[f] < n
  {
    if n == 0 then {}
    else if t.slots[n - 1].used then UsedBelow(t, n - 1) + {t.slots[n - 1].frame} else UsedBelow(t, n - 1)
  }

  /** How many of the first `n` slots are used. */
  function CountUsed(slots: seq<Slot>, n: nat): nat
    requires n <= |slots|
  {
    if n == 0 then 0 else CountUsed(slots, n - 1) + if slots[n - 1].used then 1 else 0
  }

  lemma {:induction false} CountIsFull(slots: seq<Slot>, n: nat)
    requires n <= |slots|
    ensures CountUsed(slots, n) <= n
    ensures CountUsed(slots, n) == n <==> forall i :: 0 <= i < n ==> slots[i].used
  {
    if n > 0 { CountIsFull(slots, n - 1); }
  }

  lemma {:induction false} Pigeonhole(t: MetadataTable, n: nat)
    requires t.Valid() && n <= CAPACITY
    ensures |UsedBelow(t, n)| == CountUsed(t.slots[..], n)
  {
    if n > 0 {
      Pigeonhole(t, n - 1);
      UsedNext(t, n - 1);
    }
  }

  lemma UsedNext(t: MetadataTable, m: nat)
    requires t.Valid() && m < CAPACITY
    ensures |UsedBelow(t, m + 1)| == |UsedBelow(t, m)| + if t.slots[m].used then 1 else 0
  {
    if t.slots[m].used { assert t.slots[m].frame !in UsedBelow(t, m); }
  }
}

/** The reactor's timers as values (reactor.c): a min-heap of deadlines, a slot table with generations, and a free
    list, shown to be a map from handle to deadline in which no handle is ever issued twice. */
module Timers {
  import opened Heap

  const SLOT_RANGE: nat := 0x10_0000           // 2^20 slot codes in a handle's low bits
  const MAX_SLOTS: nat := 0xF_FFFF             // so that slot + 1 fits them
  const GEN_MAX: nat := 0xFFF_FFFF_FFFF        // 44 generation bits
  const INVALID: nat := 0

  datatype Timer = Timer(id: nat, slot: nat)
  datatype Slot = Slot(gen: nat, inUse: bool)

  /** `free` is the free list, most recently freed slot first. */
  datatype State = State(heap: seq<Node<Timer>>, slots: seq<Slot>, free: seq<nat>)

  const EMPTY := State([], [], [])

  function Id(gen: nat, slot: nat): (id: nat)
  {
    gen * SLOT_RANGE + (slot + 1)
  }

  /** A handle names one generation of one slot, is never INVALID and fits 64 bits. */
  lemma IdDecodes(gen: nat, slot: nat)
    requires slot < MAX_SLOTS && gen <= GEN_MAX
    ensures Id(gen, slot) % SLOT_RANGE == slot + 1 && Id(gen, slot) / SLOT_RANGE == gen
    ensures INVALID < Id(gen, slot) < 0x1_0000_0000_0000_0000
  {
  }

  // ---------- the three operations ----------

  predicate CanAlloc(s: State)
  {
    s.free != [] || |s.slots| < MAX_SLOTS
  }

  /** The head of the free list is a slot. */
  predicate FreeHeadOk(s: State)
  {
    s.free != [] ==> s.free[0] < |s.slots|
  }

  /** The slot an allocation takes: the head of the free list, or one never used before. */
  function TakeSlot(s: State): (slot: nat)
  {
    if s.free != [] then s.free[0] else |s.slots|
  }

  function TakeGen(s: State): (gen: nat)
    requires FreeHeadOk(s)
  {
    if s.free != [] then s.slots[s.free[0]].gen else 0
  }

  function Taken(s: State): (s': State)
    requires FreeHeadOk(s)
  {
    if s.free != [] then s.(slots := s.slots[s.free[0] := Slot(TakeGen(s), true)], free := s.free[1..])
    else s.(slots := s.slots + [Slot(0, true)])
  }

  function NewTimer(s: State, deadline: nat): (e: Node<Timer>)
    requires FreeHeadOk(s)
  {
    Node(deadline, Timer(Id(TakeGen(s), TakeSlot(s)), TakeSlot(s)))
  }

  /** Gives a slot back under its next generation, or retires it when the generations have run out. */
  function Release(s: State, slot: nat): (s': State)
    requires slot < |s.slots|
  {
    var gen := s.slots[slot].gen;
    if gen < GEN_MAX then s.(slots := s.slots[slot := Slot(gen + 1, false)], free := [slot] + s.free)
    else s.(slots := s.slots[slot := Slot(gen, false)])
  }

  function Add(s: State, deadline: nat): (d: (State, nat))
    requires FreeHeadOk(s)
  {
    if !CanAlloc(s) then (s, INVALID)
    else (Taken(s).(heap := Push(s.heap, NewTimer(s, deadline))), NewTimer(s, deadline).val.id)
  }

  /** The handle names a slot that is in use under the handle's generation. */
  predicate Names(s: State, id: nat)
  {
    var low := id % SLOT_RANGE;
    id != INVALID && low != 0 && low - 1 < |s.slots| && s.slots[low - 1] == Slot(id / SLOT_RANGE, true)
  }

  /** Where the timer holding `slot` sits in the heap; what the slot's back-pointer remembers. */
  function PositionOf(heap: seq<Node<Timer>>, slot: nat): (k: nat)
    ensures k <= |heap|
    ensures k < |heap| ==> heap[k].val.slot == slot
    ensures forall i :: 0 <= i < k ==> heap[i].val.slot != slot
  {
    if heap == [] || heap[0].val.slot == slot then 0 else 1 + PositionOf(heap[1..], slot)
  }

  function Cancel(s: State, id: nat): (s': State)
  {
    var slot := id % SLOT_RANGE - 1;
    if Names(s, id) && PositionOf(s.heap, slot) < |s.heap|
    then Release(s.(heap := RemoveAt(s.heap, PositionOf(s.heap, slot))), slot)
    else s
  }

  /** The earliest timer leaves the heap, and its slot is freed, before its callback runs. */
  function Fire(s: State): (s': State)
    requires s.heap != [] && s.heap[0].val.slot < |s.slots|
  {
    Release(s.(heap := RemoveAt(s.heap, 0)), s.heap[0].val.slot)
  }

  /** Elements examined or moved by a cancel. */
  function CancelCost(s: State, id: nat): (n: nat)
  {
    var slot := id % SLOT_RANGE - 1;
    if id == INVALID then 0
    else if Names(s, id) && PositionOf(s.heap, slot) < |s.heap| then 1 + RemoveMoves(s.heap, PositionOf(s.heap, slot))
    else 1
  }

  // ---------- the invariant ----------

  ghost predicate Distinct(s: seq<nat>)
  {
    forall i, j :: 0 <= i < j < |s| ==> s[i] != s[j]
  }

  /** A pending timer holds its slot under the slot's current generation. */
  predicate Linked(s: State, x: Node<Timer>)
  {
    x.val.slot < |s.slots| && s.slots[x.val.slot].inUse && x.val.id == Id(s.slots[x.val.slot].gen, x.val.slot)
  }

  ghost predicate OnePerSlot(heap: seq<Node<Timer>>)
  {
    && (forall x :: x in multiset(heap) ==> multiset(heap)[x] == 1)
    && (forall x, y :: x in multiset(heap) && y in multiset(heap) && x.val.slot == y.val.slot ==> x == y)
  }

  ghost predicate HeapLinked(s: State)
  {
    && Ordered(s.heap) && OnePerSlot(s.heap)
    && (forall x :: x in multiset(s.heap) ==> Linked(s, x))
  }

  /** The free list names distinct unused slots, and the slots it misses are in use or retired. */
  ghost predicate FreeListOk(s: State)
  {
    && (forall k :: k in s.free ==> k < |s.slots| && !s.slots[k].inUse)
    && Distinct(s.free)
    && (forall k :: 0 <= k < |s.slots| && !s.slots[k].inUse && k !in s.free ==> s.slots[k].gen == GEN_MAX)
  }

  /** Every slot in use holds a timer. */
  ghost predicate Held(s: State)
  {
    forall k :: 0 <= k < |s.slots| && s.slots[k].inUse ==> PositionOf(s.heap, k) < |s.heap|
  }

  ghost predicate SlotsAccounted(s: State)
  {
    && |s.slots| <= MAX_SLOTS
    && (forall k :: 0 <= k < |s.slots| ==> s.slots[k].gen <= GEN_MAX)
    && Held(s) && FreeListOk(s)
  }

  /** A handle that was issued is never the one its slot would issue next. */
  predicate Spent(s: State, id: nat)
  {
    var low, gen := id % SLOT_RANGE, id / SLOT_RANGE;
    && low != 0 && low - 1 < |s.slots|
    && (gen < s.slots[low - 1].gen || (gen == s.slots[low - 1].gen && low - 1 !in s.free))
  }

  ghost predicate Inv(s: State, issued: seq<nat>)
  {
    && HeapLinked(s) && SlotsAccounted(s)
    && (forall id :: id in issued ==> Spent(s, id))
    && Distinct(issued)
    && (forall x :: x in multiset(s.heap) ==> x.val.id in issued)
  }

  // ---------- the map that the heap, the slots and the free list refine ----------

  /** The pending timers as a map from handle to deadline, given by its graph. */
  ghost function Live(s: State): (m: set<(nat, nat)>)
  {
    set x | x in multiset(s.heap) :: (x.val.id, x.key)
  }

  ghost predicate IsLive(s: State, id: nat)
  {
    exists d :: (id, d) in Live(s)
  }

  /** A pending timer's handle names its slot. */
  lemma PendingNamed(s: State, x: Node<Timer>)
    requires HeapLinked(s) && SlotsAccounted(s) && x in multiset(s.heap)
    ensures Names(s, x.val.id) && x.val.id % SLOT_RANGE == x.val.slot + 1
  {
    assert Linked(s, x);
    IdDecodes(s.slots[x.val.slot].gen, x.val.slot);
  }

  /** A handle has at most one deadline: the graph is a map's. */
  lemma LiveIsMap(s: State, p: (nat, nat), q: (nat, nat))
    requires HeapLinked(s) && SlotsAccounted(s) && p in Live(s) && q in Live(s) && p.0 == q.0
    ensures p == q
  {
    var x :| x in multiset(s.heap) && p == (x.val.id, x.key);
    var y :| y in multiset(s.heap) && q == (y.val.id, y.key);
    PendingNamed(s, x);
    PendingNamed(s, y);
    assert OnePerSlot(s.heap);
  }

  /** A named handle's timer sits where its slot says. */
  lemma NamedPending(s: State, id: nat)
    requires HeapLinked(s) && SlotsAccounted(s) && Names(s, id)
    ensures var k := PositionOf(s.heap, id % SLOT_RANGE - 1);
      k < |s.heap| && s.heap[k].val == Timer(id, id % SLOT_RANGE - 1) && s.heap[k] in multiset(s.heap)
  {
    hide Ordered;
    hide FreeListOk;
    var slot := id % SLOT_RANGE - 1;
    var x := s.heap[PositionOf(s.heap, slot)];
    assert x in multiset(s.heap);
    assert Linked(s, x);
  }

  lemma NamedHeld(s: State, issued: seq<nat>, id: nat)
    requires Inv(s, issued) && Names(s, id)
    ensures PositionOf(s.heap, id % SLOT_RANGE - 1) < |s.heap|
    ensures s.heap[PositionOf(s.heap, id % SLOT_RANGE - 1)].val.slot == id % SLOT_RANGE - 1
  {
    NamedPending(s, id);
  }

  lemma UsedNotFree(s: State, issued: seq<nat>, k: nat)
    requires Inv(s, issued) && k < |s.heap|
    ensures s.heap[k].val.slot < |s.slots| && s.heap[k].val.slot !in s.free
  {
    assert s.heap[k] in multiset(s.heap) && Linked(s, s.heap[k]);
  }

  /** A handle names a slot in use exactly when it is live. */
  lemma NamesLive(s: State, id: nat)
    requires HeapLinked(s) && SlotsAccounted(s)
    ensures Names(s, id) <==> IsLive(s, id)
  {
    if Names(s, id) {
      NamedPending(s, id);
      var x := s.heap[PositionOf(s.heap, id % SLOT_RANGE - 1)];
      assert (x.val.id, x.key) in Live(s);
    } else if IsLive(s, id) {
      var d :| (id, d) in Live(s);
      var x :| x in multiset(s.heap) && x.val.id == id;
      PendingNamed(s, x);
    }
  }

  // ---------- removal: cancel and fire ----------

  lemma Found(heap: seq<Node<Timer>>, x: Node<Timer>)
    requires x in multiset(heap)
    ensures PositionOf(heap, x.val.slot) < |heap|
  {
    assert x in heap;
  }

  /** The timer at position `k` leaves and its slot is released. */
  function Removed(s: State, k: nat): (s': State)
    requires k < |s.heap| && s.heap[k].val.slot < |s.slots|
  {
    Release(s.(heap := RemoveAt(s.heap, k)), s.heap[k].val.slot)
  }

  lemma RemovedHeap(s: State, k: nat)
    requires HeapLinked(s) && k < |s.heap|
    ensures s.heap[k] in multiset(s.heap) && s.heap[k].val.slot < |s.slots|
    ensures Ordered(Removed(s, k).heap)
    ensures forall x :: x in multiset(Removed(s, k).heap) <==> x in multiset(s.heap) && x.val.slot != s.heap[k].val.slot
    ensures forall x :: x in multiset(Removed(s, k).heap) ==> multiset(Removed(s, k).heap)[x] == 1
  {
    RemoveKeeps(s.heap, k);
    RemoveOrders(s.heap, k);
    hide RemoveAt;
    hide Ordered;
    var top := s.heap[k];
    assert top in multiset(s.heap) && Linked(s, top);
    assert multiset(Removed(s, k).heap) == multiset(s.heap) - multiset{top};
    assert forall x :: x in multiset(s.heap) && x.val.slot == top.val.slot ==> x == top;
  }

  lemma RemovedLinked(s: State, k: nat)
    requires HeapLinked(s) && k < |s.heap|
    ensures s.heap[k].val.slot < |s.slots| && HeapLinked(Removed(s, k))
  {
    RemovedHeap(s, k);
    var s' := Removed(s, k);
    hide RemoveAt;
    hide Ordered;
    forall x | x in multiset(s'.heap) ensures Linked(s', x) { assert Linked(s, x); }
    assert OnePerSlot(s'.heap);
  }

  lemma RemovedHeld(s: State, k: nat)
    requires HeapLinked(s) && Held(s) && k < |s.heap|
    ensures s.heap[k].val.slot < |s.slots| && Held(Removed(s, k))
  {
    RemovedHeap(s, k);
    hide RemoveAt;
    hide Ordered;
    var s', slot := Removed(s, k), s.heap[k].val.slot;
    forall j | 0 <= j < |s'.slots| && s'.slots[j].inUse ensures PositionOf(s'.heap, j) < |s'.heap| {
      assert j != slot && s.slots[j].inUse;
      var x := s.heap[PositionOf(s.heap, j)];
      assert x in multiset(s.heap);
      Found(s'.heap, x);
    }
  }

  lemma ReleaseFreeList(s: State, slot: nat)
    requires FreeListOk(s) && slot < |s.slots| && s.slots[slot].inUse && s.slots[slot].gen <= GEN_MAX
    ensures FreeListOk(Release(s, slot))
  {
    var s' := Release(s, slot);
    assert forall k :: k in s.free ==> k in s'.free;
    assert s.slots[slot].gen < GEN_MAX ==> s'.free[0] == slot && s'.free[1..] == s.free;
    assert slot !in s.free;
  }

  lemma RemovedAccounted(s: State, k: nat)
    requires HeapLinked(s) && SlotsAccounted(s) && k < |s.heap|
    ensures s.heap[k].val.slot < |s.slots| && SlotsAccounted(Removed(s, k))
  {
    assert s.heap[k] in multiset(s.heap) && Linked(s, s.heap[k]);
    RemovedHeld(s, k);
    ReleaseFreeList(s.(heap := RemoveAt(s.heap, k)), s.heap[k].val.slot);
    hide RemoveAt;
    hide FreeListOk;
    hide Held;
    hide HeapLinked;
  }

  lemma RemovedSpent(s: State, k: nat, id: nat)
    requires HeapLinked(s) && SlotsAccounted(s) && k < |s.heap| && Spent(s, id)
    ensures s.heap[k].val.slot < |s.slots| && Spent(Removed(s, k), id)
  {
    hide RemoveAt;
    hide Ordered;
    assert s.heap[k] in multiset(s.heap) && Linked(s, s.heap[k]);
  }

  lemma RemovedKeeps(s: State, issued: seq<nat>, k: nat)
    requires Inv(s, issued) && k < |s.heap|
    ensures s.heap[k].val.slot < |s.slots| && Inv(Removed(s, k), issued)
  {
    RemovedHeap(s, k);
    RemovedLinked(s, k);
    RemovedAccounted(s, k);
    forall id | id in issued ensures Spent(Removed(s, k), id) { RemovedSpent(s, k, id); }
    hide HeapLinked;
    hide SlotsAccounted;
    hide Removed;
  }

  /** Exactly the timer at `k` leaves the map. */
  lemma RemovedLive(s: State, issued: seq<nat>, k: nat)
    requires Inv(s, issued) && k < |s.heap|
    ensures s.heap[k].val.slot < |s.slots| && (s.heap[k].val.id, s.heap[k].key) in Live(s)
    ensures Live(Removed(s, k)) == Live(s) - {(s.heap[k].val.id, s.heap[k].key)}
  {
    RemovedHeap(s, k);
    var s', top := Removed(s, k), s.heap[k];
    forall x | x in multiset(s.heap) ensures x.val.id == top.val.id ==> x.val.slot == top.val.slot {
      PendingNamed(s, x);
      PendingNamed(s, top);
    }
    hide Removed;
    hide HeapLinked;
  }

  // ---------- addition ----------

  /** The slot an allocation takes holds no timer. */
  lemma TakeIsUnused(s: State)
    requires HeapLinked(s) && SlotsAccounted(s) && CanAlloc(s)
    ensures FreeHeadOk(s)
    ensures TakeSlot(s) < MAX_SLOTS && TakeGen(s) <= GEN_MAX
    ensures forall x :: x in multiset(s.heap) ==> x.val.slot != TakeSlot(s)
  {
    hide Ordered;
    hide OnePerSlot;
    hide Held;
    assert s.free != [] ==> s.free[0] in s.free;
    forall x | x in multiset(s.heap) ensures x.val.slot != TakeSlot(s) { assert Linked(s, x); }
  }

  /** Its handle was never issued before. */
  lemma TakeIsNew(s: State, issued: seq<nat>)
    requires Inv(s, issued) && CanAlloc(s)
    ensures FreeHeadOk(s) && Id(TakeGen(s), TakeSlot(s)) !in issued
  {
    TakeIsUnused(s);
    IdDecodes(TakeGen(s), TakeSlot(s));
    hide HeapLinked;
    hide SlotsAccounted;
    assert !Spent(s, Id(TakeGen(s), TakeSlot(s)));
  }

  ghost predicate NotHeld(heap: seq<Node<Timer>>, slot: nat)
  {
    forall i :: 0 <= i < |heap| ==> heap[i].val.slot != slot
  }

  lemma TakeNotHeld(s: State, issued: seq<nat>)
    requires Inv(s, issued) && CanAlloc(s)
    ensures NotHeld(s.heap, TakeSlot(s))
  {
    TakeIsUnused(s);
    forall i | 0 <= i < |s.heap| ensures s.heap[i].val.slot != TakeSlot(s) { assert s.heap[i] in multiset(s.heap); }
  }

  lemma TakenFreeList(s: State)
    requires FreeListOk(s)
    ensures FreeHeadOk(s) && FreeListOk(Taken(s)) && TakeSlot(s) !in Taken(s).free
  {
    assert s.free != [] ==> s.free[0] in s.free;
    var s' := Taken(s);
    assert forall k :: k in s'.free ==> k in s.free;
    assert forall k :: k in s.free && k != TakeSlot(s) ==> k in s'.free;
  }

  /** The state after a timer was added. */
  lemma TakenFacts(s: State)
    requires FreeHeadOk(s)
    ensures Taken(s).heap == s.heap
    ensures TakeSlot(s) < |Taken(s).slots| && Taken(s).slots[TakeSlot(s)].gen == TakeGen(s)
  {
  }

  function Added(s: State, deadline: nat): (s': State)
    requires FreeHeadOk(s)
  {
    Taken(s).(heap := Push(s.heap, NewTimer(s, deadline)))
  }

  lemma AddedLinked(s: State, issued: seq<nat>, deadline: nat)
    requires Inv(s, issued) && CanAlloc(s)
    ensures FreeHeadOk(s) && HeapLinked(Added(s, deadline))
    ensures multiset(Added(s, deadline).heap) == multiset(s.heap) + multiset{NewTimer(s, deadline)}
  {
    TakeIsUnused(s);
    var e, s' := NewTimer(s, deadline), Added(s, deadline);
    PushOrders(s.heap, e);
    PushKeeps(s.heap, e);
    hide Push;
    hide Ordered;
    hide Id;
    hide SlotsAccounted;
    forall x | x in multiset(s.heap) ensures Linked(s', x) { assert Linked(s, x); }
    assert Linked(s', e);
    OnePerSlotPush(s.heap, s'.heap, e);
    hide OnePerSlot;
  }

  lemma OnePerSlotPush(heap: seq<Node<Timer>>, heap': seq<Node<Timer>>, e: Node<Timer>)
    requires OnePerSlot(heap) && multiset(heap') == multiset(heap) + multiset{e}
    requires forall x :: x in multiset(heap) ==> x.val.slot != e.val.slot
    ensures OnePerSlot(heap')
  {
  }

  lemma AddedHeld(s: State, issued: seq<nat>, deadline: nat)
    requires Inv(s, issued) && CanAlloc(s)
    ensures FreeHeadOk(s) && Held(Added(s, deadline))
  {
    AddedLinked(s, issued, deadline);
    hide Push;
    hide HeapLinked;
    var s', e := Added(s, deadline), NewTimer(s, deadline);
    forall j | 0 <= j < |s'.slots| && s'.slots[j].inUse ensures PositionOf(s'.heap, j) < |s'.heap| {
      if j == TakeSlot(s) {
        Found(s'.heap, e);
      } else {
        var x := s.heap[PositionOf(s.heap, j)];
        assert x in multiset(s.heap);
        Found(s'.heap, x);
      }
    }
  }

  /** Handles already spent stay spent through an allocation. */
  lemma TakenSpent(s: State, id: nat)
    requires FreeHeadOk(s) && Spent(s, id)
    ensures Spent(Taken(s), id)
  {
    assert forall k :: k in Taken(s).free ==> k in s.free;
  }

  lemma AddedSpent(s: State, issued: seq<nat>, deadline: nat, id: nat)
    requires Inv(s, issued) && CanAlloc(s)
    requires id in issued || (FreeHeadOk(s) && id == NewTimer(s, deadline).val.id)
    ensures FreeHeadOk(s) && Spent(Added(s, deadline), id)
  {
    TakeIsUnused(s);
    TakenFreeList(s);
    if id in issued {
      TakenSpent(s, id);
    } else {
      IdDecodes(TakeGen(s), TakeSlot(s));
    }
    hide Push;
    hide Inv;
    hide FreeListOk;
  }

  lemma DistinctAppend(s: seq<nat>, x: nat)
    requires Distinct(s) && x !in s
    ensures Distinct(s + [x])
  {
  }

  lemma AddedAccounted(s: State, issued: seq<nat>, deadline: nat)
    requires Inv(s, issued) && CanAlloc(s)
    ensures FreeHeadOk(s) && SlotsAccounted(Added(s, deadline))
  {
    AddedHeld(s, issued, deadline);
    AddedFree(s, deadline);
    AddedSizes(s, issued, deadline);
    hide Added;
    hide HeapLinked;
    hide Held;
    hide FreeListOk;
  }

  lemma AddedKeeps(s: State, issued: seq<nat>, deadline: nat)
    requires Inv(s, issued) && CanAlloc(s)
    ensures FreeHeadOk(s) && Inv(Added(s, deadline), issued + [NewTimer(s, deadline).val.id])
  {
    TakeIsNew(s, issued);
    AddedLinked(s, issued, deadline);
    AddedAccounted(s, issued, deadline);
    AddedSizes(s, issued, deadline);
    var s', id := Added(s, deadline), NewTimer(s, deadline).val.id;
    DistinctAppend(issued, id);
    hide Added;
    hide NewTimer;
    hide HeapLinked;
    hide SlotsAccounted;
    hide Distinct;
    hide Spent;
    forall i | i in issued + [id] ensures Spent(s', i) { AddedSpent(s, issued, deadline, i); }
  }

  lemma AddedSizes(s: State, issued: seq<nat>, deadline: nat)
    requires Inv(s, issued) && CanAlloc(s)
    ensures FreeHeadOk(s) && |Added(s, deadline).slots| <= MAX_SLOTS
    ensures forall k :: 0 <= k < |Added(s, deadline).slots| ==> Added(s, deadline).slots[k].gen <= GEN_MAX
    ensures forall x :: x in multiset(Added(s, deadline).heap) ==> x.val.id in issued + [NewTimer(s, deadline).val.id]
  {
    hide Push;
    hide HeapLinked;
    hide Held;
    hide FreeListOk;
    hide Spent;
    hide Distinct;
    TakeIsUnused(s);
    AddedLinked(s, issued, deadline);
    var e := NewTimer(s, deadline);
    assert forall x :: x in multiset(Added(s, deadline).heap) ==> x in multiset(s.heap) || x == e;
  }

  lemma AddedFree(s: State, deadline: nat)
    requires FreeListOk(s)
    ensures FreeHeadOk(s) && FreeListOk(Added(s, deadline))
  {
    TakenFreeList(s);
    hide Push;
  }

  /** Exactly the new handle enters the map. */
  lemma AddedLive(s: State, issued: seq<nat>, deadline: nat)
    requires Inv(s, issued) && CanAlloc(s)
    ensures FreeHeadOk(s) && !IsLive(s, NewTimer(s, deadline).val.id)
    ensures Live(Added(s, deadline)) == Live(s) + {(NewTimer(s, deadline).val.id, deadline)}
  {
    TakeIsNew(s, issued);
    AddedLinked(s, issued, deadline);
    var s', e := Added(s, deadline), NewTimer(s, deadline);
    assert forall x :: x in multiset(s.heap) ==> x.val.id in issued && x.val.id != e.val.id;
    assert e.key == deadline;
    hide Added;
    hide NewTimer;
    hide Inv;
    hide HeapLinked;
  }

  // ---------- the operations refine the map ----------

  /** Adding fails exactly when every slot is pending or retired; otherwise one new handle maps to its deadline. */
  lemma AddRefines(s: State, issued: seq<nat>, deadline: nat)
    requires Inv(s, issued)
    ensures FreeHeadOk(s)
    ensures var (s', id) := Add(s, deadline);
      && (id == INVALID <==> !CanAlloc(s))
      && (id == INVALID ==> s' == s)
      && (id != INVALID ==> id !in issued && Inv(s', issued + [id]) && Live(s') == Live(s) + {(id, deadline)})
  {
    assert s.free != [] ==> s.free[0] in s.free;
    if CanAlloc(s) {
      TakeIsUnused(s);
      TakeIsNew(s, issued);
      IdDecodes(TakeGen(s), TakeSlot(s));
      AddedKeeps(s, issued, deadline);
      AddedLive(s, issued, deadline);
    }
    hide Inv;
    hide Live;
    hide Taken;
    hide Push;
  }

  /** Cancelling removes exactly the named timer. A handle that is not live, because it fired, was cancelled, or
      was never issued, changes nothing at all. */
  lemma CancelRefines(s: State, issued: seq<nat>, id: nat)
    requires Inv(s, issued)
    ensures Inv(Cancel(s, id), issued)
    ensures Live(Cancel(s, id)) == set p | p in Live(s) && p.0 != id
    ensures !IsLive(s, id) ==> Cancel(s, id) == s
  {
    assert HeapLinked(s) && SlotsAccounted(s);
    hide RemoveAt;
    hide HeapLinked;
    hide SlotsAccounted;
    hide Inv;
    hide Live;
    NamesLive(s, id);
    if Names(s, id) {
      NamedPending(s, id);
      var k := PositionOf(s.heap, id % SLOT_RANGE - 1);
      RemovedKeeps(s, issued, k);
      RemovedLive(s, issued, k);
      assert Cancel(s, id) == Removed(s, k);
      hide Removed;
      hide Cancel;
      forall p | p in Live(s) && p.0 == id ensures p == (id, s.heap[k].key) {
        LiveIsMap(s, p, (id, s.heap[k].key));
      }
    }
    hide Inv;
    hide Live;
    hide Removed;
    hide RemoveAt;
  }

  /** Firing removes one timer, and no pending timer is due earlier. Its own handle is dead afterwards, so a
      callback that cancels it cancels nothing. */
  lemma FireRefines(s: State, issued: seq<nat>)
    requires Inv(s, issued) && s.heap != []
    ensures s.heap[0].val.slot < |s.slots| && Inv(Fire(s), issued)
    ensures var top := (s.heap[0].val.id, s.heap[0].key);
      && top in Live(s) && Live(Fire(s)) == Live(s) - {top}
      && (forall p :: p in Live(s) ==> top.1 <= p.1)
      && Cancel(Fire(s), top.0) == Fire(s)
  {
    RemovedKeeps(s, issued, 0);
    RemovedLive(s, issued, 0);
    var top := (s.heap[0].val.id, s.heap[0].key);
    forall p | p in Live(s) ensures top.1 <= p.1 {
      var x :| x in multiset(s.heap) && p == (x.val.id, x.key);
      var i :| 0 <= i < |s.heap| && s.heap[i] == x;
      RootIsLeast(s.heap, i);
    }
    assert !IsLive(Fire(s), top.0) by {
      forall d | (top.0, d) in Live(Fire(s)) ensures false {
        LiveIsMap(s, top, (top.0, d));
      }
    }
    CancelRefines(Fire(s), issued, top.0);
  }

  /** A cancel examines or moves at most 2 + log2(n) elements of a heap of n timers. */
  lemma CancelCostBound(s: State, id: nat)
    ensures CancelCost(s, id) <= if s.heap == [] then 1 else 2 + Log2(|s.heap|)
  {
    if Names(s, id) {
      var k := PositionOf(s.heap, id % SLOT_RANGE - 1);
      if k < |s.heap| { RemoveMovesBound(s.heap, k); }
    }
  }

  // ---------- whole runs ----------

  datatype Op = AddOp(deadline: nat) | CancelOp(id: nat) | FireOp

  /** One operation; callbacks are simply the operations that follow a fire. */
  ghost function Step(s: State, issued: seq<nat>, op: Op): (d: (State, seq<nat>))
    requires Inv(s, issued)
    ensures Inv(d.0, d.1)
  {
    match op
    case AddOp(deadline) =>
      AddRefines(s, issued, deadline);
      var (s', id) := Add(s, deadline);
      (s', if id == INVALID then issued else issued + [id])
    case CancelOp(id) =>
      CancelRefines(s, issued, id);
      (Cancel(s, id), issued)
    case FireOp =>
      if s.heap == [] then (s, issued) else
        FireRefines(s, issued);
        (Fire(s), issued)
  }

  ghost function Run(s: State, issued: seq<nat>, ops: seq<Op>): (d: (State, seq<nat>))
    requires Inv(s, issued)
    ensures Inv(d.0, d.1)
    decreases |ops|
  {
    if ops == [] then (s, issued) else
      var (s', issued') := Step(s, issued, ops[0]);
      Run(s', issued', ops[1..])
  }

  lemma EmptyInv()
    ensures Inv(EMPTY, [])
  {
  }

  /** Over whole runs from an empty reactor: no handle is issued twice, none is INVALID, and every handle that is
      not live, however long ago it fired or was cancelled, cancels nothing. */
  lemma HandlesNeverReturn(ops: seq<Op>, id: nat)
    ensures Inv(EMPTY, [])
    ensures var (s, issued) := Run(EMPTY, [], ops);
      && (forall i, j :: 0 <= i < j < |issued| ==> issued[i] != issued[j])
      && INVALID !in issued
      && (!IsLive(s, id) ==> Cancel(s, id) == s)
      && (forall p :: p in Live(s) ==> p.0 in issued)
  {
    EmptyInv();
    var (s, issued) := Run(EMPTY, [], ops);
    CancelRefines(s, issued, id);
    assert INVALID !in issued by { assert !Spent(s, INVALID); }
    hide HeapLinked;
    hide SlotsAccounted;
  }
}

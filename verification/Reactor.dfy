/** The reactor's timer tables in place (reactor.c): the heap array, the slot table with its back-pointers, and the
    free list threaded through it. Every method is tied to its function in Timers. */
module Reactor {
  import opened Heap
  import opened Timers

  const NO_SLOT: nat := 0xffff_ffff

  method Grow<T(0)>(a: array<T>, cap: nat) returns (b: array<T>)
    requires a.Length <= cap
    ensures fresh(b) && b.Length == cap && b[..a.Length] == a[..]
  {
    b := new T[cap];
    forall k | 0 <= k < a.Length { b[k] := a[k]; }
  }

  class Reactor {
    var timers: array<Node<Timer>>
    var timerCount: nat

    // the slot records, one array per field
    var slots: array<Slot>
    var heapPos: array<nat>
    var nextFree: array<nat>
    var slotsCount: nat
    var freeSlot: nat

    var cancelProbeSteps: nat
    ghost var freeList: seq<nat>
    ghost var issued: seq<nat>

    /** The timer at `i` holds a slot whose back-pointer is `i`. */
    ghost predicate PointsBack(i: nat)
      requires i < timers.Length
      reads `timers, `slotsCount, `heapPos, timers, heapPos
    {
      timers[i].val.slot < slotsCount <= heapPos.Length && heapPos[timers[i].val.slot] == i
    }

    ghost predicate BackPointers()
      reads `timers, `timerCount, `slotsCount, `heapPos, timers, heapPos
    {
      timerCount <= timers.Length && forall i :: 0 <= i < timerCount ==> PointsBack(i)
    }

    /** `freeList` is what the links from `freeSlot` spell out. */
    ghost predicate Chained()
      reads `freeSlot, `freeList, `slotsCount, `nextFree, nextFree
    {
      && freeSlot == (if freeList == [] then NO_SLOT else freeList[0])
      && forall k :: 0 <= k < |freeList| ==> LinksOn(k)
    }

    ghost predicate LinksOn(k: nat)
      requires k < |freeList|
      reads `freeList, `slotsCount, `nextFree, nextFree
    {
      && freeList[k] < slotsCount <= nextFree.Length
      && nextFree[freeList[k]] == if k + 1 < |freeList| then freeList[k + 1] else NO_SLOT
    }

    ghost predicate TablesOk()
      reads this
    {
      && slotsCount <= slots.Length == heapPos.Length == nextFree.Length <= MAX_SLOTS
      && timerCount <= timers.Length && heapPos != nextFree
    }

    ghost predicate Shaped()
      reads this, timers, heapPos, nextFree
    {
      TablesOk() && BackPointers() && Chained()
    }

    ghost predicate Valid()
      reads this, timers, slots, heapPos, nextFree
    {
      Shaped() && Inv(Abs(), issued)
    }

    ghost function Abs(): (s: State)
      requires timerCount <= timers.Length && slotsCount <= slots.Length
      reads this, timers, slots
    {
      State(timers[..timerCount], slots[..slotsCount], freeList)
    }

    constructor ()
      ensures Valid() && Abs() == EMPTY && issued == [] && cancelProbeSteps == 0
      ensures fresh(timers) && fresh(slots) && fresh(heapPos) && fresh(nextFree)
    {
      timers, timerCount := new Node<Timer>[0], 0;
      slots, heapPos, nextFree := new Slot[0], new nat[0], new nat[0];
      slotsCount, freeSlot, cancelProbeSteps := 0, NO_SLOT, 0;
      freeList, issued := [], [];
      new;
      EmptyInv();
    }

    /** The one place the heap array is written. */
    method Place(i: nat, e: Node<Timer>)
      requires i < timers.Length && e.val.slot < heapPos.Length
      modifies timers, heapPos
      ensures timers[..] == old(timers[..])[i := e] && heapPos[..] == old(heapPos[..])[e.val.slot := i]
    {
      timers[i] := e;
      heapPos[e.val.slot] := i;
    }

    /** All timers but the one at the hole `i` point back, and none of them holds `e`'s slot. */
    ghost predicate HoleAt(i: nat, e: Node<Timer>)
      reads this, timers, heapPos
    {
      && i < timerCount <= timers.Length && e.val.slot < slotsCount <= heapPos.Length
      && forall k :: 0 <= k < timerCount && k != i ==> PointsBack(k) && timers[k].val.slot != e.val.slot
    }

    /** Moves the timer at `src` into the hole at `dst`; the hole is then at `src`. */
    method MoveHole(dst: nat, src: nat, e: Node<Timer>)
      requires HoleAt(dst, e) && src < timerCount && src != dst
      modifies timers, heapPos
      ensures HoleAt(src, e)
      ensures timers[..timerCount][src := e] == Swap(old(timers[..timerCount])[dst := e], src, dst)
    {
      ghost var before := timers[..timerCount];
      Place(dst, timers[src]);
      assert timers[..timerCount] == before[dst := before[src]];
      forall k | 0 <= k < timerCount && k != src ensures PointsBack(k) && timers[k].val.slot != e.val.slot {
        if k != dst {
          assert old(PointsBack(k)) && old(PointsBack(src));
          assert timers[k] == old(timers[k]);
        }
      }
    }

    method FillHole(i: nat, e: Node<Timer>)
      requires HoleAt(i, e)
      modifies timers, heapPos
      ensures BackPointers() && timers[..timerCount] == old(timers[..timerCount])[i := e]
    {
      Place(i, e);
      forall k | 0 <= k < timerCount ensures PointsBack(k) {
        if k != i { assert old(PointsBack(k)); }
      }
    }

    lemma OpenHole(i: nat)
      requires BackPointers() && i < timerCount
      ensures HoleAt(i, timers[i]) && timers[..timerCount][i := timers[i]] == timers[..timerCount]
    {
      assert PointsBack(i);
      forall k | 0 <= k < timerCount && k != i ensures PointsBack(k) && timers[k].val.slot != timers[i].val.slot {
        assert PointsBack(k);
      }
    }

    method HeapSiftUp(start: nat) returns (moves: nat)
      requires BackPointers() && start < timerCount
      modifies timers, heapPos
      ensures BackPointers()
      ensures timers[..timerCount] == SiftUp(old(timers[..timerCount]), start)
      ensures moves == UpMoves(old(timers[..timerCount]), start)
    {
      var e := timers[start];
      OpenHole(start);
      moves := 0;
      var i := start;
      while i > 0
        invariant 0 <= i && HoleAt(i, e)
        invariant SiftUp(timers[..timerCount][i := e], i) == SiftUp(old(timers[..timerCount]), start)
        invariant moves + UpMoves(timers[..timerCount][i := e], i) == UpMoves(old(timers[..timerCount]), start)
      {
        var parent := (i - 1) / 2;
        if timers[parent].key <= e.key {
          break;
        }
        assert !Ok(timers[..timerCount][i := e], i);
        MoveHole(i, parent, e);
        moves := moves + 1;
        i := parent;
      }
      FillHole(i, e);
    }

    /** The child to move up into the hole at `i`, or `i` when `e` belongs there. */
    method SmallerChild(i: nat, e: Node<Timer>) returns (smallest: nat)
      requires i < timerCount <= timers.Length
      ensures smallest == Smallest(timers[..timerCount][i := e], i)
    {
      var left := 2 * i + 1;
      var right := 2 * i + 2;
      if left >= timerCount {
        return i;
      }
      smallest := left;
      if right < timerCount && timers[right].key < timers[left].key {
        smallest := right;
      }
      if timers[smallest].key >= e.key {
        return i;
      }
    }

    method HeapSiftDown(start: nat) returns (moves: nat)
      requires BackPointers() && start < timerCount
      modifies timers, heapPos
      ensures BackPointers()
      ensures timers[..timerCount] == SiftDown(old(timers[..timerCount]), start)
      ensures moves == DownMoves(old(timers[..timerCount]), start)
    {
      var e := timers[start];
      OpenHole(start);
      moves := 0;
      var i := start;
      while true
        invariant HoleAt(i, e)
        invariant SiftDown(timers[..timerCount][i := e], i) == SiftDown(old(timers[..timerCount]), start)
        invariant moves + DownMoves(timers[..timerCount][i := e], i) == DownMoves(old(timers[..timerCount]), start)
        decreases timerCount - i
      {
        ghost var view := timers[..timerCount][i := e];
        var smallest := SmallerChild(i, e);
        if smallest == i {
          break;
        }
        MoveHole(i, smallest, e);
        SwapCommutes(view, smallest, i);
        moves := moves + 1;
        i := smallest;
      }
      FillHole(i, e);
    }

    /** Closes the hole at `pos`; returns the number of elements moved. */
    method HeapRemoveAt(pos: nat) returns (moves: nat)
      requires BackPointers() && pos < timerCount
      modifies this`timerCount, timers, heapPos
      ensures timerCount == old(timerCount) - 1 && BackPointers()
      ensures timers[..timerCount] == RemoveAt(old(timers[..timerCount]), pos)
      ensures moves == RemoveMoves(old(timers[..timerCount]), pos)
    {
      var last := timerCount - 1;
      ghost var all := timers[..timerCount];
      assert all[..last] == timers[..last];
      assert PointsBack(last);
      timerCount := last;
      forall k | 0 <= k < last ensures PointsBack(k) && timers[k].val.slot != timers[last].val.slot {
        assert old(PointsBack(k));
      }
      if pos == last {
        return 0;
      }
      FillHole(pos, timers[last]);
      ghost var filled := timers[..timerCount];
      assert filled == all[..last][pos := all[last]];
      MovesOrStays(filled, pos);
      moves := HeapSiftDown(pos);
      if moves == 0 {
        moves := HeapSiftUp(pos);
      }
      moves := moves + 1;
    }

    method GrowSlots()
      requires Shaped() && slotsCount == slots.Length < MAX_SLOTS
      modifies this`slots, this`heapPos, this`nextFree
      ensures Shaped() && slotsCount < slots.Length
      ensures fresh(slots) && fresh(heapPos) && fresh(nextFree) && slots[..slotsCount] == old(slots[..slotsCount])
    {
      var cap := if slots.Length == 0 then 8 else slots.Length * 2;
      if cap > MAX_SLOTS {
        cap := MAX_SLOTS;
      }
      slots := Grow(slots, cap);
      heapPos := Grow(heapPos, cap);
      nextFree := Grow(nextFree, cap);
      forall k | 0 <= k < timerCount ensures PointsBack(k) {
        assert old(PointsBack(k));
        assert heapPos[..slotsCount][timers[k].val.slot] == old(heapPos[timers[k].val.slot]);
      }
      forall k | 0 <= k < |freeList| ensures LinksOn(k) {
        assert old(LinksOn(k));
        assert nextFree[..slotsCount][freeList[k]] == old(nextFree[freeList[k]]);
      }
    }

    method TakeFree() returns (slot: nat)
      requires Shaped() && freeSlot != NO_SLOT
      modifies this`freeSlot, this`freeList, slots, nextFree
      ensures Shaped()
      ensures FreeHeadOk(old(Abs())) && old(freeList) != []
      ensures slot == TakeSlot(old(Abs())) && slot < slotsCount && Abs() == Taken(old(Abs()))
    {
      slot := freeSlot;
      assert LinksOn(0);
      freeSlot := nextFree[slot];
      slots[slot] := slots[slot].(inUse := true);
      freeList := freeList[1..];
      forall k | 0 <= k < |freeList| ensures LinksOn(k) { assert old(LinksOn(k + 1)); }
      forall k | 0 <= k < timerCount ensures PointsBack(k) { assert old(PointsBack(k)); }
    }

    method TakeFresh() returns (slot: nat)
      requires Shaped() && freeList == [] && slotsCount < slots.Length
      modifies this`slotsCount, slots, nextFree
      ensures Shaped()
      ensures slot == TakeSlot(old(Abs())) && slot < slotsCount && Abs() == Taken(old(Abs()))
    {
      slot := slotsCount;
      slotsCount := slotsCount + 1;
      slots[slot] := Slot(0, true);
      nextFree[slot] := NO_SLOT;
      assert slots[..slotsCount] == old(slots[..slotsCount]) + [Slot(0, true)];
      forall k | 0 <= k < timerCount ensures PointsBack(k) { assert old(PointsBack(k)); }
    }

    /** Takes the head of the free list, or extends the table by one slot, growing it by doubling. */
    method SlotAlloc() returns (ok: bool, slot: nat)
      requires Shaped()
      modifies this`slots, this`heapPos, this`nextFree, this`slotsCount, this`freeSlot, this`freeList
      modifies slots, nextFree
      ensures Shaped()
      ensures (slots == old(slots) || fresh(slots)) && (heapPos == old(heapPos) || fresh(heapPos))
      ensures nextFree == old(nextFree) || fresh(nextFree)
      ensures FreeHeadOk(old(Abs())) && ok == CanAlloc(old(Abs()))
      ensures ok ==> slot == TakeSlot(old(Abs())) && slot < slotsCount && Abs() == Taken(old(Abs()))
      ensures !ok ==> Abs() == old(Abs())
    {
      if freeSlot != NO_SLOT {
        slot := TakeFree();
        return true, slot;
      }
      assert freeList != [] ==> LinksOn(0);
      if slotsCount >= MAX_SLOTS {
        return false, 0;
      }
      if slotsCount == slots.Length {
        GrowSlots();
      }
      slot := TakeFresh();
      ok := true;
    }

    /** Bumps the generation and pushes the slot on the free list, or retires it at the last generation. */
    method SlotFree(slot: nat)
      requires Shaped() && slot < slotsCount && slot !in freeList
      modifies this`freeSlot, this`freeList, slots, nextFree
      ensures Shaped()
      ensures Abs() == Release(old(Abs()), slot)
    {
      var gen := slots[slot].gen;
      slots[slot] := Slot(gen, false);
      if gen < GEN_MAX {
        slots[slot] := Slot(gen + 1, false);
        nextFree[slot] := freeSlot;
        freeSlot := slot;
        freeList := [slot] + freeList;
        forall k | 0 <= k < |freeList| ensures LinksOn(k) {
          if k > 0 {
            assert old(LinksOn(k - 1));
            assert freeList[k] == old(freeList)[k - 1];
          }
        }
      }
      forall k | 0 <= k < timerCount ensures PointsBack(k) { assert old(PointsBack(k)); }
    }

    method EnsureTimerRoom()
      requires Shaped()
      modifies this`timers
      ensures Shaped() && timerCount < timers.Length && Abs() == old(Abs())
      ensures timers == old(timers) || fresh(timers)
    {
      if timerCount < timers.Length {
        return;
      }
      var cap := if timers.Length == 0 then 8 else timers.Length * 2;
      timers := Grow(timers, cap);
      assert timers[..timerCount] == old(timers[..timerCount]);
      forall k | 0 <= k < timerCount ensures PointsBack(k) {
        assert old(PointsBack(k));
        assert timers[..timerCount][k] == old(timers[k]);
      }
    }

    /** Arms a timer `delay` milliseconds from `now`; the 64-bit sum wraps. */
    method AddTimer(now: nat, delay: nat) returns (id: nat)
      requires Valid()
      modifies this, slots, nextFree, timers, heapPos
      ensures Valid() && cancelProbeSteps == old(cancelProbeSteps)
      ensures FreeHeadOk(old(Abs()))
      ensures (Abs(), id) == Add(old(Abs()), (now + delay) % 0x1_0000_0000_0000_0000)
      ensures issued == old(issued) + if id == INVALID then [] else [id]
    {
      id := Arm((now + delay) % 0x1_0000_0000_0000_0000);
    }

    method Arm(deadline: nat) returns (id: nat)
      requires Valid()
      modifies this, slots, nextFree, timers, heapPos
      ensures Valid() && cancelProbeSteps == old(cancelProbeSteps)
      ensures FreeHeadOk(old(Abs())) && (Abs(), id) == Add(old(Abs()), deadline)
      ensures issued == old(issued) + if id == INVALID then [] else [id]
    {
      hide Inv;
      hide Push;
      hide Live;
      hide Reactor.BackPointers;
      hide Reactor.Chained;
      hide Id;
      hide NotHeld;
      hide FreeHeadOk;
      hide Taken;
      hide TakeSlot;
      hide TakeGen;
      hide CanAlloc;
      ghost var before := Abs();
      AddRefines(before, issued, deadline);
      TakenFacts(before);
      EnsureTimerRoom();
      var ok, slot := SlotAlloc();
      if !ok {
        return INVALID;
      }
      TakeNotHeld(before, issued);
      id := PushNew(slot, deadline);
      assert Abs() == Add(before, deadline).0 && id == Add(before, deadline).1;
      issued := issued + [id];
    }

    /** The handle of an allocated slot, and its timer on the heap. */
    method PushNew(slot: nat, deadline: nat) returns (id: nat)
      requires Shaped() && timerCount < timers.Length && slot < slotsCount && NotHeld(timers[..timerCount], slot)
      modifies this`timerCount, timers, heapPos
      ensures Shaped() && id == Id(old(Abs()).slots[slot].gen, slot)
      ensures Abs() == old(Abs()).(heap := Push(old(Abs()).heap, Node(deadline, Timer(id, slot))))
    {
      hide Push;
      hide Id;
      hide NotHeld;
      hide Reactor.BackPointers;
      hide Reactor.Chained;
      id := Id(slots[slot].gen, slot);
      PushTimer(Node(deadline, Timer(id, slot)));
    }

    /** Appends behind the heap and sifts up. */
    method PushTimer(e: Node<Timer>)
      requires timerCount < timers.Length && Shaped() && e.val.slot < slotsCount
      requires NotHeld(timers[..timerCount], e.val.slot)
      modifies this`timerCount, timers, heapPos
      ensures timerCount == old(timerCount) + 1 && Shaped()
      ensures timers[..timerCount] == Push(old(timers[..timerCount]), e)
    {
      var i := timerCount;
      timerCount := timerCount + 1;
      forall k | 0 <= k < i ensures PointsBack(k) && timers[k].val.slot != e.val.slot {
        assert old(PointsBack(k)) && timers[..i][k] == timers[k];
      }
      FillHole(i, e);
      assert timers[..timerCount] == old(timers[..timerCount]) + [e];
      var _ := HeapSiftUp(i);
    }

    /** The back-pointer of a live slot is where a scan of the heap would find it. */
    lemma BackPointerFinds(slot: nat)
      requires Shaped() && slot < slotsCount && PositionOf(timers[..timerCount], slot) < timerCount
      ensures heapPos[slot] == PositionOf(timers[..timerCount], slot)
    {
      assert PointsBack(PositionOf(timers[..timerCount], slot));
    }

    /** Takes the timer at `pos` out of the heap and frees its slot. */
    method Drop(pos: nat) returns (moves: nat)
      requires Valid() && pos < timerCount
      modifies this`timerCount, this`freeSlot, this`freeList, timers, heapPos, slots, nextFree
      ensures old(timers[pos]).val.slot < |old(Abs()).slots| && Valid() && Abs() == Removed(old(Abs()), pos)
      ensures moves == RemoveMoves(old(Abs()).heap, pos)
    {
      hide Inv;
      hide RemoveAt;
      hide RemoveMoves;
      ghost var before := Abs();
      RemovedKeeps(before, issued, pos);
      UsedNotFree(before, issued, pos);
      var slot := timers[pos].val.slot;
      moves := HeapRemoveAt(pos);
      SlotFree(slot);
    }

    /** Looks the handle up through its slot's back-pointer: one step, whatever the occupancy. */
    method CancelTimer(id: nat)
      requires Valid()
      modifies this, timers, heapPos, slots, nextFree
      ensures Valid() && Abs() == Cancel(old(Abs()), id) && issued == old(issued)
      ensures cancelProbeSteps == old(cancelProbeSteps) + CancelCost(old(Abs()), id)
    {
      hide Inv;
      hide RemoveAt;
      hide RemoveMoves;
      hide Release;
      hide PositionOf;
      hide Reactor.BackPointers;
      hide Reactor.Chained;
      if id == INVALID {
        return;
      }
      cancelProbeSteps := cancelProbeSteps + 1;
      var low := id % SLOT_RANGE;
      if low == 0 {
        return;
      }
      var slot := low - 1;
      if slot >= slotsCount {
        return;
      }
      if !slots[slot].inUse || slots[slot].gen != id / SLOT_RANGE {
        return;
      }
      NamedHeld(Abs(), issued, id);
      BackPointerFinds(slot);
      var moves := Drop(heapPos[slot]);
      cancelProbeSteps := cancelProbeSteps + moves;
    }

    /** One turn of the expiry loop: the earliest timer, if it is due, is removed before its callback would run. */
    method FireDue(now: nat) returns (fired: bool, id: nat)
      requires Valid()
      modifies this`timerCount, this`freeSlot, this`freeList, timers, heapPos, slots, nextFree
      ensures fired == (old(timerCount) > 0 && old(timers[..])[0].key <= now)
      ensures fired ==> id == old(Abs()).heap[0].val.id && old(Abs()).heap[0].val.slot < |old(Abs()).slots|
      ensures Valid() && Abs() == if fired then Fire(old(Abs())) else old(Abs())
    {
      if timerCount == 0 || timers[0].key > now {
        return false, INVALID;
      }
      var top := timers[0];
      var _ := Drop(0);
      return true, top.val.id;
    }
  }

  lemma MovesOrStays<T>(s: seq<Node<T>>, i: nat)
    requires i < |s|
    ensures DownMoves(s, i) == 0 <==> Smallest(s, i) == i
    ensures DownMoves(s, i) == 0 ==> SiftDown(s, i) == s
  {
  }

  lemma SwapCommutes<T>(s: seq<T>, i: nat, j: nat)
    requires i < |s| && j < |s|
    ensures Swap(s, i, j) == Swap(s, j, i)
  {
  }
}

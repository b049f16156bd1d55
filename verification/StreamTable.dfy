/** The stream table (strmtab.c): open addressing with linear probing, permanent tombstones and growth, shown to be
    a map from stream id to ACTIVE(value) or TOMBSTONE, for any hash. */
module StreamTable {
  import Ring

  datatype Entry<V> = Active(value: V) | Tombstone
  datatype Slot<V> = Absent | Taken(key: nat, entry: Entry<V>)

  /** Where the probe for `key` starts. The capacity is a power of two, so masking the hash is this remainder. */
  function Home(hash: nat -> nat, key: nat, cap: nat): (h: nat)
    requires cap > 0
    ensures h < cap
  {
    hash(key) % cap
  }

  /** How many probe steps lead from `h` to `i`. */
  function Dist(h: nat, i: nat, cap: nat): (d: nat)
    requires h < cap && i < cap
    ensures d < cap && Ring.Step(h, d, cap) == i
  {
    if i >= h then i - h else i + cap - h
  }

  /** No ABSENT gap on the probe path to an occupied slot. */
  ghost predicate Reachable<V>(slots: seq<Slot<V>>, hash: nat -> nat, i: nat)
    requires i < |slots| && slots[i].Taken?
  {
    var h := Home(hash, slots[i].key, |slots|);
    forall q :: 0 <= q < Dist(h, i, |slots|) ==> slots[Ring.Step(h, q, |slots|)].Taken?
  }

  ghost predicate UniqueKeys<V>(slots: seq<Slot<V>>)
  {
    forall i, j :: 0 <= i < j < |slots| && slots[i].Taken? && slots[j].Taken? ==> slots[i].key != slots[j].key
  }

  /** The slots hold exactly the entries of `m`. */
  ghost predicate Shows<V>(slots: seq<Slot<V>>, m: map<nat, Entry<V>>)
  {
    && (forall i :: 0 <= i < |slots| && slots[i].Taken? ==> slots[i].key in m && m[slots[i].key] == slots[i].entry)
    && (forall k :: k in m ==> exists i :: 0 <= i < |slots| && slots[i] == Taken(k, m[k]))
  }

  /** The table's invariant. */
  ghost predicate Represents<V>(slots: seq<Slot<V>>, hash: nat -> nat, m: map<nat, Entry<V>>)
  {
    && |slots| > 0 && UniqueKeys(slots) && Shows(slots, m)
    && (forall i :: 0 <= i < |slots| && slots[i].Taken? ==> Reachable(slots, hash, i))
  }

  /** The first `p` probes for `key` met other keys only. */
  ghost predicate Passed<V>(slots: seq<Slot<V>>, h: nat, key: nat, p: nat)
    requires h < |slots| && p <= |slots|
  {
    forall q :: 0 <= q < p ==>
      var s := slots[Ring.Step(h, q, |slots|)]; s.Taken? && s.key != key
  }

  /** A probe that reaches ABSENT, or goes all the way round, proves the key is not in the table. */
  lemma ProbeMiss<V>(slots: seq<Slot<V>>, hash: nat -> nat, m: map<nat, Entry<V>>, key: nat, p: nat)
    requires Represents(slots, hash, m) && p <= |slots|
    requires Passed(slots, Home(hash, key, |slots|), key, p)
    requires p == |slots| || slots[Ring.Step(Home(hash, key, |slots|), p, |slots|)].Absent?
    ensures key !in m
  {
    var h := Home(hash, key, |slots|);
    forall i | 0 <= i < |slots| && slots[i].Taken? ensures slots[i].key != key {
      assert Reachable(slots, hash, i);
      assert Ring.Step(h, Dist(h, i, |slots|), |slots|) == i;
    }
  }

  /** Filling the ABSENT slot at the end of a key's probe path adds exactly that key. */
  lemma PlaceNew<V>(slots: seq<Slot<V>>, hash: nat -> nat, m: map<nat, Entry<V>>, key: nat, e: Entry<V>, p: nat)
    requires Represents(slots, hash, m) && p < |slots|
    requires Passed(slots, Home(hash, key, |slots|), key, p)
    requires slots[Ring.Step(Home(hash, key, |slots|), p, |slots|)].Absent?
    ensures key !in m
    ensures Represents(slots[Ring.Step(Home(hash, key, |slots|), p, |slots|) := Taken(key, e)], hash, m[key := e])
  {
    ProbeMiss(slots, hash, m, key, p);
    var h := Home(hash, key, |slots|);
    var idx := Ring.Step(h, p, |slots|);
    var slots' := slots[idx := Taken(key, e)];
    assert UniqueKeys(slots');
    PlacedShows(slots, m, idx, key, e);
    forall i | 0 <= i < |slots'| && slots'[i].Taken? ensures Reachable(slots', hash, i) {
      if i != idx { assert Reachable(slots, hash, i); }
    }
  }

  lemma PlacedShows<V>(slots: seq<Slot<V>>, m: map<nat, Entry<V>>, idx: nat, key: nat, e: Entry<V>)
    requires Shows(slots, m) && idx < |slots| && slots[idx].Absent? && key !in m
    ensures Shows(slots[idx := Taken(key, e)], m[key := e])
  {
    var slots', m' := slots[idx := Taken(key, e)], m[key := e];
    forall k | k in m' ensures exists i :: 0 <= i < |slots'| && slots'[i] == Taken(k, m'[k]) {
      if k == key {
        assert slots'[idx] == Taken(k, m'[k]);
      } else {
        var i :| 0 <= i < |slots| && slots[i] == Taken(k, m[k]);
        assert slots'[i] == Taken(k, m'[k]);
      }
    }
  }

  /** Changing the entry of an occupied slot changes exactly its key; the probe paths do not notice. */
  lemma Rewrite<V>(slots: seq<Slot<V>>, hash: nat -> nat, m: map<nat, Entry<V>>, idx: nat, e: Entry<V>)
    requires Represents(slots, hash, m) && idx < |slots| && slots[idx].Taken?
    ensures Represents(slots[idx := Taken(slots[idx].key, e)], hash, m[slots[idx].key := e])
  {
    var key := slots[idx].key;
    var slots', m' := slots[idx := Taken(key, e)], m[key := e];
    assert UniqueKeys(slots');
    forall k | k in m' ensures exists i :: 0 <= i < |slots'| && slots'[i] == Taken(k, m'[k]) {
      if k == key {
        assert slots'[idx] == Taken(k, m'[k]);
      } else {
        var i :| 0 <= i < |slots| && slots[i] == Taken(k, m[k]);
        assert slots'[i] == Taken(k, m'[k]);
      }
    }
    assert Shows(slots', m');
    forall i | 0 <= i < |slots'| && slots'[i].Taken? ensures Reachable(slots', hash, i) {
      assert Reachable(slots, hash, i);
    }
  }

  // ---------- occupancy ----------

  function Occupied<V>(slots: seq<Slot<V>>): (n: nat)
    ensures n <= |slots|
  {
    if slots == [] then 0 else (if slots[0].Taken? then 1 else 0) + Occupied(slots[1..])
  }

  lemma {:induction false} OccupiedUpdate<V>(slots: seq<Slot<V>>, i: nat, s: Slot<V>)
    requires i < |slots|
    ensures Occupied(slots[i := s])
         == Occupied(slots) - (if slots[i].Taken? then 1 else 0) + (if s.Taken? then 1 else 0)
    decreases i
  {
    if i == 0 {
      assert slots[0 := s][1..] == slots[1..];
    } else {
      OccupiedUpdate(slots[1..], i - 1, s);
      assert slots[i := s][1..] == slots[1..][i - 1 := s];
    }
  }

  lemma {:induction false} FullMeansAll<V>(slots: seq<Slot<V>>)
    requires forall i :: 0 <= i < |slots| ==> slots[i].Taken?
    ensures Occupied(slots) == |slots|
  {
    if slots != [] { FullMeansAll(slots[1..]); }
  }

  lemma {:induction false} NoneOccupied<V>(slots: seq<Slot<V>>)
    requires forall i :: 0 <= i < |slots| ==> slots[i].Absent?
    ensures Occupied(slots) == 0
  {
    if slots != [] { NoneOccupied(slots[1..]); }
  }

  /** A table that is not full cannot be probed all the way round. */
  lemma RoomStopsProbe<V>(slots: seq<Slot<V>>, h: nat, p: nat)
    requires h < |slots| && p <= |slots| && Occupied(slots) < |slots|
    requires forall q :: 0 <= q < p ==> slots[Ring.Step(h, q, |slots|)].Taken?
    ensures p < |slots|
  {
    if p == |slots| {
      forall i | 0 <= i < |slots| ensures slots[i].Taken? {
        assert slots[Ring.Step(h, Dist(h, i, |slots|), |slots|)].Taken?;
      }
      FullMeansAll(slots);
    }
  }

  /** Slots that show two maps show one. */
  lemma ShowsOne<V>(slots: seq<Slot<V>>, a: map<nat, Entry<V>>, b: map<nat, Entry<V>>)
    requires Shows(slots, a) && Shows(slots, b)
    ensures a == b
  {
  }

  /** One more slot adds its own key and entry to what a prefix shows. */
  lemma ShowsExtend<V>(slots: seq<Slot<V>>, i: nat, done: map<nat, Entry<V>>)
    requires i < |slots| && UniqueKeys(slots) && Shows(slots[..i], done)
    ensures slots[i].Absent? ==> Shows(slots[..i + 1], done)
    ensures slots[i].Taken? ==> slots[i].key !in done && Shows(slots[..i + 1], done[slots[i].key := slots[i].entry])
  {
    assert slots[..i + 1] == slots[..i] + [slots[i]];
    forall k | k in done ensures exists j :: 0 <= j < i && slots[..i][j] == slots[..i + 1][j] == Taken(k, done[k]) {
      var j :| 0 <= j < i && slots[..i][j] == Taken(k, done[k]);
      assert slots[..i + 1][j] == slots[..i][j];
    }
    if slots[i].Taken? { assert slots[..i + 1][i] == Taken(slots[i].key, slots[i].entry); }
  }

  /** What one slot contributes to an iteration. */
  function Hit<V>(s: Slot<V>): (l: seq<(nat, V)>)
  {
    if s.Taken? && s.entry.Active? then [(s.key, s.entry.value)] else []
  }

  /** The ACTIVE entries in slot order: what the iteration visits. */
  function ActiveList<V>(slots: seq<Slot<V>>): (l: seq<(nat, V)>)
  {
    if slots == [] then [] else ActiveList(slots[..|slots| - 1]) + Hit(slots[|slots| - 1])
  }

  lemma {:induction false} ActiveListed<V>(slots: seq<Slot<V>>, k: nat, v: V)
    ensures (k, v) in ActiveList(slots) <==> Taken(k, Active(v)) in slots
  {
    if slots != [] {
      var n := |slots| - 1;
      ActiveListed(slots[..n], k, v);
      assert slots == slots[..n] + [slots[n]];
    }
  }

  lemma {:induction false} ActiveOnce<V>(slots: seq<Slot<V>>, i: nat, j: nat)
    requires UniqueKeys(slots) && i < j < |ActiveList(slots)|
    ensures ActiveList(slots)[i].0 != ActiveList(slots)[j].0
    decreases |slots|
  {
    var n := |slots| - 1;
    var front := slots[..n];
    if j < |ActiveList(front)| {
      ActiveOnce(front, i, j);
    } else {
      var (k, v) := ActiveList(front)[i];
      assert (k, v) in ActiveList(front);
      ActiveListed(front, k, v);
    }
  }

  /** The visited list holds exactly the map's ACTIVE entries, each key once. */
  lemma ActiveListExact<V>(slots: seq<Slot<V>>, hash: nat -> nat, m: map<nat, Entry<V>>, k: nat, v: V)
    requires Represents(slots, hash, m)
    ensures (k, v) in ActiveList(slots) <==> k in m && m[k] == Active(v)
    ensures forall i, j :: 0 <= i < j < |ActiveList(slots)| ==> ActiveList(slots)[i].0 != ActiveList(slots)[j].0
  {
    ActiveListed(slots, k, v);
    forall i, j | 0 <= i < j < |ActiveList(slots)| ensures ActiveList(slots)[i].0 != ActiveList(slots)[j].0 {
      ActiveOnce(slots, i, j);
    }
    hide ActiveList;
  }

  /** `m` after the callback has tombstoned those of its first `seen` visits that `drop` picks. */
  function Dropped<V>(m: map<nat, Entry<V>>, seen: seq<(nat, V)>, drop: nat -> bool): (m': map<nat, Entry<V>>)
  {
    map k | k in m :: if drop(k) && exists i :: 0 <= i < |seen| && seen[i].0 == k then Tombstone else m[k]
  }

  // ---------- the table in place ----------

  class StreamTable<V(0)> {
    const hash: nat -> nat
    var slots: array<Slot<V>>
    var count: nat
    ghost var m: map<nat, Entry<V>>

    /** An ABSENT slot always exists, because `count` stays below the capacity. */
    ghost predicate Valid()
      reads this, slots
    {
      && slots.Length >= 8 && count < slots.Length
      && Occupied(slots[..]) == count && Represents(slots[..], hash, m)
    }

    constructor (hashFn: nat -> nat, capHint: nat)
      requires capHint > 0
      ensures Valid() && fresh(slots) && m == map[] && hash == hashFn
    {
      hash := hashFn;
      var cap := 8;
      while cap < capHint
        invariant cap >= 8
      {
        cap := cap * 2;
      }
      slots := new Slot<V>[cap](_ => Absent);
      count, m := 0, map[];
      new;
      NoneOccupied(slots[..]);
    }

    /** The probe loop: stops at the key or at the first ABSENT slot, which Valid says it will meet. */
    method Probe(key: nat) returns (i: nat, ghost p: nat)
      requires slots.Length > 0 && Occupied(slots[..]) < slots.Length
      ensures p < slots.Length && Passed(slots[..], Home(hash, key, slots.Length), key, p)
      ensures i == Ring.Step(Home(hash, key, slots.Length), p, slots.Length)
      ensures slots[i].Absent? || slots[i].key == key
    {
      var h := Home(hash, key, slots.Length);
      i, p := h, 0;
      while slots[i].Taken? && slots[i].key != key
        invariant p < slots.Length && i == Ring.Step(h, p, slots.Length)
        invariant Passed(slots[..], h, key, p)
        decreases slots.Length - p
      {
        RoomStopsProbe(slots[..], h, p + 1);
        Ring.StepStep(h, p, 1, slots.Length);
        i := Ring.Step(i, 1, slots.Length);
        p := p + 1;
      }
    }

    /** Answers exactly what the map holds. */
    method Lookup(key: nat) returns (found: bool, e: Entry<V>)
      requires Valid()
      ensures found == (key in m)
      ensures found ==> e == m[key]
    {
      var i, p := Probe(key);
      if slots[i].Absent? {
        ProbeMiss(slots[..], hash, m, key, p);
        return false, Tombstone;
      }
      return true, slots[i].entry;
    }

    /** Adds or revives a key; refused only when the key is already ACTIVE, never for want of room. */
    method InsertActive(key: nat, value: V) returns (ok: bool)
      requires Valid()
      modifies this, slots
      ensures Valid() && (slots == old(slots) || fresh(slots))
      ensures ok == !(key in old(m) && old(m)[key].Active?)
      ensures m == if ok then old(m)[key := Active(value)] else old(m)
    {
      if count * 10 >= slots.Length * 7 {
        GrowTable();
      }
      var i, p := Probe(key);
      if slots[i].Absent? {
        PlaceNew(slots[..], hash, m, key, Active(value), p);
        OccupiedUpdate(slots[..], i, Taken(key, Active(value)));
        slots[i] := Taken(key, Active(value));
        count := count + 1;
        m := m[key := Active(value)];
        return true;
      }
      if slots[i].entry.Active? {
        return false;
      }
      Rewrite(slots[..], hash, m, i, Active(value));
      OccupiedUpdate(slots[..], i, Taken(key, Active(value)));
      slots[i] := Taken(key, Active(value));
      m := m[key := Active(value)];
      return true;
    }

    /** Turns an ACTIVE key into a TOMBSTONE, in its own slot. */
    method MarkDead(key: nat) returns (ok: bool)
      requires Valid()
      modifies this`m, slots
      ensures Valid()
      ensures ok == (key in old(m) && old(m)[key].Active?)
      ensures m == if ok then old(m)[key := Tombstone] else old(m)
      ensures forall j :: 0 <= j < slots.Length && (old(slots[j]).Taken? ==> old(slots[j]).key != key) ==>
        slots[j] == old(slots[j])
    {
      var i, p := Probe(key);
      if slots[i].Absent? {
        ProbeMiss(slots[..], hash, m, key, p);
        return false;
      }
      if slots[i].entry.Tombstone? {
        return false;
      }
      Rewrite(slots[..], hash, m, i, Tombstone);
      OccupiedUpdate(slots[..], i, Taken(key, Tombstone));
      slots[i] := Taken(key, Tombstone);
      m := m[key := Tombstone];
      return true;
    }

    /** Rehashes every occupied slot, tombstones included, into a table of twice the size. */
    method GrowTable()
      requires Valid()
      modifies this`slots, this`count
      ensures Valid() && fresh(slots) && slots.Length == 2 * old(slots.Length) && count <= old(slots.Length)
    {
      var oldSlots := slots;
      slots := new Slot<V>[2 * oldSlots.Length](_ => Absent);
      count := 0;
      NoneOccupied(slots[..]);
      assert Represents(slots[..], hash, map[]);
      assert UniqueKeys(oldSlots[..]) && Shows(oldSlots[..], m);
      hide Reachable;
      hide UniqueKeys;
      hide Shows;
      hide Represents;
      hide Occupied;
      ghost var all := oldSlots[..];
      ghost var done: map<nat, Entry<V>> := map[];
      for i := 0 to oldSlots.Length
        invariant fresh(slots) && slots.Length == 2 * oldSlots.Length && oldSlots[..] == all
        invariant count <= i && Occupied(slots[..]) == count && Represents(slots[..], hash, done)
        invariant Shows(all[..i], done)
        modifies this`count, slots
      {
        ShowsExtend(all, i, done);
        if oldSlots[i].Taken? {
          done := Reinsert(oldSlots[i].key, oldSlots[i].entry, done);
        }
      }
      assert all[..oldSlots.Length] == all;
      ShowsOne(all, done, m);
    }

    method Reinsert(key: nat, e: Entry<V>, ghost done: map<nat, Entry<V>>) returns (ghost done': map<nat, Entry<V>>)
      requires slots.Length > 0 && count < slots.Length && Occupied(slots[..]) == count
      requires Represents(slots[..], hash, done) && key !in done
      modifies this`count, slots
      ensures count == old(count) + 1 && Occupied(slots[..]) == count
      ensures done' == done[key := e] && Represents(slots[..], hash, done')
    {
      var i, p := Probe(key);
      PlaceNew(slots[..], hash, done, key, e, p);
      OccupiedUpdate(slots[..], i, Taken(key, e));
      slots[i] := Taken(key, e);
      count := count + 1;
      done' := done[key := e];
    }

    /** The callback on slot `i`, if it is ACTIVE; it may tombstone that key. */
    method Visit(i: nat, drop: nat -> bool) returns (hit: seq<(nat, V)>)
      requires Valid() && i < slots.Length
      modifies this`m, slots
      ensures Valid() && slots[i + 1..] == old(slots[i + 1..])
      ensures hit == Hit(old(slots[i]))
      ensures m == if hit != [] && drop(hit[0].0) then old(m)[hit[0].0 := Tombstone] else old(m)
    {
      if slots[i].Absent? || !slots[i].entry.Active? {
        return [];
      }
      var key, value := slots[i].key, slots[i].entry.value;
      KeyHere(slots[..], hash, m, i);
      hide StreamTable.Valid;
      if drop(key) {
        var _ := MarkDead(key);
      }
      return [(key, value)];
    }

    /** Visits every ACTIVE entry once, in slot order, while the callback tombstones the visited keys that `drop`
        picks. */
    method ForEachActive(drop: nat -> bool) returns (visited: seq<(nat, V)>)
      requires Valid()
      modifies this`m, slots
      ensures Valid()
      ensures visited == ActiveList(old(slots[..]))
      ensures m == Dropped(old(m), visited, drop)
    {
      visited := [];
      ghost var all := slots[..];
      VisitNone(m, drop);
      assert ActiveList(all[..0]) == [];
      hide Represents;
      hide Dropped;
      hide ActiveList;
      for i := 0 to slots.Length
        invariant Valid() && slots[i..] == all[i..]
        invariant visited == ActiveList(all[..i])
        invariant m == Dropped(old(m), visited, drop)
      {
        assert slots[i] == all[i] by { assert slots[i..][0] == all[i..][0]; }
        assert slots[i + 1..] == all[i + 1..] by { assert slots[i..][1..] == all[i..][1..]; }
        VisitStep(all, hash, old(m), i, drop);
        var hit := Visit(i, drop);
        visited := visited + hit;
      }
      assert all[..slots.Length] == all;
    }
  }

  /** One visit extends the list and the effect of the callback. */
  /** A taken slot shows its entry, and no other slot has its key. */
  lemma KeyHere<V>(slots: seq<Slot<V>>, hash: nat -> nat, m: map<nat, Entry<V>>, i: nat)
    requires Represents(slots, hash, m) && i < |slots| && slots[i].Taken?
    ensures slots[i].key in m && m[slots[i].key] == slots[i].entry
    ensures forall j :: 0 <= j < |slots| && j != i && slots[j].Taken? ==> slots[j].key != slots[i].key
  {
    hide Reachable;
  }

  lemma VisitStep<V>(slots: seq<Slot<V>>, hash: nat -> nat, m: map<nat, Entry<V>>, i: nat, drop: nat -> bool)
    requires Represents(slots, hash, m) && i < |slots|
    ensures ActiveList(slots[..i + 1]) == ActiveList(slots[..i]) + Hit(slots[i])
    ensures var hit, seen := Hit(slots[i]), ActiveList(slots[..i]);
      Dropped(m, seen + hit, drop)
      == if hit != [] && drop(hit[0].0) then Dropped(m, seen, drop)[hit[0].0 := Tombstone] else Dropped(m, seen, drop)
  {
    assert slots[..i + 1][..i] == slots[..i] && slots[..i + 1][i] == slots[i];
    var hit := Hit(slots[i]);
    if hit != [] {
      SeenMore(m, ActiveList(slots[..i]), hit[0], drop);
    } else {
      assert ActiveList(slots[..i]) + hit == ActiveList(slots[..i]);
    }
  }

  lemma VisitNone<V>(m: map<nat, Entry<V>>, drop: nat -> bool)
    ensures Dropped(m, [], drop) == m
  {
  }

  lemma SeenMore<V>(m: map<nat, Entry<V>>, seen: seq<(nat, V)>, x: (nat, V), drop: nat -> bool)
    requires x.0 in m
    ensures Dropped(m, seen + [x], drop)
         == if drop(x.0) then Dropped(m, seen, drop)[x.0 := Tombstone] else Dropped(m, seen, drop)
  {
    var more := seen + [x];
    forall k | k in m ensures
      (exists i :: 0 <= i < |more| && more[i].0 == k) <==> (k == x.0 || exists i :: 0 <= i < |seen| && seen[i].0 == k)
    {
      if k == x.0 { assert more[|seen|].0 == k; }
      if i :| 0 <= i < |seen| && seen[i].0 == k { assert more[i].0 == k; }
    }
  }
}

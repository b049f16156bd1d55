/** The session object of libcloak-mux/src/session.c over the open-addressing stream table, its fields changed in place by
    its functions and callbacks. Every method is proved to take the step that Lifecycle gives it. Functions that send are
    written as what they do before the send, the send with whatever it sets off, and what they do after it. */
module Session {
  import opened Lifecycle
  import T = StreamTable
  import R = Reassembly
  import S = Stream

  class Session {
    const streams: T.StreamTable<nat>
    var entries: map<nat, Entry>
    var conns: map<nat, nat>
    var pool: set<nat>
    var count: int
    var nextId: nat
    var closed: bool
    var alive: bool
    var inactivity: nat
    var teardown: nat
    var timers: map<nat, Kind>
    var nextTimer: nat
    var stack: seq<Frame>
    ghost var scheduled: nat
    ghost var told: nat

    ghost function Abs(): (s: State)
      reads this, streams
    {
      State(streams.m, entries, conns, pool, count, nextId, closed, alive, inactivity, teardown, timers, nextTimer,
            scheduled, told, stack)
    }

    ghost predicate Valid()
      reads this, streams, streams.slots
    {
      streams.Valid() && Inv(Abs())
    }

    constructor (hash: nat -> nat)
      ensures Valid() && Abs() == Init() && fresh(streams) && fresh(streams.slots)
    {
      streams := new T.StreamTable(hash, 16);
      entries, conns, pool := map[], map[], {};
      count, nextId, closed, alive := 0, 1, false, true;
      inactivity, teardown, timers, nextTimer := 1, 0, map[1 := Check], 2;
      scheduled, told, stack := 0, 0, [];
      new;
      assert Abs() == Init();
    }

    // ---------- timers ----------

    method CancelTimer(h: nat)
      modifies this`timers
      ensures Abs() == Cancel(old(Abs()), h)
    {
      timers := map g | g in timers && g != h :: timers[g];
    }

    method RescheduleInactivity()
      modifies this`timers, this`inactivity, this`nextTimer
      ensures Abs() == Reschedule(old(Abs()))
    {
      CancelTimer(inactivity);
      timers := timers[nextTimer := Check];
      inactivity := nextTimer;
      nextTimer := nextTimer + 1;
    }

    method AddTeardownTimer(kind: Kind)
      modifies this`timers, this`teardown, this`nextTimer
      ensures Abs() == Schedule(old(Abs()), kind)
    {
      timers := timers[nextTimer := kind];
      teardown := nextTimer;
      nextTimer := nextTimer + 1;
    }

    // ---------- retiring and closing ----------

    method RetireStream(e: nat)
      requires streams.Valid() && e in entries
      requires !entries[e].retired ==> entries[e].id in streams.m && streams.m[entries[e].id].Active?
      modifies this`entries, this`count, this`timers, this`inactivity, this`nextTimer, streams, streams.slots
      ensures streams.Valid() && streams.slots == old(streams.slots) && Abs() == Retire(old(Abs()), e)
    {
      hide T.StreamTable.Valid;
      if entries[e].retired {
        return;
      }
      entries := entries[e := entries[e].(retired := true)];
      var _ := streams.MarkDead(entries[e].id);
      count := count - 1;
      if count == 0 && !closed {
        RescheduleInactivity();
      }
    }

    method CloseOnce() returns (first: bool)
      modifies this`closed, this`timers
      ensures first == !old(closed) && Abs() == CloseInternal(old(Abs()))
    {
      if closed {
        return false;
      }
      closed := true;
      CancelTimer(inactivity);
      first := true;
    }

    method ScheduleDeferredTeardown()
      modifies this`timers, this`teardown, this`nextTimer, this`scheduled
      ensures Abs() == StartTeardown(old(Abs()))
    {
      AddTeardownTimer(Teardown);
      scheduled := scheduled + 1;
    }

    /** Frees no stream and no connection: callable from inside any call in progress. */
    method CloseFromBelow()
      modifies this`closed, this`timers, this`teardown, this`nextTimer, this`scheduled
      ensures Abs() == PassiveClose(old(Abs()))
    {
      var first := CloseOnce();
      if !first {
        return;
      }
      ScheduleDeferredTeardown();
    }

    method PushFrame(f: Frame)
      modifies this`stack
      ensures Abs() == Push(old(Abs()), f)
    {
      stack := stack + [f];
    }

    // ---------- opening and routing ----------

    /** `e` is the allocated entry; it is given back at once when the table refuses the id. */
    method OpenNew(e: nat) returns (ok: bool)
      requires streams.Valid()
      modifies this`entries, this`count, this`nextId, streams, streams.slots
      ensures streams.Valid() && (streams.slots == old(streams.slots) || fresh(streams.slots))
      ensures Abs() == OpenStream(old(Abs()), e)
      ensures ok == (!old(closed) && !(old(nextId) in old(streams.m) && old(streams.m)[old(nextId)].Active?))
    {
      hide T.StreamTable.Valid;
      if closed {
        return false;
      }
      var id := nextId;
      nextId := (nextId + 1) % ID_MOD;
      ok := streams.InsertActive(id, e);
      if !ok {
        return;
      }
      entries := entries[e := Entry(id, false, 0)];
      count := count + 1;
    }

    /** A stream the peer has opened. */
    method AddEntry(id: nat, e: nat)
      requires streams.Valid() && id !in streams.m
      modifies this`entries, this`count, streams, streams.slots
      ensures streams.Valid() && (streams.slots == old(streams.slots) || fresh(streams.slots))
      ensures Abs() == NewEntry(old(Abs()), e, id)
    {
      hide T.StreamTable.Valid;
      var _ := streams.InsertActive(id, e);
      entries := entries[e := Entry(id, false, 0)];
      count := count + 1;
    }

    /** A data frame for `id`; feeding it to its stream returned `rc`. The consumer is called last. */
    method OnFrame(id: nat, rc: int, e: nat)
      requires Valid() && e !in entries
      modifies this, streams, streams.slots
      ensures streams.Valid() && (streams.slots == old(streams.slots) || fresh(streams.slots))
      ensures (id in old(streams.m) && old(streams.m)[id].Active? ==> old(streams.m)[id].value in old(entries)) &&
              Abs() == OnEnvelope(old(Abs()), id, rc, e)
    {
      hide T.StreamTable.Valid;
      hide Inv;
      hide Retire;
      ghost var s := Abs();
      RoutedEntry(s, id);
      if closed {
        return;
      }
      var found, slot := streams.Lookup(id);
      if found && slot.Tombstone? {
        return;
      }
      var d := e;
      if found {
        d := slot.value;
      } else {
        AddEntry(id, e);
      }
      ghost var t := Abs();
      if Ends(rc) {
        RetireStream(d);
        assert Abs() == Retire(t, d);
      }
      stack := stack + [Consumer];
    }

    /** session_on_envelope on a decoded data frame. `stream` is the stream object under the id, or the one just initialised
        for an unknown id; it is fed unless the frame is late or the session closed, and what feeding returns decides. */
    method OnData(id: nat, f: R.Frame, stream: S.Stream, e: nat)
      requires Valid() && e !in entries && stream.Valid() && (id !in streams.m ==> stream.Abs() == R.START.r)
      modifies this, streams, streams.slots, stream`heap, stream`heapLen, stream`nextRecv, stream`closingSeen
      modifies stream.heap, stream.recvBytes, stream.recvBytes.data
      ensures streams.Valid() && stream.Valid()
      ensures var fed := !old(closed) && !(id in old(streams.m) && old(streams.m)[id].Tombstone?);
              var (r, rc) := R.Feed(stream.Lim(), old(stream.Abs()), f);
        && stream.Abs() == (if fed then r else old(stream.Abs()))
        && (id in old(streams.m) && old(streams.m)[id].Active? ==> old(streams.m)[id].value in old(entries))
        && Abs() == OnEnvelope(old(Abs()), id, if fed then rc else 0, e)
    {
      hide T.StreamTable.Valid;
      hide Inv;
      hide R.Feed;
      hide OnEnvelope;
      hide S.Stream.Abs;
      hide S.Stream.Valid;
      Unrouted(Abs(), id, e);
      if closed {
        return;
      }
      var found, slot := streams.Lookup(id);
      if found && slot.Tombstone? {
        return;
      }
      var rc := stream.FeedFrame(f);
      OnFrame(id, rc, e);
    }

    // ---------- calls that send ----------

    method BeginCloseCall(e: nat)
      requires e in entries
      modifies this`stack
      ensures Abs() == if old(closed || entries[e].retired) then old(Abs()) else Push(old(Abs()), Closing(e))
    {
      if closed || entries[e].retired {
        return;
      }
      PushFrame(Closing(e));
    }

    method BeginReleaseCall(e: nat)
      requires e in entries
      modifies this`stack, this`entries
      ensures Abs() == Release(old(Abs()), e)
    {
      if entries[e].retired {
        entries := entries[e := Free(entries[e])];
        return;
      }
      PushFrame(Releasing(e));
    }

    method BeginEnding() returns (first: bool)
      modifies this`stack, this`closed, this`timers
      ensures first == !old(closed) && Abs() == BeginSessionClose(old(Abs()))
    {
      first := CloseOnce();
      if first {
        PushFrame(Ending);
      }
    }

    method RetireAndFree(e: nat)
      requires streams.Valid() && e in entries
      requires !entries[e].retired ==> entries[e].id in streams.m && streams.m[entries[e].id].Active?
      modifies this`entries, this`count, this`timers, this`inactivity, this`nextTimer, streams, streams.slots
      ensures streams.Valid() && streams.slots == old(streams.slots) && Abs() == RetiredAndFreed(old(Abs()), e)
    {
      hide T.StreamTable.Valid;
      hide Retire;
      ghost var s := Abs();
      RetireStream(e);
      RetireKnown(s, e);
      entries := entries[e := Free(entries[e])];
    }

    /** The rest of a call once what it called has returned. */
    method FinishTop()
      requires Valid() && stack != []
      modifies this, streams, streams.slots
      ensures Valid() && streams.slots == old(streams.slots)
      ensures Finishable(old(Abs())) && Abs() == EndCall(old(Abs()))
    {
      hide T.StreamTable.Valid;
      hide Inv;
      hide Retire;
      hide EndCall;
      hide StartTeardown;
      hide RetiredAndFreed;
      ghost var s := Abs();
      TopIsLive(s);
      EndKeeps(s);
      EndIs(s);
      var f := stack[|stack| - 1];
      stack := stack[..|stack| - 1];
      assert Abs() == Pop(s);
      if f.Closing? {
        RetireStream(f.entry);
      } else if f.Releasing? {
        RetireAndFree(f.entry);
      } else if f == Ending {
        ScheduleDeferredTeardown();
      }
    }

    /** One thing that happens inside a send. */
    method Act(ev: Event)
      requires Valid() && Nested(ev) && Enabled(Abs(), ev) && Careful(Abs(), ev)
      modifies this, streams, streams.slots
      ensures Valid() && (streams.slots == old(streams.slots) || fresh(streams.slots))
      ensures Abs() == Step(old(Abs()), ev)
    {
      hide T.StreamTable.Valid;
      hide Inv;
      hide Enabled;
      hide Careful;
      hide OnEnvelope;
      hide EndCall;
      hide OpenStream;
      hide PassiveClose;
      hide BeginSessionClose;
      hide Release;
      ActReady(Abs(), ev);
      StepKeeps(Abs(), ev);
      match ev {
        case AddConn(c) =>
          if !closed {
            conns, pool := conns[c := 0], pool + {c};
          }
        case Open(e) =>
          var _ := OpenNew(e);
        case BeginWrite(e) =>
          PushFrame(Writing(e));
        case BeginConsumer =>
          PushFrame(Consumer);
        case ConnBreaks =>
          CloseFromBelow();
        case BeginCloseStream(e) =>
          BeginCloseCall(e);
        case BeginRelease(e) =>
          BeginReleaseCall(e);
        case BeginClose =>
          var _ := BeginEnding();
        case End =>
          FinishTop();
      }
    }

    /** A send through the switchboard: the connection it picks may break, which comes back as a passive close, and a drain
        it completes calls on_writable, from which the consumer may call the API again, to any depth. */
    method SinkSend(evs: seq<Event>)
      requires Valid() && Above(Abs(), evs, |stack|)
      modifies this, streams, streams.slots
      ensures Valid() && (streams.slots == old(streams.slots) || fresh(streams.slots))
      ensures CarefulRun(old(Abs()), evs) && Abs() == Run(old(Abs()), evs)
      ensures stack == old(stack) && Survives(old(Abs()), Abs(), evs, |old(stack)|)
    {
      hide T.StreamTable.Valid;
      ghost var s, d := Abs(), |stack|;
      NestedSurvives(s, evs, d);
      assert s.stack[..d] == s.stack;
      hide Inv;
      hide Enabled;
      hide Careful;
      hide Survives;
      hide Step;
      hide Nested;
      var i := 0;
      assert evs[0..] == evs;
      while i < |evs|
        invariant 0 <= i <= |evs| && Valid() && (streams.slots == old(streams.slots) || fresh(streams.slots))
        invariant Above(Abs(), evs[i..], d) && CarefulRun(Abs(), evs[i..]) && Run(Abs(), evs[i..]) == Run(s, evs)
      {
        assert evs[i..][0] == evs[i] && evs[i..][1..] == evs[i + 1..];
        Act(evs[i]);
        i := i + 1;
      }
      assert evs[i..] == [];
    }

    /** The send of the call on top of the stack, whatever it sets off, and the rest of that call. */
    method SendAndFinish(evs: seq<Event>)
      requires Valid() && stack != [] && Above(Abs(), evs, |stack|)
      modifies this, streams, streams.slots
      ensures Valid() && (streams.slots == old(streams.slots) || fresh(streams.slots))
      ensures stack == old(stack)[..|old(stack)| - 1]
      ensures CarefulRun(old(Abs()), evs) && Run(old(Abs()), evs).stack == old(stack)
      ensures Finishable(Run(old(Abs()), evs)) && Abs() == EndCall(Run(old(Abs()), evs))
      ensures old(pool) <= pool
      ensures forall d :: Live(old(Abs()), d) && BeginRelease(d) !in evs && Releasing(d) !in old(stack) ==> Live(Abs(), d)
    {
      hide T.StreamTable.Valid;
      hide Inv;
      hide EndCall;
      hide Above;
      hide Run;
      ghost var s := Abs();
      SinkSend(evs);
      ghost var t := Abs();
      EndStack(t);
      FinishTop();
      forall d | Live(s, d) && BeginRelease(d) !in evs && Releasing(d) !in s.stack
        ensures Live(EndCall(t), d)
      {
        assert TopFrame(t) in t.stack;
        EndLive(t, d);
      }
    }

    /** cloak_stream_write, seen from the session: only its sends matter. */
    method WriteStream(e: nat, evs: seq<Event>)
      requires Valid() && alive && Live(Abs(), e) && Sends(Abs(), Writing(e), evs)
      modifies this, streams, streams.slots
      ensures Valid() && stack == old(stack) && Live(Abs(), e) && old(pool) <= pool
    {
      hide T.StreamTable.Valid;
      hide Inv;
      PushFrame(Writing(e));
      ghost var s := Abs();
      SinkSend(evs);
      FrameIsLive(Abs(), e);
      FinishTop();
    }

    /** The closing frame is sent first. Whatever that sets off, careful releases of other streams included, this stream is
        still there to be retired. */
    method CloseStream(e: nat, evs: seq<Event>) returns (ok: bool)
      requires Valid() && alive && Live(Abs(), e)
      requires !closed && !entries[e].retired ==> Sends(Abs(), Closing(e), evs)
      modifies this, streams, streams.slots
      ensures Valid() && stack == old(stack) && Live(Abs(), e) && old(pool) <= pool
      ensures ok == (!old(closed) && !old(entries)[e].retired)
      ensures ok ==> entries[e].retired && !Held(streams.m, e)
      ensures !ok ==> Abs() == old(Abs())
      ensures forall d :: Live(old(Abs()), d) && BeginRelease(d) !in evs && Releasing(d) !in old(stack) ==> Live(Abs(), d)
    {
      hide T.StreamTable.Valid;
      hide Inv;
      ok := !closed && !entries[e].retired;
      if !ok {
        return;
      }
      ghost var s := Abs();
      BeginCloseCall(e);
      ghost var t := Abs();
      assert t == Push(s, Closing(e));
      SendAndFinish(evs);
      ClosedStream(t, evs, e);
      RetiredNotHeld(Abs(), e);
    }

    /** Frees exactly this stream, once, after closing it if it was open. */
    method ReleaseStream(e: nat, evs: seq<Event>)
      requires Valid() && Live(Abs(), e) && (alive || entries[e].retired) && Careful(Abs(), BeginRelease(e))
      requires !entries[e].retired ==> Sends(Abs(), Releasing(e), evs)
      modifies this, streams, streams.slots
      ensures Valid() && stack == old(stack) && old(pool) <= pool
      ensures e in entries && entries[e].frees == 1 && entries[e].retired
      ensures forall d :: d != e && Live(old(Abs()), d) && BeginRelease(d) !in evs && Releasing(d) !in old(stack) ==>
                Live(Abs(), d)
    {
      hide T.StreamTable.Valid;
      hide Inv;
      ghost var s := Abs();
      if entries[e].retired {
        FreeKeeps(s, e);
        BeginReleaseCall(e);
      } else {
        BeginReleaseCall(e);
        ghost var t := Abs();
        assert t == Push(s, Releasing(e));
        SendAndFinish(evs);
        ReleasedStream(t, evs, e);
      }
    }

    /** Closes once and schedules teardown once. By itself it frees nothing: what its frame's send sets off may only free
        streams that the consumer releases. */
    method CloseSession(evs: seq<Event>) returns (ok: bool)
      requires Valid() && alive
      requires !closed ==> Sends(CloseInternal(Abs()), Ending, evs)
      modifies this, streams, streams.slots
      ensures Valid() && closed && ok == !old(closed) && stack == old(stack) && old(pool) <= pool
      ensures scheduled <= 1 && (ok ==> scheduled == 1 && told == 0)
      ensures !ok ==> Abs() == old(Abs())
      ensures forall d :: Live(old(Abs()), d) && BeginRelease(d) !in evs && Releasing(d) !in old(stack) ==> Live(Abs(), d)
    {
      hide T.StreamTable.Valid;
      hide Inv;
      ghost var s := Abs();
      OnceBound(s);
      SessionCloseKeeps(s);
      ok := BeginEnding();
      if !ok {
        return;
      }
      ghost var t := Abs();
      assert t == Push(CloseInternal(s), Ending);
      SendAndFinish(evs);
      EndedOnce(t, evs);
    }

    // ---------- timers ----------

    /** session_check_timeout: the reactor has taken the timer off its heap, then calls in. */
    method CheckTimeout(h: nat, evs: seq<Event>)
      requires Valid() && stack == [] && h in timers && timers[h] == Check
      requires count == 0 ==> Sends(CloseInternal(Cancel(Abs(), h)), Ending, evs)
      modifies this, streams, streams.slots
      ensures Valid() && stack == [] && old(pool) <= pool
      ensures closed <==> old(count) == 0
      ensures forall d :: Live(old(Abs()), d) && BeginRelease(d) !in evs ==> Live(Abs(), d)
    {
      hide T.StreamTable.Valid;
      hide Inv;
      hide EndCall;
      hide Run;
      hide Above;
      CheckIsOpen(Abs(), h);
      ghost var s := Abs();
      CheckKeeps(s, h);
      CancelTimer(h);
      if count == 0 && !closed {
        var _ := BeginEnding();
        ghost var t := Abs();
        assert t == FireTimer(s, h);
        SendAndFinish(evs);
        EndedOnce(t, evs);
      }
    }

    /** session_deferred_teardown_cb: the sweep is scheduled before the consumer is told, and nothing comes after. */
    method DeferredTeardown(h: nat)
      requires Valid() && stack == [] && h in timers && timers[h] == Teardown
      modifies this
      ensures Valid() && Abs() == FireTimer(old(Abs()), h)
    {
      hide T.StreamTable.Valid;
      hide Inv;
      hide Cancel;
      TeardownKeeps(Abs(), h);
      CancelFrame(Abs(), h);
      CancelTimer(h);
      AddTeardownTimer(Sweep);
      told := told + 1;
      PushFrame(Broken);
    }

    /** for_each_active with the destroying callback: the table's own iteration hands over every ACTIVE stream once, each is
        freed and its key tombstoned. */
    method FreeAllActive()
      requires streams.Valid() && TableInv(Abs())
      modifies this`entries, this`count, streams, streams.slots
      ensures streams.Valid() && streams.slots == old(streams.slots) && Abs() == FreeStreams(old(Abs()))
    {
      ghost var s := Abs();
      ListedExactly(streams);
      hide T.StreamTable.Valid;
      hide TableInv;
      hide FreeStreams;
      var all := (key: nat) => true;
      var visited := streams.ForEachActive(all);
      DroppedAll(s.table, visited, all);
      ghost var t := FreeVisited(visited, s);
      NothingToFree(t);
      FreedTable(s);
    }

    /** The callback's own part, for each stream visited: free it and stop counting it. */
    method FreeVisited(visited: seq<(nat, nat)>, ghost s: State) returns (ghost t: State)
      requires TableInv(s) && s.entries == entries && s.count == count && Lists(visited, s.table)
      modifies this`entries, this`count
      ensures FreeStreams(t) == FreeStreams(s) && ActiveIds(t.table) == {} && t.entries == entries && t.count == count
    {
      t := s;
      hide TableInv;
      hide FreeStreams;
      var i := 0;
      assert visited[0..] == visited;
      while i < |visited|
        invariant 0 <= i <= |visited| && TableInv(t) && t.entries == entries && t.count == count
        invariant Lists(visited[i..], t.table) && FreeStreams(t) == FreeStreams(s)
      {
        var (id, e) := visited[i];
        assert visited[i..][0] == visited[i] && visited[i..][1..] == visited[i + 1..];
        ListedIsActive(visited[i..], t, id, e);
        FreeStepKeeps(t, id);
        ListedRest(visited[i..], t.table);
        entries := entries[e := Free(entries[e])];
        count := count - 1;
        t := FreeStep(t, id);
        i := i + 1;
      }
      ListedNone(visited[i..], t.table);
    }

    method CloseAllConns()
      modifies this`conns, this`pool
      ensures Abs() == ClosePool(old(Abs()))
    {
      conns := map c | c in conns :: if c in pool then conns[c] + 1 else conns[c];
      pool := {};
    }

    /** session_teardown_sweep_cb. */
    method TeardownSweep(h: nat)
      requires Valid() && stack == [] && h in timers && timers[h] == Sweep
      modifies this, streams, streams.slots
      ensures Valid() && Abs() == FireTimer(old(Abs()), h)
      ensures pool == {} && ActiveIds(streams.m) == {} && timers == map[]
    {
      hide T.StreamTable.Valid;
      hide Inv;
      hide TableInv;
      hide FreeStreams;
      hide ActiveIds;
      ghost var s := Abs();
      SweepFacts(s, h);
      CancelTimer(h);
      teardown := 0;
      SameTable(s, Abs());
      FreeAllActive();
      CloseAllConns();
    }

    /** cloak_session_destroy. */
    method DestroyIt()
      requires Valid() && Enabled(Abs(), Destroy)
      modifies this, streams, streams.slots
      ensures Valid() && Abs() == DestroySession(old(Abs()))
      ensures !alive && timers == map[] && pool == {} && ActiveIds(streams.m) == {}
    {
      hide T.StreamTable.Valid;
      hide Inv;
      hide Enabled;
      hide TableInv;
      hide ActiveIds;
      hide FreeStreams;
      hide CloseInternal;
      hide Cancel;
      hide ClosePool;
      ghost var s := Abs();
      DestroyFacts(s);
      ClosedFrame(s);
      var _ := CloseOnce();
      CancelTimer(teardown);
      SameTable(s, Abs());
      FreeAllActive();
      CloseAllConns();
      alive, inactivity, teardown := false, 0, 0;
    }
  }

  // ---------- the table's iteration ----------

  /** `visited` is the ACTIVE entries, each once. */
  ghost predicate Lists(visited: seq<(nat, nat)>, table: map<nat, Slot>)
  {
    && (forall k: nat, v: nat :: (k, v) in visited <==> k in table && table[k] == T.Active(v))
    && (forall i, j :: 0 <= i < j < |visited| ==> visited[i].0 != visited[j].0)
  }

  lemma ListedExactly(t: T.StreamTable<nat>)
    requires t.Valid()
    ensures Lists(T.ActiveList(t.slots[..]), t.m)
  {
    hide T.ActiveList;
    hide T.Represents;
    forall k: nat, v: nat
      ensures (k, v) in T.ActiveList(t.slots[..]) <==> k in t.m && t.m[k] == T.Active(v)
    {
      T.ActiveListExact(t.slots[..], t.hash, t.m, k, v);
    }
    T.ActiveListExact(t.slots[..], t.hash, t.m, 0, 0);
  }

  lemma DroppedAll(table: map<nat, Slot>, visited: seq<(nat, nat)>, all: nat -> bool)
    requires Lists(visited, table) && forall k :: all(k)
    ensures T.Dropped(table, visited, all) == map id | id in table :: T.Tombstone
  {
    forall k | k in table
      ensures T.Dropped(table, visited, all)[k] == T.Tombstone
    {
      if table[k].Active? {
        assert (k, table[k].value) in visited;
      }
    }
  }

  lemma FreedTable(s: State)
    ensures FreeStreams(s).table == map id | id in s.table :: T.Tombstone
    ensures FreeStreams(s) == s.(table := FreeStreams(s).table, entries := FreeStreams(s).entries, count := FreeStreams(s).count)
  {
  }

  lemma ListedIsActive(visited: seq<(nat, nat)>, t: State, id: nat, e: nat)
    requires TableInv(t) && Lists(visited, t.table) && visited != [] && visited[0] == (id, e)
    ensures id in t.table && t.table[id] == T.Active(e) && e in t.entries
  {
    assert (id, e) in visited;
  }

  lemma ListedRest(visited: seq<(nat, nat)>, table: map<nat, Slot>)
    requires Lists(visited, table) && visited != []
    ensures Lists(visited[1..], table[visited[0].0 := T.Tombstone])
  {
    var rest, t := visited[1..], table[visited[0].0 := T.Tombstone];
    forall k: nat, v: nat
      ensures (k, v) in rest <==> k in t && t[k] == T.Active(v)
    {
      assert visited == [visited[0]] + rest;
      assert (k, v) in visited <==> (k, v) == visited[0] || (k, v) in rest;
      if (k, v) in rest {
        var j :| 0 <= j < |rest| && rest[j] == (k, v);
        assert visited[j + 1] == (k, v);
      }
    }
  }

  lemma ListedNone(visited: seq<(nat, nat)>, table: map<nat, Slot>)
    requires Lists(visited, table)
    ensures visited == [] ==> ActiveIds(table) == {}
  {
    var keys := set p | p in visited :: p.0;
    forall id | id in ActiveIds(table)
      ensures id in keys
    {
      var p := (id, table[id].value);
      assert p in visited && p.0 == id;
    }
    assert visited == [] ==> keys == {};
  }

  lemma SameTable(s: State, c: State)
    requires TableInv(s) && c.table == s.table && c.entries == s.entries && c.count == s.count
    ensures TableInv(c)
  {
  }

  lemma SweepFacts(s: State, h: nat)
    requires Inv(s) && s.stack == [] && h in s.timers && s.timers[h] == Sweep
    ensures TableInv(s)
    ensures var t := FireTimer(s, h); Inv(t) && t.pool == {} && ActiveIds(t.table) == {} && t.timers == map[]
  {
    SweepKeeps(s, h);
    assert Cancel(s, h).timers == map[];
  }

  lemma ClosedFrame(s: State)
    ensures var c := CloseInternal(s); var t := Cancel(c, s.teardown);
            c.teardown == s.teardown && t.table == s.table && t.entries == s.entries && t.count == s.count
  {
  }

  lemma DestroyFacts(s: State)
    requires Inv(s) && Enabled(s, Destroy)
    ensures TableInv(s)
    ensures var t := DestroySession(s); Inv(t) && t.timers == map[] && t.pool == {} && ActiveIds(t.table) == {}
  {
    DestroyKeeps(s);
    DestroyTimers(s);
    DestroyTable(s);
  }

  ghost function FreeStep(s: State, id: nat): (r: State)
    requires id in s.table && s.table[id].Active? && s.table[id].value in s.entries
  {
    var e := s.table[id].value;
    s.(entries := s.entries[e := Free(s.entries[e])], table := s.table[id := T.Tombstone], count := s.count - 1)
  }

  lemma FreeStepKeeps(s: State, id: nat)
    requires TableInv(s) && id in s.table && s.table[id].Active? && s.table[id].value in s.entries
    ensures var t := FreeStep(s, id);
            TableInv(t) && FreeStreams(t) == FreeStreams(s) && ActiveIds(t.table) == ActiveIds(s.table) - {id}
  {
    ActiveSet(s.table, id, T.Tombstone);
    FreeStepTable(s, id);
    hide FreeStreams;
    FreeStepSame(s, id);
  }

  lemma FreeStepTable(s: State, id: nat)
    requires TableInv(s) && id in s.table && s.table[id].Active? && s.table[id].value in s.entries
    ensures TableInv(FreeStep(s, id))
  {
    ActiveSet(s.table, id, T.Tombstone);
  }

  lemma FreeStepSame(s: State, id: nat)
    requires TableInv(s) && id in s.table && s.table[id].Active? && s.table[id].value in s.entries
    ensures FreeStreams(FreeStep(s, id)) == FreeStreams(s)
  {
    var t, e := FreeStep(s, id), s.table[id].value;
    ActiveSet(s.table, id, T.Tombstone);
    forall d | d in s.entries
      ensures Held(t.table, d) <==> Held(s.table, d) && d != e
    {
      if Held(s.table, d) && d != e {
        var i :| i in s.table && s.table[i] == T.Active(d);
        assert t.table[i] == T.Active(d);
      }
    }
    assert Held(s.table, e);
    assert FreeStreams(t).entries == FreeStreams(s).entries;
    assert FreeStreams(t).table == FreeStreams(s).table;
  }

  lemma NothingToFree(s: State)
    requires ActiveIds(s.table) == {}
    ensures FreeStreams(s).entries == s.entries && FreeStreams(s).count == s.count
  {
    assert forall id :: id in s.table ==> id !in ActiveIds(s.table);
    assert forall e :: !Held(s.table, e);
  }

  // ---------- helpers ----------

  lemma Unrouted(s: State, id: nat, e: nat)
    requires Inv(s)
    ensures id in s.table && s.table[id].Active? ==> s.table[id].value in s.entries
    ensures s.closed || (id in s.table && s.table[id].Tombstone?) ==> OnEnvelope(s, id, 0, e) == s
  {
    RoutedEntry(s, id);
  }

  /** The call `f` is entered and its send sets off `evs`. */
  ghost predicate Sends(s: State, f: Frame, evs: seq<Event>)
  {
    Inv(Push(s, f)) && Above(Push(s, f), evs, |s.stack| + 1)
  }

  /** What returning from the top call needs of its stream. */
  ghost predicate Finishable(s: State)
  {
    s.stack != [] &&
    var f := TopFrame(s);
    f.Closing? || f.Releasing? ==>
      f.entry in s.entries &&
      (!s.entries[f.entry].retired ==> s.entries[f.entry].id in s.table && s.table[s.entries[f.entry].id].Active?)
  }

  lemma TopIsLive(s: State)
    requires Inv(s) && s.stack != []
    ensures Finishable(s)
  {
    assert FrameOk(s, s.stack[|s.stack| - 1]);
  }

  ghost function RetiredAndFreed(s: State, e: nat): (r: State)
    requires e in s.entries
  {
    var t := Retire(s, e);
    t.(entries := t.entries[e := Free(t.entries[e])])
  }

  lemma EndIs(s: State)
    requires Finishable(s)
    ensures var f := TopFrame(s); var p := Pop(s);
            EndCall(s) == if f.Closing? then Retire(p, f.entry)
                          else if f.Releasing? then RetiredAndFreed(p, f.entry)
                          else if f == Ending then StartTeardown(p) else p
  {
    hide Retire;
  }

  lemma ActReady(s: State, ev: Event)
    requires Nested(ev) && Enabled(s, ev)
    ensures ev.BeginCloseStream? || ev.BeginRelease? ==> ev.e in s.entries
    ensures ev.End? ==> s.stack != []
  {
  }

  lemma RetireKnown(s: State, e: nat)
    requires e in s.entries
    ensures e in Retire(s, e).entries
  {
  }

  lemma FrameIsLive(s: State, e: nat)
    requires Inv(s) && s.stack != [] && TopFrame(s) == Writing(e)
    ensures Live(s, e) && Live(EndCall(s), e)
  {
    assert FrameOk(s, s.stack[|s.stack| - 1]);
    EndLive(s, e);
  }

  lemma ClosedStream(t: State, evs: seq<Event>, e: nat)
    requires Inv(t) && CarefulRun(t, evs) && Run(t, evs).stack == t.stack && t.stack != [] && TopFrame(t) == Closing(e)
    ensures var r := EndCall(Run(t, evs)); Live(r, e) && r.entries[e].retired
  {
    var u := Run(t, evs);
    assert FrameOk(u, u.stack[|u.stack| - 1]);
    hide Run;
    EndLive(u, e);
  }

  lemma ReleasedStream(t: State, evs: seq<Event>, e: nat)
    requires Inv(t) && CarefulRun(t, evs) && Run(t, evs).stack == t.stack && t.stack != [] && TopFrame(t) == Releasing(e)
    ensures var r := EndCall(Run(t, evs)); e in r.entries && r.entries[e].frees == 1 && r.entries[e].retired
  {
    var u := Run(t, evs);
    assert FrameOk(u, u.stack[|u.stack| - 1]);
    hide Run;
  }

  lemma OnceBound(s: State)
    requires Inv(s)
    ensures s.scheduled <= 1
  {
  }

  /** The closing call's teardown is the only one. */
  lemma EndedOnce(t: State, evs: seq<Event>)
    requires Inv(t) && CarefulRun(t, evs) && Run(t, evs).stack == t.stack && t.stack != [] && TopFrame(t) == Ending
    ensures var r := EndCall(Run(t, evs)); r.closed && r.scheduled == 1 && r.told == 0
  {
    hide Inv;
    hide CarefulRun;
    hide Run;
    var u := Run(t, evs);
    EndingFacts(u);
  }

  lemma EndingFacts(u: State)
    requires Inv(u) && u.stack != [] && TopFrame(u) == Ending
    ensures u.closed && u.scheduled == 0 && u.told == 0
  {
    assert u.stack[|u.stack| - 1] == Ending;
  }

  lemma RetiredNotHeld(s: State, e: nat)
    requires Inv(s) && e in s.entries && s.entries[e].retired
    ensures !Held(s.table, e)
  {
  }

  lemma CheckIsOpen(s: State, h: nat)
    requires Inv(s) && h in s.timers && s.timers[h] == Check
    ensures s.alive && !s.closed
  {
  }
}

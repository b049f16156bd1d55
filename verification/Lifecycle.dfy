/** A session's life (libcloak-mux/src/session.c) as a state machine: stream entries and the stream table, the three
    timer callbacks, closing, deferred teardown and destruction, with the call stack on which they all may nest. */
module Lifecycle {
  import T = StreamTable

  // ---------- state ----------

  /** The stream table holds the entry of an open stream, or a tombstone. */
  type Slot = T.Entry<nat>

  /** One allocated stream: the id it was made under, its retired flag, and how often its memory was given back. */
  datatype Entry = Entry(id: nat, retired: bool, frees: nat)

  datatype Kind = Check | Teardown | Sweep

  /** A call in progress that will touch its object again after the calls nested in it return. */
  datatype Frame =
    | Dispatch(conn: nat)      // a connection's read loop
    | Writing(entry: nat)      // cloak_stream_write, inside the sink
    | Closing(entry: nat)      // close_stream, sending the closing frame
    | Releasing(entry: nat)    // release_stream, sending the closing frame
    | Ending                   // cloak_session_close, sending the session-closing frame
    | Consumer                 // on_new_stream, on_stream_data or on_writable
    | Broken                   // on_broken

  /** `timers` holds the pending reactor timers that point at this session; `inactivity` and `teardown` are the handles
      it remembers. `conns` counts how often each connection's memory was given back, `pool` is the switchboard's list.
      `scheduled` and `told` count teardowns scheduled and on_broken calls. */
  datatype State = State(
    table: map<nat, Slot>,
    entries: map<nat, Entry>,
    conns: map<nat, nat>,
    pool: set<nat>,
    count: int,
    nextId: nat,
    closed: bool,
    alive: bool,
    inactivity: nat,
    teardown: nat,
    timers: map<nat, Kind>,
    nextTimer: nat,
    scheduled: nat,
    told: nat,
    stack: seq<Frame>)

  const ID_MOD: nat := 0x1_0000_0000

  function Init(): (s: State)
    ensures Inv(s)
  {
    assert ActiveIds(map[]) == {};
    Reschedule(State(map[], map[], map[], {}, 0, 1, false, true, 0, 0, map[], 1, 0, 0, []))
  }

  // ---------- the session's own helpers ----------

  /** Cancelling a handle that has fired, or never was one, does nothing. */
  function Cancel(s: State, handle: nat): (r: State)
  {
    s.(timers := map h | h in s.timers && h != handle :: s.timers[h])
  }

  function Reschedule(s: State): (r: State)
  {
    var c := Cancel(s, s.inactivity);
    c.(timers := c.timers[s.nextTimer := Check], inactivity := s.nextTimer, nextTimer := s.nextTimer + 1)
  }

  function Schedule(s: State, kind: Kind): (r: State)
  {
    s.(timers := s.timers[s.nextTimer := kind], teardown := s.nextTimer, nextTimer := s.nextTimer + 1)
  }

  function Retire(s: State, e: nat): (r: State)
    requires e in s.entries
  {
    if s.entries[e].retired then s
    else
      var t := s.(entries := s.entries[e := s.entries[e].(retired := true)],
                  table := s.table[s.entries[e].id := T.Tombstone], count := s.count - 1);
      if t.count == 0 && !t.closed then Reschedule(t) else t
  }

  function CloseInternal(s: State): (r: State)
  {
    if s.closed then s else Cancel(s.(closed := true), s.inactivity)
  }

  function StartTeardown(s: State): (r: State)
  {
    Schedule(s, Teardown).(scheduled := s.scheduled + 1)
  }

  function PassiveClose(s: State): (r: State)
  {
    if s.closed then s else StartTeardown(CloseInternal(s))
  }

  function Free(x: Entry): (r: Entry)
  {
    x.(frees := x.frees + 1)
  }

  ghost function ActiveIds(table: map<nat, Slot>): (ids: set<nat>)
  {
    set id | id in table && table[id].Active?
  }

  ghost predicate Held(table: map<nat, Slot>, e: nat)
  {
    exists id :: id in table && table[id] == T.Active(e)
  }

  /** Every ACTIVE stream freed and tombstoned. */
  ghost function FreeStreams(s: State): (r: State)
  {
    s.(entries := map e | e in s.entries :: if Held(s.table, e) then Free(s.entries[e]) else s.entries[e],
       table := map id | id in s.table :: T.Tombstone,
       count := s.count - |ActiveIds(s.table)|)
  }

  /** Every connection of the pool closed and freed. */
  function ClosePool(s: State): (r: State)
  {
    s.(conns := map c | c in s.conns :: if c in s.pool then s.conns[c] + 1 else s.conns[c], pool := {})
  }

  ghost function FreeAll(s: State): (r: State)
  {
    ClosePool(FreeStreams(s))
  }

  function Push(s: State, f: Frame): (r: State)
  {
    s.(stack := s.stack + [f])
  }

  function Pop(s: State): (r: State)
    requires s.stack != []
  {
    s.(stack := s.stack[..|s.stack| - 1])
  }

  function TopFrame(s: State): (f: Frame)
    requires s.stack != []
  {
    s.stack[|s.stack| - 1]
  }

  function NewEntry(s: State, e: nat, id: nat): (r: State)
  {
    s.(entries := s.entries[e := Entry(id, false, 0)], table := s.table[id := T.Active(e)], count := s.count + 1)
  }

  // ---------- events ----------

  /** `rc` is what feeding the frame to its stream returned. `e` is the allocator's answer. */
  datatype Event =
    | AddConn(conn: nat)
    | Open(e: nat)
    | BeginDispatch(conn: nat)
    | BeginWrite(e: nat)
    | BeginConsumer
    | Envelope(id: nat, rc: int, e: nat)
    | SessionFrame
    | ConnBreaks
    | BeginCloseStream(e: nat)
    | BeginRelease(e: nat)
    | BeginClose
    | End
    | Fire(handle: nat)
    | Destroy

  predicate Live(s: State, e: nat)
  {
    e in s.entries && s.entries[e].frees == 0
  }

  predicate OpenConn(s: State, c: nat)
  {
    c in s.pool
  }

  predicate Mentions(f: Frame, e: nat)
  {
    (f.Writing? || f.Closing? || f.Releasing?) && f.entry == e
  }

  /** When an event can happen. The reactor calls in only from an empty stack; a consumer passes streams it was given and
      that are still allocated, and destroys the session only from ordinary code or from on_broken. */
  ghost predicate Enabled(s: State, ev: Event)
  {
    match ev
    case AddConn(c) => s.alive && c !in s.conns
    case Open(e) => s.alive && e !in s.entries
    case BeginDispatch(c) => s.alive && s.stack == [] && OpenConn(s, c)
    case BeginWrite(e) => s.alive && Live(s, e)
    case BeginConsumer => s.alive && s.stack != []
    case Envelope(_, _, e) => s.alive && s.stack != [] && TopFrame(s).Dispatch? && e !in s.entries
    case SessionFrame => s.alive && s.stack != [] && TopFrame(s).Dispatch?
    case ConnBreaks => s.alive && s.stack != [] && !TopFrame(s).Consumer? && !TopFrame(s).Broken?
    case BeginCloseStream(e) => s.alive && Live(s, e)
    case BeginRelease(e) => Live(s, e) && (s.alive || s.entries[e].retired)
    case BeginClose => s.alive
    case End => s.stack != []
    case Fire(h) => s.stack == [] && h in s.timers
    case Destroy => s.alive && forall f :: f in s.stack ==> f == Broken
  }

  /** The hypothesis of the theorems below that the source does not ask for: a stream is not released while a call on it
      is in progress. `ReleaseSafeExactly` shows that it is exactly what safety needs. */
  ghost predicate Careful(s: State, ev: Event)
  {
    ev.BeginRelease? ==> forall f :: f in s.stack ==> !Mentions(f, ev.e)
  }

  /** A return code that ends a stream: 1, a close drained in order; -1, a violation. */
  predicate Ends(rc: int)
  {
    rc == 1 || rc == -1
  }

  function OnEnvelope(s: State, id: nat, rc: int, e: nat): (r: State)
    requires id in s.table && s.table[id].Active? ==> s.table[id].value in s.entries
  {
    if s.closed then s
    else if id in s.table && s.table[id].Tombstone? then s
    else if id in s.table then Push(if Ends(rc) then Retire(s, s.table[id].value) else s, Consumer)
    else
      var t := NewEntry(s, e, id);
      Push(if Ends(rc) then Retire(t, e) else t, Consumer)
  }

  function OpenStream(s: State, e: nat): (r: State)
  {
    if s.closed then s
    else
      var t := s.(nextId := (s.nextId + 1) % ID_MOD);
      if s.nextId in s.table && s.table[s.nextId].Active? then t else NewEntry(t, e, s.nextId)
  }

  function EndCall(s: State): (r: State)
    requires s.stack != []
    requires var f := TopFrame(s); f.Closing? || f.Releasing? ==> f.entry in s.entries
  {
    var f := TopFrame(s);
    var p := Pop(s);
    match f
    case Closing(e) => Retire(p, e)
    case Releasing(e) => var t := Retire(p, e); t.(entries := t.entries[e := Free(t.entries[e])])
    case Ending => StartTeardown(p)
    case _ => p
  }

  function Release(s: State, e: nat): (r: State)
    requires e in s.entries
  {
    if s.entries[e].retired then s.(entries := s.entries[e := Free(s.entries[e])]) else Push(s, Releasing(e))
  }

  function BeginSessionClose(s: State): (r: State)
  {
    if s.closed then s else Push(CloseInternal(s), Ending)
  }

  ghost function FireTimer(s: State, h: nat): (r: State)
    requires h in s.timers
  {
    var t := Cancel(s, h);
    match s.timers[h]
    case Check => if t.count == 0 && !t.closed then BeginSessionClose(t) else t
    case Teardown => Push(Schedule(t, Sweep).(told := t.told + 1), Broken)
    case Sweep => FreeAll(t.(teardown := 0))
  }

  ghost function DestroySession(s: State): (r: State)
  {
    FreeAll(Cancel(CloseInternal(s), s.teardown)).(alive := false, inactivity := 0, teardown := 0)
  }

  ghost function Step(s: State, ev: Event): (r: State)
    requires Inv(s) && Enabled(s, ev)
  {
    match ev
    case AddConn(c) => if s.closed then s else s.(conns := s.conns[c := 0], pool := s.pool + {c})
    case Open(e) => OpenStream(s, e)
    case BeginDispatch(c) => Push(s, Dispatch(c))
    case BeginWrite(e) => Push(s, Writing(e))
    case BeginConsumer => Push(s, Consumer)
    case Envelope(id, rc, e) => OnEnvelope(s, id, rc, e)
    case SessionFrame => PassiveClose(s)
    case ConnBreaks => PassiveClose(s)
    case BeginCloseStream(e) => if s.closed || s.entries[e].retired then s else Push(s, Closing(e))
    case BeginRelease(e) => Release(s, e)
    case BeginClose => BeginSessionClose(s)
    case End => EndCall(s)
    case Fire(h) => FireTimer(s, h)
    case Destroy => DestroySession(s)
  }

  // ---------- the invariant ----------

  /** The table names exactly the live, unretired entries, each under its own id. */
  ghost predicate TableInv(s: State)
  {
    && (forall id :: id in s.table && s.table[id].Active? ==>
          var e := s.table[id].value; Live(s, e) && s.entries[e].id == id && !s.entries[e].retired)
    && (forall e :: Live(s, e) && !s.entries[e].retired ==>
          s.entries[e].id in s.table && s.table[s.entries[e].id] == T.Active(e))
    && s.count == |ActiveIds(s.table)|
  }

  ghost predicate FreesInv(s: State)
  {
    (forall e :: e in s.entries ==> s.entries[e].frees <= 1) && (forall c :: c in s.conns ==> s.conns[c] <= 1) &&
    (forall c :: c in s.pool ==> c in s.conns && s.conns[c] == 0)
  }

  ghost predicate TimersInv(s: State)
  {
    && (forall h :: h in s.timers ==> 0 < h < s.nextTimer)
    && (forall h :: h in s.timers && s.timers[h] == Check ==> h == s.inactivity && !s.closed)
    && (forall h :: h in s.timers && s.timers[h] != Check ==> h == s.teardown && s.closed)
    && (!s.alive ==> s.timers == map[] && s.closed)
    && s.inactivity < s.nextTimer && s.teardown < s.nextTimer
    && (s.alive && !s.closed && s.count == 0 ==> s.inactivity in s.timers && s.timers[s.inactivity] == Check)
  }

  ghost predicate OnceInv(s: State)
  {
    && s.told <= s.scheduled <= 1
    && (!s.closed ==> s.scheduled == 0)
    && (forall h :: h in s.timers && s.timers[h] == Teardown ==> s.told == 0 && s.scheduled == 1)
    && (forall h :: h in s.timers && s.timers[h] == Sweep ==> s.told == 1)
    && (forall i :: 0 <= i < |s.stack| && s.stack[i] == Ending ==> s.closed && s.scheduled == 0)
    && (s.closed && s.alive && Ending !in s.stack ==> s.scheduled == 1)
    && (forall i, j :: 0 <= i < j < |s.stack| && s.stack[i] == Ending ==> s.stack[j] != Ending)
  }

  /** Teardown is never lost: told is pending until it has run, then the sweep is, until nothing is left to free. */
  ghost predicate PendingInv(s: State)
  {
    && (s.alive && s.scheduled == 1 && s.told == 0 ==> s.teardown in s.timers && s.timers[s.teardown] == Teardown)
    && (s.alive && s.told == 1 && !(s.teardown in s.timers && s.timers[s.teardown] == Sweep) ==>
          s.pool == {} && ActiveIds(s.table) == {})
    && (!s.alive ==> s.pool == {} && ActiveIds(s.table) == {})
  }

  /** Whatever a call in progress will touch again is still allocated. */
  ghost predicate FrameOk(s: State, f: Frame)
  {
    match f
    case Dispatch(c) => OpenConn(s, c) && s.alive
    case Writing(e) => Live(s, e) && s.alive
    case Closing(e) => Live(s, e) && s.alive
    case Releasing(e) => Live(s, e) && s.alive
    case Ending => s.alive
    case Consumer => s.alive
    case Broken => true
  }

  ghost predicate StackInv(s: State)
  {
    && (forall i :: 0 <= i < |s.stack| ==> FrameOk(s, s.stack[i]))
    && (forall i, j :: 0 <= i < j < |s.stack| && s.stack[j].Releasing? ==> !Mentions(s.stack[i], s.stack[j].entry))
  }

  ghost predicate Inv(s: State)
  {
    TableInv(s) && FreesInv(s) && TimersInv(s) && OnceInv(s) && PendingInv(s) && StackInv(s)
  }

  // ---------- tables ----------

  lemma ActiveSet(table: map<nat, Slot>, id: nat, slot: Slot)
    ensures ActiveIds(table[id := slot]) == (if slot.Active? then ActiveIds(table) + {id} else ActiveIds(table) - {id})
    ensures slot.Active? && id !in ActiveIds(table) ==> |ActiveIds(table[id := slot])| == |ActiveIds(table)| + 1
    ensures slot.Tombstone? && id in ActiveIds(table) ==> |ActiveIds(table[id := slot])| == |ActiveIds(table)| - 1
  {
    var a, b := ActiveIds(table), ActiveIds(table[id := slot]);
    assert forall x :: x in b <==> if x == id then slot.Active? else x in a;
    assert b == if slot.Active? then a + {id} else a - {id};
  }

  // ---------- every helper keeps the invariant ----------

  lemma RetireTable(s: State, e: nat)
    requires TableInv(s) && Live(s, e)
    ensures TableInv(Retire(s, e))
  {
    if !s.entries[e].retired {
      ActiveSet(s.table, s.entries[e].id, T.Tombstone);
    }
  }

  lemma RetireKeeps(s: State, e: nat)
    requires Inv(s) && Live(s, e)
    ensures Inv(Retire(s, e)) && Live(Retire(s, e), e)
    ensures Retire(s, e).stack == s.stack && Retire(s, e).entries[e].retired
    ensures forall d :: Live(Retire(s, e), d) <==> Live(s, d)
  {
    RetireTable(s, e);
    RetireTimers(s, e);
    RetireStack(s, e);
    RetireOnce(s, e);
  }

  lemma RetireStack(s: State, e: nat)
    requires StackInv(s) && FreesInv(s) && Live(s, e)
    ensures StackInv(Retire(s, e)) && FreesInv(Retire(s, e))
  {
    var t := Retire(s, e);
    assert forall i :: 0 <= i < |t.stack| && FrameOk(s, s.stack[i]) ==> FrameOk(t, t.stack[i]);
  }

  lemma RetireOnce(s: State, e: nat)
    requires TableInv(s) && TimersInv(s) && OnceInv(s) && PendingInv(s) && Live(s, e)
    ensures OnceInv(Retire(s, e)) && PendingInv(Retire(s, e))
  {
    if !s.entries[e].retired {
      ActiveSet(s.table, s.entries[e].id, T.Tombstone);
      hide TableInv;
    }
  }

  lemma RetireTimers(s: State, e: nat)
    requires TableInv(s) && TimersInv(s) && Live(s, e)
    ensures TimersInv(Retire(s, e))
  {
  }

  /** What a new frame on the stack must satisfy. */
  ghost predicate MayPush(s: State, f: Frame)
  {
    FrameOk(s, f) && f != Ending && (f.Releasing? ==> forall g :: g in s.stack ==> !Mentions(g, f.entry))
  }

  lemma PushKeeps(s: State, f: Frame)
    requires Inv(s) && MayPush(s, f)
    ensures Inv(Push(s, f))
  {
    hide TableInv;
    hide FreesInv;
    PushParts(s, f);
    PushOnce(s, f);
    PushStack(s, f);
  }

  lemma PushParts(s: State, f: Frame)
    requires TableInv(s) && FreesInv(s) && TimersInv(s) && PendingInv(s)
    ensures var t := Push(s, f); TableInv(t) && FreesInv(t) && TimersInv(t) && PendingInv(t)
  {
  }

  lemma PushOnce(s: State, f: Frame)
    requires OnceInv(s) && f != Ending
    ensures OnceInv(Push(s, f))
  {
    assert Ending in Push(s, f).stack <==> Ending in s.stack;
  }

  lemma PushStack(s: State, f: Frame)
    requires StackInv(s) && FrameOk(s, f) && (f.Releasing? ==> forall g :: g in s.stack ==> !Mentions(g, f.entry))
    ensures StackInv(Push(s, f))
  {
    var t := Push(s, f);
    forall i | 0 <= i < |t.stack|
      ensures FrameOk(t, t.stack[i])
    {
      assert t.stack[i] == if i < |s.stack| then s.stack[i] else f;
    }
    assert forall i :: 0 <= i < |s.stack| ==> s.stack[i] in s.stack;
  }

  lemma NewEntryKeeps(s: State, e: nat, id: nat)
    requires Inv(s) && s.alive && !s.closed && e !in s.entries && id !in ActiveIds(s.table)
    ensures Inv(NewEntry(s, e, id)) && Live(NewEntry(s, e, id), e)
  {
    NewEntryTable(s, e, id);
    hide TableInv;
    hide ActiveIds;
    NewEntryStack(s, e, id);
    hide StackInv;
  }

  lemma NewEntryStack(s: State, e: nat, id: nat)
    requires StackInv(s) && FreesInv(s) && e !in s.entries
    ensures StackInv(NewEntry(s, e, id)) && FreesInv(NewEntry(s, e, id))
  {
    var t := NewEntry(s, e, id);
    assert forall i :: 0 <= i < |t.stack| && FrameOk(s, s.stack[i]) ==> FrameOk(t, t.stack[i]);
  }

  lemma NewEntryTable(s: State, e: nat, id: nat)
    requires TableInv(s) && e !in s.entries && id !in ActiveIds(s.table)
    ensures TableInv(NewEntry(s, e, id))
  {
    ActiveSet(s.table, id, T.Active(e));
  }

  lemma CloseInternalKeeps(s: State)
    requires Inv(s) && s.alive && !s.closed
    ensures var t := CloseInternal(s);
            TableInv(t) && FreesInv(t) && TimersInv(t) && StackInv(t) && t.timers == map[] &&
            t.scheduled == 0 && t.told == 0 && Ending !in t.stack
  {
    var t := CloseInternal(s);
    assert forall h :: h in s.timers ==> h == s.inactivity;
    assert t.timers == map[];
    assert Ending !in s.stack;
  }

  /** Closing because of the peer or a broken connection touches no stream and no connection. */
  lemma PassiveCloseKeeps(s: State)
    requires Inv(s) && s.alive
    ensures Inv(PassiveClose(s))
  {
    if !s.closed {
      CloseInternalKeeps(s);
      StartTeardownKeeps(CloseInternal(s));
    }
  }

  lemma StartTeardownKeeps(t: State)
    requires TableInv(t) && FreesInv(t) && TimersInv(t) && StackInv(t) && t.timers == map[] && t.closed && t.alive
    requires t.scheduled == 0 && t.told == 0 && Ending !in t.stack
    ensures Inv(StartTeardown(t))
  {
    hide FreesInv;
    hide TableInv;
    TeardownParts(t);
    hide StackInv;
    hide FrameOk;
  }

  lemma TeardownParts(t: State)
    requires TableInv(t) && FreesInv(t) && StackInv(t)
    ensures var r := StartTeardown(t); TableInv(r) && FreesInv(r) && StackInv(r)
  {
    var r := StartTeardown(t);
    assert forall i :: 0 <= i < |r.stack| && FrameOk(t, t.stack[i]) ==> FrameOk(r, r.stack[i]);
  }

  lemma SessionCloseKeeps(s: State)
    requires Inv(s) && s.alive
    ensures Inv(BeginSessionClose(s))
  {
    if !s.closed {
      CloseInternalKeeps(s);
      var t := CloseInternal(s);
      var r := Push(t, Ending);
      PushStack(t, Ending);
      hide StackInv;
      hide TableInv;
      EndingOnce(t);
    }
  }

  lemma EndingOnce(t: State)
    requires TableInv(t) && FreesInv(t) && TimersInv(t) && t.timers == map[] && t.closed && t.alive
    requires t.scheduled == 0 && t.told == 0 && Ending !in t.stack
    ensures var r := Push(t, Ending); TableInv(r) && FreesInv(r) && TimersInv(r) && OnceInv(r) && PendingInv(r)
  {
    var r := Push(t, Ending);
    assert r.stack[|t.stack|] == Ending;
    assert forall i :: 0 <= i < |t.stack| ==> t.stack[i] in t.stack;
  }

  // ---------- returning from a call ----------

  lemma PopKeeps(s: State)
    requires Inv(s) && s.stack != [] && TopFrame(s) != Ending
    ensures Inv(Pop(s))
  {
    var t := Pop(s);
    assert s.stack == t.stack + [TopFrame(s)];
    PopStack(s);
    hide StackInv;
    hide TableInv;
    hide FreesInv;
    PopTable(s);
    assert Ending in s.stack <==> Ending in t.stack;
  }

  lemma PopTable(s: State)
    requires TableInv(s) && FreesInv(s) && s.stack != []
    ensures TableInv(Pop(s)) && FreesInv(Pop(s))
  {
  }

  lemma PopStack(s: State)
    requires StackInv(s) && s.stack != []
    ensures StackInv(Pop(s))
  {
    var t := Pop(s);
    assert forall i :: 0 <= i < |t.stack| && FrameOk(s, s.stack[i]) ==> FrameOk(t, t.stack[i]);
  }

  /** A retired stream that no call in progress mentions can be given back. */
  lemma FreeKeeps(s: State, e: nat)
    requires Inv(s) && Live(s, e) && s.entries[e].retired && forall f :: f in s.stack ==> !Mentions(f, e)
    ensures Inv(s.(entries := s.entries[e := Free(s.entries[e])]))
  {
    var t := s.(entries := s.entries[e := Free(s.entries[e])]);
    forall i | 0 <= i < |t.stack|
      ensures FrameOk(t, t.stack[i])
    {
      assert FrameOk(s, s.stack[i]) && s.stack[i] in s.stack;
    }
    assert StackInv(t);
    hide StackInv;
    hide FrameOk;
    assert OnceInv(t) && PendingInv(t) && TimersInv(t);
    hide OnceInv;
    hide PendingInv;
    hide TimersInv;
    assert forall d :: d != e ==> (Live(t, d) <==> Live(s, d));
  }

  lemma EndReleaseKeeps(s: State, e: nat)
    requires Inv(s) && s.stack != [] && TopFrame(s) == Releasing(e)
    ensures Inv(EndCall(s))
  {
    assert FrameOk(s, s.stack[|s.stack| - 1]);
    PopKeeps(s);
    var p := Pop(s);
    assert forall f :: f in p.stack ==> !Mentions(f, e);
    assert Live(p, e);
    hide Inv;
    RetireKeeps(p, e);
    FreeKeeps(Retire(p, e), e);
  }

  lemma EndEndingKeeps(s: State)
    requires Inv(s) && s.stack != [] && TopFrame(s) == Ending
    ensures Inv(EndCall(s))
  {
    var k := |s.stack| - 1;
    assert s.stack[k] == Ending && FrameOk(s, s.stack[k]);
    var p := Pop(s);
    PopStack(s);
    PopTable(s);
    EndingTimers(s);
    assert Ending !in p.stack;
    StartTeardownKeeps(p);
  }

  lemma EndingTimers(s: State)
    requires TimersInv(s) && OnceInv(s) && PendingInv(s) && s.stack != [] && TopFrame(s) == Ending
    ensures s.timers == map[] && s.closed && s.scheduled == 0 && s.told == 0 && TimersInv(Pop(s))
  {
    assert s.stack[|s.stack| - 1] == Ending;
    assert forall h :: h !in s.timers;
    assert s.timers == map[];
  }

  lemma EndKeeps(s: State)
    requires Inv(s) && s.stack != []
    ensures Inv(EndCall(s))
  {
    var f := TopFrame(s);
    assert FrameOk(s, s.stack[|s.stack| - 1]);
    if f.Releasing? {
      EndReleaseKeeps(s, f.entry);
    } else if f == Ending {
      EndEndingKeeps(s);
    } else {
      PopKeeps(s);
      if f.Closing? {
        assert Live(Pop(s), f.entry);
        hide Inv;
        RetireKeeps(Pop(s), f.entry);
      }
    }
  }

  // ---------- timers and destruction ----------

  /** Freeing what the table and the pool hold, with no call in progress that holds any of it. */
  lemma FreeAllKeeps(s: State)
    requires TableInv(s) && FreesInv(s)
    ensures var t := FreeAll(s);
            TableInv(t) && FreesInv(t) && t.count == 0 && ActiveIds(t.table) == {} && t.pool == {}
  {
    var t := FreeAll(s);
    assert ActiveIds(t.table) == {};
    forall e | Live(t, e)
      ensures t.entries[e].retired
    {
      assert Live(s, e) && !s.entries[e].retired ==> Held(s.table, e);
    }
    forall e | e in t.entries
      ensures t.entries[e].frees <= 1
    {
      assert Held(s.table, e) ==> Live(s, e);
    }
  }

  lemma SweepKeeps(s: State, h: nat)
    requires Inv(s) && s.stack == [] && h in s.timers && s.timers[h] == Sweep
    ensures Inv(FireTimer(s, h))
  {
    var t := Cancel(s, h).(teardown := 0);
    CancelTable(s, t);
    FreeAllKeeps(t);
    hide TableInv;
    hide FreesInv;
    hide ActiveIds;
    assert t.timers == map[];
  }

  lemma TeardownKeeps(s: State, h: nat)
    requires Inv(s) && s.stack == [] && h in s.timers && s.timers[h] == Teardown
    ensures Inv(FireTimer(s, h))
  {
    hide TableInv;
    hide FreesInv;
    hide TimersInv;
    hide OnceInv;
    hide PendingInv;
    hide StackInv;
    var c := Cancel(s, h);
    var t := Schedule(c, Sweep).(told := c.told + 1);
    CancelTable(s, t);
    TeardownOnce(s, h);
    PushKeeps(t, Broken);
  }

  lemma TeardownOnce(s: State, h: nat)
    requires TimersInv(s) && OnceInv(s) && s.stack == [] && h in s.timers && s.timers[h] == Teardown
    ensures var c := Cancel(s, h); var t := Schedule(c, Sweep).(told := c.told + 1);
            TimersInv(t) && OnceInv(t) && PendingInv(t) && StackInv(t)
  {
    assert Cancel(s, h).timers == map[];
  }

  lemma CheckKeeps(s: State, h: nat)
    requires Inv(s) && s.stack == [] && h in s.timers && s.timers[h] == Check
    ensures Inv(FireTimer(s, h))
  {
    var t := Cancel(s, h);
    assert s.alive && !s.closed && h == s.inactivity;
    CancelTable(s, t);
    if t.count == 0 {
      var c := CloseInternal(t);
      assert c.timers == map[];
      CancelTable(s, c);
      assert StackInv(c) && TimersInv(c);
      PushStack(c, Ending);
      hide StackInv;
      hide TableInv;
      EndingOnce(c);
    }
  }

  lemma DestroyKeeps(s: State)
    requires Inv(s) && Enabled(s, Destroy)
    ensures Inv(DestroySession(s))
  {
    hide TableInv;
    hide FreesInv;
    hide TimersInv;
    hide OnceInv;
    hide PendingInv;
    hide StackInv;
    var t := DestroySession(s);
    DestroyTable(s);
    DestroyTimers(s);
    DestroyOnce(s);
    DestroyStack(s, t);
  }

  lemma DestroyOnce(s: State)
    requires OnceInv(s) && TimersInv(s) && Enabled(s, Destroy)
    ensures OnceInv(DestroySession(s))
  {
    DestroyTimers(s);
    hide TimersInv;
    var t := DestroySession(s);
    assert Ending !in s.stack;
    assert forall i :: 0 <= i < |s.stack| ==> s.stack[i] in s.stack;
    hide FreeAll;
    hide Cancel;
    FreeAllFrame(Cancel(CloseInternal(s), s.teardown));
    CancelFrame(CloseInternal(s), s.teardown);
    CancelFrame(s.(closed := true), s.inactivity);
  }

  lemma FreeAllFrame(s: State)
    ensures var t := FreeAll(s);
            t.stack == s.stack && t.scheduled == s.scheduled && t.told == s.told && t.closed == s.closed &&
            t.timers == s.timers
  {
  }

  lemma CancelFrame(s: State, h: nat)
    ensures var t := Cancel(s, h);
            t.stack == s.stack && t.scheduled == s.scheduled && t.told == s.told && t.closed == s.closed
  {
  }

  /** Nothing is left pending: the inactivity timer goes with closing, the other by its remembered handle. */
  lemma DestroyTimers(s: State)
    requires TimersInv(s)
    ensures Cancel(CloseInternal(s), s.teardown).timers == map[] && TimersInv(DestroySession(s))
    ensures DestroySession(s).timers == map[]
  {
    assert Cancel(CloseInternal(s), s.teardown).timers == map[];
  }

  lemma CancelTable(s: State, c: State)
    requires TableInv(s) && FreesInv(s)
    requires c.table == s.table && c.entries == s.entries && c.conns == s.conns && c.pool == s.pool && c.count == s.count
    ensures TableInv(c) && FreesInv(c)
  {
  }

  lemma DestroyStack(s: State, t: State)
    requires forall f :: f in s.stack ==> f == Broken
    requires t.stack == s.stack
    ensures StackInv(t)
  {
    assert forall i :: 0 <= i < |s.stack| ==> s.stack[i] in s.stack;
  }

  lemma DestroyTable(s: State)
    requires TableInv(s) && FreesInv(s)
    ensures var t := DestroySession(s); TableInv(t) && FreesInv(t) && PendingInv(t)
  {
    var c := Cancel(CloseInternal(s), s.teardown);
    hide TableInv;
    hide FreesInv;
    hide FreeAll;
    hide ActiveIds;
    CancelTable(s, c);
    FreeAllKeeps(c);
    CancelTable(FreeAll(c), DestroySession(s));
  }

  // ---------- every step, every run ----------

  lemma EnvelopeKeeps(s: State, id: nat, rc: int, e: nat)
    requires Inv(s) && Enabled(s, Envelope(id, rc, e))
    ensures Inv(OnEnvelope(s, id, rc, e))
  {
    hide Inv;
    hide Retire;
    hide NewEntry;
    RoutedLive(s, id);
    if s.closed || (id in s.table && s.table[id].Tombstone?) {
    } else if id in s.table {
      RetireKeeps(s, s.table[id].value);
      RetireAlive(s, s.table[id].value);
      PushKeeps(if Ends(rc) then Retire(s, s.table[id].value) else s, Consumer);
    } else {
      NewEntryKeeps(s, e, id);
      NewEntryFrame(s, e, id);
      var t := NewEntry(s, e, id);
      RetireKeeps(t, e);
      RetireAlive(t, e);
      PushKeeps(if Ends(rc) then Retire(t, e) else t, Consumer);
    }
  }

  lemma RoutedLive(s: State, id: nat)
    requires Inv(s)
    ensures id in s.table && s.table[id].Active? ==> Live(s, s.table[id].value)
    ensures id in ActiveIds(s.table) <==> id in s.table && s.table[id].Active?
  {
  }

  lemma NewEntryFrame(s: State, e: nat, id: nat)
    ensures NewEntry(s, e, id).alive == s.alive && NewEntry(s, e, id).stack == s.stack
  {
  }

  lemma RetireAlive(s: State, e: nat)
    requires e in s.entries
    ensures Retire(s, e).alive == s.alive
  {
  }

  lemma OpenKeeps(s: State, e: nat)
    requires Inv(s) && Enabled(s, Open(e))
    ensures Inv(OpenStream(s, e))
  {
    hide Inv;
    if !s.closed {
      var t := s.(nextId := (s.nextId + 1) % ID_MOD);
      NextIdKeeps(s, t);
      if !(s.nextId in s.table && s.table[s.nextId].Active?) {
        NewEntryKeeps(t, e, s.nextId);
      }
    }
  }

  lemma NextIdKeeps(s: State, t: State)
    requires Inv(s) && t == s.(nextId := t.nextId)
    ensures Inv(t)
  {
    assert TableInv(t);
    assert StackInv(t);
  }

  lemma AddConnKeeps(s: State, c: nat)
    requires Inv(s) && s.alive && c !in s.conns && !s.closed
    ensures Inv(s.(conns := s.conns[c := 0], pool := s.pool + {c}))
  {
    var t := s.(conns := s.conns[c := 0], pool := s.pool + {c});
    assert TableInv(t);
    assert TimersInv(t) && OnceInv(t) && PendingInv(t);
    hide TableInv;
    hide TimersInv;
    hide OnceInv;
    hide PendingInv;
    assert forall i :: 0 <= i < |t.stack| && FrameOk(s, s.stack[i]) ==> FrameOk(t, t.stack[i]);
  }

  /** Every event keeps every part of the invariant. */
  lemma StepKeeps(s: State, ev: Event)
    requires Inv(s) && Enabled(s, ev) && Careful(s, ev)
    ensures Inv(Step(s, ev))
  {
    match ev
    case AddConn(c) => if !s.closed { AddConnKeeps(s, c); }
    case Open(e) => OpenKeeps(s, e);
    case BeginDispatch(c) => PushKeeps(s, Dispatch(c));
    case BeginWrite(e) => PushKeeps(s, Writing(e));
    case BeginConsumer => PushKeeps(s, Consumer);
    case Envelope(id, rc, e) => EnvelopeKeeps(s, id, rc, e);
    case SessionFrame => PassiveCloseKeeps(s);
    case ConnBreaks => PassiveCloseKeeps(s);
    case BeginCloseStream(e) => if !s.closed && !s.entries[e].retired { PushKeeps(s, Closing(e)); }
    case BeginRelease(e) =>
      if s.entries[e].retired { FreeKeeps(s, e); } else { PushKeeps(s, Releasing(e)); }
    case BeginClose => SessionCloseKeeps(s);
    case End => EndKeeps(s);
    case Fire(h) => FireKeeps(s, h);
    case Destroy => DestroyKeeps(s);
  }

  lemma FireKeeps(s: State, h: nat)
    requires Inv(s) && s.stack == [] && h in s.timers
    ensures Inv(FireTimer(s, h))
  {
    hide Inv;
    hide FireTimer;
    match s.timers[h]
    case Check => CheckKeeps(s, h);
    case Teardown => TeardownKeeps(s, h);
    case Sweep => SweepKeeps(s, h);
  }

  /** A run that can happen and in which every release is careful. */
  ghost predicate CarefulRun(s: State, evs: seq<Event>)
    requires Inv(s)
    decreases |evs|
  {
    evs == [] ||
    (Enabled(s, evs[0]) && Careful(s, evs[0]) && (StepKeeps(s, evs[0]); CarefulRun(Step(s, evs[0]), evs[1..])))
  }

  ghost function Run(s: State, evs: seq<Event>): (r: State)
    requires Inv(s) && CarefulRun(s, evs)
    ensures Inv(r)
    decreases |evs|
  {
    if evs == [] then s else StepKeeps(s, evs[0]); Run(Step(s, evs[0]), evs[1..])
  }

  // ---------- what that means ----------

  /** In every reachable state: the counter is the number of ACTIVE entries; an allocated stream is retired exactly when
      the table does not hold it ACTIVE; teardown is scheduled and on_broken called at most once; no stream and no
      connection is freed twice; a destroyed session has no timer pending; and no call in progress holds a freed object. */
  lemma EveryRun(evs: seq<Event>)
    requires CarefulRun(Init(), evs)
    ensures var s := Run(Init(), evs);
            && s.count == |ActiveIds(s.table)|
            && (forall e :: Live(s, e) ==> (s.entries[e].retired <==> !Held(s.table, e)))
            && s.scheduled <= 1 && s.told <= 1
            && (forall e :: e in s.entries ==> s.entries[e].frees <= 1)
            && (forall c :: c in s.conns ==> s.conns[c] <= 1)
            && (!s.alive ==> s.timers == map[])
            && (forall i :: 0 <= i < |s.stack| ==> FrameOk(s, s.stack[i]))
  {
    var s := Run(Init(), evs);
    assert Inv(s);
  }

  /** A step that frees a stream releases that very stream, or runs when no call is in progress on any stream or
      connection: the sweep, fired by the reactor, or destruction. Closing, from wherever it is called, frees nothing. */
  lemma OnlyTheseFree(s: State, ev: Event, e: nat)
    requires Inv(s) && Enabled(s, ev) && Live(s, e) && !Live(Step(s, ev), e)
    ensures || ev == BeginRelease(e)
            || (ev == End && TopFrame(s) == Releasing(e))
            || (ev.Fire? && s.timers[ev.handle] == Sweep && s.stack == [])
            || (ev == Destroy && forall f :: f in s.stack ==> f == Broken)
  {
    hide Inv;
    hide OnEnvelope;
    hide EndCall;
    hide FireTimer;
    hide DestroySession;
    hide OpenStream;
    hide PassiveClose;
    hide BeginSessionClose;
    if ev.Envelope? {
      EnvelopeLive(s, ev.id, ev.rc, ev.e, e);
    } else if ev.End? && TopFrame(s) != Releasing(e) {
      EndLive(s, e);
    } else if ev.Fire? && s.timers[ev.handle] != Sweep {
      FireLive(s, ev.handle, e);
    } else if ev.Open? {
      OpenLive(s, ev.e, e);
    } else {
      CloseLive(s, e);
    }
  }

  lemma OpenLive(s: State, d: nat, e: nat)
    requires Live(s, e) && d !in s.entries
    ensures Live(OpenStream(s, d), e)
  {
  }

  lemma CloseLive(s: State, e: nat)
    ensures Live(PassiveClose(s), e) == Live(s, e) && Live(BeginSessionClose(s), e) == Live(s, e)
  {
  }

  lemma RetireLive(s: State, d: nat, e: nat)
    requires d in s.entries
    ensures Live(Retire(s, d), e) == Live(s, e)
  {
  }

  lemma EnvelopeLive(s: State, id: nat, rc: int, d: nat, e: nat)
    requires Inv(s) && Enabled(s, Envelope(id, rc, d)) && Live(s, e)
    ensures Live(OnEnvelope(s, id, rc, d), e)
  {
    assert id in s.table && s.table[id].Active? ==> s.table[id].value in s.entries;
    hide Inv;
    hide Retire;
    if id in s.table && s.table[id].Active? {
      RetireLive(s, s.table[id].value, e);
    } else if id !in s.table {
      RetireLive(NewEntry(s, d, id), d, e);
    }
  }

  lemma EndLive(s: State, e: nat)
    requires Inv(s) && s.stack != [] && Live(s, e) && TopFrame(s) != Releasing(e)
    ensures Live(EndCall(s), e)
  {
    var f := TopFrame(s);
    assert FrameOk(s, s.stack[|s.stack| - 1]);
    hide Inv;
    hide Retire;
    if f.Closing? || f.Releasing? {
      RetireLive(Pop(s), f.entry, e);
    }
  }

  lemma FireLive(s: State, h: nat, e: nat)
    requires h in s.timers && s.timers[h] != Sweep && Live(s, e)
    ensures Live(FireTimer(s, h), e)
  {
  }

  /** Likewise for connections, which are never freed one by one. */
  lemma OnlyTheseFreeConns(s: State, ev: Event, c: nat)
    requires Inv(s) && Enabled(s, ev) && OpenConn(s, c) && !OpenConn(Step(s, ev), c)
    ensures (ev.Fire? && s.timers[ev.handle] == Sweep && s.stack == []) ||
            (ev == Destroy && forall f :: f in s.stack ==> f == Broken)
  {
    hide OnEnvelope;
    hide EndCall;
    if ev.Envelope? {
      EnvelopePool(s, ev.id, ev.rc, ev.e);
    } else if ev.End? {
      EndPool(s);
    }
  }

  lemma EnvelopePool(s: State, id: nat, rc: int, d: nat)
    requires Inv(s) && Enabled(s, Envelope(id, rc, d))
    ensures OnEnvelope(s, id, rc, d).pool == s.pool
  {
    assert id in s.table && s.table[id].Active? ==> s.table[id].value in s.entries;
    hide Inv;
  }

  lemma EndPool(s: State)
    requires Inv(s) && s.stack != []
    ensures EndCall(s).pool == s.pool
  {
    assert FrameOk(s, s.stack[|s.stack| - 1]);
    hide Inv;
  }

  // ---------- routing, exactly ----------

  /** EXACTLY WHAT A FRAME DOES. In an open session a frame for an ACTIVE id leaves that id a tombstone, and its stream
      retired, if and only if feeding it returned 1 or -1; otherwise it stays ACTIVE with the same stream. A frame for an
      unknown id adds a new stream, ACTIVE if and only if feeding it did not return 1 or -1, and a tombstone otherwise. In
      both cases the consumer is called. A frame for a tombstone, and any frame in a closed session, does nothing. No other
      id, stream or connection changes. */
  lemma RoutesExactly(s: State, id: nat, rc: int, e: nat)
    requires Inv(s) && Enabled(s, Envelope(id, rc, e))
    ensures var t := Step(s, Envelope(id, rc, e));
      if s.closed || (id in s.table && s.table[id].Tombstone?) then t == s
      else
        var d := if id in s.table then s.table[id].value else e;
        && t.table == s.table[id := if rc == 1 || rc == -1 then T.Tombstone else T.Active(d)]
        && t.entries == s.entries[d := Entry(id, rc == 1 || rc == -1, 0)]
        && t.stack == s.stack + [Consumer]
        && t.count == s.count + (if id in s.table then 0 else 1) - (if rc == 1 || rc == -1 then 1 else 0)
        && t.conns == s.conns && t.pool == s.pool && t.closed == s.closed && t.alive == s.alive
  {
    RoutedEntry(s, id);
    hide Inv;
    if !s.closed && id in s.table && s.table[id].Active? {
      RetireFields(s, s.table[id].value, id);
      hide Retire;
    } else if !s.closed && id !in s.table {
      RetireFields(NewEntry(s, e, id), e, id);
      hide Retire;
    }
  }

  lemma RetireFields(s: State, d: nat, id: nat)
    requires d in s.entries && s.entries[d] == Entry(id, false, 0)
    ensures var t := Retire(s, d);
      && t.table == s.table[id := T.Tombstone] && t.entries == s.entries[d := Entry(id, true, 0)] && t.count == s.count - 1
      && t.stack == s.stack && t.conns == s.conns && t.pool == s.pool && t.closed == s.closed && t.alive == s.alive
  {
  }

  /** The table's entry for an ACTIVE id: open, under that id, never freed. */
  lemma RoutedEntry(s: State, id: nat)
    requires Inv(s)
    ensures id in s.table && s.table[id].Active? ==>
              s.table[id].value in s.entries && s.entries[s.table[id].value] == Entry(id, false, 0)
  {
  }

  // ---------- what closes a session ----------

  /** EXACTLY WHAT CLOSES. A live session is closed after a step if and only if it was closed before, the peer's closing
      frame arrived, a connection broke, it was closed or destroyed, or its inactivity timer found it idle. */
  lemma ClosesExactly(s: State, ev: Event)
    requires Inv(s) && Enabled(s, ev)
    ensures Step(s, ev).closed <==>
            || s.closed || ev.SessionFrame? || ev.ConnBreaks? || ev.BeginClose? || ev.Destroy?
            || (ev.Fire? && s.timers[ev.handle] == Check && s.count == 0)
  {
    hide OnEnvelope;
    hide EndCall;
    if ev.Envelope? {
      RoutesExactly(s, ev.id, ev.rc, ev.e);
      hide Inv;
    } else if ev.End? {
      EndClosed(s);
      hide Inv;
    }
  }

  lemma EndClosed(s: State)
    requires Inv(s) && s.stack != []
    ensures EndCall(s).closed == s.closed && EndCall(s).nextId == s.nextId
  {
    assert FrameOk(s, s.stack[|s.stack| - 1]);
    hide Inv;
  }

  // ---------- stream ids ----------

  /** Opens that took an id. */
  ghost function Opens(s: State, evs: seq<Event>): (n: nat)
    requires Inv(s) && CarefulRun(s, evs)
    decreases |evs|
  {
    if evs == [] then 0
    else
      StepKeeps(s, evs[0]);
      (if evs[0].Open? && !s.closed then 1 else 0) + Opens(Step(s, evs[0]), evs[1..])
  }

  lemma NextIdStep(s: State, ev: Event)
    requires Inv(s) && Enabled(s, ev)
    ensures Step(s, ev).nextId == if ev.Open? && !s.closed then (s.nextId + 1) % ID_MOD else s.nextId
  {
    hide EndCall;
    if ev.End? {
      EndClosed(s);
      hide Inv;
    } else {
      hide Inv;
    }
  }

  /** Ids are taken one after another. */
  lemma {:induction false} IdAfter(s: State, evs: seq<Event>)
    requires Inv(s) && CarefulRun(s, evs) && s.nextId < ID_MOD
    ensures Run(s, evs).nextId == (s.nextId + Opens(s, evs)) % ID_MOD
    decreases |evs|
  {
    hide Step;
    hide Inv;
    hide Enabled;
    hide Careful;
    if evs != [] {
      var ev := evs[0];
      StepKeeps(s, ev);
      NextIdStep(s, ev);
      var t := Step(s, ev);
      var n := Opens(t, evs[1..]);
      IdAfter(t, evs[1..]);
      ModStep(s.nextId, n);
      assert s.nextId < ID_MOD;
    }
  }

  lemma ModStep(a: nat, n: nat)
    requires a < ID_MOD
    ensures ((a + 1) % ID_MOD + n) % ID_MOD == (a + 1 + n) % ID_MOD
  {
    if a + 1 == ID_MOD {
      assert (a + 1 + n) % ID_MOD == n % ID_MOD;
    }
  }

  /** An open of an open session takes the next id, and a stream under it unless that id is ACTIVE. */
  lemma OpensExactly(s: State, e: nat)
    requires Inv(s) && Enabled(s, Open(e))
    ensures var t := Step(s, Open(e));
      if s.closed then t == s
      else if s.nextId in s.table && s.table[s.nextId].Active? then t == s.(nextId := t.nextId)
      else
        && t.entries == s.entries[e := Entry(s.nextId, false, 0)] && t.table == s.table[s.nextId := T.Active(e)]
        && t.count == s.count + 1 && t.stack == s.stack && t.conns == s.conns && t.pool == s.pool
  {
    hide Inv;
  }

  /** Two opens with fewer than 2^32 between them get different ids. */
  lemma OpensGetDifferentIds(s: State, evs: seq<Event>)
    requires Inv(s) && CarefulRun(s, evs) && s.nextId < ID_MOD && 0 < Opens(s, evs) < ID_MOD
    ensures Run(s, evs).nextId != s.nextId
  {
    hide Opens;
    hide Run;
    hide Inv;
    hide CarefulRun;
    IdAfter(s, evs);
    ModMoves(s.nextId, Opens(s, evs));
  }

  lemma ModMoves(a: nat, n: nat)
    requires a < ID_MOD && 0 < n < ID_MOD
    ensures (a + n) % ID_MOD != a
  {
    if a + n >= ID_MOD {
      assert (a + n) % ID_MOD == a + n - ID_MOD;
    }
  }

  // ---------- what a release needs ----------

  /** A whole release with nothing nested in it. */
  function Released(s: State, e: nat): (r: State)
    requires Live(s, e)
    ensures r.stack == s.stack
  {
    if s.entries[e].retired then Release(s, e) else EndCall(Release(s, e))
  }

  lemma ReleasedFrees(s: State, e: nat)
    requires Live(s, e)
    ensures var r := Released(s, e);
            r.stack == s.stack && r.alive == s.alive && r.pool == s.pool && !Live(r, e) &&
            forall d :: d != e ==> (Live(r, d) <==> Live(s, d))
  {
    hide Retire;
    if !s.entries[e].retired {
      var p := Push(s, Releasing(e));
      assert p.stack[..|p.stack| - 1] == s.stack;
      assert Pop(p) == s;
      RetireAlive(s, e);
      RetireOthers(s, e);
      FreedOne(Retire(s, e), e);
    } else {
      FreedOne(s, e);
    }
  }

  lemma FreedOne(s: State, e: nat)
    requires Live(s, e)
    ensures var r := s.(entries := s.entries[e := Free(s.entries[e])]);
            !Live(r, e) && forall d :: d != e ==> (Live(r, d) <==> Live(s, d))
  {
  }

  lemma RetireOthers(s: State, e: nat)
    requires Live(s, e)
    ensures var t := Retire(s, e);
            t.stack == s.stack && t.pool == s.pool && (forall d :: Live(t, d) <==> Live(s, d))
  {
  }

  /** EXACTLY WHEN. Releasing a stream leaves every call in progress with allocated objects if and only if none of them is
      a call on that stream. */
  lemma ReleaseSafeExactly(s: State, e: nat)
    requires Inv(s) && Enabled(s, BeginRelease(e))
    ensures var r := Released(s, e);
            (forall i :: 0 <= i < |r.stack| ==> FrameOk(r, r.stack[i])) <==> Careful(s, BeginRelease(e))
  {
    var r := Released(s, e);
    ReleasedFrees(s, e);
    assert forall i :: 0 <= i < |s.stack| ==> FrameOk(s, s.stack[i]);
    hide Inv;
    hide Released;
    forall i | 0 <= i < |s.stack|
      ensures FrameOk(r, r.stack[i]) <==> !Mentions(s.stack[i], e)
    {
    }
    assert forall i :: 0 <= i < |s.stack| ==> s.stack[i] in s.stack;
    assert Careful(s, BeginRelease(e)) <==> forall i :: 0 <= i < |s.stack| ==> !Mentions(s.stack[i], e);
  }

  /** `e` is being written, the write's send has drained a connection, and on_writable is called inside it. */
  function UnderWrite(s: State, e: nat): (r: State)
    ensures r.stack == s.stack + [Writing(e)] + [Consumer]
  {
    Push(Push(s, Writing(e)), Consumer)
  }

  /** For any open stream: on_writable, called inside a write, may release the stream being written; when it returns, the
      write goes on with a freed stream. */
  lemma WritableMayReleaseUnderWrite(s: State, e: nat)
    requires Inv(s) && s.alive && Live(s, e)
    ensures Inv(UnderWrite(s, e)) && Enabled(UnderWrite(s, e), BeginRelease(e)) && Live(UnderWrite(s, e), e)
    ensures var r := Pop(Released(UnderWrite(s, e), e)); r.stack == s.stack + [Writing(e)] && !FrameOk(r, Writing(e))
  {
    hide Inv;
    PushKeeps(s, Writing(e));
    PushKeeps(Push(s, Writing(e)), Consumer);
    var u := UnderWrite(s, e);
    assert Live(u, e);
    ReleasedFrees(u, e);
    hide Released;
    assert Released(u, e).stack[..|u.stack| - 1] == s.stack + [Writing(e)];
  }

  /** And there is such a session: a new one with its first stream. */
  lemma FirstStream()
    ensures var s := OpenStream(Init(), 0); Inv(s) && s.alive && Live(s, 0)
  {
    OpenKeeps(Init(), 0);
    hide Inv;
  }

  // ---------- what a send may set off ----------

  /** What can happen inside a send: a connection breaks, or on_writable is called and the consumer calls the API. */
  predicate Nested(ev: Event)
  {
    !(ev.BeginDispatch? || ev.Envelope? || ev.SessionFrame? || ev.Fire? || ev.Destroy?)
  }

  /** A careful run nested in the calls below depth `d`, all of whose own calls have returned at its end. */
  ghost predicate Above(s: State, evs: seq<Event>, d: nat)
    requires Inv(s)
    decreases |evs|
  {
    d <= |s.stack| &&
    if evs == [] then |s.stack| == d
    else
      var ev := evs[0];
      Nested(ev) && Enabled(s, ev) && Careful(s, ev) && (ev.End? ==> d < |s.stack|) &&
      (StepKeeps(s, ev); Above(Step(s, ev), evs[1..], d))
  }

  /** What a nested run leaves alone: the calls it is nested in, open connections, and every stream but those it
      releases. */
  ghost predicate Survives(s: State, r: State, evs: seq<Event>, d: nat)
  {
    && d <= |s.stack| && r.stack == s.stack[..d] && s.pool <= r.pool
    && forall e :: Live(s, e) && BeginRelease(e) !in evs && Releasing(e) !in s.stack ==> Live(r, e)
  }

  lemma NestedStack(s: State, ev: Event, d: nat)
    requires Inv(s) && Enabled(s, ev) && Nested(ev) && d <= |s.stack| && (ev.End? ==> d < |s.stack|)
    ensures var t := Step(s, ev); d <= |t.stack| && t.stack[..d] == s.stack[..d] && s.pool <= t.pool
  {
    if ev.End? {
      EndStack(s);
      hide Inv;
      hide EndCall;
    } else {
      StackGrows(s, ev);
      hide Inv;
      hide Step;
      assert Step(s, ev).stack[..|s.stack|] == s.stack;
    }
  }

  lemma StackGrows(s: State, ev: Event)
    requires Inv(s) && Enabled(s, ev) && Nested(ev) && !ev.End?
    ensures s.stack <= Step(s, ev).stack && s.pool <= Step(s, ev).pool
  {
    hide Inv;
  }

  lemma EndStack(s: State)
    requires Inv(s) && s.stack != []
    ensures EndCall(s).stack == s.stack[..|s.stack| - 1] && EndCall(s).pool == s.pool
  {
    assert FrameOk(s, s.stack[|s.stack| - 1]);
    hide Inv;
  }

  lemma NestedReleasing(s: State, ev: Event, e: nat)
    requires Inv(s) && Enabled(s, ev) && Nested(ev) && ev != BeginRelease(e) && Releasing(e) !in s.stack
    ensures Releasing(e) !in Step(s, ev).stack
  {
    hide Inv;
    hide EndCall;
    if ev.End? {
      EndStack(s);
    }
  }

  lemma NestedLive(s: State, ev: Event, e: nat)
    requires Inv(s) && Enabled(s, ev) && Nested(ev) && ev != BeginRelease(e) && Releasing(e) !in s.stack && Live(s, e)
    ensures Live(Step(s, ev), e)
  {
    assert ev == End ==> TopFrame(s) in s.stack;
    if !Live(Step(s, ev), e) {
      OnlyTheseFree(s, ev, e);
    }
  }

  /** Whatever a send sets off. */
  lemma {:induction false} NestedSurvives(s: State, evs: seq<Event>, d: nat)
    requires Inv(s) && Above(s, evs, d)
    ensures CarefulRun(s, evs) && Survives(s, Run(s, evs), evs, d)
    decreases |evs|
  {
    if evs == [] {
      assert s.stack[..d] == s.stack;
    } else {
      var ev := evs[0];
      StepKeeps(s, ev);
      var t := Step(s, ev);
      NestedSurvives(t, evs[1..], d);
      NestedStack(s, ev, d);
      hide Step;
      hide Inv;
      hide Enabled;
      var r := Run(t, evs[1..]);
      forall e | Live(s, e) && BeginRelease(e) !in evs && Releasing(e) !in s.stack
        ensures Live(r, e)
      {
        assert ev in evs && (forall x :: x in evs[1..] ==> x in evs);
        NestedReleasing(s, ev, e);
        NestedLive(s, ev, e);
      }
    }
  }

  /** A closed session with no call in progress is still on its way down, or has nothing left to free. */
  lemma TeardownNotLost(s: State)
    requires Inv(s) && s.closed && s.alive && s.stack == []
    ensures || (s.told == 0 && s.teardown in s.timers && s.timers[s.teardown] == Teardown)
            || (s.told == 1 && s.teardown in s.timers && s.timers[s.teardown] == Sweep)
            || (s.told == 1 && s.pool == {} && ActiveIds(s.table) == {} && s.count == 0)
  {
  }

  /** A destroyed session is never called by the reactor again. */
  lemma {:induction false} DestroyedIsFinal(s: State, evs: seq<Event>)
    requires Inv(s) && !s.alive && CarefulRun(s, evs)
    ensures !Run(s, evs).alive && Run(s, evs).timers == map[] && Run(s, evs).told == s.told
    decreases |evs|
  {
    if evs != [] {
      DestroyedStep(s, evs[0]);
      StepKeeps(s, evs[0]);
      DestroyedIsFinal(Step(s, evs[0]), evs[1..]);
    }
  }

  lemma DestroyedStep(s: State, ev: Event)
    requires Inv(s) && !s.alive && Enabled(s, ev)
    ensures !Step(s, ev).alive && Step(s, ev).told == s.told
  {
    if ev == End {
      assert FrameOk(s, s.stack[|s.stack| - 1]);
    }
  }
}

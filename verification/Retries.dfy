/** When bringing up a session fails, exactly, what happens otherwise, and that it succeeds when every connection has an
    attempt that does (libcloak-client/src/client_connector.c). */
module Retries {
  import opened Wrappers
  import opened Bringup

  // ---------- why it fails ----------

  /** An attempt that ends without a connection: dialling, starting or finishing the handshake failed. */
  predicate AttemptFails(ev: Event, i: nat)
  {
    match ev
    case Kickoff(draws) => i < |draws| && draws[i].fd.None?
    case Retry(j, d) => i == j && d.fd.None?
    case DialDone(j, outcome, _) => i == j && (outcome == DialFailed || outcome == StartFails)
    case HandshakeDone(j, key, _, _, _) => i == j && key.None?
    case _ => false
  }

  /** The reactor refuses the timer the connection would wait on. */
  predicate TimerRefused(ev: Event, i: nat)
  {
    match ev
    case Kickoff(draws) => i < |draws| && draws[i].timerFails
    case Retry(_, d) => d.timerFails
    case DialDone(_, _, timerFails) => timerFails
    case HandshakeDone(_, _, timerFails, _, _) => timerFails
    case _ => false
  }

  /** Attempts that connection `i` will have made once this event is over. */
  function AttemptsAfter(s: State, ev: Event, i: nat): (n: nat)
    requires i < |s.conns|
  {
    s.conns[i].attempts + if ev.Kickoff? || ev.Retry? then 1 else 0
  }

  /** The last handshake's key differs from another connection's. */
  ghost predicate KeysDiffer(s: State, i: nat, key: Option<Key>)
  {
    exists j :: 0 <= j < |s.conns| && j != i && s.conns[j].key != key
  }

  /** This handshake completes the set. */
  predicate Completes(s: State, ev: Event)
  {
    ev.HandshakeDone? && ev.key.Some? && s.completed + 1 == s.n
  }

  /** A reason to fail: some attempt failed and was its connection's last or could not be followed by a timer; the
      handshake could not be set up; the keys disagree or the session refuses; start was refused its timer; destruction. */
  ghost predicate Reason(s: State, ev: Event)
  {
    || (exists i :: 0 <= i < |s.conns| && AttemptFails(ev, i) &&
          (AttemptsAfter(s, ev, i) >= s.maxAttempts || TimerRefused(ev, i)))
    || (ev.DialDone? && ev.outcome == InitFails)
    || (Completes(s, ev) && (KeysDiffer(s, ev.i, ev.key) || ev.initFails || ev.failAt < s.n))
    || (ev.Start? && ev.timerFails && !s.started)
    || ev.Destroy?
  }

  /** What an event makes of a connection when there is no reason to fail: a failed attempt waits to retry. */
  function Next(s: State, ev: Event, i: nat): (c: Conn)
    requires i < |s.conns|
  {
    var c := s.conns[i];
    match ev
    case Kickoff(draws) => if i < |draws| then Dialled(c, draws[i]) else c
    case Retry(j, d) => if i == j then Dialled(c.(retry := false), d) else c
    case DialDone(j, outcome, _) =>
      if i != j then c
      else if outcome == Shaking then c.(dial := None, fd := c.dial, hs := true)
      else c.(dial := None, fd := None, retry := true)
    case HandshakeDone(j, key, _, _, _) =>
      if i != j then c
      else if key.Some? then c.(hs := false, key := key, done := true)
      else c.(hs := false, fd := None, retry := true)
    case _ => c
  }

  function Dialled(c: Conn, d: Draw): (r: Conn)
  {
    if d.fd.Some? then c.(attempts := c.attempts + 1, dial := d.fd) else c.(attempts := c.attempts + 1, retry := true)
  }

  // ---------- one attempt ----------

  lemma RetryOutcome(s: State, i: nat, timerFails: bool)
    requires i < |s.conns| && s.status == Pending
    ensures var r := RetryOrFail(s, i, timerFails);
      if s.conns[i].attempts >= s.maxAttempts || timerFails then r.status == Failed
      else r.status == Pending && r.conns == s.conns[i := s.conns[i].(retry := true)] && r.maxAttempts == s.maxAttempts
  {
  }

  lemma AttemptOutcome(s: State, i: nat, d: Draw)
    requires i < |s.conns| && s.status == Pending
    ensures var r := StartAttempt(s, i, d);
      if d.fd.None? && (s.conns[i].attempts + 1 >= s.maxAttempts || d.timerFails) then r.status == Failed
      else r.status == Pending && r.conns == s.conns[i := Dialled(s.conns[i], d)] && r.maxAttempts == s.maxAttempts
  {
    if d.fd.None? {
      var c := s.conns[i].(attempts := s.conns[i].attempts + 1);
      var t := Put(s, i, c, multiset{}, None);
      RetryOutcome(t, i, d.timerFails);
      hide RetryOrFail;
      assert t.conns[i := c.(retry := true)] == s.conns[i := c.(retry := true)];
    }
  }

  /** The draw leaves connection `i`, never tried before, with no attempt or no timer. */
  predicate Fatal(d: Draw, maxAttempts: nat)
  {
    d.fd.None? && (maxAttempts <= 1 || d.timerFails)
  }

  lemma {:induction false} KickOutcome(s: State, i: nat, draws: seq<Draw>)
    requires i <= |s.conns| == |draws| && s.status == Pending
    requires forall j :: i <= j < |s.conns| ==> s.conns[j].attempts == 0
    ensures var r := KickFrom(s, i, draws);
      if exists j :: i <= j < |draws| && Fatal(draws[j], s.maxAttempts) then r.status == Failed
      else
        && r.status == Pending && |r.conns| == |s.conns|
        && (forall j :: 0 <= j < |s.conns| ==> r.conns[j] == if j < i then s.conns[j] else Dialled(s.conns[j], draws[j]))
    decreases |s.conns| - i
  {
    if i < |s.conns| {
      AttemptOutcome(s, i, draws[i]);
      hide StartAttempt;
      var t := StartAttempt(s, i, draws[i]);
      if t.status == Pending {
        assert !Fatal(draws[i], s.maxAttempts);
        KickOutcome(t, i + 1, draws);
      } else {
        assert Fatal(draws[i], s.maxAttempts);
      }
    }
  }

  // ---------- every step ----------

  /** The outcome of a step that starts pending. */
  ghost predicate Outcome(s: State, ev: Event, t: State)
    requires |s.conns| == s.n
  {
    && (t.status == Failed <==> Reason(s, ev))
    && (t.status == Done <==> Completes(s, ev) && !Reason(s, ev))
    && (t.status == Pending ==> |t.conns| == s.n && forall i :: 0 <= i < s.n ==> t.conns[i] == Next(s, ev, i))
  }

  lemma FinishStatus(s: State)
    ensures Finish(s).status == s.status && Finish(s).conns == s.conns
  {
  }

  lemma FailStatus(s: State)
    requires s.status == Pending
    ensures Fail(s).status == Failed
  {
  }

  /** What the invariant says of a connection whose callback comes. */
  lemma Called(s: State, i: nat)
    requires Inv(s) && i < |s.conns| && (s.conns[i].dial.Some? || s.conns[i].hs || s.conns[i].retry)
    ensures s.status == Pending && s.n == |s.conns| && !s.conns[i].done && s.started
    ensures s.conns[i].dial.Some? ==> s.conns[i].fd.None? && !s.conns[i].hs && !s.conns[i].retry
    ensures s.conns[i].hs ==> s.conns[i].dial.None? && s.conns[i].fd.Some? && !s.conns[i].retry
    ensures s.conns[i].retry ==> s.conns[i].dial.None? && s.conns[i].fd.None? && !s.conns[i].hs
  {
    Enter(s, i);
    hide Owns;
    hide Dones;
    hide Attempts;
  }

  /** One connection had an attempt fail, or none had. */
  lemma OneAttempt(s: State, ev: Event, i: nat)
    requires (ev.Retry? || ev.DialDone? || ev.HandshakeDone?) && i == ev.i < |s.conns|
    ensures (exists k :: 0 <= k < |s.conns| && AttemptFails(ev, k) &&
              (AttemptsAfter(s, ev, k) >= s.maxAttempts || TimerRefused(ev, k)))
       <==> AttemptFails(ev, i) && (AttemptsAfter(s, ev, i) >= s.maxAttempts || TimerRefused(ev, i))
  {
  }

  lemma RetryStep(s: State, i: nat, d: Draw)
    requires Inv(s) && i < |s.conns| && s.conns[i].retry
    ensures |s.conns| == s.n && Outcome(s, Retry(i, d), OnRetry(s, i, d))
  {
    Called(s, i);
    hide Inv;
    var ev := Retry(i, d);
    OneAttempt(s, ev, i);
    var t := Put(s, i, s.conns[i].(retry := false), multiset{}, None);
    AttemptOutcome(t, i, d);
    hide StartAttempt;
    FinishStatus(StartAttempt(t, i, d));
    hide Finish;
  }

  lemma DialStep(s: State, i: nat, outcome: DialOutcome, timerFails: bool)
    requires Inv(s) && i < |s.conns| && s.conns[i].dial.Some?
    ensures |s.conns| == s.n && Outcome(s, DialDone(i, outcome, timerFails), OnDialDone(s, i, outcome, timerFails))
  {
    hide Inv;
    hide RetryOrFail;
    hide Fail;
    hide Finish;
    Called(s, i);
    OneAttempt(s, DialDone(i, outcome, timerFails), i);
    var fd, c := s.conns[i].dial.value, s.conns[i].(dial := None);
    var a := Put(s, i, c, multiset{fd}, None);
    var b := Put(s, i, c.(fd := Some(fd)), multiset{}, None);
    RetryOutcome(a, i, timerFails);
    FinishStatus(RetryOrFail(a, i, timerFails));
    RetryOutcome(CloseFd(b, i), i, timerFails);
    FinishStatus(RetryOrFail(CloseFd(b, i), i, timerFails));
    FailStatus(CloseFd(b, i));
    FinishStatus(Fail(CloseFd(b, i)));
    FinishStatus(Put(b, i, b.conns[i].(hs := true), multiset{}, None));
  }

  lemma {:induction false} HandOutcome(s: State, i: nat, failAt: nat)
    requires i <= |s.conns| && s.status == Pending && forall j :: i <= j < |s.conns| ==> s.conns[j].fd.Some?
    ensures HandOver(s, i, failAt).status == if i <= failAt < |s.conns| then Failed else Done
    decreases |s.conns| - i
  {
    if i < |s.conns| && i != failAt {
      HandOutcome(HandOne(s, i), i + 1, failAt);
    }
  }

  lemma AssembleOutcome(s: State, initFails: bool, failAt: nat)
    requires s.conns != [] && s.status == Pending && forall j :: 0 <= j < |s.conns| ==> s.conns[j].fd.Some?
    ensures Assemble(s, initFails, failAt).status ==
            if KeysAgree(s.conns) && !initFails && failAt >= |s.conns| then Done else Failed
  {
    hide HandOver;
    FailStatus(s);
    hide Fail;
    HandOutcome(s.(sessionOwned := true, sessionKey := s.conns[0].key, sessions := s.sessions + 1), 0, failAt);
  }

  lemma AgreeOrDiffer(s: State, i: nat, c: Conn)
    requires i < |s.conns|
    ensures KeysAgree(s.conns[i := c]) <==> !KeysDiffer(s, i, c.key)
  {
    var conns := s.conns[i := c];
    if KeysAgree(conns) {
      assert conns[i].key == conns[0].key;
      assert forall j :: 0 <= j < |conns| && j != i ==> conns[j] == s.conns[j];
    } else {
      var j :| 0 <= j < |conns| && conns[j].key != conns[0].key;
      assert conns[j].key != c.key || conns[0].key != c.key;
    }
  }

  lemma HandshakeStep(s: State, i: nat, key: Option<Key>, timerFails: bool, initFails: bool, failAt: nat)
    requires Inv(s) && i < |s.conns| && s.conns[i].hs
    ensures |s.conns| == s.n && !s.conns[i].done
    ensures key.Some? && s.completed + 1 == s.n ==> forall j :: 0 <= j < |s.conns| ==> s.conns[j].fd.Some?
    ensures Outcome(s, HandshakeDone(i, key, timerFails, initFails, failAt),
                    OnHandshakeDone(s, i, key, timerFails, initFails, failAt))
  {
    hide Inv;
    hide RetryOrFail;
    hide Finish;
    hide Assemble;
    hide KeysAgree;
    Called(s, i);
    HandshakeKeeps(s, i, key, timerFails, initFails, failAt);
    OneAttempt(s, HandshakeDone(i, key, timerFails, initFails, failAt), i);
    var c := s.conns[i].(hs := false);
    if key.Some? {
      var d := c.(key := key, done := true);
      var u := Put(s, i, d, multiset{}, None);
      AgreeOrDiffer(s, i, d);
      FinishStatus(u);
      if s.completed + 1 == s.n {
        AssembleOutcome(u, initFails, failAt);
        FinishStatus(Assemble(u, initFails, failAt));
      }
    } else {
      var u := CloseFd(Put(s, i, c, multiset{}, None), i);
      RetryOutcome(u, i, timerFails);
      FinishStatus(RetryOrFail(u, i, timerFails));
    }
  }

  lemma KickStep(s: State, draws: seq<Draw>)
    requires Inv(s) && s.kickoff && |draws| == |s.conns|
    ensures |s.conns| == s.n && Outcome(s, Kickoff(draws), OnKickoff(s, draws))
  {
    Fresh(s);
    hide Inv;
    var ev := Kickoff(draws);
    var t := s.(kickoff := false);
    KickOutcome(t, 0, draws);
    hide KickFrom;
    FinishStatus(KickFrom(t, 0, draws));
    hide Finish;
    assert forall i :: 0 <= i < |s.conns| ==> AttemptsAfter(s, ev, i) == 1;
    assert forall i :: 0 <= i < |s.conns| ==>
      (AttemptFails(ev, i) && (AttemptsAfter(s, ev, i) >= s.maxAttempts || TimerRefused(ev, i)) <==> Fatal(draws[i], s.maxAttempts));
  }

  lemma Fresh(s: State)
    requires Inv(s) && s.kickoff
    ensures |s.conns| == s.n && s.status == Pending && s.started && forall i :: 0 <= i < s.n ==> s.conns[i] == IDLE
  {
    hide Owns;
    hide Dones;
    hide Attempts;
  }

  /** EXACTLY WHEN IT FAILS. On every step of a pending connector: it fails if and only if there is a reason to; it is done
      if and only if this handshake completes the set without one; and otherwise each connection is where the event puts it,
      one whose attempt failed waiting to retry. */
  lemma FailsExactly(s: State, ev: Event)
    requires Inv(s) && Enabled(s, ev) && s.status == Pending
    ensures |s.conns| == s.n && Outcome(s, ev, Step(s, ev))
  {
    SizeIs(s);
    hide Outcome;
    match ev
    case Start(timerFails) => StartStep(s, timerFails);
    case Kickoff(draws) => KickStep(s, draws);
    case Retry(i, d) => RetryStep(s, i, d);
    case DialDone(i, o, tf) => DialStep(s, i, o, tf);
    case HandshakeDone(i, key, tf, initFails, failAt) => HandshakeStep(s, i, key, tf, initFails, failAt);
    case Destroy => DestroyStep(s);
  }

  lemma SizeIs(s: State)
    requires Inv(s) && s.status == Pending
    ensures |s.conns| == s.n && !s.destroyed
  {
  }

  lemma StartStep(s: State, timerFails: bool)
    requires s.status == Pending && |s.conns| == s.n
    ensures Outcome(s, Start(timerFails), OnStart(s, timerFails))
  {
  }

  lemma DestroyStep(s: State)
    requires s.status == Pending && |s.conns| == s.n
    ensures Outcome(s, Destroy, OnDestroy(s))
  {
  }

  // ---------- it succeeds when every connection has an attempt that does ----------

  /** How many attempts of connection `i` failed in a run. */
  function Failures(evs: seq<Event>, i: nat): (n: nat)
  {
    if evs == [] then 0 else Failures(evs[..|evs| - 1], i) + if AttemptFails(evs[|evs| - 1], i) then 1 else 0
  }

  lemma FailuresAppend(evs: seq<Event>, ev: Event, i: nat)
    ensures Failures(evs + [ev], i) == Failures(evs, i) + if AttemptFails(ev, i) then 1 else 0
  {
    assert (evs + [ev])[..|evs|] == evs;
  }

  /** Nothing but attempts fails: timers are granted, handshakes can be set up and give the one key, the session refuses
      nothing, and nobody destroys the connector. */
  ghost predicate Obliging(ev: Event, n: nat, key: Key)
  {
    match ev
    case Start(timerFails) => !timerFails
    case Kickoff(draws) => forall i :: 0 <= i < |draws| ==> !draws[i].timerFails
    case Retry(_, d) => !d.timerFails
    case DialDone(_, outcome, timerFails) => outcome != InitFails && !timerFails
    case HandshakeDone(_, k, timerFails, initFails, failAt) =>
      !timerFails && !initFails && failAt >= n && (k.Some? ==> k.value == key)
    case Destroy => false
  }

  /** In a pending connector each attempt made has failed, but for the one under way or done; every key is the one key. */
  ghost predicate Tracked(s: State, evs: seq<Event>, key: Key)
  {
    forall i :: 0 <= i < |s.conns| ==>
      && s.conns[i].attempts == Failures(evs, i) + (if s.conns[i] == IDLE || s.conns[i].retry then 0 else 1)
      && (s.conns[i].key.Some? ==> s.conns[i].key.value == key)
  }

  lemma Quota(s: State, evs: seq<Event>, ev: Event, key: Key, i: nat)
    requires Inv(s) && Enabled(s, ev) && s.status == Pending && Tracked(s, evs, key) && i < |s.conns| && AttemptFails(ev, i)
    ensures AttemptsAfter(s, ev, i) == Failures(evs, i) + 1
  {
    SizeIs(s);
    if ev.Kickoff? {
      Fresh(s);
    } else {
      Called(s, i);
    }
  }

  /** While no connection has failed as often as it may try, there is no reason to fail. */
  lemma NoReason(s: State, evs: seq<Event>, ev: Event, key: Key)
    requires Inv(s) && Enabled(s, ev) && s.status == Pending && Tracked(s, evs, key) && Obliging(ev, s.n, key)
    requires forall i :: 0 <= i < s.n ==> Failures(evs + [ev], i) < s.maxAttempts
    ensures !Reason(s, ev)
  {
    SizeIs(s);
    forall i | 0 <= i < |s.conns| && AttemptFails(ev, i)
      ensures AttemptsAfter(s, ev, i) < s.maxAttempts && !TimerRefused(ev, i)
    {
      FailuresAppend(evs, ev, i);
      Quota(s, evs, ev, key, i);
    }
    if Completes(s, ev) {
      AllKeys(s, ev.i);
      hide Inv;
      hide Failures;
      assert !KeysDiffer(s, ev.i, ev.key);
    }
  }

  /** When one handshake is left, every other connection has a key. */
  lemma AllKeys(s: State, i: nat)
    requires Inv(s) && s.status == Pending && s.completed + 1 == s.n && i < |s.conns| && s.conns[i].hs
    ensures forall j :: 0 <= j < |s.conns| && j != i ==> s.conns[j].key.Some?
  {
    Called(s, i);
    Enter(s, i);
    LastReady(s, i, 0);
    var u := Put(s, i, s.conns[i].(hs := false, key := Some(0), done := true), multiset{}, None);
    assert forall j :: 0 <= j < |s.conns| && j != i ==> u.conns[j] == s.conns[j];
  }

  lemma TrackedStep(s: State, evs: seq<Event>, ev: Event, key: Key, t: State)
    requires Inv(s) && Enabled(s, ev) && s.status == Pending && Tracked(s, evs, key) && Obliging(ev, s.n, key)
    requires |s.conns| == s.n && |t.conns| == s.n && forall i :: 0 <= i < s.n ==> t.conns[i] == Next(s, ev, i)
    ensures Tracked(t, evs + [ev], key)
  {
    forall i | 0 <= i < |t.conns|
      ensures t.conns[i].attempts == Failures(evs + [ev], i) + (if t.conns[i] == IDLE || t.conns[i].retry then 0 else 1)
      ensures t.conns[i].key.Some? ==> t.conns[i].key.value == key
    {
      FailuresAppend(evs, ev, i);
      TrackedConn(s, evs, ev, key, i);
    }
  }

  lemma TrackedConn(s: State, evs: seq<Event>, ev: Event, key: Key, i: nat)
    requires Inv(s) && Enabled(s, ev) && s.status == Pending && Tracked(s, evs, key) && Obliging(ev, s.n, key) && i < |s.conns|
    ensures var c := Next(s, ev, i);
      && c.attempts == Failures(evs, i) + (if AttemptFails(ev, i) then 1 else 0) + (if c == IDLE || c.retry then 0 else 1)
      && (c.key.Some? ==> c.key.value == key)
  {
    SizeIs(s);
    if ev.Kickoff? {
      Fresh(s);
    } else if (ev.Retry? || ev.DialDone? || ev.HandshakeDone?) && ev.i == i {
      Called(s, i);
    }
  }

  /** A connector that is done stays done while nobody destroys it. */
  lemma DoneStays(s: State, ev: Event, n: nat, key: Key)
    requires Inv(s) && Enabled(s, ev) && s.status == Done && Obliging(ev, n, key)
    ensures Step(s, ev).status == Done && Step(s, ev).n == s.n && Step(s, ev).maxAttempts == s.maxAttempts
  {
    EndedIsSilent(s, ev);
  }

  lemma SameLimits(s: State, ev: Event)
    requires Inv(s) && Enabled(s, ev)
    ensures Step(s, ev).n == s.n && Step(s, ev).maxAttempts == s.maxAttempts
  {
    hide Inv;
  }

  /** The run law, from any point of it. */
  lemma {:induction false} NeverFails(s: State, before: seq<Event>, evs: seq<Event>, key: Key)
    requires Inv(s) && Possible(s, evs) && (s.status == Done || (s.status == Pending && Tracked(s, before, key)))
    requires forall k :: 0 <= k < |evs| ==> Obliging(evs[k], s.n, key)
    requires forall i :: 0 <= i < s.n ==> Failures(before + evs, i) < s.maxAttempts
    ensures Run(s, evs).status != Failed
    decreases |evs|
  {
    if evs != [] {
      var ev := evs[0];
      var t := Step(s, ev);
      SameLimits(s, ev);
      assert before + evs == (before + [ev]) + evs[1..];
      if s.status == Done {
        DoneStays(s, ev, s.n, key);
      } else {
        FewerBefore(before + [ev], evs[1..], s.n, s.maxAttempts);
        NoReason(s, before, ev, key);
        FailsExactly(s, ev);
        if t.status == Pending {
          TrackedStep(s, before, ev, key, t);
        }
      }
      hide Inv;
      hide Step;
      hide Failures;
      hide Tracked;
      NeverFails(t, before + [ev], evs[1..], key);
    }
  }

  lemma {:induction false} FailuresGrow(a: seq<Event>, b: seq<Event>, i: nat)
    ensures Failures(a, i) <= Failures(a + b, i)
    decreases |b|
  {
    if b == [] {
      assert a + b == a;
    } else {
      var c := b[..|b| - 1];
      FailuresGrow(a, c, i);
      assert a + b == (a + c) + [b[|b| - 1]];
      FailuresAppend(a + c, b[|b| - 1], i);
    }
  }

  lemma FewerBefore(a: seq<Event>, b: seq<Event>, n: nat, max: nat)
    requires forall i :: 0 <= i < n ==> Failures(a + b, i) < max
    ensures forall i :: 0 <= i < n ==> Failures(a, i) < max
  {
    hide Failures;
    forall i | 0 <= i < n
      ensures Failures(a, i) < max
    {
      FailuresGrow(a, b, i);
    }
  }

  /** Nothing of the connector's own can still call in. */
  ghost predicate Quiesced(s: State)
  {
    !s.kickoff && forall i :: 0 <= i < |s.conns| ==> Quiet(s.conns[i]) || (s.conns[i].done && !s.conns[i].hs)
  }

  /** IT SUCCEEDS WHEN IT CAN. On every run in which nothing but attempts fails and every connection fails fewer attempts than
      it may make: the connector never fails, and once it was started and nothing of it can call in any more, it is done. */
  lemma SucceedsWithinAttempts(n: nat, maxAttempts: nat, evs: seq<Event>, key: Key)
    requires n >= 1 && maxAttempts >= 1 && Possible(Init(n, maxAttempts), evs)
    requires forall k :: 0 <= k < |evs| ==> Obliging(evs[k], n, key)
    requires forall i :: 0 <= i < n ==> Failures(evs, i) < maxAttempts
    ensures var s := Run(Init(n, maxAttempts), evs); s.status != Failed && (s.started && Quiesced(s) ==> s.status == Done)
  {
    var s0 := Init(n, maxAttempts);
    var s := Run(s0, evs);
    assert [] + evs == evs;
    assert Tracked(s0, [], key);
    NeverFails(s0, [], evs, key);
    NoticesAndDials(s);
  }
}

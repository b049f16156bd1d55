/** The connector object of libcloak-client/src/client_connector.c, its fields changed step by step by its callbacks.
    Every method is proved to take the step that Bringup gives it. */
module Connector {
  import opened Wrappers
  import opened Bringup

  class Connector {
    var n: nat
    var maxAttempts: nat
    var conns: seq<Conn>
    var completed: nat
    var status: Status
    var notified: bool
    var started: bool
    var kickoff: bool
    var sessionOwned: bool
    var sessionKey: Option<Key>
    var dials: nat
    ghost var sessionFds: seq<nat>
    ghost var destroyed: bool
    ghost var dialled: set<nat>
    ghost var closed: multiset<nat>
    ghost var notices: nat
    ghost var sessions: nat

    ghost function Abs(): (s: State)
      reads this
    {
      State(n, maxAttempts, conns, completed, status, notified, started, kickoff, sessionOwned, sessionKey, sessionFds, dials,
            destroyed, dialled, closed, notices, sessions)
    }

    constructor (n: nat, maxAttempts: nat)
      requires n >= 1 && maxAttempts >= 1
      ensures Abs() == Init(n, maxAttempts) && Inv(Abs())
    {
      this.n, this.maxAttempts, conns, completed := n, maxAttempts, seq(n, _ => IDLE), 0;
      status, notified, started, kickoff := Pending, false, false, false;
      sessionOwned, sessionKey, dials := false, None, 0;
      sessionFds, destroyed, dialled, closed, notices, sessions := [], false, {}, multiset{}, 0, 0;
    }

    // ---------- storing one connection ----------

    /** Stores connection `i`, whose attempts and done flag did not change; `gone` was closed on the way. */
    method Store(i: nat, c: Conn, ghost gone: multiset<nat>)
      requires i < |conns| && c.attempts == conns[i].attempts && c.done == conns[i].done
      modifies this`conns, this`closed
      ensures Abs() == Put(old(Abs()), i, c, gone, None)
      ensures conns == old(conns)[i := c] && closed == old(closed) + gone
    {
      conns := conns[i := c];
      closed := closed + gone;
    }

    // ---------- releasing and failing ----------

    /** conn_release: a dial in progress closes its own descriptor when cancelled. */
    method ReleaseOne(i: nat)
      requires i < |conns|
      modifies this`conns, this`closed
      ensures Abs() == Put(old(Abs()), i, ReleaseConn(old(conns)[i]), HeldOne(old(conns)[i]), None)
      ensures conns == old(conns)[i := ReleaseConn(old(conns)[i])] && closed == old(closed) + HeldOne(old(conns)[i])
    {
      hide Put;
      var c := conns[i];
      ghost var gone := multiset{};
      c := c.(retry := false);
      if c.dial.Some? {
        gone := gone + multiset{c.dial.value};
        c := c.(dial := None);
      }
      c := c.(hs := false);
      if c.fd.Some? {
        gone := multiset{c.fd.value} + gone;
        c := c.(fd := None);
      }
      assert c == ReleaseConn(conns[i]) && gone == HeldOne(conns[i]);
      Store(i, c, gone);
    }

    /** connector_release. */
    method ReleaseEverything()
      modifies this`conns, this`closed, this`kickoff
      ensures Abs() == ReleaseAll(old(Abs()))
    {
      hide Held;
      kickoff := false;
      ReleaseLoop();
    }

    method ReleaseLoop()
      modifies this`conns, this`closed
      ensures conns == ReleaseConns(old(conns)) && closed == old(closed) + Held(old(conns))
    {
      hide Held;
      hide HeldOne;
      hide Put;
      hide ReleaseConn;
      hide ReleasedUpTo;
      hide Connector.Abs;
      ghost var was, total := conns, closed + Held(conns);
      var i := 0;
      ReleasedEnds(was);
      while i < |conns|
        invariant 0 <= i <= |conns| == |was| && conns == ReleasedUpTo(was, i)
        invariant closed + Held(conns) == total
      {
        ReleaseMoves(conns, i, closed);
        ReleasedMore(was, i);
        ReleaseOne(i);
        i := i + 1;
      }
      SumsRelease(was);
      assert closed + multiset{} == closed;
    }

    method DestroySession()
      modifies this`sessionOwned, this`closed, this`sessionFds
      ensures Abs() == DropSession(old(Abs()))
    {
      if sessionOwned {
        closed := closed + multiset(sessionFds);
        sessionFds := [];
        sessionOwned := false;
      }
    }

    method FailNow()
      modifies this
      ensures Abs() == Fail(old(Abs()))
    {
      if status != Pending {
        return;
      }
      status := Failed;
      ReleaseEverything();
      DestroySession();
    }

    /** finish: the caller's callback is the very last thing. */
    method FinishUp()
      modifies this`notified, this`notices
      ensures Abs() == Finish(old(Abs()))
    {
      if status == Pending || notified {
        return;
      }
      notified := true;
      notices := notices + 1;
    }

    // ---------- assembling ----------

    method KeysAgreeNow() returns (yes: bool)
      requires conns != []
      ensures yes == KeysAgree(conns)
    {
      var i := 1;
      while i < |conns|
        invariant 1 <= i <= |conns| && forall j :: 0 <= j < i ==> conns[j].key == conns[0].key
      {
        if conns[i].key != conns[0].key {
          return false;
        }
        i := i + 1;
      }
      yes := true;
    }

    method AttachOne(i: nat)
      requires i < |conns| && conns[i].fd.Some?
      modifies this`conns, this`sessionFds
      ensures Abs() == HandOne(old(Abs()), i)
      ensures |conns| == |old(conns)| && forall j :: i < j < |conns| ==> conns[j] == old(conns)[j]
    {
      sessionFds := sessionFds + [conns[i].fd.value];
      conns := conns[i := conns[i].(fd := None)];
    }

    /** The session takes every descriptor, or refuses connection `failAt`. */
    method AttachAll(failAt: nat)
      requires forall j :: 0 <= j < |conns| ==> conns[j].fd.Some?
      modifies this
      ensures Abs() == HandOver(old(Abs()), 0, failAt)
    {
      hide HandOne;
      hide Fail;
      hide ReleaseAll;
      ghost var s := Abs();
      var i := 0;
      while i < |conns|
        invariant 0 <= i <= |conns| && forall j :: i <= j < |conns| ==> conns[j].fd.Some?
        invariant HandOver(Abs(), i, failAt) == HandOver(s, 0, failAt)
      {
        if i == failAt {
          FailNow();
          return;
        }
        AttachOne(i);
        i := i + 1;
      }
      status := Done;
      sessionOwned := false;
      ReleaseEverything();
    }

    method AssembleNow(initFails: bool, failAt: nat)
      requires conns != [] && forall j :: 0 <= j < |conns| ==> conns[j].fd.Some?
      modifies this
      ensures Abs() == Assemble(old(Abs()), initFails, failAt)
    {
      hide HandOver;
      var agree := KeysAgreeNow();
      if !agree {
        FailNow();
        return;
      }
      if initFails {
        FailNow();
        return;
      }
      sessionOwned := true;
      sessionKey := conns[0].key;
      sessions := sessions + 1;
      AttachAll(failAt);
    }

    // ---------- attempts ----------

    method RetryOrGiveUp(i: nat, timerFails: bool)
      requires i < |conns|
      modifies this
      ensures Abs() == RetryOrFail(old(Abs()), i, timerFails)
    {
      if conns[i].attempts >= maxAttempts {
        FailNow();
        return;
      }
      if timerFails {
        FailNow();
        return;
      }
      Store(i, conns[i].(retry := true), multiset{});
    }

    method Attempt(i: nat, d: Draw)
      requires i < |conns|
      modifies this
      ensures Abs() == StartAttempt(old(Abs()), i, d)
    {
      hide RetryOrFail;
      hide Put;
      var c := conns[i].(attempts := conns[i].attempts + 1);
      if d.fd.None? {
        CountAttempt(i, c, None);
        RetryOrGiveUp(i, d.timerFails);
        return;
      }
      CountAttempt(i, c.(dial := d.fd), d.fd);
    }

    method CountAttempt(i: nat, c: Conn, ghost got: Option<nat>)
      requires i < |conns| && c.attempts == conns[i].attempts + 1 && c.done == conns[i].done
      modifies this`conns, this`dials, this`dialled
      ensures Abs() == Put(old(Abs()), i, c, multiset{}, got)
    {
      conns := conns[i := c];
      dials := dials + 1;
      dialled := if got.Some? then dialled + {got.value} else dialled;
      assert closed + multiset{} == closed;
    }

    // ---------- callbacks ----------

    method StartUp(timerFails: bool) returns (ok: bool)
      modifies this
      ensures Abs() == OnStart(old(Abs()), timerFails)
      ensures ok ==> started && kickoff
    {
      if status != Pending || started {
        return false;
      }
      if timerFails {
        status := Failed;
        notified := true;
        return false;
      }
      kickoff := true;
      started := true;
      ok := true;
    }

    method KickoffFired(draws: seq<Draw>)
      requires |draws| == |conns|
      modifies this
      ensures Abs() == OnKickoff(old(Abs()), draws)
    {
      hide StartAttempt;
      kickoff := false;
      ghost var s := Abs();
      var i := 0;
      while i < |conns| && status == Pending
        invariant 0 <= i <= |conns| == |draws|
        invariant KickFrom(Abs(), i, draws) == KickFrom(s, 0, draws)
      {
        Attempt(i, draws[i]);
        i := i + 1;
      }
      FinishUp();
    }

    method RetryFired(i: nat, d: Draw)
      requires i < |conns|
      modifies this
      ensures Abs() == OnRetry(old(Abs()), i, d)
    {
      hide StartAttempt;
      Store(i, conns[i].(retry := false), multiset{});
      if status == Pending {
        Attempt(i, d);
      }
      FinishUp();
    }

    method CloseOne(i: nat)
      requires i < |conns| && conns[i].fd.Some?
      modifies this`conns, this`closed
      ensures Abs() == CloseFd(old(Abs()), i)
    {
      hide Put;
      Store(i, conns[i].(fd := None), multiset{conns[i].fd.value});
    }

    /** on_dial_done: a dial that failed has closed its own descriptor; otherwise it becomes this connection's. */
    method DialEnded(i: nat, outcome: DialOutcome, timerFails: bool)
      requires i < |conns| && conns[i].dial.Some?
      modifies this
      ensures Abs() == OnDialDone(old(Abs()), i, outcome, timerFails)
    {
      hide Finish;
      hide RetryOrFail;
      hide Fail;
      hide CloseFd;
      hide Put;
      var fd := conns[i].dial.value;
      var c := conns[i].(dial := None);
      if status != Pending {
        Store(i, c, multiset{fd});
        return;
      }
      if outcome == DialFailed {
        Store(i, c, multiset{fd});
        RetryOrGiveUp(i, timerFails);
        FinishUp();
        return;
      }
      Store(i, c.(fd := Some(fd)), multiset{});
      Shake(i, outcome, timerFails);
    }

    method Shake(i: nat, outcome: DialOutcome, timerFails: bool)
      requires i < |conns| && conns[i].fd.Some?
      modifies this
      ensures var t := old(Abs());
              Abs() == if outcome == InitFails then Finish(Fail(CloseFd(t, i)))
                       else if outcome == StartFails then Finish(RetryOrFail(CloseFd(t, i), i, timerFails))
                       else Finish(Put(t, i, t.conns[i].(hs := true), multiset{}, None))
    {
      hide Finish;
      hide RetryOrFail;
      hide Fail;
      hide CloseFd;
      hide Put;
      if outcome == InitFails {
        CloseOne(i);
        FailNow();
      } else if outcome == StartFails {
        CloseOne(i);
        RetryOrGiveUp(i, timerFails);
      } else {
        Store(i, conns[i].(hs := true), multiset{});
      }
      FinishUp();
    }

    method CountDone(i: nat, c: Conn)
      requires i < |conns| && c.attempts == conns[i].attempts && c.done && !conns[i].done
      modifies this`conns, this`completed
      ensures Abs() == Put(old(Abs()), i, c, multiset{}, None)
      ensures completed == old(completed) + 1 && conns == old(conns)[i := c]
    {
      conns := conns[i := c];
      completed := completed + 1;
      assert closed + multiset{} == closed;
    }

    /** on_handshake_done. */
    method HandshakeEnded(i: nat, key: Option<Key>, timerFails: bool, initFails: bool, failAt: nat)
      requires i < |conns| && !conns[i].done && conns[i].fd.Some?
      requires status == Pending && key.Some? && completed + 1 == n ==> forall j :: 0 <= j < |conns| ==> conns[j].fd.Some?
      modifies this
      ensures Abs() == OnHandshakeDone(old(Abs()), i, key, timerFails, initFails, failAt)
    {
      hide Finish;
      hide RetryOrFail;
      hide Assemble;
      hide CloseFd;
      hide Put;
      var c := conns[i].(hs := false);
      if status != Pending {
        assert ReleaseConn(c) == ReleaseConn(conns[i]) && HeldOne(c) == HeldOne(conns[i]);
        ReleaseOne(i);
        return;
      }
      if key.Some? {
        CountDone(i, c.(key := key, done := true));
        if completed == n {
          AssembleNow(initFails, failAt);
        }
      } else {
        Store(i, c, multiset{});
        CloseOne(i);
        RetryOrGiveUp(i, timerFails);
      }
      FinishUp();
    }

    method DestroyIt()
      modifies this
      ensures Abs() == OnDestroy(old(Abs()))
    {
      hide ReleaseAll;
      hide DropSession;
      ghost var s := Abs();
      ReleaseEverything();
      DestroySession();
      EndFrame(s);
      conns := [];
      notified := true;
      destroyed := true;
      if status == Pending {
        status := Failed;
      }
    }
  }

  lemma EndFrame(s: State)
    ensures DropSession(ReleaseAll(s)).status == s.status
  {
  }

  ghost function ReleasedUpTo(was: seq<Conn>, i: nat): (r: seq<Conn>)
    ensures |r| == |was|
  {
    seq(|was|, j requires 0 <= j < |was| => if j < i then ReleaseConn(was[j]) else was[j])
  }

  lemma ReleasedMore(was: seq<Conn>, i: nat)
    requires i < |was|
    ensures ReleasedUpTo(was, i)[i] == was[i]
    ensures ReleasedUpTo(was, i)[i := ReleaseConn(was[i])] == ReleasedUpTo(was, i + 1)
  {
    hide ReleaseConn;
  }

  lemma ReleasedEnds(was: seq<Conn>)
    ensures ReleasedUpTo(was, 0) == was && ReleasedUpTo(was, |was|) == ReleaseConns(was)
  {
    hide ReleaseConn;
  }

  lemma ReleaseMoves(conns: seq<Conn>, i: nat, closed: multiset<nat>)
    requires i < |conns|
    ensures (closed + HeldOne(conns[i])) + Held(conns[i := ReleaseConn(conns[i])]) == closed + Held(conns)
  {
    var h := Held(conns[i := ReleaseConn(conns[i])]);
    SumsUpdate(conns, i, ReleaseConn(conns[i]));
    assert HeldOne(ReleaseConn(conns[i])) == multiset{};
    hide Held;
    hide HeldOne;
    assert (closed + HeldOne(conns[i])) + h == closed + (h + HeldOne(conns[i]));
  }
}

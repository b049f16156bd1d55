/** Bringing up one client session (libcloak-client/src/client_connector.c) as a state machine: N connections, each
    dialling, shaking hands, waiting to retry or done, and one conservation law over every descriptor ever dialled. */
module Bringup {
  import opened Wrappers

  type Key = nat

  // ---------- state ----------

  /** `dial` is the descriptor a dial in progress owns, `fd` the one this connection owns. */
  datatype Conn = Conn(fd: Option<nat>, dial: Option<nat>, hs: bool, retry: bool, attempts: nat, key: Option<Key>, done: bool)

  datatype Status = Pending | Done | Failed

  /** `sessionFds` are the descriptors the session owns. `dialled` holds every descriptor a dial ever returned and
      `closed` one occurrence for each time one was closed. `notices` counts on_done calls, `sessions` session inits. */
  datatype State = State(
    n: nat,
    maxAttempts: nat,
    conns: seq<Conn>,
    completed: nat,
    status: Status,
    notified: bool,
    started: bool,
    kickoff: bool,
    sessionOwned: bool,
    sessionKey: Option<Key>,
    sessionFds: seq<nat>,
    dials: nat,
    destroyed: bool,
    dialled: set<nat>,
    closed: multiset<nat>,
    notices: nat,
    sessions: nat)

  const IDLE: Conn := Conn(None, None, false, false, 0, None, false)

  function Init(n: nat, maxAttempts: nat): (s: State)
    requires n >= 1 && maxAttempts >= 1
    ensures Inv(s)
  {
    IdleSums(n);
    hide Held;
    hide Dones;
    hide Attempts;
    State(n, maxAttempts, seq(n, _ => IDLE), 0, Pending, false, false, false, false, None, [], 0, false, {}, multiset{}, 0, 0)
  }

  // ---------- helpers ----------

  function Some1(o: Option<nat>): (m: multiset<nat>)
  {
    if o.Some? then multiset{o.value} else multiset{}
  }

  function HeldOne(c: Conn): (m: multiset<nat>)
  {
    Some1(c.fd) + Some1(c.dial)
  }

  function Held(conns: seq<Conn>): (m: multiset<nat>)
  {
    if conns == [] then multiset{} else HeldOne(conns[0]) + Held(conns[1..])
  }

  /** conn_release: whatever is held is closed, by the cancelled dial or here. */
  function ReleaseConn(c: Conn): (r: Conn)
  {
    c.(retry := false, dial := None, hs := false, fd := None)
  }

  function ReleaseConns(conns: seq<Conn>): (r: seq<Conn>)
    ensures |r| == |conns| && forall i :: 0 <= i < |r| ==> r[i] == ReleaseConn(conns[i])
  {
    seq(|conns|, i requires 0 <= i < |conns| => ReleaseConn(conns[i]))
  }

  function ReleaseAll(s: State): (r: State)
  {
    s.(kickoff := false, closed := s.closed + Held(s.conns), conns := ReleaseConns(s.conns))
  }

  function DropSession(s: State): (r: State)
  {
    if s.sessionOwned then s.(sessionOwned := false, closed := s.closed + multiset(s.sessionFds), sessionFds := []) else s
  }

  function Fail(s: State): (r: State)
    ensures r.n == s.n && r.maxAttempts == s.maxAttempts
    ensures |r.conns| == |s.conns|
  {
    if s.status != Pending then s else DropSession(ReleaseAll(s.(status := Failed)))
  }

  function Finish(s: State): (r: State)
    ensures r.n == s.n && r.maxAttempts == s.maxAttempts
  {
    if s.status == Pending || s.notified then s else s.(notified := true, notices := s.notices + 1)
  }

  /** Connection `i` replaced by `c`: `gone` was closed, `got` was dialled. */
  function Put(s: State, i: nat, c: Conn, gone: multiset<nat>, got: Option<nat>): (r: State)
    requires i < |s.conns| && s.conns[i].attempts <= c.attempts
    ensures |r.conns| == |s.conns|
    ensures r.n == s.n && r.maxAttempts == s.maxAttempts
  {
    s.(conns := s.conns[i := c], closed := s.closed + gone,
       dialled := if got.Some? then s.dialled + {got.value} else s.dialled,
       dials := s.dials + (c.attempts - s.conns[i].attempts),
       completed := if c.done && !s.conns[i].done then s.completed + 1 else s.completed)
  }

  /** `timerFails`: the reactor had no timer to give. */
  function RetryOrFail(s: State, i: nat, timerFails: bool): (r: State)
    requires i < |s.conns|
    ensures r.n == s.n && r.maxAttempts == s.maxAttempts
    ensures |r.conns| == |s.conns|
  {
    if s.conns[i].attempts >= s.maxAttempts || timerFails then Fail(s)
    else Put(s, i, s.conns[i].(retry := true), multiset{}, None)
  }

  /** What dialling gave: a descriptor in progress, or nothing. */
  datatype Draw = Draw(fd: Option<nat>, timerFails: bool)

  function StartAttempt(s: State, i: nat, d: Draw): (r: State)
    requires i < |s.conns|
    ensures |r.conns| == |s.conns|
    ensures r.n == s.n && r.maxAttempts == s.maxAttempts
  {
    var c := s.conns[i].(attempts := s.conns[i].attempts + 1);
    if d.fd.None? then RetryOrFail(Put(s, i, c, multiset{}, None), i, d.timerFails)
    else Put(s, i, c.(dial := d.fd), multiset{}, d.fd)
  }

  /** The kickoff loop from connection `i` on. */
  function KickFrom(s: State, i: nat, draws: seq<Draw>): (r: State)
    requires i <= |s.conns| == |draws|
    ensures |r.conns| == |s.conns|
    decreases |s.conns| - i
    ensures r.n == s.n && r.maxAttempts == s.maxAttempts
  {
    if i == |s.conns| || s.status != Pending then s else KickFrom(StartAttempt(s, i, draws[i]), i + 1, draws)
  }

  predicate KeysAgree(conns: seq<Conn>)
  {
    forall i :: 0 <= i < |conns| ==> conns[i].key == conns[0].key
  }

  /** The hand-over loop from connection `i` on; the session refuses connection `failAt`, if there is one. */
  function HandOver(s: State, i: nat, failAt: nat): (r: State)
    requires i <= |s.conns| && forall j :: i <= j < |s.conns| ==> s.conns[j].fd.Some?
    decreases |s.conns| - i
    ensures r.n == s.n && r.maxAttempts == s.maxAttempts
  {
    if i == |s.conns| then ReleaseAll(s.(status := Done, sessionOwned := false))
    else if i == failAt then Fail(s)
    else HandOver(HandOne(s, i), i + 1, failAt)
  }

  /** Connection `i`'s descriptor becomes the session's. */
  function HandOne(s: State, i: nat): (r: State)
    requires i < |s.conns| && s.conns[i].fd.Some?
  {
    s.(sessionFds := s.sessionFds + [s.conns[i].fd.value], conns := s.conns[i := s.conns[i].(fd := None)])
  }

  function Assemble(s: State, initFails: bool, failAt: nat): (r: State)
    requires forall j :: 0 <= j < |s.conns| ==> s.conns[j].fd.Some?
    ensures r.n == s.n && r.maxAttempts == s.maxAttempts
  {
    if s.conns == [] || !KeysAgree(s.conns) then Fail(s)
    else if initFails then Fail(s)
    else HandOver(s.(sessionOwned := true, sessionKey := s.conns[0].key, sessions := s.sessions + 1), 0, failAt)
  }

  // ---------- events ----------

  datatype DialOutcome = DialFailed | InitFails | StartFails | Shaking

  datatype Event =
    | Start(timerFails: bool)
    | Kickoff(draws: seq<Draw>)
    | Retry(i: nat, draw: Draw)
    | DialDone(i: nat, outcome: DialOutcome, timerFails: bool)
    | HandshakeDone(i: nat, key: Option<Key>, timerFails: bool, initFails: bool, failAt: nat)
    | Destroy

  /** A dial or handshake calls back only while it is active, a timer only while it is pending. */
  ghost predicate Enabled(s: State, ev: Event)
  {
    match ev
    case Start(_) => !s.destroyed
    case Kickoff(draws) =>
      s.kickoff && |draws| == |s.conns| && (forall i :: 0 <= i < |draws| ==> FreshDraw(s, draws[i])) &&
      (forall i, j :: 0 <= i < j < |draws| && draws[i].fd.Some? ==> draws[j].fd != draws[i].fd)
    case Retry(i, d) => i < |s.conns| && s.conns[i].retry && FreshDraw(s, d)
    case DialDone(i, _, _) => i < |s.conns| && s.conns[i].dial.Some?
    case HandshakeDone(i, _, _, _, _) => i < |s.conns| && s.conns[i].hs
    case Destroy => !s.destroyed
  }

  predicate FreshDraw(s: State, d: Draw)
  {
    d.fd.Some? ==> d.fd.value !in s.dialled
  }

  function OnStart(s: State, timerFails: bool): (r: State)
    ensures r.n == s.n && r.maxAttempts == s.maxAttempts
  {
    if s.status != Pending || s.started then s
    else if timerFails then s.(status := Failed, notified := true)
    else s.(kickoff := true, started := true)
  }

  function OnKickoff(s: State, draws: seq<Draw>): (r: State)
    requires |draws| == |s.conns|
    ensures r.n == s.n && r.maxAttempts == s.maxAttempts
  {
    Finish(KickFrom(s.(kickoff := false), 0, draws))
  }

  function OnRetry(s: State, i: nat, d: Draw): (r: State)
    requires i < |s.conns|
    ensures r.n == s.n && r.maxAttempts == s.maxAttempts
  {
    var t := Put(s, i, s.conns[i].(retry := false), multiset{}, None);
    Finish(if t.status == Pending then StartAttempt(t, i, d) else t)
  }

  function CloseFd(s: State, i: nat): (r: State)
    requires i < |s.conns|
    ensures |r.conns| == |s.conns|
    ensures r.n == s.n && r.maxAttempts == s.maxAttempts
  {
    Put(s, i, s.conns[i].(fd := None), Some1(s.conns[i].fd), None)
  }

  function OnDialDone(s: State, i: nat, outcome: DialOutcome, timerFails: bool): (r: State)
    requires i < |s.conns| && s.conns[i].dial.Some?
    ensures r.n == s.n && r.maxAttempts == s.maxAttempts
  {
    var fd := s.conns[i].dial.value;
    var c := s.conns[i].(dial := None);
    if s.status != Pending then Put(s, i, c, multiset{fd}, None)
    else if outcome == DialFailed then Finish(RetryOrFail(Put(s, i, c, multiset{fd}, None), i, timerFails))
    else
      var t := Put(s, i, c.(fd := Some(fd)), multiset{}, None);
      if outcome == InitFails then Finish(Fail(CloseFd(t, i)))
      else if outcome == StartFails then Finish(RetryOrFail(CloseFd(t, i), i, timerFails))
      else Finish(Put(t, i, t.conns[i].(hs := true), multiset{}, None))
  }

  function OnHandshakeDone(s: State, i: nat, key: Option<Key>, timerFails: bool, initFails: bool, failAt: nat): (r: State)
    requires i < |s.conns| && !s.conns[i].done
    requires s.status == Pending && key.Some? && s.completed + 1 == s.n ==> forall j :: 0 <= j < |s.conns| ==> s.conns[j].fd.Some?
    ensures r.n == s.n && r.maxAttempts == s.maxAttempts
  {
    var c := s.conns[i].(hs := false);
    if s.status != Pending then Put(s, i, ReleaseConn(c), HeldOne(c), None)
    else if key.Some? then
      var u := Put(s, i, c.(key := key, done := true), multiset{}, None);
      Finish(if u.completed == u.n then Assemble(u, initFails, failAt) else u)
    else Finish(RetryOrFail(CloseFd(Put(s, i, c, multiset{}, None), i), i, timerFails))
  }

  function OnDestroy(s: State): (r: State)
    ensures r.n == s.n && r.maxAttempts == s.maxAttempts
  {
    DropSession(ReleaseAll(s)).(conns := [], notified := true, destroyed := true,
                                status := if s.status == Pending then Failed else s.status)
  }

  // ---------- the invariant ----------

  function Dones(conns: seq<Conn>): (k: nat)
    ensures k <= |conns|
  {
    if conns == [] then 0 else (if conns[0].done then 1 else 0) + Dones(conns[1..])
  }

  function Attempts(conns: seq<Conn>): (k: nat)
  {
    if conns == [] then 0 else conns[0].attempts + Attempts(conns[1..])
  }

  /** Every descriptor ever dialled is in exactly one place: a dial, a connection, the session, or closed, once. */
  ghost predicate Owns(s: State)
  {
    Held(s.conns) + multiset(s.sessionFds) + s.closed == multiset(s.dialled)
  }

  /** What holds even in the middle of a callback. */
  ghost predicate Basic(s: State)
  {
    && s.n >= 1 && s.maxAttempts >= 1 && |s.conns| == s.n && !s.destroyed
    && (forall i :: 0 <= i < s.n ==> s.conns[i].attempts <= s.maxAttempts && (s.conns[i].done ==> s.conns[i].key.Some?))
    && Owns(s)
    && s.completed == Dones(s.conns) && s.dials == Attempts(s.conns)
    && s.sessions <= 1
  }

  predicate Quiet(c: Conn)
  {
    c.fd.None? && c.dial.None? && !c.hs && !c.retry
  }

  /** A connection is in one mode at a time. */
  predicate OneMode(c: Conn, maxAttempts: nat)
  {
    && (c.dial.Some? ==> c.fd.None? && !c.hs && !c.retry && !c.done)
    && (c.fd.Some? <==> c.hs || c.done)
    && (c.hs ==> !c.done && !c.retry)
    && (c.retry ==> c.attempts < maxAttempts && !c.done)
  }

  /** Some callback is still to come for it, or it is done. */
  predicate Busy(c: Conn)
  {
    c.dial.Some? || c.hs || c.retry || c.done
  }

  predicate Kicked(s: State)
  {
    s.started && !s.kickoff
  }

  ghost predicate Modes(s: State)
    requires |s.conns| == s.n
  {
    if s.status != Pending then !s.kickoff && forall i :: 0 <= i < s.n ==> Quiet(s.conns[i])
    else
      && s.completed < s.n && (s.kickoff ==> s.started)
      && (forall i :: 0 <= i < s.n ==> OneMode(s.conns[i], s.maxAttempts))
      && (forall i :: 0 <= i < s.n ==> if Kicked(s) then Busy(s.conns[i]) else s.conns[i] == IDLE)
  }

  ghost predicate SessionInv(s: State)
    requires |s.conns| == s.n
  {
    && !s.sessionOwned
    && (s.status != Done ==> s.sessionFds == [])
    && (s.status == Pending ==> s.sessions == 0)
    && (s.status == Done ==>
          s.sessions == 1 && |s.sessionFds| == s.n && s.sessionKey.Some? &&
          forall i :: 0 <= i < s.n ==> s.conns[i].key == s.sessionKey)
  }

  ghost predicate NoticeInv(s: State)
  {
    if s.status == Pending then !s.notified && s.notices == 0
    else s.notified && s.notices == (if s.started then 1 else 0)
  }

  /** After destruction nothing is left that could call back, and every descriptor was handed over or closed. */
  ghost predicate Gone(s: State)
  {
    && s.conns == [] && !s.kickoff && !s.sessionOwned && s.notified && s.notices <= 1 && s.status != Pending
    && s.sessions <= 1 && s.dials <= s.n * s.maxAttempts
    && (s.status == Done ==> s.sessions == 1 && |s.sessionFds| == s.n)
    && (s.status != Done ==> s.sessionFds == [])
    && Owns(s)
  }

  ghost predicate Inv(s: State)
  {
    if s.destroyed then Gone(s) else Basic(s) && Modes(s) && SessionInv(s) && NoticeInv(s)
  }

  // ---------- sums over connections ----------

  lemma Shift(h: multiset<nat>, a: multiset<nat>, b: multiset<nat>, c: multiset<nat>, d: multiset<nat>)
    requires a + b == c + d
    ensures h + a + b == h + c + d
  {
    assert h + a + b == h + (a + b) && h + c + d == h + (c + d);
  }

  lemma Swap(a: multiset<nat>, b: multiset<nat>, c: multiset<nat>)
    ensures a + b + c == c + b + a
  {
  }

  lemma {:induction false} SumsUpdate(conns: seq<Conn>, i: nat, c: Conn)
    requires i < |conns|
    ensures Held(conns[i := c]) + HeldOne(conns[i]) == Held(conns) + HeldOne(c)
    ensures Dones(conns[i := c]) + (if conns[i].done then 1 else 0) == Dones(conns) + (if c.done then 1 else 0)
    ensures Attempts(conns[i := c]) + conns[i].attempts == Attempts(conns) + c.attempts
  {
    hide HeldOne;
    if i > 0 {
      SumsUpdate(conns[1..], i - 1, c);
      assert conns[i := c][1..] == conns[1..][i - 1 := c];
      Shift(HeldOne(conns[0]), Held(conns[1..][i - 1 := c]), HeldOne(conns[i]), Held(conns[1..]), HeldOne(c));
    } else {
      assert conns[i := c][1..] == conns[1..];
      Swap(HeldOne(c), Held(conns[1..]), HeldOne(conns[0]));
    }
  }

  lemma {:induction false} SumsRelease(conns: seq<Conn>)
    ensures Held(ReleaseConns(conns)) == multiset{}
    ensures Dones(ReleaseConns(conns)) == Dones(conns) && Attempts(ReleaseConns(conns)) == Attempts(conns)
  {
    if conns != [] {
      SumsRelease(conns[1..]);
      assert ReleaseConns(conns)[1..] == ReleaseConns(conns[1..]);
    }
  }

  lemma {:induction false} AttemptsBound(conns: seq<Conn>, k: nat)
    requires forall i :: 0 <= i < |conns| ==> conns[i].attempts <= k
    ensures Attempts(conns) <= |conns| * k
  {
    if conns != [] {
      AttemptsBound(conns[1..], k);
    }
  }

  lemma {:induction false} AllDone(conns: seq<Conn>)
    requires Dones(conns) == |conns|
    ensures forall i :: 0 <= i < |conns| ==> conns[i].done
  {
    if conns != [] {
      AllDone(conns[1..]);
      assert forall i :: 0 < i < |conns| ==> conns[i] == conns[1..][i - 1];
    }
  }

  // ---------- failing ----------

  lemma ReleaseBasic(s: State)
    requires Basic(s)
    ensures Basic(ReleaseAll(s)) && forall i :: 0 <= i < s.n ==> Quiet(ReleaseAll(s).conns[i])
  {
    SumsRelease(s.conns);
    hide Held;
    hide Dones;
    hide Attempts;
  }

  /** fail() leaves nothing open: what was in a dial, in a connection or in the session is closed. */
  lemma FailKeeps(s: State)
    requires Basic(s) && s.status == Pending && (!s.sessionOwned ==> s.sessionFds == [])
    ensures var r := Fail(s);
            Basic(r) && Modes(r) && r.status == Failed && r.sessionFds == [] && !r.sessionOwned &&
            r.notified == s.notified && r.notices == s.notices && r.started == s.started
  {
    var t := s.(status := Failed);
    hide Basic;
    StatusBasic(s, t);
    ReleaseBasic(t);
    DropKeeps(ReleaseAll(t));
    SizeOf(Fail(s));
  }

  lemma SizeOf(s: State)
    requires Basic(s)
    ensures |s.conns| == s.n
  {
  }

  lemma StatusBasic(s: State, t: State)
    requires Basic(s)
    requires t == s.(status := t.status, kickoff := t.kickoff, notified := t.notified, notices := t.notices,
                     started := t.started, sessionOwned := t.sessionOwned, sessionKey := t.sessionKey)
    ensures Basic(t)
  {
    hide Held;
    hide Dones;
    hide Attempts;
  }

  /** Destroying the session closes what it owns. */
  lemma DropKeeps(s: State)
    requires Basic(s) && (!s.sessionOwned ==> s.sessionFds == [])
    ensures var r := DropSession(s);
            Basic(r) && r.sessionFds == [] && !r.sessionOwned && r == s.(sessionOwned := false, sessionFds := [], closed := r.closed)
  {
    hide Held;
    hide Dones;
    hide Attempts;
    var r := DropSession(s);
    assert multiset(r.sessionFds) == multiset{};
    Swap(Held(s.conns), multiset(s.sessionFds), s.closed);
    assert Owns(r);
  }

  // ---------- one callback at a time ----------

  /** In a callback of a pending connector, before connection `i` is decided; from `k` on none has been started. */
  ghost predicate Mid(s: State, i: nat, k: nat)
  {
    && Basic(s) && s.status == Pending && Kicked(s) && !s.sessionOwned && s.sessionFds == [] && s.sessions == 0
    && !s.notified && s.notices == 0 && s.completed < s.n && i < k <= s.n
    && (forall j :: 0 <= j < k && j != i ==> OneMode(s.conns[j], s.maxAttempts) && Busy(s.conns[j]))
    && (forall j :: k <= j < s.n ==> s.conns[j] == IDLE)
  }

  /** Once connection `i` is decided, and before finish(). */
  ghost predicate After(s: State, k: nat)
  {
    && Basic(s) && SessionInv(s) && !s.notified && s.notices == 0 && s.started && k <= s.n
    && (s.status != Pending ==> Modes(s))
    && (s.status == Pending ==>
          && Kicked(s) && s.completed < s.n
          && (forall j :: 0 <= j < k ==> OneMode(s.conns[j], s.maxAttempts) && Busy(s.conns[j]))
          && (forall j :: k <= j < s.n ==> s.conns[j] == IDLE))
  }

  lemma FinishInv(s: State)
    requires After(s, s.n)
    ensures Inv(Finish(s))
  {
    hide Held;
    hide Dones;
    hide Attempts;
    hide Quiet;
    hide OneMode;
    StatusBasic(s, Finish(s));
  }

  lemma FailAfter(s: State, i: nat, k: nat)
    requires Mid(s, i, k)
    ensures After(Fail(s), k)
  {
    hide Basic;
    hide Modes;
    FailKeeps(s);
    SizeOf(Fail(s));
  }

  lemma SettleAfter(s: State, i: nat, k: nat)
    requires Mid(s, i, k) && OneMode(s.conns[i], s.maxAttempts) && Busy(s.conns[i])
    ensures After(s, k)
  {
    hide Held;
    hide Dones;
    hide Attempts;
    hide Owns;
  }

  /** The descriptors `i` held or just got are those it holds now and those just closed. */
  ghost predicate Balanced(s: State, i: nat, c: Conn, gone: multiset<nat>, got: Option<nat>)
    requires i < |s.conns|
  {
    && HeldOne(c) + gone == HeldOne(s.conns[i]) + Some1(got)
    && (got.Some? ==> got.value !in s.dialled)
    && s.conns[i].attempts <= c.attempts <= s.maxAttempts
    && (s.conns[i].done ==> c.done) && (c.done ==> c.key.Some?)
  }

  lemma Move(h: multiset<nat>, h': multiset<nat>, a: multiset<nat>, b: multiset<nat>, gone: multiset<nat>, got: multiset<nat>,
             f: multiset<nat>, z: multiset<nat>, d: multiset<nat>)
    requires h' + a == h + b && b + gone == a + got && h + f + z == d
    ensures h' + f + (z + gone) == d + got
  {
    forall x: nat
      ensures (h' + f + (z + gone))[x] == (d + got)[x]
    {
      assert (h' + a)[x] == (h + b)[x] && (b + gone)[x] == (a + got)[x] && (h + f + z)[x] == d[x];
    }
  }

  lemma PutOwns(s: State, i: nat, c: Conn, gone: multiset<nat>, got: Option<nat>)
    requires i < |s.conns| && Owns(s) && Balanced(s, i, c, gone, got)
    ensures Owns(Put(s, i, c, gone, got))
  {
    SumsUpdate(s.conns, i, c);
    hide Held;
    hide HeldOne;
    hide Some1;
    Move(Held(s.conns), Held(s.conns[i := c]), HeldOne(s.conns[i]), HeldOne(c), gone, Some1(got),
         multiset(s.sessionFds), s.closed, multiset(s.dialled));
    Fresh1(s.dialled, got);
  }

  lemma Fresh1(dialled: set<nat>, got: Option<nat>)
    requires got.Some? ==> got.value !in dialled
    ensures multiset(dialled) + Some1(got) == multiset(if got.Some? then dialled + {got.value} else dialled)
  {
  }

  lemma PutBasic(s: State, i: nat, c: Conn, gone: multiset<nat>, got: Option<nat>)
    requires Basic(s) && i < s.n && Balanced(s, i, c, gone, got)
    ensures Basic(Put(s, i, c, gone, got))
  {
    hide Owns;
    hide HeldOne;
    PutOwns(s, i, c, gone, got);
    SumsUpdate(s.conns, i, c);
    hide Held;
    hide Dones;
    hide Attempts;
  }

  lemma PutMid(s: State, i: nat, k: nat, c: Conn, gone: multiset<nat>, got: Option<nat>)
    requires Mid(s, i, k) && Balanced(s, i, c, gone, got) && (c.done && !s.conns[i].done ==> s.completed + 1 < s.n)
    ensures Mid(Put(s, i, c, gone, got), i, k)
  {
    SizeOf(s);
    hide Basic;
    hide OneMode;
    hide Busy;
    PutBasic(s, i, c, gone, got);
    hide Balanced;
  }

  lemma MidFacts(s: State, i: nat, k: nat)
    requires Mid(s, i, k)
    ensures |s.conns| == s.n && i < s.n && s.conns[i].attempts <= s.maxAttempts && s.status == Pending
    ensures s.conns[i].done ==> s.conns[i].key.Some?
  {
  }

  lemma RetryAfter(s: State, i: nat, k: nat, timerFails: bool)
    requires Mid(s, i, k) && i < |s.conns| && Quiet(s.conns[i]) && !s.conns[i].done
    ensures After(RetryOrFail(s, i, timerFails), k)
  {
    hide Mid;
    hide After;
    MidFacts(s, i, k);
    if s.conns[i].attempts >= s.maxAttempts || timerFails {
      FailAfter(s, i, k);
    } else {
      var c := s.conns[i].(retry := true);
      PutMid(s, i, k, c, multiset{}, None);
      SettleAfter(Put(s, i, c, multiset{}, None), i, k);
    }
  }

  /** An attempt of connection `i`, which holds nothing and may try once more. */
  lemma AttemptAfter(s: State, i: nat, k: nat, d: Draw)
    requires Mid(s, i, k) && i < |s.conns| && Quiet(s.conns[i]) && !s.conns[i].done
    requires s.conns[i].attempts < s.maxAttempts && FreshDraw(s, d)
    ensures After(StartAttempt(s, i, d), k)
  {
    hide Mid;
    hide After;
    hide RetryOrFail;
    MidFacts(s, i, k);
    var c := s.conns[i].(attempts := s.conns[i].attempts + 1);
    if d.fd.None? {
      PutMid(s, i, k, c, multiset{}, None);
      RetryAfter(Put(s, i, c, multiset{}, None), i, k, d.timerFails);
    } else {
      DialAfter(s, i, k, d.fd.value);
    }
  }

  lemma DialAfter(s: State, i: nat, k: nat, fd: nat)
    requires Mid(s, i, k) && i < |s.conns| && Quiet(s.conns[i]) && !s.conns[i].done
    requires s.conns[i].attempts < s.maxAttempts && fd !in s.dialled
    ensures After(Put(s, i, s.conns[i].(attempts := s.conns[i].attempts + 1, dial := Some(fd)), multiset{}, Some(fd)), k)
  {
    hide Mid;
    hide After;
    MidFacts(s, i, k);
    var e := s.conns[i].(attempts := s.conns[i].attempts + 1, dial := Some(fd));
    PutMid(s, i, k, e, multiset{}, Some(fd));
    SettleAfter(Put(s, i, e, multiset{}, Some(fd)), i, k);
  }

  // ---------- kickoff ----------

  ghost predicate DrawsFit(s: State, draws: seq<Draw>, i: nat)
  {
    && (forall j :: i <= j < |draws| ==> FreshDraw(s, draws[j]))
    && (forall j, m :: i <= j < m < |draws| && draws[j].fd.Some? ==> draws[m].fd != draws[j].fd)
  }

  lemma {:induction false} KickKeeps(s: State, i: nat, draws: seq<Draw>)
    requires After(s, i) && |draws| == |s.conns| == s.n && DrawsFit(s, draws, i)
    ensures After(KickFrom(s, i, draws), s.n)
    decreases s.n - i
  {
    if s.status != Pending {
      QuietAfter(s, i);
    } else if i < s.n {
      NextMid(s, i);
      var t := StartAttempt(s, i, draws[i]);
      AttemptAfter(s, i, i + 1, draws[i]);
      DrawsStep(s, i, draws);
      hide StartAttempt;
      KickKeeps(t, i + 1, draws);
    }
  }

  lemma QuietAfter(s: State, i: nat)
    requires After(s, i) && s.status != Pending
    ensures After(s, s.n)
  {
  }

  lemma NextMid(s: State, i: nat)
    requires After(s, i) && s.status == Pending && i < s.n
    ensures Mid(s, i, i + 1) && |s.conns| == s.n && s.conns[i] == IDLE && s.maxAttempts >= 1
  {
  }

  lemma DrawsStep(s: State, i: nat, draws: seq<Draw>)
    requires i < |s.conns| == |draws| && DrawsFit(s, draws, i)
    ensures DrawsFit(StartAttempt(s, i, draws[i]), draws, i + 1) && StartAttempt(s, i, draws[i]).n == s.n
  {
    var t := StartAttempt(s, i, draws[i]);
    assert t.dialled == if draws[i].fd.Some? then s.dialled + {draws[i].fd.value} else s.dialled;
    hide StartAttempt;
    forall j | i + 1 <= j < |draws|
      ensures FreshDraw(t, draws[j])
    {
      assert FreshDraw(s, draws[j]);
    }
  }

  // ---------- handing over ----------

  /** In the hand-over loop: the first `i` descriptors are the session's. */
  ghost predicate Handing(s: State, i: nat)
  {
    && Basic(s) && s.status == Pending && Kicked(s) && !s.notified && s.notices == 0
    && s.sessionOwned && s.sessions == 1 && s.sessionKey.Some? && |s.sessionFds| == i <= s.n
    && (forall j :: 0 <= j < s.n ==> s.conns[j].key == s.sessionKey)
    && (forall j :: i <= j < s.n ==> s.conns[j].fd.Some?)
  }

  lemma HandOneOwns(s: State, i: nat)
    requires i < |s.conns| && s.conns[i].fd.Some? && Owns(s)
    ensures Owns(HandOne(s, i))
    ensures Dones(HandOne(s, i).conns) == Dones(s.conns) && Attempts(HandOne(s, i).conns) == Attempts(s.conns)
  {
    var c, fd := s.conns[i].(fd := None), s.conns[i].fd.value;
    SumsUpdate(s.conns, i, c);
    var h, h', f := Held(s.conns), Held(s.conns[i := c]), multiset(s.sessionFds);
    assert HeldOne(s.conns[i]) == multiset{fd} + HeldOne(c);
    assert multiset(s.sessionFds + [fd]) == f + multiset{fd};
    hide Held;
    hide HeldOne;
    forall x: nat
      ensures (h' + (f + multiset{fd}) + s.closed)[x] == (h + f + s.closed)[x]
    {
      assert (h' + (multiset{fd} + HeldOne(c)))[x] == (h + HeldOne(c))[x];
    }
  }

  lemma HandOneKeeps(s: State, i: nat)
    requires Handing(s, i) && i < s.n
    ensures Handing(HandOne(s, i), i + 1)
  {
    hide Owns;
    hide Dones;
    hide Attempts;
    HandOneOwns(s, i);
  }

  lemma HandedAfter(s: State)
    requires Handing(s, s.n)
    ensures After(ReleaseAll(s.(status := Done, sessionOwned := false)), s.n)
  {
    var t := s.(status := Done, sessionOwned := false);
    StatusBasic(s, t);
    SizeOf(s);
    hide Basic;
    ReleaseBasic(t);
    SizeOf(ReleaseAll(t));
  }

  lemma HandFail(s: State, i: nat)
    requires Handing(s, i)
    ensures After(Fail(s), s.n)
  {
    hide Basic;
    hide Modes;
    FailKeeps(s);
    SizeOf(Fail(s));
  }

  lemma {:induction false} HandKeeps(s: State, i: nat, failAt: nat)
    requires Handing(s, i) && |s.conns| == s.n
    ensures After(HandOver(s, i, failAt), s.n)
    decreases s.n - i
  {
    if i == s.n {
      HandedAfter(s);
    } else if i == failAt {
      HandFail(s, i);
    } else {
      HandOneKeeps(s, i);
      hide Handing;
      hide After;
      HandKeeps(HandOne(s, i), i + 1, failAt);
    }
  }

  /** All N have shaken hands: done, under the one key, or failed with everything closed. */
  ghost predicate Ready(s: State)
  {
    && Basic(s) && s.status == Pending && Kicked(s) && !s.sessionOwned && s.sessionFds == [] && s.sessions == 0
    && !s.notified && s.notices == 0
    && forall j :: 0 <= j < s.n ==> s.conns[j].fd.Some? && s.conns[j].key.Some?
  }

  lemma AssembleAfter(s: State, initFails: bool, failAt: nat)
    requires Ready(s) && |s.conns| == s.n
    ensures After(Assemble(s, initFails, failAt), s.n)
  {
    hide Basic;
    hide Modes;
    hide After;
    hide HandOver;
    if s.conns != [] && KeysAgree(s.conns) && !initFails {
      var t := s.(sessionOwned := true, sessionKey := s.conns[0].key, sessions := s.sessions + 1);
      SessionsBasic(s, t);
      HandKeeps(t, 0, failAt);
    } else {
      FailReady(s);
    }
  }

  lemma FailReady(s: State)
    requires Ready(s) && |s.conns| == s.n
    ensures After(Fail(s), s.n)
  {
    hide Basic;
    hide Modes;
    FailKeeps(s);
    SizeOf(Fail(s));
  }

  lemma SessionsBasic(s: State, t: State)
    requires Basic(s) && s.sessions == 0 && t == s.(sessionOwned := t.sessionOwned, sessionKey := t.sessionKey, sessions := 1)
    ensures Basic(t)
  {
    hide Held;
    hide Dones;
    hide Attempts;
  }

  // ---------- the callbacks ----------

  /** Whatever connection has a callback pending, the connector is pending and running. */
  lemma Enter(s: State, i: nat)
    requires Inv(s) && i < |s.conns| && (s.conns[i].dial.Some? || s.conns[i].hs || s.conns[i].retry)
    ensures Mid(s, i, s.n) && OneMode(s.conns[i], s.maxAttempts)
  {
    hide Held;
    hide Dones;
    hide Attempts;
    hide Owns;
    assert !s.destroyed;
    assert !Quiet(s.conns[i]);
    assert s.conns[i] != IDLE;
  }

  lemma RetryKeeps(s: State, i: nat, d: Draw)
    requires Inv(s) && Enabled(s, Retry(i, d))
    ensures Inv(OnRetry(s, i, d))
  {
    Enter(s, i);
    hide Inv;
    hide Mid;
    hide After;
    MidFacts(s, i, s.n);
    var c := s.conns[i].(retry := false);
    PutMid(s, i, s.n, c, multiset{}, None);
    var t := Put(s, i, c, multiset{}, None);
    AttemptAfter(t, i, s.n, d);
    hide RetryOrFail;
    FinishInv(StartAttempt(t, i, d));
  }

  lemma DialKeeps(s: State, i: nat, outcome: DialOutcome, timerFails: bool)
    requires Inv(s) && i < |s.conns| && s.conns[i].dial.Some?
    ensures Inv(OnDialDone(s, i, outcome, timerFails))
  {
    hide Inv;
    hide Mid;
    hide OneMode;
    hide Finish;
    hide Fail;
    hide RetryOrFail;
    hide CloseFd;
    hide Put;
    Enter(s, i);
    MidFacts(s, i, s.n);
    var fd := s.conns[i].dial.value;
    var c := s.conns[i].(dial := None);
    if outcome == DialFailed {
      DialFailedKeeps(s, i, fd, c, timerFails);
    } else {
      DialGotKeeps(s, i, fd, c, timerFails);
    }
  }

  lemma DialFailedKeeps(s: State, i: nat, fd: nat, c: Conn, timerFails: bool)
    requires Mid(s, i, s.n) && i < |s.conns| && OneMode(s.conns[i], s.maxAttempts) && s.conns[i].dial == Some(fd)
    requires c == s.conns[i].(dial := None)
    ensures Inv(Finish(RetryOrFail(Put(s, i, c, multiset{fd}, None), i, timerFails)))
  {
    hide Mid;
    hide After;
    hide Inv;
    MidFacts(s, i, s.n);
    PutMid(s, i, s.n, c, multiset{fd}, None);
    var t := Put(s, i, c, multiset{fd}, None);
    RetryAfter(t, i, s.n, timerFails);
    hide RetryOrFail;
    FinishInv(RetryOrFail(t, i, timerFails));
  }

  lemma DialGotKeeps(s: State, i: nat, fd: nat, c: Conn, timerFails: bool)
    requires Mid(s, i, s.n) && i < |s.conns| && OneMode(s.conns[i], s.maxAttempts) && s.conns[i].dial == Some(fd)
    requires c == s.conns[i].(dial := None)
    ensures var t := Put(s, i, c.(fd := Some(fd)), multiset{}, None);
            Inv(Finish(Fail(CloseFd(t, i)))) && Inv(Finish(RetryOrFail(CloseFd(t, i), i, timerFails))) &&
            Inv(Finish(Put(t, i, t.conns[i].(hs := true), multiset{}, None)))
  {
    hide Mid;
    hide After;
    hide Inv;
    MidFacts(s, i, s.n);
    PutMid(s, i, s.n, c.(fd := Some(fd)), multiset{}, None);
    var t := Put(s, i, c.(fd := Some(fd)), multiset{}, None);
    CloseKeeps(t, i, timerFails);
    ShakeKeeps(t, i);
  }

  lemma CloseKeeps(t: State, i: nat, timerFails: bool)
    requires Mid(t, i, t.n) && i < |t.conns| && t.conns[i].fd.Some? && Quiet(t.conns[i].(fd := None)) && !t.conns[i].done
    ensures Inv(Finish(Fail(CloseFd(t, i)))) && Inv(Finish(RetryOrFail(CloseFd(t, i), i, timerFails)))
  {
    hide Mid;
    hide After;
    hide Inv;
    MidFacts(t, i, t.n);
    PutMid(t, i, t.n, t.conns[i].(fd := None), Some1(t.conns[i].fd), None);
    var u := CloseFd(t, i);
    FailAfter(u, i, t.n);
    RetryAfter(u, i, t.n, timerFails);
    hide RetryOrFail;
    hide Fail;
    FinishInv(Fail(u));
    FinishInv(RetryOrFail(u, i, timerFails));
  }

  lemma ShakeKeeps(t: State, i: nat)
    requires Mid(t, i, t.n) && i < |t.conns| && t.conns[i].fd.Some? && Quiet(t.conns[i].(fd := None)) && !t.conns[i].done
    ensures Inv(Finish(Put(t, i, t.conns[i].(hs := true), multiset{}, None)))
  {
    hide Mid;
    hide After;
    hide Inv;
    MidFacts(t, i, t.n);
    var c := t.conns[i].(hs := true);
    PutMid(t, i, t.n, c, multiset{}, None);
    SettleAfter(Put(t, i, c, multiset{}, None), i, t.n);
    FinishInv(Put(t, i, c, multiset{}, None));
  }

  /** The last handshake finds every other connection done. */
  lemma LastReady(s: State, i: nat, key: Key)
    requires Mid(s, i, s.n) && i < |s.conns| && s.conns[i].hs && OneMode(s.conns[i], s.maxAttempts) && s.completed + 1 == s.n
    ensures forall j :: 0 <= j < s.n ==> s.conns[j].fd.Some?
    ensures Ready(Put(s, i, s.conns[i].(hs := false, key := Some(key), done := true), multiset{}, None))
  {
    var c := s.conns[i].(hs := false, key := Some(key), done := true);
    var u := Put(s, i, c, multiset{}, None);
    assert Balanced(s, i, c, multiset{}, None);
    PutBasic(s, i, c, multiset{}, None);
    AllDone(u.conns);
    hide Held;
    hide Dones;
    hide Attempts;
    hide Owns;
    assert forall j :: 0 <= j < s.n && j != i ==> u.conns[j] == s.conns[j];
  }

  lemma HandshakeKeeps(s: State, i: nat, key: Option<Key>, timerFails: bool, initFails: bool, failAt: nat)
    requires Inv(s) && i < |s.conns| && s.conns[i].hs
    ensures !s.conns[i].done
    ensures s.status == Pending && key.Some? && s.completed + 1 == s.n ==> forall j :: 0 <= j < |s.conns| ==> s.conns[j].fd.Some?
    ensures Inv(OnHandshakeDone(s, i, key, timerFails, initFails, failAt))
  {
    Enter(s, i);
    hide Inv;
    hide Mid;
    hide After;
    hide Assemble;
    MidFacts(s, i, s.n);
    if key.Some? && s.completed + 1 == s.n {
      LastKeeps(s, i, key.value, initFails, failAt);
    } else if key.Some? {
      NotLastKeeps(s, i, key.value);
    } else {
      var c := s.conns[i].(hs := false);
      PutMid(s, i, s.n, c, multiset{}, None);
      CloseKeeps(Put(s, i, c, multiset{}, None), i, timerFails);
    }
  }

  lemma LastKeeps(s: State, i: nat, key: Key, initFails: bool, failAt: nat)
    requires Mid(s, i, s.n) && i < |s.conns| && s.conns[i].hs && OneMode(s.conns[i], s.maxAttempts) && s.completed + 1 == s.n
    ensures |s.conns| == s.n && forall j :: 0 <= j < s.n ==> s.conns[j].fd.Some?
    ensures var u := Put(s, i, s.conns[i].(hs := false, key := Some(key), done := true), multiset{}, None);
            (forall j :: 0 <= j < |u.conns| ==> u.conns[j].fd.Some?) && Inv(Finish(Assemble(u, initFails, failAt)))
  {
    hide Mid;
    hide Inv;
    hide After;
    MidFacts(s, i, s.n);
    LastReady(s, i, key);
    var u := Put(s, i, s.conns[i].(hs := false, key := Some(key), done := true), multiset{}, None);
    AssembleAfter(u, initFails, failAt);
    hide Assemble;
    FinishInv(Assemble(u, initFails, failAt));
  }

  lemma NotLastKeeps(s: State, i: nat, key: Key)
    requires Mid(s, i, s.n) && i < |s.conns| && s.conns[i].hs && OneMode(s.conns[i], s.maxAttempts) && s.completed + 1 != s.n
    ensures var u := Put(s, i, s.conns[i].(hs := false, key := Some(key), done := true), multiset{}, None);
            u.completed != u.n && Inv(Finish(u))
  {
    assert s.completed + 1 < s.n;
    hide Mid;
    hide Inv;
    hide After;
    MidFacts(s, i, s.n);
    var c := s.conns[i].(hs := false, key := Some(key), done := true);
    PutMid(s, i, s.n, c, multiset{}, None);
    SettleAfter(Put(s, i, c, multiset{}, None), i, s.n);
    FinishInv(Put(s, i, c, multiset{}, None));
  }

  lemma KickoffKeeps(s: State, draws: seq<Draw>)
    requires Inv(s) && Enabled(s, Kickoff(draws))
    ensures Inv(OnKickoff(s, draws))
  {
    var t := s.(kickoff := false);
    assert !s.destroyed && s.status == Pending;
    StatusBasic(s, t);
    hide Held;
    hide Dones;
    hide Attempts;
    hide Owns;
    assert After(t, 0);
    assert DrawsFit(t, draws, 0);
    hide Inv;
    hide After;
    hide Basic;
    KickKeeps(t, 0, draws);
    hide KickFrom;
    FinishInv(KickFrom(t, 0, draws));
  }

  lemma StartKeeps(s: State, timerFails: bool)
    requires Inv(s) && !s.destroyed
    ensures Inv(OnStart(s, timerFails))
  {
    StatusBasic(s, OnStart(s, timerFails));
    hide Basic;
  }

  /** Destruction closes what is still owned; a session already handed over keeps its own. */
  lemma DestroyKeeps(s: State)
    requires Inv(s) && !s.destroyed
    ensures Inv(OnDestroy(s))
  {
    ReleaseBasic(s);
    var t := ReleaseAll(s);
    SumsRelease(s.conns);
    AttemptsBound(s.conns, s.maxAttempts);
    hide Attempts;
    hide Dones;
    var r := OnDestroy(s);
    assert Held(r.conns) == multiset{};
    hide Held;
    assert r.dials <= r.n * r.maxAttempts;
    assert Owns(t) && r.closed == t.closed && r.sessionFds == t.sessionFds && r.dialled == t.dialled;
    assert Owns(r);
  }

  // ---------- every step, every run ----------

  ghost function Step(s: State, ev: Event): (r: State)
    requires Inv(s) && Enabled(s, ev)
    ensures Inv(r)
  {
    hide Inv;
    hide Enabled;
    match ev
    case Start(tf) => StartEnabled(s, ev); StartKeeps(s, tf); OnStart(s, tf)
    case Kickoff(draws) => KickoffEnabled(s, draws); KickoffKeeps(s, draws); OnKickoff(s, draws)
    case Retry(i, d) => RetryEnabled(s, i, d); RetryKeeps(s, i, d); OnRetry(s, i, d)
    case DialDone(i, o, tf) => DialEnabled(s, i, o, tf); DialKeeps(s, i, o, tf); OnDialDone(s, i, o, tf)
    case HandshakeDone(i, key, tf, initFails, failAt) =>
      HandshakeEnabled(s, ev);
      HandshakeKeeps(s, i, key, tf, initFails, failAt);
      OnHandshakeDone(s, i, key, tf, initFails, failAt)
    case Destroy => StartEnabled(s, ev); DestroyKeeps(s); OnDestroy(s)
  }

  lemma StartEnabled(s: State, ev: Event)
    requires Enabled(s, ev) && (ev.Start? || ev.Destroy?)
    ensures !s.destroyed
  {
  }

  lemma KickoffEnabled(s: State, draws: seq<Draw>)
    requires Enabled(s, Kickoff(draws))
    ensures |draws| == |s.conns|
  {
  }

  lemma RetryEnabled(s: State, i: nat, d: Draw)
    requires Enabled(s, Retry(i, d))
    ensures i < |s.conns|
  {
  }

  lemma DialEnabled(s: State, i: nat, o: DialOutcome, tf: bool)
    requires Enabled(s, DialDone(i, o, tf))
    ensures i < |s.conns| && s.conns[i].dial.Some?
  {
  }

  lemma HandshakeEnabled(s: State, ev: Event)
    requires Enabled(s, ev) && ev.HandshakeDone?
    ensures ev.i < |s.conns| && s.conns[ev.i].hs
  {
  }

  ghost predicate Possible(s: State, evs: seq<Event>)
    requires Inv(s)
    decreases |evs|
  {
    evs == [] || (Enabled(s, evs[0]) && Possible(Step(s, evs[0]), evs[1..]))
  }

  ghost function Run(s: State, evs: seq<Event>): (r: State)
    requires Inv(s) && Possible(s, evs)
    ensures Inv(r)
    decreases |evs|
  {
    if evs == [] then s else Run(Step(s, evs[0]), evs[1..])
  }

  lemma {:induction false} IdleSums(n: nat)
    ensures var c := seq(n, _ => IDLE); Held(c) == multiset{} && Dones(c) == 0 && Attempts(c) == 0
  {
    if n > 0 {
      IdleSums(n - 1);
      assert seq(n, _ => IDLE)[1..] == seq(n - 1, _ => IDLE);
    }
  }

  // ---------- what that means ----------

  lemma {:induction false} HeldQuiet(conns: seq<Conn>)
    requires forall i :: 0 <= i < |conns| ==> Quiet(conns[i])
    ensures Held(conns) == multiset{}
  {
    if conns != [] {
      HeldQuiet(conns[1..]);
    }
  }

  ghost predicate Has(c: Conn, fd: nat)
  {
    c.fd == Some(fd) || c.dial == Some(fd)
  }

  /** What `Held` counts: the dials and connections that have the descriptor, both ways. */
  lemma {:induction false} HolderIsCounted(conns: seq<Conn>, fd: nat, i: nat)
    requires i < |conns| && Has(conns[i], fd)
    ensures fd in Held(conns)
  {
    if i > 0 {
      HolderIsCounted(conns[1..], fd, i - 1);
    }
  }

  lemma {:induction false} CountedHasHolder(conns: seq<Conn>, fd: nat) returns (i: nat)
    requires fd in Held(conns)
    ensures i < |conns| && Has(conns[i], fd)
  {
    if Has(conns[0], fd) {
      i := 0;
    } else {
      i := CountedHasHolder(conns[1..], fd);
      i := i + 1;
    }
  }

  /** On every run, every descriptor ever dialled is in exactly one place, and so is closed at most once; nothing else is
      ever closed. */
  lemma EachDescriptorOnce(n: nat, maxAttempts: nat, evs: seq<Event>, fd: nat)
    requires n >= 1 && maxAttempts >= 1 && Possible(Init(n, maxAttempts), evs)
    ensures var s := Run(Init(n, maxAttempts), evs);
            Held(s.conns)[fd] + multiset(s.sessionFds)[fd] + s.closed[fd] == (if fd in s.dialled then 1 else 0)
  {
    hide Held;
    var s := Run(Init(n, maxAttempts), evs);
    assert Owns(s);
    assert (Held(s.conns) + multiset(s.sessionFds) + s.closed)[fd] == multiset(s.dialled)[fd];
  }

  /** DONE: one session was made, it owns N descriptors, all of which were dialled and none closed, every other descriptor
      is closed, and all N handshakes gave the session's key. */
  lemma DoneMeansHandedOver(s: State)
    requires Inv(s) && s.status == Done
    ensures s.sessions == 1 && |s.sessionFds| == s.n && Held(s.conns) == multiset{}
    ensures multiset(s.sessionFds) + s.closed == multiset(s.dialled)
    ensures !s.destroyed ==> forall i :: 0 <= i < s.n ==> s.sessionKey.Some? && s.conns[i].key == s.sessionKey
  {
    HeldQuiet(s.conns);
    hide Held;
  }

  /** FAILED, destroyed or not: nothing is left open. */
  lemma FailedMeansAllClosed(s: State)
    requires Inv(s) && s.status == Failed
    ensures s.closed == multiset(s.dialled) && Held(s.conns) == multiset{} && s.sessionFds == []
  {
    HeldQuiet(s.conns);
    hide Held;
    assert multiset(s.sessionFds) == multiset{};
  }

  /** A connector that was started and has ended has told its caller exactly once, unless it was destroyed first; dials
      are bounded; and a running one always has a callback pending for a connection that is not done. */
  lemma NoticesAndDials(s: State)
    requires Inv(s)
    ensures s.notices <= 1 && s.dials <= s.n * s.maxAttempts
    ensures !s.destroyed ==> (s.notices == 1 <==> s.started && s.status != Pending)
    ensures s.status == Pending && Kicked(s) ==>
              exists i :: 0 <= i < |s.conns| && !s.conns[i].done && (s.conns[i].dial.Some? || s.conns[i].hs || s.conns[i].retry)
  {
    if !s.destroyed {
      AttemptsBound(s.conns, s.maxAttempts);
      if s.status == Pending && Kicked(s) {
        SomeNotDone(s.conns);
        var i :| 0 <= i < |s.conns| && !s.conns[i].done;
        assert Busy(s.conns[i]);
      }
    }
  }

  lemma {:induction false} SomeNotDone(conns: seq<Conn>)
    requires Dones(conns) < |conns|
    ensures exists i :: 0 <= i < |conns| && !conns[i].done
  {
    if conns[0].done {
      SomeNotDone(conns[1..]);
      var i :| 0 <= i < |conns[1..]| && !conns[1..][i].done;
      assert conns[i + 1] == conns[1..][i];
    }
  }

  /** No late callback: once the connector has ended, no dial, handshake or timer of its own can still call in. */
  lemma EndedIsSilent(s: State, ev: Event)
    requires Inv(s) && s.status != Pending && Enabled(s, ev)
    ensures ev.Start? || ev.Destroy?
  {
    hide Held;
  }
}

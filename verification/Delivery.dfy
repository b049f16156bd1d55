/** What a stream's receiver accepts, exactly, and what follows: with room for them, all the frames of a sender, fed once each
    in any order and then read, give all the bytes written. */
module Delivery {
  import opened Bytes
  import opened Heap
  import opened Reassembly

  // ---------- how many frames are waiting ----------

  lemma {:induction false} DistinctCount(s: seq<Node<Body>>)
    requires forall i, j :: 0 <= i < j < |s| ==> s[i].key != s[j].key
    ensures |set x | x in s :: x.key| == |s|
  {
    if s != [] {
      DistinctCount(s[1..]);
      var rest := set x | x in s[1..] :: x.key;
      assert forall i :: 0 < i < |s| ==> s[i] == s[1..][i - 1];
      assert s[0].key !in rest;
      assert (set x | x in s :: x.key) == {s[0].key} + rest;
    }
  }

  /** The numbers below `n`. */
  function Below(n: nat): (s: set<nat>)
    ensures |s| == n && forall k: nat :: k in s <==> k < n
  {
    if n == 0 then {} else Below(n - 1) + {n - 1}
  }

  /** The pending heap holds the accepted frames that are not consumed, each once: its size follows from what was accepted. */
  lemma PendingCount(lim: Limits, h: History)
    requires Inv(lim, h)
    ensures |h.accepted| == |h.r.heap| + h.r.next + (if h.r.closed then 1 else 0)
  {
    var s := h.r.heap;
    forall i, j | 0 <= i < j < |s|
      ensures s[i].key != s[j].key
    {
      KeysDiffer(lim, h, i, j);
    }
    DistinctCount(s);
    PendingKeys(lim, h);
    var keys := set x | x in s :: x.key;
    var last := if h.r.closed then {h.r.next} else {};
    hide Inv;
    hide Below;
    assert |keys + Below(h.r.next) + last| == |keys| + h.r.next + |last|;
    assert |h.accepted| == |h.accepted.Keys|;
  }

  lemma PendingKeys(lim: Limits, h: History)
    requires Inv(lim, h)
    ensures var keys := set x | x in h.r.heap :: x.key; var last := if h.r.closed then {h.r.next} else {};
      && h.accepted.Keys == keys + Below(h.r.next) + last
      && keys !! Below(h.r.next) && keys !! last && Below(h.r.next) !! last
  {
    hide Below;
    hide Inv;
    var keys := set x | x in h.r.heap :: x.key;
    var last := if h.r.closed then {h.r.next} else {};
    forall k: nat
      ensures k in h.accepted <==> k in keys || k < h.r.next || k in last
      ensures k in keys ==> k >= h.r.next && k !in last
    {
      Placed(lim, h, k);
    }
  }

  /** One number: accepted exactly when consumed or waiting, and not both. */
  lemma Placed(lim: Limits, h: History, k: nat)
    requires Inv(lim, h)
    ensures k in h.accepted <==>
            (exists x :: x in h.r.heap && x.key == k) || k < h.r.next || (h.r.closed && k == h.r.next)
    ensures (exists x :: x in h.r.heap && x.key == k) ==> k >= h.r.next && !(h.r.closed && k == h.r.next)
  {
    hide Ordered;
    hide Joined;
    assert forall x :: x in h.r.heap <==> x in multiset(h.r.heap);
    if k in h.accepted {
      assert k < h.r.next || (h.r.closed && k == h.r.next) || Node(k, h.accepted[k]) in h.r.heap;
    }
  }

  // ---------- what is accepted ----------

  /** Whether the receiver has a use and a place for a frame: told from what it accepted so far, not from how it checks. */
  ghost predicate Takes(lim: Limits, h: History, f: Frame)
  {
    f.num !in h.accepted && !h.r.closed && |f.body.payload| <= lim.cap &&
    |h.accepted| - h.r.next < lim.maxPending
  }

  lemma TakesOrRefuses(lim: Limits, h: History, f: Frame)
    requires Inv(lim, h)
    ensures Takes(lim, h, f) <==> !Refused(lim, h.r, f)
  {
    PendingCount(lim, h);
    if !Refused(lim, h.r, f) {
      NumberIsNew(lim, h, f);
    } else {
      UsedNumbers(lim, h, f);
    }
  }

  lemma UsedNumbers(lim: Limits, h: History, f: Frame)
    requires Inv(lim, h)
    ensures f.num < h.r.next || Pending(h.r.heap, f.num) ==> f.num in h.accepted
  {
    hide Ordered;
    if Pending(h.r.heap, f.num) {
      var i :| 0 <= i < |h.r.heap| && h.r.heap[i].key == f.num;
      assert h.r.heap[i] in multiset(h.r.heap);
    }
  }

  lemma {:induction false} DrainCloses(cap: nat, r: Receiver)
    requires !r.closed
    ensures Drain(cap, r).1 <==> Drain(cap, r).0.closed
    decreases |r.heap|
  {
    if r.heap != [] && r.heap[0].key == r.next && r.heap[0].val.closing == CLOSING_NOTHING
       && cap - |r.queue| >= |r.heap[0].val.payload| {
      DrainCloses(cap, Receiver(RemoveAt(r.heap, 0), r.next + 1, Enqueued(r, r.heap[0].val.payload), r.closed));
    }
  }

  /** EXACTLY WHAT IS ACCEPTED. After every run, a frame is accepted if and only if its number is new, the stream has not
      closed, its payload could fit and a pending slot is free; any other changes nothing and is answered -1; and the answer
      is 1 exactly when this frame's arrival closed the stream. */
  lemma AcceptsExactly(lim: Limits, events: seq<Event>, f: Frame)
    ensures var h := Run(lim, START, events); var h' := Run(lim, START, events + [FeedEvent(f)]);
            var rc := Feed(lim, h.r, f).1;
      && (Takes(lim, h, f) ==> rc != -1 && h'.accepted == h.accepted[f.num := f.body])
      && (!Takes(lim, h, f) ==> rc == -1 && h' == h)
      && (rc == 1 <==> !h.r.closed && h'.r.closed)
  {
    var h := Run(lim, START, events);
    RunKeeps(lim, START, events);
    RunAppend(lim, START, events, FeedEvent(f));
    hide Run;
    TakesOrRefuses(lim, h, f);
    hide Inv;
    hide Takes;
    if !Refused(lim, h.r, f) {
      DrainCloses(lim.cap, h.r.(heap := Push(h.r.heap, Node(f.num, f.body))));
    }
  }

  // ---------- a sender's frames are all accepted ----------

  /** Nothing but a sender's frames was accepted, so at most one more than it sent. */
  lemma SentCount(fs: seq<Frame>, max: nat, acc: map<nat, Body>)
    requires Numbered(fs, max, 0) && Agrees(fs, acc)
    ensures acc.Keys <= Below(|fs| + 1) && |acc| <= |fs| + 1
    ensures forall k :: 0 <= k < |fs| && k !in acc ==> |acc| <= |fs|
  {
    forall k | k in acc
      ensures k <= |fs|
    {
      assert Sent(fs, Frame(k, acc[k]));
    }
    var all := Below(|fs| + 1);
    Within(acc.Keys, all);
    assert |acc| == |acc.Keys|;
    forall k | 0 <= k < |fs| && k !in acc
      ensures |acc| <= |fs|
    {
      Within(acc.Keys, all - {k});
      assert |all - {k}| == |all| - 1;
    }
  }

  lemma {:induction false} Within(a: set<nat>, b: set<nat>)
    requires a <= b
    ensures |a| <= |b|
    decreases a
  {
    if x :| x in a {
      Within(a - {x}, b - {x});
    }
  }

  /** A data frame of the sender that was fed has been accepted, by this feed or before it. */
  lemma FedIsAccepted(lim: Limits, fs: seq<Frame>, max: nat, h: History, k: nat)
    requires Inv(lim, h) && Numbered(fs, max, 0) && Agrees(fs, h.accepted) && k < |fs|
    requires max <= lim.cap && |fs| < lim.maxPending
    ensures k in Step(lim, h, FeedEvent(fs[k])).accepted
  {
    if k !in h.accepted {
      SentCount(fs, max, h.accepted);
      SenderView(lim, fs, max, h);
      NotClosedYet(lim, h, k, |fs|);
      TakesOrRefuses(lim, h, fs[k]);
    }
  }

  lemma NotClosedYet(lim: Limits, h: History, k: nat, n: nat)
    requires Inv(lim, h) && k !in h.accepted && k < n && (h.r.closed ==> h.r.next == n)
    ensures !h.r.closed && h.r.next <= k
  {
  }

  lemma AcceptedStays(lim: Limits, h: History, e: Event)
    ensures h.accepted.Keys <= Step(lim, h, e).accepted.Keys
  {
    hide Feed;
    hide Read;
  }

  /** Every data frame that a run fed is accepted at its end, given room for all of them. */
  lemma {:induction false} AllFedAccepted(lim: Limits, fs: seq<Frame>, max: nat, h: History, events: seq<Event>, k: nat)
    requires Inv(lim, h) && Numbered(fs, max, 0) && Agrees(fs, h.accepted) && FromSender(fs, events) && k < |fs|
    requires max <= lim.cap && |fs| < lim.maxPending
    requires k !in h.accepted ==> FeedEvent(fs[k]) in events
    ensures k in Run(lim, h, events).accepted
    decreases |events|
  {
    if events != [] {
      var e := events[0];
      var h1 := Step(lim, h, e);
      StepKeeps(lim, h, e);
      RunAgrees(lim, fs, h, [e]);
      assert Run(lim, h, [e]) == h1 by { assert [e][1..] == []; }
      AcceptedStays(lim, h, e);
      if k !in h.accepted && e == FeedEvent(fs[k]) {
        FedIsAccepted(lim, fs, max, h, k);
      }
      hide Inv;
      hide Step;
      AllFedAccepted(lim, fs, max, h1, events[1..], k);
    }
  }

  // ---------- and then read ----------

  function Reads(wants: seq<nat>): (events: seq<Event>)
  {
    if wants == [] then [] else [ReadEvent(wants[0])] + Reads(wants[1..])
  }

  /** With all of a sender's frames accepted, as many non-empty reads as there are bytes left read them all. */
  lemma {:induction false} ReadsFinish(lim: Limits, fs: seq<Frame>, max: nat, h: History, wants: seq<nat>)
    requires Inv(lim, h) && Numbered(fs, max, 0) && Agrees(fs, h.accepted)
    requires forall k :: 0 <= k < |fs| ==> k in h.accepted
    requires forall i :: 0 <= i < |wants| ==> wants[i] > 0
    requires |Payloads(fs)| <= |h.read| + |wants|
    ensures Run(lim, h, Reads(wants)).read == Payloads(fs)
    decreases |wants|
  {
    SenderView(lim, fs, max, h);
    PayloadsPrefix(fs, h.r.next);
    assert fs[..|fs|] == fs;
    assert h.read <= h.read + h.r.queue;
    assert h.r.queue == [] ==> h.read + h.r.queue == h.read;
    if wants != [] {
      var e := ReadEvent(wants[0]);
      var h1 := Step(lim, h, e);
      StepKeeps(lim, h, e);
      ReadAdvances(lim, h, wants[0]);
      assert Reads(wants)[1..] == Reads(wants[1..]);
      hide Inv;
      hide Step;
      if h.r.queue == [] {
        assert h1 == h;
        StaysRead(lim, fs, max, h, wants);
      } else {
        ReadsFinish(lim, fs, max, h1, wants[1..]);
      }
    }
  }

  lemma ReadAdvances(lim: Limits, h: History, want: nat)
    requires want > 0
    ensures var h1 := Step(lim, h, ReadEvent(want));
      h1.accepted == h.accepted && (if h.r.queue == [] then h1 == h else |h1.read| > |h.read|)
  {
    hide Drain;
  }

  /** Nothing more is read once the queue is empty. */
  lemma {:induction false} StaysRead(lim: Limits, fs: seq<Frame>, max: nat, h: History, wants: seq<nat>)
    requires h.r.queue == [] && h.read == Payloads(fs) && forall i :: 0 <= i < |wants| ==> wants[i] > 0
    ensures Run(lim, h, Reads(wants)).read == Payloads(fs)
    decreases |wants|
  {
    if wants != [] {
      ReadAdvances(lim, h, wants[0]);
      assert Reads(wants)[1..] == Reads(wants[1..]);
      hide Step;
      StaysRead(lim, fs, max, h, wants[1..]);
    }
  }

  lemma {:induction false} RunConcat(lim: Limits, h: History, a: seq<Event>, b: seq<Event>)
    ensures Run(lim, h, a + b) == Run(lim, Run(lim, h, a), b)
    decreases |a|
  {
    hide Step;
    if a == [] {
      assert a + b == b;
    } else {
      assert (a + b)[1..] == a[1..] + b;
      RunConcat(lim, Step(lim, h, a[0]), a[1..], b);
    }
  }

  /** EVERYTHING ARRIVES. For every series of writes, every order in which their frames are fed, each at least once, with
      duplicates, a closing frame and reads of any size among them: given a pending slot for each frame and a queue that a
      frame fits, as many further non-empty reads as there are bytes leave the reader with exactly the bytes written. */
  lemma EverythingArrives(lim: Limits, writes: seq<Octets>, max: nat, events: seq<Event>, wants: seq<nat>)
    requires 0 < max <= lim.cap && |Frames(writes, max, 0)| < lim.maxPending
    requires FromSender(Frames(writes, max, 0), events)
    requires forall f :: f in Frames(writes, max, 0) ==> FeedEvent(f) in events
    requires |wants| >= |Flatten(writes)| && forall i :: 0 <= i < |wants| ==> wants[i] > 0
    ensures Run(lim, START, events + Reads(wants)).read == Flatten(writes)
  {
    var fs, h := Frames(writes, max, 0), Run(lim, START, events);
    FramesCarry(writes, max, 0);
    hide Frames;
    hide Run;
    RunKeeps(lim, START, events);
    RunAgrees(lim, fs, START, events);
    StartInv(lim);
    forall k | 0 <= k < |fs|
      ensures k in h.accepted
    {
      assert fs[k] in fs;
      AllFedAccepted(lim, fs, max, START, events, k);
    }
    hide Inv;
    ReadsFinish(lim, fs, max, h, wants);
    RunConcat(lim, START, events, Reads(wants));
  }

  lemma StartInv(lim: Limits)
    ensures Inv(lim, START)
  {
    RunKeeps(lim, START, []);
  }
}

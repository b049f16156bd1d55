/** Ordered-mode streams as values (stream.c): chunking on one side, bounded reassembly on the other, and the
    end-to-end law that joins them over every run. */
module Reassembly {
  import opened Bytes
  import opened Heap

  /** Sequence numbers are natural numbers here; the 64-bit counters cannot wrap in a run of fewer than 2^64 frames. */
  datatype Body = Body(closing: byte, payload: Octets)
  datatype Frame = Frame(num: nat, body: Body)

  const CLOSING_NOTHING: byte := 0

  // ---------- the receiver ----------

  datatype Receiver = Receiver(heap: seq<Node<Body>>, next: nat, queue: Octets, closed: bool)
  datatype Limits = Limits(cap: nat, maxPending: nat)

  /** Moves frames that are now next in order into the byte queue; stops at a gap, at a frame that does not fit,
      or at a closing frame, which closes the queue without advancing `next`. */
  function Drain(cap: nat, r: Receiver): (d: (Receiver, bool))
    decreases |r.heap|
  {
    if r.heap == [] || r.heap[0].key != r.next then (r, false)
    else
      var body := r.heap[0].val;
      if body.closing != CLOSING_NOTHING then (r.(heap := RemoveAt(r.heap, 0), closed := true), true)
      else if cap - |r.queue| < |body.payload| then (r, false)
      else Drain(cap, Receiver(RemoveAt(r.heap, 0), r.next + 1, Enqueued(r, body.payload), r.closed))
  }

  /** A byte queue refuses a write once it is closed. */
  function Enqueued(r: Receiver, payload: Octets): (q: Octets)
  {
    if r.closed then r.queue else r.queue + payload
  }

  predicate Pending(heap: seq<Node<Body>>, num: nat)
  {
    exists i :: 0 <= i < |heap| && heap[i].key == num
  }

  /** A frame is refused when the stream has closed, when its number was already used, when it could never fit,
      or when the pending heap is full. */
  predicate Refused(lim: Limits, r: Receiver, f: Frame)
  {
    r.closed || f.num < r.next || Pending(r.heap, f.num) || |f.body.payload| > lim.cap || |r.heap| >= lim.maxPending
  }

  /** -1 refused, 1 closing frame drained, 0 otherwise. */
  function Feed(lim: Limits, r: Receiver, f: Frame): (d: (Receiver, int))
  {
    if Refused(lim, r, f) then (r, -1)
    else
      var (r', closing) := Drain(lim.cap, r.(heap := Push(r.heap, Node(f.num, f.body))));
      (r', if closing then 1 else 0)
  }

  datatype ReadResult = Bytes(out: Octets) | Nothing | Eof

  function Read(lim: Limits, r: Receiver, want: nat): (d: (Receiver, ReadResult))
  {
    var n := if want < |r.queue| then want else |r.queue|;
    if n > 0 then (Drain(lim.cap, r.(queue := r.queue[n..])).0, Bytes(r.queue[..n]))
    else if r.closed && r.queue == [] then (r, Eof)
    else (r, Nothing)
  }

  // ---------- runs ----------

  datatype Event = FeedEvent(frame: Frame) | ReadEvent(want: nat)

  /** A receiver together with what its run has accepted and handed to its reader. */
  datatype History = History(r: Receiver, accepted: map<nat, Body>, read: Octets)

  const START := History(Receiver([], 0, [], false), map[], [])

  function Step(lim: Limits, h: History, e: Event): (h': History)
  {
    match e
    case FeedEvent(f) =>
      var (r', rc) := Feed(lim, h.r, f);
      History(r', if rc == -1 then h.accepted else h.accepted[f.num := f.body], h.read)
    case ReadEvent(want) =>
      var (r', res) := Read(lim, h.r, want);
      History(r', h.accepted, if res.Bytes? then h.read + res.out else h.read)
  }

  function Run(lim: Limits, h: History, events: seq<Event>): (h': History)
    decreases |events|
  {
    if events == [] then h else Run(lim, Step(lim, h, events[0]), events[1..])
  }

  lemma {:induction false} RunAppend(lim: Limits, h: History, events: seq<Event>, e: Event)
    ensures Run(lim, h, events + [e]) == Step(lim, Run(lim, h, events), e)
    decreases |events|
  {
    hide Step;
    if events == [] {
      assert (events + [e])[1..] == [];
    } else {
      assert (events + [e])[1..] == events[1..] + [e];
      RunAppend(lim, Step(lim, h, events[0]), events[1..], e);
    }
  }

  // ---------- what every step keeps ----------

  /** The payloads numbered below `n`, in order. */
  function Joined(acc: map<nat, Body>, n: nat): (b: Octets)
  {
    if n == 0 then [] else Joined(acc, n - 1) + (if n - 1 in acc then acc[n - 1].payload else [])
  }

  /** Every pending frame was accepted, is not yet consumed, is held once, and could fit an empty queue. */
  ghost predicate HeapFaithful(lim: Limits, h: History)
  {
    && Ordered(h.r.heap) && |h.r.heap| <= lim.maxPending
    && (forall x :: x in multiset(h.r.heap) ==>
          && x.key in h.accepted && h.accepted[x.key] == x.val && |x.val.payload| <= lim.cap
          && x.key >= h.r.next && (h.r.closed ==> x.key > h.r.next)
          && multiset(h.r.heap)[x] == 1)
  }

  /** Every accepted frame is consumed or pending; consumed ones carried data, the closing one is last. */
  ghost predicate AcceptedCovered(h: History)
  {
    && (forall k :: k in h.accepted ==>
          k < h.r.next || (h.r.closed && k == h.r.next) || Node(k, h.accepted[k]) in multiset(h.r.heap))
    && (forall k :: 0 <= k < h.r.next ==> k in h.accepted && h.accepted[k].closing == CLOSING_NOTHING)
    && (h.r.closed ==> h.r.next in h.accepted && h.accepted[h.r.next].closing != CLOSING_NOTHING)
  }

  ghost predicate Core(lim: Limits, h: History)
  {
    && HeapFaithful(lim, h) && AcceptedCovered(h)
    && |h.r.queue| <= lim.cap
    && h.read + h.r.queue == Joined(h.accepted, h.r.next)
  }

  /** A frame that is next in order stays pending only for want of room in the byte queue. */
  ghost predicate Drained(lim: Limits, r: Receiver)
  {
    r.heap != [] && r.heap[0].key == r.next ==>
      r.heap[0].val.closing == CLOSING_NOTHING && lim.cap - |r.queue| < |r.heap[0].val.payload|
  }

  ghost predicate Inv(lim: Limits, h: History)
  {
    Core(lim, h) && Drained(lim, h.r)
  }

  lemma RootTaken(lim: Limits, h: History)
    requires Core(lim, h) && h.r.heap != []
    ensures h.r.heap[0] in multiset(h.r.heap)
    ensures Ordered(RemoveAt(h.r.heap, 0))
    ensures forall x :: x in multiset(RemoveAt(h.r.heap, 0)) <==> x in multiset(h.r.heap) && x.key != h.r.heap[0].key
    ensures forall x :: x in multiset(RemoveAt(h.r.heap, 0)) ==> multiset(RemoveAt(h.r.heap, 0))[x] == 1
  {
    hide RemoveAt;
    RemoveKeeps(h.r.heap, 0);
    RemoveOrders(h.r.heap, 0);
    var rest, top := multiset(RemoveAt(h.r.heap, 0)), h.r.heap[0];
    assert top in multiset(h.r.heap);
    forall x | x in multiset(h.r.heap) ensures x in rest <==> x.key != top.key {
      assert x.key == top.key ==> x == top;
    }
  }

  /** The history after its root, a data frame, is drained. */
  function Popped(h: History): (h': History)
    requires h.r.heap != []
  {
    h.(r := Receiver(RemoveAt(h.r.heap, 0), h.r.next + 1, h.r.queue + h.r.heap[0].val.payload, false))
  }

  lemma PoppedFaithful(lim: Limits, h: History)
    requires Core(lim, h) && h.r.heap != [] && h.r.heap[0].key == h.r.next
    ensures HeapFaithful(lim, Popped(h))
  {
    RootTaken(lim, h);
    hide RemoveAt;
    hide Ordered;
    hide Joined;
  }

  lemma PoppedCovered(lim: Limits, h: History)
    requires Core(lim, h) && h.r.heap != [] && h.r.heap[0].key == h.r.next
    requires h.r.heap[0].val.closing == CLOSING_NOTHING
    ensures !h.r.closed && AcceptedCovered(Popped(h))
    ensures Joined(h.accepted, h.r.next + 1) == Joined(h.accepted, h.r.next) + h.r.heap[0].val.payload
  {
    hide RemoveAt;
    hide Ordered;
    RootTaken(lim, h);
    var top, h' := h.r.heap[0], Popped(h);
    assert h.accepted[top.key] == top.val && !h.r.closed;
    assert Joined(h.accepted, h.r.next + 1) == Joined(h.accepted, h.r.next) + top.val.payload;
    hide Joined;
    assert forall k :: k in h.accepted && k >= h.r.next + 1 ==> Node(k, h.accepted[k]) in multiset(h'.r.heap);
  }

  /** One drained data frame keeps the invariant's core. */
  lemma DrainStep(lim: Limits, h: History)
    requires Core(lim, h) && h.r.heap != [] && h.r.heap[0].key == h.r.next
    requires h.r.heap[0].val.closing == CLOSING_NOTHING && lim.cap - |h.r.queue| >= |h.r.heap[0].val.payload|
    ensures !h.r.closed && Core(lim, Popped(h))
  {
    hide HeapFaithful;
    hide AcceptedCovered;
    hide RemoveAt;
    hide Joined;
    PoppedFaithful(lim, h);
    PoppedCovered(lim, h);
    assert h.read + (h.r.queue + h.r.heap[0].val.payload) == (h.read + h.r.queue) + h.r.heap[0].val.payload;
  }

  lemma ClosingStep(lim: Limits, h: History)
    requires Core(lim, h) && h.r.heap != [] && h.r.heap[0].key == h.r.next
    requires h.r.heap[0].val.closing != CLOSING_NOTHING
    ensures Inv(lim, h.(r := h.r.(heap := RemoveAt(h.r.heap, 0), closed := true)))
  {
    hide RemoveAt;
    hide Ordered;
    RootTaken(lim, h);
    var h' := h.(r := h.r.(heap := RemoveAt(h.r.heap, 0), closed := true));
    assert HeapFaithful(lim, h');
    assert AcceptedCovered(h') by {
      forall k | k in h.accepted && k > h.r.next ensures Node(k, h.accepted[k]) in multiset(h'.r.heap) {
        assert Node(k, h.accepted[k]) in multiset(h.r.heap);
      }
    }
    if h'.r.heap != [] { assert h'.r.heap[0] in multiset(h'.r.heap); }
  }

  lemma {:induction false} DrainKeeps(lim: Limits, h: History)
    requires Core(lim, h)
    ensures Inv(lim, h.(r := Drain(lim.cap, h.r).0))
    decreases |h.r.heap|
  {
    hide Core;
    hide RemoveAt;
    var r := h.r;
    if r.heap != [] && r.heap[0].key == r.next {
      var body := r.heap[0].val;
      if body.closing != CLOSING_NOTHING {
        ClosingStep(lim, h);
      } else if lim.cap - |r.queue| >= |body.payload| {
        DrainStep(lim, h);
        DrainKeeps(lim, Popped(h));
      }
    }
  }

  lemma {:induction false} JoinedFrame(acc: map<nat, Body>, n: nat, k: nat, b: Body)
    requires n <= k
    ensures Joined(acc[k := b], n) == Joined(acc, n)
    decreases n
  {
    if n > 0 { JoinedFrame(acc, n - 1, k, b); }
  }

  lemma NumberIsNew(lim: Limits, h: History, f: Frame)
    requires Core(lim, h) && !Refused(lim, h.r, f)
    ensures f.num !in h.accepted
  {
    assert forall x :: x in multiset(h.r.heap) ==> x in h.r.heap;
    assert forall k :: k in h.accepted && k >= h.r.next ==> Node(k, h.accepted[k]) in multiset(h.r.heap);
  }

  /** The history after a frame is accepted and before it is drained. */
  function Pushed(h: History, f: Frame): (h': History)
  {
    h.(r := h.r.(heap := Push(h.r.heap, Node(f.num, f.body))), accepted := h.accepted[f.num := f.body])
  }

  lemma PushedFaithful(lim: Limits, h: History, f: Frame)
    requires Core(lim, h) && !Refused(lim, h.r, f)
    ensures HeapFaithful(lim, Pushed(h, f))
  {
    PushOrders(h.r.heap, Node(f.num, f.body));
    PushKeeps(h.r.heap, Node(f.num, f.body));
    NumberIsNew(lim, h, f);
    hide Push;
    hide Ordered;
    hide AcceptedCovered;
  }

  lemma PushedCovered(lim: Limits, h: History, f: Frame)
    requires Core(lim, h) && !Refused(lim, h.r, f)
    ensures AcceptedCovered(Pushed(h, f))
  {
    PushKeeps(h.r.heap, Node(f.num, f.body));
    hide Push;
    hide HeapFaithful;
    var h' := Pushed(h, f);
    forall k | k in h'.accepted && k >= h.r.next ensures Node(k, h'.accepted[k]) in multiset(h'.r.heap) {
      if k != f.num { assert Node(k, h.accepted[k]) in multiset(h.r.heap); }
    }
  }

  /** An accepted frame enters the heap with the core intact. */
  lemma PushKeepsCore(lim: Limits, h: History, f: Frame)
    requires Core(lim, h) && !Refused(lim, h.r, f)
    ensures Core(lim, Pushed(h, f))
  {
    PushedFaithful(lim, h, f);
    PushedCovered(lim, h, f);
    JoinedFrame(h.accepted, h.r.next, f.num, f.body);
    hide HeapFaithful;
    hide AcceptedCovered;
    hide Push;
  }

  lemma ReadKeepsCore(lim: Limits, h: History, n: nat)
    requires Core(lim, h) && n <= |h.r.queue|
    ensures Core(lim, h.(r := h.r.(queue := h.r.queue[n..]), read := h.read + h.r.queue[..n]))
  {
    hide HeapFaithful;
    hide AcceptedCovered;
    var h' := h.(r := h.r.(queue := h.r.queue[n..]), read := h.read + h.r.queue[..n]);
    assert h'.read + h'.r.queue == h.read + h.r.queue;
    assert HeapFaithful(lim, h') by { HeapFaithfulFrame(lim, h, h'); }
    assert AcceptedCovered(h') by { HeapFaithfulFrame(lim, h, h'); }
  }

  lemma HeapFaithfulFrame(lim: Limits, h: History, h': History)
    requires h'.accepted == h.accepted && h'.r == h.r.(queue := h'.r.queue)
    ensures HeapFaithful(lim, h) ==> HeapFaithful(lim, h')
    ensures AcceptedCovered(h) ==> AcceptedCovered(h')
  {
  }

  lemma StepKeeps(lim: Limits, h: History, e: Event)
    requires Inv(lim, h)
    ensures Inv(lim, Step(lim, h, e))
  {
    hide Core;
    hide Drain;
    match e {
      case FeedEvent(f) =>
        if !Refused(lim, h.r, f) {
          PushKeepsCore(lim, h, f);
          DrainKeeps(lim, Pushed(h, f));
        }
      case ReadEvent(want) =>
        var n := if want < |h.r.queue| then want else |h.r.queue|;
        if n > 0 {
          ReadKeepsCore(lim, h, n);
          DrainKeeps(lim, h.(r := h.r.(queue := h.r.queue[n..]), read := h.read + h.r.queue[..n]));
        }
    }
  }

  /** The receiver invariant holds in every state of every run, whatever frames a peer sends. */
  lemma {:induction false} RunKeeps(lim: Limits, h: History, events: seq<Event>)
    requires Inv(lim, h)
    ensures Inv(lim, Run(lim, h, events))
    decreases |events|
  {
    if events != [] {
      StepKeeps(lim, h, events[0]);
      RunKeeps(lim, Step(lim, h, events[0]), events[1..]);
    }
  }

  lemma OnceEach<T>(s: seq<T>, i: nat, j: nat)
    requires i < j < |s| && multiset(s)[s[i]] <= 1
    ensures s[i] != s[j]
  {
    assert s == s[..j] + [s[j]] + s[j + 1..];
    assert s[i] in s[..j];
  }

  /** Read off the invariant: pending numbers are distinct and bounded, and the root is the least of them. */
  lemma KeysDiffer(lim: Limits, h: History, i: nat, j: nat)
    requires HeapFaithful(lim, h) && i < j < |h.r.heap|
    ensures h.r.heap[i].key != h.r.heap[j].key
  {
    hide Ordered;
    var s := h.r.heap;
    var x, y := s[i], s[j];
    assert x in multiset(s) && y in multiset(s);
    OnceEach(s, i, j);
  }

  lemma {:induction false} HeapShape(lim: Limits, events: seq<Event>)
    ensures var r := Run(lim, START, events).r;
      && |r.heap| <= lim.maxPending
      && (forall i, j :: 0 <= i < j < |r.heap| ==> r.heap[i].key != r.heap[j].key)
      && (forall i :: 0 <= i < |r.heap| ==> r.next <= r.heap[0].key <= r.heap[i].key)
  {
    var h := Run(lim, START, events);
    RunKeeps(lim, START, events);
    hide Run;
    hide AcceptedCovered;
    hide Ordered;
    var s := h.r.heap;
    assert HeapFaithful(lim, h);
    hide Inv;
    forall i, j | 0 <= i < j < |s| ensures s[i].key != s[j].key {
      KeysDiffer(lim, h, i, j);
    }
    forall i | 0 <= i < |s| ensures h.r.next <= s[0].key <= s[i].key {
      assert s[0] in multiset(s);
      RootIsLeast(s, i);
    }
  }

  /** In a state the invariant describes, an accepted next frame sits at the root of the heap. */
  lemma NextIsRoot(lim: Limits, h: History)
    requires Inv(lim, h) && !h.r.closed && h.r.next in h.accepted
    ensures h.r.heap != [] && h.r.heap[0] == Node(h.r.next, h.accepted[h.r.next])
    ensures lim.cap - |h.r.queue| < |h.accepted[h.r.next].payload| <= lim.cap
  {
    var x := Node(h.r.next, h.accepted[h.r.next]);
    assert x in multiset(h.r.heap);
    assert x in h.r.heap;
    var i :| 0 <= i < |h.r.heap| && h.r.heap[i] == x;
    RootIsLeast(h.r.heap, i);
    assert h.r.heap[0] in multiset(h.r.heap);
  }

  /** Backpressure strands nothing: on every run, a read with room in its buffer answers "nothing yet" exactly
      when the queue is empty and the next frame in order was never accepted, and end of stream exactly when the
      queue is empty and the closing frame was reached. */
  lemma ReadVerdicts(lim: Limits, events: seq<Event>, want: nat)
    requires want > 0
    ensures var h := Run(lim, START, events);
      && (Read(lim, h.r, want).1 == Nothing <==> h.r.queue == [] && h.r.next !in h.accepted)
      && (Read(lim, h.r, want).1 == Eof <==>
            h.r.queue == [] && h.r.next in h.accepted && h.accepted[h.r.next].closing != CLOSING_NOTHING)
  {
    hide Run;
    hide Inv;
    var h := Run(lim, START, events);
    RunKeeps(lim, START, events);
    NextWaits(lim, h);
    hide Drain;
  }

  /** With an empty queue, the next frame is accepted exactly when the stream has closed on it. */
  lemma NextWaits(lim: Limits, h: History)
    requires Inv(lim, h)
    ensures h.r.queue == [] ==> (h.r.next in h.accepted <==> h.r.closed)
    ensures h.r.closed ==> h.accepted[h.r.next].closing != CLOSING_NOTHING
  {
    hide HeapFaithful;
    if h.r.queue == [] && !h.r.closed && h.r.next in h.accepted {
      NextIsRoot(lim, h);
      assert false;
    }
  }

  // ---------- the sender ----------

  /** The write loop: chunks of at most `max` bytes, numbered from `num`. */
  function Chunks(data: Octets, max: nat, num: nat): (fs: seq<Frame>)
    requires max > 0
    decreases |data|
  {
    if data == [] then [] else
      var n := if |data| <= max then |data| else max;
      [Frame(num, Body(CLOSING_NOTHING, data[..n]))] + Chunks(data[n..], max, num + 1)
  }

  /** One turn of the write loop at offset `n`. */
  lemma ChunkStep(data: Octets, n: nat, max: nat, num: nat)
    requires max > 0 && n < |data|
    ensures var chunk := if |data| - n <= max then |data| - n else max;
      Chunks(data[n..], max, num)
      == [Frame(num, Body(CLOSING_NOTHING, data[n..n + chunk]))] + Chunks(data[n + chunk..], max, num + 1)
  {
    var chunk := if |data| - n <= max then |data| - n else max;
    assert data[n..][..chunk] == data[n..n + chunk] && data[n..][chunk..] == data[n + chunk..];
  }

  /** A series of writes; numbering runs on from one write to the next. */
  function Frames(writes: seq<Octets>, max: nat, num: nat): (fs: seq<Frame>)
    requires max > 0
    decreases |writes|
  {
    if writes == [] then [] else
      var first := Chunks(writes[0], max, num);
      first + Frames(writes[1..], max, num + |first|)
  }

  function Payloads(fs: seq<Frame>): (b: Octets)
  {
    if fs == [] then [] else fs[0].body.payload + Payloads(fs[1..])
  }

  ghost predicate Numbered(fs: seq<Frame>, max: nat, num: nat)
  {
    forall i :: 0 <= i < |fs| ==>
      fs[i].num == num + i && fs[i].body.closing == CLOSING_NOTHING && 0 < |fs[i].body.payload| <= max
  }

  lemma {:induction false} ChunksCarry(data: Octets, max: nat, num: nat)
    requires max > 0
    ensures Payloads(Chunks(data, max, num)) == data && Numbered(Chunks(data, max, num), max, num)
    decreases |data|
  {
    if data != [] {
      var n := if |data| <= max then |data| else max;
      ChunksCarry(data[n..], max, num + 1);
      var rest := Chunks(data[n..], max, num + 1);
      var all := Chunks(data, max, num);
      assert all[1..] == rest;
      assert data[..n] + data[n..] == data;
      forall i | 0 <= i < |all| ensures
        all[i].num == num + i && all[i].body.closing == CLOSING_NOTHING && 0 < |all[i].body.payload| <= max
      {
        if i > 0 { assert all[i] == rest[i - 1]; }
      }
    }
  }

  lemma NumberedAppend(a: seq<Frame>, b: seq<Frame>, max: nat, num: nat)
    requires Numbered(a, max, num) && Numbered(b, max, num + |a|)
    ensures Numbered(a + b, max, num)
  {
  }

  lemma {:induction false} PayloadsAppend(a: seq<Frame>, b: seq<Frame>)
    ensures Payloads(a + b) == Payloads(a) + Payloads(b)
  {
    if a == [] {
      assert a + b == b;
    } else {
      PayloadsAppend(a[1..], b);
      assert (a + b)[1..] == a[1..] + b;
      assert Payloads(a + b) == a[0].body.payload + (Payloads(a[1..]) + Payloads(b));
    }
  }

  /** The frames of a series of writes are numbered without gaps and carry exactly the bytes written. */
  lemma {:induction false} FramesCarry(writes: seq<Octets>, max: nat, num: nat)
    requires max > 0
    ensures Payloads(Frames(writes, max, num)) == Flatten(writes) && Numbered(Frames(writes, max, num), max, num)
    decreases |writes|
  {
    if writes != [] {
      var first := Chunks(writes[0], max, num);
      ChunksCarry(writes[0], max, num);
      FramesCarry(writes[1..], max, num + |first|);
      var rest := Frames(writes[1..], max, num + |first|);
      PayloadsAppend(first, rest);
      NumberedAppend(first, rest, max, num);
      hide Chunks;
      hide Payloads;
      hide Numbered;
      assert Frames(writes, max, num) == first + rest;
    }
  }

  /** One more write adds its chunks behind the frames already sent. */
  lemma {:induction false} FramesAppend(writes: seq<Octets>, w: Octets, max: nat, num: nat)
    requires max > 0
    ensures Frames(writes + [w], max, num)
         == Frames(writes, max, num) + Chunks(w, max, num + |Frames(writes, max, num)|)
    decreases |writes|
  {
    hide Chunks;
    if writes == [] {
      assert Frames([w], max, num) == Chunks(w, max, num) + Frames([w][1..], max, num + |Chunks(w, max, num)|);
      assert writes + [w] == [w];
    } else {
      var first := Chunks(writes[0], max, num);
      FramesAppend(writes[1..], w, max, num + |first|);
      assert (writes + [w])[1..] == writes[1..] + [w];
    }
  }

  // ---------- end to end ----------

  /** The wire content of a sender: its data frames, and a closing frame behind them if it closed. */
  ghost predicate Sent(fs: seq<Frame>, f: Frame)
  {
    f in fs || (f.num == |fs| && f.body.closing != CLOSING_NOTHING)
  }

  ghost predicate FromSender(fs: seq<Frame>, events: seq<Event>)
  {
    forall i :: 0 <= i < |events| && events[i].FeedEvent? ==> Sent(fs, events[i].frame)
  }

  ghost predicate Agrees(fs: seq<Frame>, acc: map<nat, Body>)
  {
    forall k :: k in acc ==> Sent(fs, Frame(k, acc[k]))
  }

  lemma {:induction false} RunAgrees(lim: Limits, fs: seq<Frame>, h: History, events: seq<Event>)
    requires Agrees(fs, h.accepted) && FromSender(fs, events)
    ensures Agrees(fs, Run(lim, h, events).accepted)
    decreases |events|
  {
    if events != [] {
      var h' := Step(lim, h, events[0]);
      assert Agrees(fs, h'.accepted) by {
        if events[0].FeedEvent? { assert Sent(fs, events[0].frame); }
      }
      forall i | 0 <= i < |events[1..]| && events[1..][i].FeedEvent? ensures Sent(fs, events[1..][i].frame) {
        assert events[1..][i] == events[i + 1];
      }
      RunAgrees(lim, fs, h', events[1..]);
    }
  }

  lemma {:induction false} JoinedIsPrefix(fs: seq<Frame>, max: nat, acc: map<nat, Body>, n: nat)
    requires Numbered(fs, max, 0) && Agrees(fs, acc)
    requires forall k :: 0 <= k < n ==> k in acc && acc[k].closing == CLOSING_NOTHING
    ensures n <= |fs| && Joined(acc, n) == Payloads(fs[..n])
    decreases n
  {
    if n > 0 {
      JoinedIsPrefix(fs, max, acc, n - 1);
      assert Sent(fs, Frame(n - 1, acc[n - 1]));
      assert fs[..n] == fs[..n - 1] + [fs[n - 1]];
      PayloadsAppend(fs[..n - 1], [fs[n - 1]]);
      assert Payloads([fs[n - 1]]) == fs[n - 1].body.payload + Payloads([]);
    }
  }

  lemma PayloadsPrefix(fs: seq<Frame>, n: nat)
    requires n <= |fs|
    ensures Payloads(fs[..n]) <= Payloads(fs)
  {
    assert fs == fs[..n] + fs[n..];
    PayloadsAppend(fs[..n], fs[n..]);
  }

  /** How far a receiver has come, seen from the sender's frames. */
  lemma SenderView(lim: Limits, fs: seq<Frame>, max: nat, h: History)
    requires Inv(lim, h) && Numbered(fs, max, 0) && Agrees(fs, h.accepted)
    ensures h.r.next <= |fs| && h.read + h.r.queue == Payloads(fs[..h.r.next])
    ensures h.r.closed ==> h.r.next == |fs|
    ensures (forall k :: 0 <= k < |fs| ==> k in h.accepted) && h.r.queue == [] ==> h.r.next == |fs|
  {
    JoinedIsPrefix(fs, max, h.accepted, h.r.next);
    hide HeapFaithful;
    if h.r.closed {
      assert Sent(fs, Frame(h.r.next, h.accepted[h.r.next]));
    } else if h.r.next in h.accepted {
      NextIsRoot(lim, h);
    }
  }

  /** END TO END. Whatever was written, whatever subset of the frames arrives, in whatever order and however
      often, and however reads of any size are interleaved: the bytes read are a prefix of the bytes written; they
      are all of them once every data frame was accepted and the reader finds the queue empty; and end of stream
      is only ever reported when every written byte has been read. */
  lemma EndToEnd(lim: Limits, writes: seq<Octets>, max: nat, events: seq<Event>, want: nat)
    requires max > 0 && FromSender(Frames(writes, max, 0), events)
    ensures var h := Run(lim, START, events); var fs := Frames(writes, max, 0);
      && h.read <= Flatten(writes)
      && ((forall k :: 0 <= k < |fs| ==> k in h.accepted) && h.r.queue == [] ==> h.read == Flatten(writes))
      && (Read(lim, h.r, want).1 == Eof ==> h.read == Flatten(writes))
  {
    var fs, h := Frames(writes, max, 0), Run(lim, START, events);
    FramesCarry(writes, max, 0);
    RunKeeps(lim, START, events);
    RunAgrees(lim, fs, START, events);
    SenderView(lim, fs, max, h);
    PayloadsPrefix(fs, h.r.next);
    hide Run;
    hide Frames;
    hide Inv;
    hide Payloads;
    assert fs[..|fs|] == fs;
    assert h.read <= h.read + h.r.queue;
    assert h.r.queue == [] ==> h.read + h.r.queue == h.read;
  }
}

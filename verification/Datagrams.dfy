/** A stream in unordered mode (stream.c): whole datagrams, in arrival order, dropped when the queue is full. */
module Datagrams {
  import opened Bytes
  import Reassembly
  import MQ = MsgQueue
  import S = Stream

  datatype State = State(queue: seq<Octets>, closed: bool, dropped: nat)

  datatype ReadResult = Datagram(body: Octets) | Nothing | Eof | ShortBuffer

  /** 1 closed, -1 a payload no queue of this capacity could hold, 0 queued or dropped. */
  function Feed(cap: nat, s: State, f: Reassembly.Body): (d: (State, int))
  {
    if s.closed then (s, 1)
    else if f.closing != Reassembly.CLOSING_NOTHING then (s.(closed := true), 1)
    else
      match MQ.WriteSpec(cap, s.queue, s.closed, f.payload)
      case Queued => (s.(queue := s.queue + [f.payload]), 0)
      case ErrTooLarge => (s, -1)
      case _ => (s.(dropped := s.dropped + 1), 0)
  }

  function Read(s: State, want: nat): (d: (State, ReadResult))
  {
    match MQ.ReadSpec(s.queue, want)
    case Message(body) => (s.(queue := s.queue[1..]), Datagram(body))
    case ShortBuffer => (s, ReadResult.ShortBuffer)
    case Empty => (s, if s.closed then Eof else Nothing)
  }

  // ---------- runs ----------

  datatype Event = FeedEvent(body: Reassembly.Body) | ReadEvent(want: nat)

  /** The datagrams a run accepted, in arrival order, how many found the queue full, and what its reader got. */
  datatype History = History(s: State, accepted: seq<Octets>, full: nat, read: seq<Octets>)

  const START := History(State([], false, 0), [], 0, [])

  function Step(cap: nat, h: History, e: Event): (h': History)
  {
    match e
    case FeedEvent(b) =>
      var s' := Feed(cap, h.s, b).0;
      if h.s.closed || b.closing != Reassembly.CLOSING_NOTHING then h.(s := s')
      else
        var w := MQ.WriteSpec(cap, h.s.queue, false, b.payload);
        if w == MQ.Queued then h.(s := s', accepted := h.accepted + [b.payload])
        else if w == MQ.ErrFull then h.(s := s', full := h.full + 1)
        else h.(s := s')
    case ReadEvent(want) =>
      var (s', r) := Read(h.s, want);
      h.(s := s', read := if r.Datagram? then h.read + [r.body] else h.read)
  }

  function Run(cap: nat, h: History, events: seq<Event>): (h': History)
    decreases |events|
  {
    if events == [] then h else Run(cap, Step(cap, h, events[0]), events[1..])
  }

  /** On every run: the datagrams read, followed by those queued, are the accepted ones in arrival order; the
      drop counter counts exactly the ones that found the queue full; and end of stream is reported only when
      every accepted datagram has been read. */
  lemma {:induction false} DeliversInArrivalOrder(cap: nat, h: History, events: seq<Event>, want: nat)
    requires h.read + h.s.queue == h.accepted && h.s.dropped == h.full
    ensures var h' := Run(cap, h, events);
      && h'.read + h'.s.queue == h'.accepted && h'.s.dropped == h'.full
      && (Read(h'.s, want).1 == Eof ==> h'.read == h'.accepted)
    decreases |events|
  {
    if events != [] {
      var h1 := Step(cap, h, events[0]);
      assert h1.read + h1.s.queue == h1.accepted && h1.s.dropped == h1.full;
      DeliversInArrivalOrder(cap, h1, events[1..], want);
    }
  }

  // ---------- what is accepted, and when it ends ----------

  /** Ring bytes that datagrams take, each behind its length. */
  function Taken(ds: seq<Octets>): (n: nat)
  {
    if ds == [] then 0 else MQ.LEN_PREFIX + |ds[0]| + Taken(ds[1..])
  }

  lemma {:induction false} TakenIsEncoded(ds: seq<Octets>)
    ensures Taken(ds) == |MQ.Encode(ds)|
  {
    if ds != [] {
      TakenIsEncoded(ds[1..]);
    }
  }

  predicate Closing(e: Event)
  {
    e.FeedEvent? && e.body.closing != Reassembly.CLOSING_NOTHING
  }

  /** The stream is closed exactly when a closing frame was fed. */
  lemma {:induction false} ClosedExactly(cap: nat, h: History, events: seq<Event>)
    ensures Run(cap, h, events).s.closed <==> h.s.closed || exists i :: 0 <= i < |events| && Closing(events[i])
    decreases |events|
  {
    if events != [] {
      var h1 := Step(cap, h, events[0]);
      assert h1.s.closed <==> h.s.closed || Closing(events[0]);
      hide Step;
      ClosedExactly(cap, h1, events[1..]);
      assert forall i :: 0 < i < |events| ==> events[i] == events[1..][i - 1];
    }
  }

  /** EXACTLY WHEN IT ENDS. After every run, end of stream is reported if and only if a closing frame was fed and every
      accepted datagram has been read. */
  lemma EndsExactly(cap: nat, events: seq<Event>, want: nat)
    ensures var h := Run(cap, START, events);
      Read(h.s, want).1 == Eof <==> (exists i :: 0 <= i < |events| && Closing(events[i])) && h.read == h.accepted
  {
    var h := Run(cap, START, events);
    ClosedExactly(cap, START, events);
    DeliversInArrivalOrder(cap, START, events, want);
    hide Run;
    assert h.read == h.accepted <==> h.s.queue == [] by {
      assert h.s.queue == [] ==> h.read + h.s.queue == h.read;
      assert h.read == h.accepted ==> |h.s.queue| == 0;
    }
  }

  /** EXACTLY WHAT IS ACCEPTED. After every run without a closing frame, a datagram is accepted if and only if it fits the
      ring behind the datagrams accepted and not yet read, each with its length before it; one that would fit an empty ring
      but not this one is dropped and counted; one that could never fit, or is longer than a length can say, is refused. */
  lemma AcceptsExactly(cap: nat, events: seq<Event>, m: Octets)
    requires forall i :: 0 <= i < |events| ==> !Closing(events[i])
    ensures var h := Run(cap, START, events);
            var e := FeedEvent(Reassembly.Body(Reassembly.CLOSING_NOTHING, m)); var h' := Step(cap, h, e);
            var fits := MQ.LEN_PREFIX + |m| <= cap && |m| <= 0xffff_ffff;
      && |h.read| <= |h.accepted|
      && var room := fits && Taken(h.accepted[|h.read|..]) + MQ.LEN_PREFIX + |m| <= cap;
      && h'.accepted == (if room then h.accepted + [m] else h.accepted)
      && h'.full == (if fits && !room then h.full + 1 else h.full)
      && (Feed(cap, h.s, e.body).1 == -1 <==> !fits)
  {
    var h := Run(cap, START, events);
    ClosedExactly(cap, START, events);
    DeliversInArrivalOrder(cap, START, events, 0);
    hide Run;
    assert h.accepted[|h.read|..] == h.s.queue;
    TakenIsEncoded(h.s.queue);
  }

  // ---------- what the sender's side adds ----------

  /** The data frames of an unordered stream, whose writes all fit one frame, are its non-empty writes. */
  lemma {:induction false} FramesAreWrites(writes: seq<Octets>, max: nat, num: nat, f: Reassembly.Frame)
    requires max > 0 && S.Whole(writes, max) && f in Reassembly.Frames(writes, max, num)
    ensures f.body.payload in writes && f.body.closing == Reassembly.CLOSING_NOTHING
    decreases |writes|
  {
    hide Reassembly.Chunks;
    var w := writes[0];
    var first := Reassembly.Chunks(w, max, num);
    OneChunk(w, max, num);
    if f !in first {
      FramesAreWrites(writes[1..], max, num + |first|, f);
    }
  }

  lemma OneChunk(w: Octets, max: nat, num: nat)
    requires max > 0 && |w| <= max
    ensures Reassembly.Chunks(w, max, num) ==
            if w == [] then [] else [Reassembly.Frame(num, Reassembly.Body(Reassembly.CLOSING_NOTHING, w))]
  {
    if w != [] {
      assert w[..|w|] == w && w[|w|..] == [];
      assert Reassembly.Chunks(w[|w|..], max, num + 1) == [];
    }
  }

  /** Every frame fed was sent by an unordered stream with these writes. */
  ghost predicate FromSender(writes: seq<Octets>, max: nat, events: seq<Event>)
    requires max > 0
  {
    forall i :: 0 <= i < |events| && events[i].FeedEvent? ==>
      events[i].body.closing != Reassembly.CLOSING_NOTHING ||
      exists f :: f in Reassembly.Frames(writes, max, 0) && f.body == events[i].body
  }

  /** DATAGRAMS STAY WHOLE. Whatever arrives, in whatever order and however often, and however it is read: each datagram
      read is, whole, one of the datagrams written. */
  lemma {:induction false} ReadsAreWrites(cap: nat, writes: seq<Octets>, max: nat, h: History, events: seq<Event>)
    requires max > 0 && S.Whole(writes, max) && FromSender(writes, max, events)
    requires (forall d :: d in h.read ==> d in writes) && (forall d :: d in h.s.queue ==> d in writes)
    ensures forall d :: d in Run(cap, h, events).read ==> d in writes
    decreases |events|
  {
    if events != [] {
      var e := events[0];
      if e.FeedEvent? && e.body.closing == Reassembly.CLOSING_NOTHING {
        var f :| f in Reassembly.Frames(writes, max, 0) && f.body == e.body;
        FramesAreWrites(writes, max, 0, f);
      }
      var h1 := Step(cap, h, e);
      hide Reassembly.Frames;
      assert FromSender(writes, max, events[1..]) by {
        assert forall i :: 0 <= i < |events[1..]| ==> events[1..][i] == events[i + 1];
      }
      ReadsAreWrites(cap, writes, max, h1, events[1..]);
    }
  }

  class DatagramStream {
    const queue: MQ.MsgQueue
    var closingSeen: bool
    var dropped: nat

    ghost predicate Valid()
      reads this, queue, queue.data
    {
      queue.Valid() && queue.closed == closingSeen
    }

    ghost function Abs(): (s: State)
      reads this, queue
    {
      State(queue.msgs, closingSeen, dropped)
    }

    constructor (cap: nat)
      requires cap > MQ.LEN_PREFIX
      ensures Valid() && Abs() == START.s && fresh(queue) && fresh(queue.data) && queue.data.Length == cap
    {
      queue := new MQ.MsgQueue(cap);
      closingSeen, dropped := false, 0;
    }

    method FeedFrame(b: Reassembly.Body) returns (rc: int)
      requires Valid()
      modifies this, queue, queue.data
      ensures Valid() && (Abs(), rc) == Feed(queue.data.Length, old(Abs()), b)
    {
      if closingSeen {
        return 1;
      }
      if b.closing != Reassembly.CLOSING_NOTHING {
        closingSeen := true;
        queue.Close();
        return 1;
      }
      var r := queue.Write(b.payload);
      if r == MQ.ErrTooLarge {
        return -1;
      }
      if r != MQ.Queued {
        dropped := dropped + 1;
      }
      return 0;
    }

    method ReadDatagram(want: nat) returns (res: ReadResult)
      requires Valid()
      modifies this, queue
      ensures Valid() && (Abs(), res) == Read(old(Abs()), want)
    {
      var r := queue.Read(want);
      match r {
        case ShortBuffer => return ReadResult.ShortBuffer;
        case Empty =>
          if queue.closed && queue.count == 0 {
            return Eof;
          }
          return Nothing;
        case Message(body) => return Datagram(body);
      }
    }
  }
}

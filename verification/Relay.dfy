/** The stream-to-descriptor half of a relay (stream_relay.c), over a stream in ordered mode. */
module Relay {
  import opened Bytes
  import opened Reassembly
  import Heap
  import S = Stream
  import BQ = ByteQueue
  import PB = PoolBudget
  import K = Kernel

  /** What a read leaves behind: nothing readable, or end of stream. */
  ghost predicate NothingReadable(r: Receiver)
  {
    r.queue == [] && !r.closed
  }

  /** Closed, with every byte read. */
  ghost predicate Finished(r: Receiver)
  {
    r.queue == [] && r.closed
  }

  /** The order in which the stream's holdings fall. */
  ghost predicate Smaller(a: Receiver, b: Receiver)
  {
    |a.heap| < |b.heap| || (|a.heap| == |b.heap| && |a.queue| < |b.queue|)
  }

  /** A read that yields bytes either empties the queue by that much or takes a frame off the heap. */
  lemma ReadProgress(lim: Limits, r: Receiver, want: nat)
    requires Read(lim, r, want).1.Bytes?
    ensures Smaller(Read(lim, r, want).0, r)
  {
    var n := if want < |r.queue| then want else |r.queue|;
    DrainShrinks(lim.cap, r.(queue := r.queue[n..]));
  }

  lemma {:induction false} DrainShrinks(cap: nat, r: Receiver)
    ensures var r' := Drain(cap, r).0; |r'.heap| < |r.heap| || r' == r
    decreases |r.heap|
  {
    if r.heap != [] && r.heap[0].key == r.next && r.heap[0].val.closing == CLOSING_NOTHING
       && cap - |r.queue| >= |r.heap[0].val.payload| {
      DrainShrinks(cap, Receiver(Heap.RemoveAt(r.heap, 0), r.next + 1, Enqueued(r, r.heap[0].val.payload), r.closed));
    }
  }

  lemma ReadResults(lim: Limits, r: Receiver, want: nat)
    requires want > 0
    ensures var (r', res) := Read(lim, r, want);
      && (res.Bytes? ==> 0 < |res.out| <= want)
      && (!res.Bytes? ==> r' == r)
      && (res == Nothing ==> NothingReadable(r))
      && (res == Eof ==> Finished(r))
  {
  }

  /** Only reads were added to a run. */
  ghost predicate OnlyReads(was: seq<Event>, events: seq<Event>)
  {
    was <= events && forall i :: |was| <= i < |events| ==> events[i].ReadEvent?
  }

  lemma ReadStep(lim: Limits, events: seq<Event>, want: nat, h: History)
    requires h == Run(lim, START, events)
    ensures var (r', res) := Read(lim, h.r, want);
      Run(lim, START, events + [ReadEvent(want)]) == History(r', h.accepted, if res.Bytes? then h.read + res.out else h.read)
  {
    hide Run;
    hide Read;
    RunAppend(lim, START, events, ReadEvent(want));
  }

  lemma FeedStep(lim: Limits, events: seq<Event>, f: Frame, h: History)
    requires h == Run(lim, START, events)
    ensures var h' := Run(lim, START, events + [FeedEvent(f)]); h'.r == Feed(lim, h.r, f).0 && h'.read == h.read
  {
    hide Run;
    hide Feed;
    RunAppend(lim, START, events, FeedEvent(f));
  }

  class Relay {
    const stream: S.Stream
    const toFd: BQ.ByteQueue
    var streamEnded: bool
    var out: Octets              // bytes the descriptor took
    var answers: seq<K.Answer>   // what the descriptor will answer from here on, whatever that is
    ghost var events: seq<Event> // what happened to the stream since it was opened

    /** The queue and the stream's own buffers are different objects. */
    ghost predicate Separate()
      reads stream
    {
      && toFd != stream.recvBytes && toFd.data != stream.recvBytes.data
    }

    /** The stream's whole run. */
    ghost function Past(): (h: History)
      reads this`events, stream
    {
      Run(stream.Lim(), START, events)
    }

    /** The stream is where its run leads, and every byte that run ever read from it is on the descriptor or queued for
        it, in order. */
    ghost predicate Valid()
      reads this, toFd, toFd.data, stream, stream.heap, stream.recvBytes, stream.recvBytes.data
    {
      && Separate() && stream.Valid() && toFd.Valid() && !toFd.closed
      && Past().r == stream.Abs()
      && out + toFd.Contents() == Past().read
    }

    /** A relay may start on a stream that has received frames but that nobody has read from. */
    constructor (s: S.Stream, cap: nat, ghost past: seq<Event>)
      requires s.Valid() && cap > 0
      requires Run(s.Lim(), START, past).r == s.Abs() && Run(s.Lim(), START, past).read == []
      ensures Valid() && fresh(toFd) && fresh(toFd.data) && stream == s && out == [] && !streamEnded && events == past
    {
      stream := s;
      toFd := new BQ.ByteQueue(cap);
      streamEnded, out, events, answers := false, [], past, [];
    }

    /** A frame for the stream arrives between two pumps. */
    method FrameArrives(f: Frame) returns (rc: int)
      requires Valid()
      modifies this`events, stream`heap, stream`heapLen, stream`nextRecv, stream`closingSeen
      modifies stream.heap, stream.recvBytes, stream.recvBytes.data
      ensures Valid() && events == old(events) + [FeedEvent(f)] && out == old(out)
    {
      hide Run;
      hide Feed;
      hide BQ.ByteQueue.Contents;
      FeedStep(stream.Lim(), events, f, Past());
      rc := stream.FeedFrame(f);
      events := events + [FeedEvent(f)];
    }

    /** Bytes just read go to the back of the queue, where there is room for them. */
    method Accept(b: Octets)
      requires Separate() && toFd.Valid() && !toFd.closed && |b| <= toFd.Free()
      modifies toFd, toFd.data
      ensures toFd.Valid() && !toFd.closed && out + toFd.Contents() == old(out + toFd.Contents()) + b
      ensures b == [] ==> toFd.Contents() == old(toFd.Contents())
    {
      hide BQ.ByteQueue.Contents;
      ghost var queued := toFd.Contents();
      var _ := toFd.Write(b);
      assert toFd.Contents() == queued + b;
      Regroup(out, queued, b);
    }

    /** One read of the stream, accounted for in its run. */
    method ReadStream(want: nat) returns (res: ReadResult)
      requires stream.Valid() && Past().r == stream.Abs()
      modifies this`events, stream`heapLen, stream`nextRecv, stream`closingSeen, stream.heap
      modifies stream.recvBytes, stream.recvBytes.data
      ensures stream.Valid() && Past().r == stream.Abs() && events == old(events) + [ReadEvent(want)]
      ensures (stream.Abs(), res) == Read(stream.Lim(), old(stream.Abs()), want)
      ensures Past().read == if res.Bytes? then old(Past()).read + res.out else old(Past()).read
    {
      hide Run;
      hide Read;
      ReadStep(stream.Lim(), events, want, Past());
      res := stream.ReadBytes(want);
      events := events + [ReadEvent(want)];
    }

    /** Moves what the stream has into the queue, as far as the queue has room. */
    method TryFill() returns (total: nat)
      requires Valid()
      modifies this`streamEnded, this`events, toFd, toFd.data
      modifies stream`heapLen, stream`nextRecv, stream`closingSeen, stream.heap, stream.recvBytes, stream.recvBytes.data
      ensures Valid() && OnlyReads(old(events), events)
      ensures old(streamEnded) ==> streamEnded && total == 0
      ensures streamEnded && !old(streamEnded) ==> Finished(stream.Abs())
      ensures total == 0 ==> stream.Abs() == old(stream.Abs()) && toFd.Contents() == old(toFd.Contents())
      ensures total > 0 ==> Smaller(stream.Abs(), old(stream.Abs()))
      ensures streamEnded || toFd.Free() == 0 || NothingReadable(stream.Abs())
    {
      hide Read;
      hide Run;
      hide BQ.ByteQueue.Contents;
      hide Finished;
      hide NothingReadable;
      total := 0;
      if streamEnded {
        return;
      }
      while true
        invariant Valid() && OnlyReads(old(events), events) && !streamEnded
        invariant total == 0 ==> stream.Abs() == old(stream.Abs()) && toFd.Contents() == old(toFd.Contents())
        invariant total > 0 ==> Smaller(stream.Abs(), old(stream.Abs()))
        decreases |stream.Abs().heap|, |stream.Abs().queue|
      {
        var room := toFd.Free();
        if room == 0 {
          return;
        }
        var want := if room < PB.RELAY_CHUNK then room else PB.RELAY_CHUNK;
        ghost var before := stream.Abs();
        var res := ReadStream(want);
        ReadResults(stream.Lim(), before, want);
        match res {
          case Eof =>
            streamEnded := true;
            return;
          case Nothing =>
            return;
          case Bytes(b) =>
            ReadProgress(stream.Lim(), before, want);
            Accept(b);
            total := total + |b|;
        }
      }
    }

    /** One offer of queued bytes; what the descriptor takes leaves the queue. A descriptor that takes nothing, but does not
        say it would block, has failed. */
    method Offer() returns (k: K.Answer)
      requires Valid() && toFd.len > 0
      modifies this`out, this`answers, toFd
      ensures Valid()
      ensures var q := old(toFd.Contents()); var ks := old(answers);
        && answers == (if ks == [] then [] else ks[1..])
        && (if ks != [] && ks[0].Took? && ks[0].n > 0
            then k.Took? && 0 < k.n <= |q| && k.n == K.Min(ks[0].n, K.Min(|q|, PB.RELAY_CHUNK))
                 && out == old(out) + q[..k.n] && toFd.Contents() == q[k.n..]
            else out == old(out) && toFd.Contents() == q && k == if ks == [] || ks[0] == K.Again then K.Again else K.Failed)
    {
      hide BQ.ByteQueue.Contents;
      hide Run;
      if answers == [] {
        return K.Again;
      }
      var have := toFd.Peek(PB.RELAY_CHUNK);
      k := answers[0];
      answers := answers[1..];
      if k == K.Again {
        return;
      }
      if k == K.Failed || k.n == 0 {
        return K.Failed;
      }
      var n := K.Min(k.n, |have|);
      ghost var queued := toFd.Contents();
      var gone := toFd.Read(n);
      assert queued == gone + toFd.Contents();
      Regroup(out, gone, toFd.Contents());
      out := out + gone;
      k := K.Took(n);
    }

    /** Offers queued bytes until none is left or the descriptor stops: exactly what its answers took leaves the queue. */
    method TryDrain() returns (ok: bool, sent: nat, blocked: bool)
      requires Valid()
      modifies this`out, this`answers, toFd
      ensures Valid()
      ensures var q := old(toFd.Contents()); var d := K.Relayed(|q|, PB.RELAY_CHUNK, old(answers));
        && sent == d.took && out == old(out) + q[..sent] && toFd.Contents() == q[sent..] && answers == d.rest
        && ok == !d.failed && (ok ==> (blocked <==> sent < |q|))
      ensures K.Used(old(answers), answers) && (ok && blocked ==> K.Blocked(old(answers), answers))
      ensures !ok ==> K.Gave(old(answers), answers)
    {
      hide BQ.ByteQueue.Contents;
      hide Relay.Valid;
      hide K.Min;
      hide K.Relayed;
      hide K.Used;
      hide K.Blocked;
      hide K.Gave;
      QueueValid();
      ghost var q := toFd.Contents();
      ghost var d := K.Relayed(|q|, PB.RELAY_CHUNK, answers);
      K.RelayedStops(|q|, PB.RELAY_CHUNK, answers);
      sent := 0;
      assert q[..0] == [] && q[0..] == q && out + [] == out;
      while toFd.len > 0
        invariant Valid() && toFd.Valid()
        invariant sent <= |q| && out == old(out) + q[..sent] && toFd.Contents() == q[sent..]
        invariant d == K.After(sent, K.Relayed(|q| - sent, PB.RELAY_CHUNK, answers))
        decreases |q| - sent
      {
        K.RelayedIs(|q| - sent, PB.RELAY_CHUNK, answers);
        var k := Offer();
        QueueValid();
        if k == K.Again {
          return true, sent, true;
        }
        if k == K.Failed {
          return false, sent, true;
        }
        OutMore(old(out), q, sent, k.n);
        sent := sent + k.n;
      }
      K.RelayedIs(0, PB.RELAY_CHUNK, answers);
      return true, sent, false;
    }

    lemma QueueValid()
      requires Valid()
      ensures toFd.Valid()
    {
    }

    /** Fills and drains until neither moves a byte. It terminates although filling lengthens the queue, because
        what the stream holds falls whenever it does. It stops the relay only when the descriptor broke or when
        the stream ended and every byte of it was written; otherwise either the descriptor blocked with bytes
        still queued, or the queue is empty and the stream has nothing readable, so no byte is stranded. */
    method Pump() returns (go: bool, broken: bool, blocked: bool)
      requires Valid()
      modifies this`streamEnded, this`events, this`out, this`answers, toFd, toFd.data
      modifies stream`heapLen, stream`nextRecv, stream`closingSeen, stream.heap, stream.recvBytes, stream.recvBytes.data
      ensures Valid() && old(out) <= out && OnlyReads(old(events), events) && K.Used(old(answers), answers)
      ensures go && blocked ==> K.Blocked(old(answers), answers)
      ensures broken ==> !go && K.Gave(old(answers), answers)
      ensures go ==> (blocked && toFd.Contents() != []) ||
                     (toFd.Contents() == [] && !streamEnded && NothingReadable(stream.Abs()))
      ensures !go ==> broken ||
                      (streamEnded && out == Past().read && (old(streamEnded) || Finished(stream.Abs())))
    {
      hide BQ.ByteQueue.Contents;
      hide NothingReadable;
      hide Run;
      hide K.Relayed;
      hide K.Used;
      hide K.Blocked;
      hide K.Gave;
      assert K.Used(answers, answers) by { K.UsedAll(answers); }
      while true
        invariant Valid() && old(out) <= out && OnlyReads(old(events), events) && K.Used(old(answers), answers)
        invariant old(streamEnded) ==> streamEnded
        invariant streamEnded && !old(streamEnded) ==> Finished(stream.Abs())
        decreases |stream.Abs().heap|, |stream.Abs().queue|, toFd.len
      {
        ghost var before := stream.Abs();
        var filled := TryFill();
        ghost var ks := answers;
        var ok, sent, stuck := TryDrain();
        K.UsedMore(old(answers), ks, answers);
        if !ok {
          return false, true, stuck;
        }
        if filled == 0 && sent == 0 {
          blocked := stuck;
          break;
        }
      }
      if streamEnded && toFd.len == 0 {
        assert out == Past().read by { assert toFd.Contents() == []; }
        return false, false, blocked;
      }
      return true, false, blocked;
    }

    /** What reaches the descriptor is, at any time, a prefix of what the far end wrote, and all of it once the stream
        has finished and the queue is empty. */
    lemma DescriptorGetsTheWrites(writes: seq<Octets>, max: nat)
      requires Valid() && max > 0 && FromSender(Frames(writes, max, 0), events)
      ensures out <= Flatten(writes)
      ensures toFd.Contents() == [] && Finished(stream.Abs()) ==> out == Flatten(writes)
    {
      hide Run;
      hide Frames;
      hide Flatten;
      EndToEnd(stream.Lim(), writes, max, events, 1);
      assert Finished(stream.Abs()) ==> Read(stream.Lim(), Past().r, 1).1 == Eof;
      assert out <= out + toFd.Contents();
      assert toFd.Contents() == [] ==> out + toFd.Contents() == out;
    }
  }

  lemma OutMore(w: Octets, q: Octets, a: nat, n: nat)
    requires a + n <= |q|
    ensures (w + q[..a]) + q[a..][..n] == w + q[..a + n] && q[a..][n..] == q[a + n..]
  {
    assert q[..a] + q[a..][..n] == q[..a + n];
    Regroup(w, q[..a], q[a..][..n]);
  }
}

/** The whole tunnel, end to end: a stream's writes are cut into frames, encoded, spread over a pool of connections with
    other streams' frames and control frames between them, taken by the kernel in pieces, read in other pieces, decoded,
    routed and reassembled. This joins Reassembly, FrameCodec and Framing. */
module Tunnel {
  import opened Wrappers
  import opened Bytes
  import R = Reassembly
  import F = Framing
  import C = FrameCodec
  import D = Delivery

  /** One connection of the pool: what was queued on it, the close that may have ended it, and the pieces in which the far
      end read what the kernel had taken. */
  datatype Line = Line(framing: F.Framing, max: nat, items: seq<F.Item>, close: Option<F.Item>, chunks: seq<Octets>)

  ghost predicate Queued(l: Line)
  {
    && F.AllSendable(l.framing, l.max, l.items) && F.StillOpen(l.items)
    && (l.close.Some? ==>
          F.KeyOk(l.close.value) && F.Sendable(l.framing, l.max, l.close.value) && l.close.value.CloseItem?)
  }

  function AllBytes(l: Line): (b: Octets)
    requires Queued(l)
  {
    F.EncodeAll(l.framing, l.items) + if l.close.Some? then F.Encode(l.framing, l.close.value) else []
  }

  /** Any prefix of what was queued, read in any pieces. */
  ghost predicate Carries(l: Line)
  {
    Queued(l) && Flatten(l.chunks) <= AllBytes(l)
  }

  /** What the far end of a connection hands on. */
  function Outs(l: Line): (outs: seq<F.Out>)
  {
    F.Receive(F.Peer(l.framing), l.max, F.FRESH, l.chunks).outs
  }

  function ToFrame(f: C.Frame): (r: R.Frame)
  {
    R.Frame(f.num, R.Body(f.closing, f.payload))
  }

  /** What the codec may be asked to encode, and may draw for it. */
  ghost predicate Encodable(o: C.Obfuscator, f: C.Frame, d: C.Draw)
  {
    C.Sound(o) && C.FieldsFit(f) && f.payload != [] && C.Drawable(o, f, d) && |C.Body(o, f, d)| >= C.SALSA_NONCE
  }

  /** `body` is an encoded frame; if it is of this stream, the stream sent it. */
  ghost predicate Encoded(o: C.Obfuscator, id: nat, fs: seq<R.Frame>, body: Octets)
  {
    exists f, d :: Encodable(o, f, d) && body == C.Wire(o, f, d) && (f.streamId == id ==> R.Sent(fs, ToFrame(f)))
  }

  /** Every connection carries encoded frames, of this stream and of others, and control frames. */
  ghost predicate FromPool(o: C.Obfuscator, id: nat, fs: seq<R.Frame>, lines: seq<Line>)
  {
    forall l :: l in lines ==>
      Carries(l) && forall k :: 0 <= k < |l.items| && l.items[k].FrameItem? ==> Encoded(o, id, fs, l.items[k].body)
  }

  /** The far end hands over an envelope that decodes to this frame of the stream. */
  ghost predicate Arrived(o: C.Obfuscator, id: nat, lines: seq<Line>, f: R.Frame)
    requires C.Sound(o)
  {
    exists l, body :: l in lines && F.Envelope(body) in Outs(l) && Decodes(o, id, body, f)
  }

  ghost predicate Decodes(o: C.Obfuscator, id: nat, body: Octets, f: R.Frame)
    requires C.Sound(o)
  {
    var r := C.Decode(o, body);
    r.Some? && r.value.streamId == id && ToFrame(r.value) == f
  }

  /** The stream is fed arrived frames only, in any order, and read in any way. */
  ghost predicate Routed(o: C.Obfuscator, id: nat, lines: seq<Line>, events: seq<R.Event>)
    requires C.Sound(o)
  {
    forall i :: 0 <= i < |events| && events[i].FeedEvent? ==> Arrived(o, id, lines, events[i].frame)
  }

  // ---------- connections deliver what was queued ----------

  lemma {:induction false} DeliveredBodies(items: seq<F.Item>, body: Octets)
    ensures F.Envelope(body) in F.DeliveredAll(items) <==>
            exists k :: 0 <= k < |items| && items[k].FrameItem? && items[k].body == body
  {
    if items != [] {
      DeliveredBodies(items[1..], body);
      assert forall k :: 0 <= k < |items[1..]| ==> items[1..][k] == items[k + 1];
      if k :| 0 <= k < |items| && items[k].FrameItem? && items[k].body == body {
        assert k > 0 ==> items[1..][k - 1] == items[k];
      }
    }
  }

  /** Every envelope handed over is the body of a queued frame. */
  lemma EnvelopeIsItem(l: Line, body: Octets) returns (k: nat)
    requires Carries(l) && F.Envelope(body) in Outs(l)
    ensures k < |l.items| && l.items[k].FrameItem? && l.items[k].body == body
  {
    hide F.Receive;
    hide F.EncodeAll;
    hide F.Encode;
    hide F.Sendable;
    var outs := Outs(l);
    var all := F.DeliveredAll(l.items);
    if l.close.Some? {
      F.RoundTripClosed(l.framing, l.max, l.items, l.close.value, Flatten(l.chunks), l.chunks);
      InPrefix(outs, all, F.CloseEcho(l.close.value.body), F.Envelope(body));
    } else {
      assert AllBytes(l) == F.EncodeAll(l.framing, l.items);
      F.RoundTrip(l.framing, l.max, l.items, Flatten(l.chunks), l.chunks);
    }
    DeliveredBodies(l.items, body);
    k :| 0 <= k < |l.items| && l.items[k].FrameItem? && l.items[k].body == body;
  }

  lemma InPrefix(outs: seq<F.Out>, all: seq<F.Out>, last: F.Out, x: F.Out)
    requires outs <= all + [last] && x in outs && x != last
    ensures x in all
  {
    var i :| 0 <= i < |outs| && outs[i] == x;
    assert (all + [last])[i] == x;
  }

  /** And once a connection has been read to its end, every queued frame has been handed over. */
  lemma ItemIsEnvelope(l: Line, k: nat)
    requires Carries(l) && Flatten(l.chunks) == AllBytes(l) && k < |l.items| && l.items[k].FrameItem?
    ensures F.Envelope(l.items[k].body) in Outs(l)
  {
    hide F.Receive;
    hide F.EncodeAll;
    hide F.Encode;
    hide F.Sendable;
    DeliveredBodies(l.items, l.items[k].body);
    if l.close.Some? {
      F.RoundTripClosed(l.framing, l.max, l.items, l.close.value, Flatten(l.chunks), l.chunks);
    } else {
      assert AllBytes(l) == F.EncodeAll(l.framing, l.items);
      F.RoundTrip(l.framing, l.max, l.items, Flatten(l.chunks), l.chunks);
    }
  }

  // ---------- only what was sent arrives, and all of it can ----------

  lemma ArrivedWasSent(o: C.Obfuscator, id: nat, fs: seq<R.Frame>, lines: seq<Line>, f: R.Frame)
    requires C.Sound(o) && FromPool(o, id, fs, lines) && Arrived(o, id, lines, f)
    ensures R.Sent(fs, f)
  {
    hide C.Wire;
    hide C.Body;
    hide C.Decode;
    hide Carries;
    hide Outs;
    var l, body :| l in lines && F.Envelope(body) in Outs(l) && Decodes(o, id, body, f);
    var k := EnvelopeIsItem(l, body);
    assert Encoded(o, id, fs, l.items[k].body);
    var cf, d :| Encodable(o, cf, d) && body == C.Wire(o, cf, d) && (cf.streamId == id ==> R.Sent(fs, ToFrame(cf)));
    C.RoundTrip(o, cf, d);
  }

  lemma RoutedIsFromSender(o: C.Obfuscator, id: nat, fs: seq<R.Frame>, lines: seq<Line>, events: seq<R.Event>)
    requires C.Sound(o) && FromPool(o, id, fs, lines) && Routed(o, id, lines, events)
    ensures R.FromSender(fs, events)
  {
    hide C.Sound;
    hide FromPool;
    hide Arrived;
    hide R.Sent;
    forall i | 0 <= i < |events| && events[i].FeedEvent?
      ensures R.Sent(fs, events[i].frame)
    {
      ArrivedWasSent(o, id, fs, lines, events[i].frame);
    }
  }

  /** THE TUNNEL. For every series of writes, every padding and filler drawn, every spreading of the frames over any number
      of connections of any framing among any other traffic, every pattern of partial kernel writes and every cut of the
      reads, every order in which the connections' envelopes reach the stream, and every interleaving of reads: the bytes
      read are a prefix of the bytes written, they are all of them once every data frame was accepted and the queue is
      drained, and end of stream is reported only after all of them were read. */
  lemma EndToEnd(o: C.Obfuscator, id: nat, lim: R.Limits, writes: seq<Octets>, max: nat, lines: seq<Line>,
                 events: seq<R.Event>, want: nat)
    requires C.Sound(o) && max > 0
    requires FromPool(o, id, R.Frames(writes, max, 0), lines) && Routed(o, id, lines, events)
    ensures var h := R.Run(lim, R.START, events); var fs := R.Frames(writes, max, 0);
      && h.read <= Flatten(writes)
      && ((forall k :: 0 <= k < |fs| ==> k in h.accepted) && h.r.queue == [] ==> h.read == Flatten(writes))
      && (R.Read(lim, h.r, want).1 == R.Eof ==> h.read == Flatten(writes))
  {
    hide C.Sound;
    hide FromPool;
    hide Routed;
    hide R.Frames;
    hide R.Run;
    hide R.Read;
    RoutedIsFromSender(o, id, R.Frames(writes, max, 0), lines, events);
    R.EndToEnd(lim, writes, max, events, want);
  }

  /** Nothing is lost on the way: a frame queued on a connection that was read to its end has arrived, as it was sent. */
  lemma SentArrives(o: C.Obfuscator, id: nat, lines: seq<Line>, l: Line, k: nat, f: C.Frame, d: C.Draw)
    requires l in lines && Carries(l) && Flatten(l.chunks) == AllBytes(l)
    requires k < |l.items| && l.items[k].FrameItem? && Encodable(o, f, d) && f.streamId == id
    requires l.items[k].body == C.Wire(o, f, d)
    ensures Arrived(o, id, lines, ToFrame(f))
  {
    hide C.Wire;
    hide C.Body;
    hide C.Decode;
    hide Outs;
    ItemIsEnvelope(l, k);
    C.RoundTrip(o, f, d);
    assert Decodes(o, id, l.items[k].body, ToFrame(f));
  }

  /** NOTHING IS LOST END TO END. If besides every data frame of the stream is fed to it at least once, in any order, and the
      receiver has a pending slot for each and a queue that a frame fits, then enough further reads give exactly the bytes
      written. */
  lemma EverythingArrives(o: C.Obfuscator, id: nat, lim: R.Limits, writes: seq<Octets>, max: nat, lines: seq<Line>,
                          events: seq<R.Event>, wants: seq<nat>)
    requires C.Sound(o) && 0 < max <= lim.cap && |R.Frames(writes, max, 0)| < lim.maxPending
    requires FromPool(o, id, R.Frames(writes, max, 0), lines) && Routed(o, id, lines, events)
    requires forall f :: f in R.Frames(writes, max, 0) ==> R.FeedEvent(f) in events
    requires |wants| >= |Flatten(writes)| && forall i :: 0 <= i < |wants| ==> wants[i] > 0
    ensures R.Run(lim, R.START, events + D.Reads(wants)).read == Flatten(writes)
  {
    hide C.Sound;
    hide FromPool;
    hide Routed;
    hide R.Frames;
    hide R.Run;
    RoutedIsFromSender(o, id, R.Frames(writes, max, 0), lines, events);
    D.EverythingArrives(lim, writes, max, events, wants);
  }
}

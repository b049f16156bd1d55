/** Connection framing as values (conn.c): the two incremental parsers, the two encoders, and what joins them. */
module Framing {
  import opened Bytes
  import opened WsFrame

  const RECORD_HEADER: nat := 5
  const MAX_FRAME: nat := 16640

  datatype Framing = TlsRecord | WsClient | WsServer
  {
    /** We mask exactly when we are the client; our peer masks exactly when we are the server. */
    predicate WeMask() { this == WsClient }
    predicate PeerMasks() { this == WsServer }
  }

  /** What one connection's receive side does besides consuming bytes. */
  datatype Out = Envelope(body: Octets) | Pong(body: Octets) | CloseEcho(body: Octets)

  /** Unparsed bytes, the message being reassembled, and whether one is. */
  datatype Recv = Recv(acc: Octets, msg: Octets, active: bool)
  {
    function Feed(more: Octets): (r: Recv) { this.(acc := acc + more) }
  }

  datatype Outcome = Wait | Break(outs: seq<Out>) | Advance(next: Recv, outs: seq<Out>)

  function TlsStep(max: nat, r: Recv): (o: Outcome)
    ensures o.Advance? ==> |o.next.acc| < |r.acc|
  {
    if |r.acc| < RECORD_HEADER then Wait else
      var len := Load(r.acc[3..5]);
      if len > max then Break([])
      else if |r.acc| < RECORD_HEADER + len then Wait
      else Advance(r.(acc := r.acc[RECORD_HEADER + len..]), [Envelope(r.acc[RECORD_HEADER..RECORD_HEADER + len])])
  }

  function Payload(h: Header, acc: Octets): (b: Octets)
    requires h.headerLen + h.len <= |acc| && (h.key == [] || |h.key| == 4)
    ensures |b| == h.len
  {
    var raw := acc[h.headerLen..h.headerLen + h.len];
    if h.Masked() then Mask(raw, h.key, 0) else raw
  }

  /** A control frame may be interleaved into a fragmented message and leaves the message alone. */
  function ControlStep(h: Header, r: Recv, body: Octets, rest: Octets): (o: Outcome)
    requires |rest| < |r.acc|
    ensures o.Advance? ==> |o.next.acc| < |r.acc|
  {
    if h.op == OP_PING then Advance(r.(acc := rest), [Pong(body)])
    else if h.op == OP_PONG then Advance(r.(acc := rest), [])
    else Break([CloseEcho(body)])
  }

  /** A data frame extends the message; the last one delivers it. */
  function DataStep(max: nat, h: Header, r: Recv, body: Octets, rest: Octets): (o: Outcome)
    requires |rest| < |r.acc|
    ensures o.Advance? ==> |o.next.acc| < |r.acc|
  {
    if (h.op == OP_CONTINUATION) != r.active then Break([])
    else if |body| + |r.msg| > max then Break([])
    else if !h.fin then Advance(Recv(rest, r.msg + body, true), [])
    else Advance(Recv(rest, [], false), [Envelope(r.msg + body)])
  }

  function FrameStep(max: nat, h: Header, r: Recv, body: Octets, rest: Octets): (o: Outcome)
    requires |rest| < |r.acc|
    ensures o.Advance? ==> |o.next.acc| < |r.acc|
  {
    if IsControl(h.op) then ControlStep(h, r, body, rest) else DataStep(max, h, r, body, rest)
  }

  /** A parsed header: refuse it, wait for its payload, or take the frame. */
  function HeaderStep(peerMasks: bool, max: nat, h: Header, r: Recv): (o: Outcome)
    requires 2 <= h.headerLen && (h.key == [] || |h.key| == 4)
    ensures o.Advance? ==> |o.next.acc| < |r.acc|
  {
    if h.Masked() != peerMasks || h.len > max then Break([])
    else if |r.acc| < h.headerLen + h.len then Wait
    else FrameStep(max, h, r, Payload(h, r.acc), r.acc[h.headerLen + h.len..])
  }

  function WsStep(peerMasks: bool, max: nat, r: Recv): (o: Outcome)
    ensures o.Advance? ==> |o.next.acc| < |r.acc|
  {
    match ParseHeader(r.acc)
    case NeedMore => Wait
    case Malformed => Break([])
    case Complete(h) => HeaderStep(peerMasks, max, h, r)
  }

  function Step(f: Framing, max: nat, r: Recv): (o: Outcome)
    ensures o.Advance? ==> |o.next.acc| < |r.acc|
  {
    if f.TlsRecord? then TlsStep(max, r) else WsStep(f.PeerMasks(), max, r)
  }

  /** Everything one dispatch loop does: the state it stops in, its outputs, and whether it broke. */
  datatype Result = Result(r: Recv, outs: seq<Out>, broken: bool)

  function Dispatch(f: Framing, max: nat, r: Recv): (res: Result)
    decreases |r.acc|
  {
    match Step(f, max, r)
    case Wait => Result(r, [], false)
    case Break(outs) => Result(r, outs, true)
    case Advance(next, outs) =>
      After(outs, Dispatch(f, max, next))
  }

  /** Reads arrive in pieces; a broken connection reads no more. */
  function Receive(f: Framing, max: nat, r: Recv, chunks: seq<Octets>): (res: Result)
    decreases |chunks|
  {
    if chunks == [] then Result(r, [], false) else
      var d := Dispatch(f, max, r.Feed(chunks[0]));
      if d.broken then d else
        After(d.outs, Receive(f, max, d.r, chunks[1..]))
  }

  const FRESH := Recv([], [], false)

  // ---------- the verdict is a function of the bytes alone ----------

  /** The same outcome with more bytes behind it. */
  function Extended(o: Outcome, more: Octets): (o': Outcome)
  {
    if o.Advance? then Advance(o.next.Feed(more), o.outs) else o
  }

  lemma TlsMonotone(max: nat, r: Recv, more: Octets)
    requires TlsStep(max, r) != Wait
    ensures TlsStep(max, r.Feed(more)) == Extended(TlsStep(max, r), more)
  {
    var acc := r.acc + more;
    assert acc[3..5] == r.acc[3..5];
    var len := Load(r.acc[3..5]);
    if len <= max {
      assert acc[RECORD_HEADER..RECORD_HEADER + len] == r.acc[RECORD_HEADER..RECORD_HEADER + len];
      assert acc[RECORD_HEADER + len..] == r.acc[RECORD_HEADER + len..] + more;
    }
  }

  lemma FrameMonotone(max: nat, h: Header, r: Recv, body: Octets, rest: Octets, more: Octets)
    requires |rest| < |r.acc|
    ensures FrameStep(max, h, r.Feed(more), body, rest + more) == Extended(FrameStep(max, h, r, body, rest), more)
  {
  }

  lemma PayloadMonotone(h: Header, acc: Octets, more: Octets)
    requires h.headerLen + h.len <= |acc| && (h.key == [] || |h.key| == 4)
    ensures Payload(h, acc + more) == Payload(h, acc)
    ensures (acc + more)[h.headerLen + h.len..] == acc[h.headerLen + h.len..] + more
  {
    assert (acc + more)[h.headerLen..h.headerLen + h.len] == acc[h.headerLen..h.headerLen + h.len];
  }

  lemma HeaderMonotone(peerMasks: bool, max: nat, h: Header, r: Recv, more: Octets)
    requires 2 <= h.headerLen && (h.key == [] || |h.key| == 4) && HeaderStep(peerMasks, max, h, r) != Wait
    ensures HeaderStep(peerMasks, max, h, r.Feed(more)) == Extended(HeaderStep(peerMasks, max, h, r), more)
  {
    hide Payload;
    hide FrameStep;
    if h.headerLen + h.len <= |r.acc| {
      PayloadMonotone(h, r.acc, more);
      FrameMonotone(max, h, r, Payload(h, r.acc), r.acc[h.headerLen + h.len..], more);
    }
  }

  lemma WsMonotone(peerMasks: bool, max: nat, r: Recv, more: Octets)
    requires WsStep(peerMasks, max, r) != Wait
    ensures WsStep(peerMasks, max, r.Feed(more)) == Extended(WsStep(peerMasks, max, r), more)
  {
    ParseMonotone(r.acc, more);
    hide ParseHeader;
    hide HeaderStep;
    if ParseHeader(r.acc).Complete? { HeaderMonotone(peerMasks, max, ParseHeader(r.acc).h, r, more); }
  }

  lemma StepMonotone(f: Framing, max: nat, r: Recv, more: Octets)
    requires Step(f, max, r) != Wait
    ensures Step(f, max, r.Feed(more)) == Extended(Step(f, max, r), more)
  {
    hide TlsStep;
    hide WsStep;
    if f.TlsRecord? { TlsMonotone(max, r, more); } else { WsMonotone(f.PeerMasks(), max, r, more); }
  }

  /** A dispatch that continues after `outs` were already produced. */
  function After(outs: seq<Out>, d: Result): (res: Result)
  {
    Result(d.r, outs + d.outs, d.broken)
  }

  lemma AfterAfter(a: seq<Out>, b: seq<Out>, d: Result)
    ensures After(a, After(b, d)) == After(a + b, d)
    ensures After([], d) == d
  {
    assert a + (b + d.outs) == (a + b) + d.outs;
    assert [] + d.outs == d.outs;
  }

  /** Dispatching early and going on equals dispatching once at the end. */
  lemma {:induction false} DispatchAppend(f: Framing, max: nat, r: Recv, more: Octets)
    ensures var d := Dispatch(f, max, r); var whole := Dispatch(f, max, r.Feed(more));
      && (d.broken ==> whole.broken && whole.outs == d.outs)
      && (!d.broken ==> whole == After(d.outs, Dispatch(f, max, d.r.Feed(more))))
    decreases |r.acc|
  {
    hide Step;
    match Step(f, max, r) {
      case Wait =>
        AfterAfter([], [], Dispatch(f, max, r.Feed(more)));
      case Break(outs) =>
        StepMonotone(f, max, r, more);
      case Advance(next, outs) =>
        StepMonotone(f, max, r, more);
        DispatchAppend(f, max, next, more);
        var d := Dispatch(f, max, next);
        assert Dispatch(f, max, r.Feed(more)) == After(outs, Dispatch(f, max, next.Feed(more)));
        AfterAfter(outs, d.outs, Dispatch(f, max, d.r.Feed(more)));
    }
  }

  /** However reads are cut, the outputs and the broken verdict are those of one pass over the concatenated bytes,
      and so is the state while the connection lives. */
  lemma {:induction false} ChunkingIrrelevant(f: Framing, max: nat, r: Recv, chunks: seq<Octets>)
    requires Dispatch(f, max, r) == Result(r, [], false)
    ensures var cut := Receive(f, max, r, chunks); var whole := Dispatch(f, max, r.Feed(Flatten(chunks)));
      cut.outs == whole.outs && cut.broken == whole.broken && (!cut.broken ==> cut.r == whole.r)
    decreases |chunks|
  {
    hide Dispatch;
    if chunks == [] {
      assert r.Feed([]) == r;
    } else {
      var d := Dispatch(f, max, r.Feed(chunks[0]));
      var tail := Flatten(chunks[1..]);
      DispatchAppend(f, max, r.Feed(chunks[0]), tail);
      assert r.Feed(chunks[0]).Feed(tail) == r.Feed(Flatten(chunks));
      if !d.broken {
        DispatchSettles(f, max, r.Feed(chunks[0]));
        ChunkingIrrelevant(f, max, d.r, chunks[1..]);
      }
    }
  }

  /** A dispatch that did not break left nothing to do. */
  lemma {:induction false} DispatchSettles(f: Framing, max: nat, r: Recv)
    requires !Dispatch(f, max, r).broken
    ensures Step(f, max, Dispatch(f, max, r).r) == Wait
    ensures Dispatch(f, max, Dispatch(f, max, r).r) == Result(Dispatch(f, max, r).r, [], false)
    decreases |r.acc|
  {
    hide Step;
    if Step(f, max, r).Advance? { DispatchSettles(f, max, Step(f, max, r).next); }
  }

  // ---------- sizes ----------

  /** Bytes one frame costs on the wire. */
  function WsEnvelopeLen(len: nat, masked: bool): (n: nat)
  {
    2 + (if len > MAX_CONTROL then 2 else 0) + (if masked then 4 else 0) + len
  }

  function SendEnvelopeLen(f: Framing, len: nat): (n: nat)
  {
    if f.TlsRecord? then RECORD_HEADER + len else WsEnvelopeLen(len, f.WeMask())
  }

  function RecvEnvelopeLen(f: Framing, len: nat): (n: nat)
  {
    if f.TlsRecord? then RECORD_HEADER + len else WsEnvelopeLen(len, f.PeerMasks())
  }

  /** The accumulator's capacity. */
  function AccCap(f: Framing, max: nat): (n: nat)
  {
    2 * RecvEnvelopeLen(f, max)
  }

  /** The longest input that can still be waiting for more. */
  lemma WaitBound(f: Framing, max: nat, r: Recv)
    requires Step(f, max, r) == Wait
    ensures f.TlsRecord? ==> |r.acc| < RECORD_HEADER + max
    ensures !f.TlsRecord? ==> |r.acc| < MAX_HEADER || |r.acc| < 10 + (if f.PeerMasks() then 4 else 0) + max
  {
    if f.TlsRecord? {
      if |r.acc| >= RECORD_HEADER { assert Load(r.acc[3..5]) <= max; }
    } else {
      hide ParseHeader;
    }
  }

  /** A header in the eight-byte length form declaring `max` bytes, and zeroes behind it. */
  function LongHeader(masked: bool, max: nat): (b: Octets)
    ensures |b| == 64
  {
    [0x82, if masked then 0xff else 0x7f] + Store(max, 8) + seq(54, _ => 0)
  }

  lemma TakeSlice<T>(s: seq<T>, n: nat, i: nat, j: nat)
    requires i <= j <= n <= |s|
    ensures s[..n][i..j] == s[i..j]
  {
  }

  lemma LongHeaderParses(masked: bool, max: nat, n: nat)
    requires max < 256 && n <= 64
    ensures var p := ParseHeader(LongHeader(masked, max)[..n]);
      p == NeedMore || (p.Complete? && p.h.len == max && p.h.headerLen == (if masked then 14 else 10) && p.h.Masked() == masked)
  {
    var l := LongHeader(masked, max);
    assert l[0] == 0x82 && l[1] == if masked then 0xff else 0x7f;
    LongHeaderLen(masked, max);
    EightBytes(max);
    hide LongHeader;
    LongParses(l, masked, max, n);
  }

  lemma EightBytes(max: nat)
    requires max < 256
    ensures Load(Store(max, 8)) == max
  {
    assert Pow256(8) == 256 * Pow256(7);
    hide Load;
    hide Store;
    LoadStore(max, 8);
  }

  lemma LongParses(l: Octets, masked: bool, max: nat, n: nat)
    requires |l| == 64 && n <= 64 && max < 256
    requires l[0] == 0x82 && l[1] == (if masked then 0xff else 0x7f) && Load(l[2..10]) == max
    ensures var p := ParseHeader(l[..n]);
      p == NeedMore || (p.Complete? && p.h.len == max && p.h.headerLen == (if masked then 14 else 10) && p.h.Masked() == masked)
  {
    hide Load;
    if n >= 10 {
      TakeSlice(l, n, 2, 10);
    }
  }

  lemma LongHeaderLen(masked: bool, max: nat)
    ensures LongHeader(masked, max)[2..10] == Store(max, 8)
  {
    var start := [0x82 as byte, if masked then 0xff else 0x7f];
    Middle(start, Store(max, 8), seq(54, _ => 0));
    Regroup(start, Store(max, 8), seq(54, _ => 0));
  }

  /** EXACTLY WHEN THE ACCUMULATOR CANNOT FILL. A peer may spell a length in eight bytes, so a WebSocket connection
      needs max_frame_len + (4 if the peer masks) >= 6; a session's minimum of 270 is far above it. Below it, a
      waiting input as long as the accumulator exists, and the connection would stop reading for good. */
  lemma AccumulatorNeverFills(f: Framing, max: nat)
    requires 0 < max <= MAX_FRAME
    ensures (forall r :: Step(f, max, r) == Wait ==> |r.acc| < AccCap(f, max))
       <==> (f.TlsRecord? || max + (if f.PeerMasks() then 4 else 0) >= 6)
  {
    if f.TlsRecord? || max + (if f.PeerMasks() then 4 else 0) >= 6 {
      forall r | Step(f, max, r) == Wait ensures |r.acc| < AccCap(f, max) { WaitBound(f, max, r); }
    } else {
      var cap := AccCap(f, max);
      var r := Recv(LongHeader(f.PeerMasks(), max)[..cap], [], false);
      LongHeaderParses(f.PeerMasks(), max, cap);
      hide ParseHeader;
      hide LongHeader;
      assert Step(f, max, r) == Wait && |r.acc| >= cap;
    }
  }

  /** A reassembled message never exceeds the limit, and neither does a delivered envelope. */
  lemma {:induction false} MessagesBounded(f: Framing, max: nat, r: Recv)
    requires |r.msg| <= max
    ensures |Dispatch(f, max, r).r.msg| <= max
    ensures forall o :: o in Dispatch(f, max, r).outs && o.Envelope? ==> |o.body| <= max
    decreases |r.acc|
  {
    match Step(f, max, r) {
      case Wait =>
      case Break(outs) =>
        assert forall o :: o in outs ==> !o.Envelope? by { BreakDelivers(f, max, r); }
      case Advance(next, outs) =>
        AdvanceBounded(f, max, r);
        hide Step;
        MessagesBounded(f, max, next);
    }
  }

  lemma BreakDelivers(f: Framing, max: nat, r: Recv)
    requires Step(f, max, r).Break?
    ensures forall o :: o in Step(f, max, r).outs ==> !o.Envelope?
  {
    hide ParseHeader;
    hide Payload;
  }

  lemma AdvanceBounded(f: Framing, max: nat, r: Recv)
    requires Step(f, max, r).Advance? && |r.msg| <= max
    ensures |Step(f, max, r).next.msg| <= max
    ensures forall o :: o in Step(f, max, r).outs && o.Envelope? ==> |o.body| <= max
  {
    hide ParseHeader;
    hide Mask;
  }

  // ---------- encoding and the round trip ----------

  /** What a sender queues: session frames, pongs answering the peer's pings, and the echo of the peer's close,
      after which it sends nothing. */
  datatype Item =
    | FrameItem(body: Octets, key: Octets)
    | PongItem(body: Octets, key: Octets)
    | CloseItem(body: Octets, key: Octets)
  {
    function Op(): (op: nat)
      ensures KnownOp(op)
    {
      if FrameItem? then OP_BINARY else if PongItem? then OP_PONG else OP_CLOSE
    }
  }

  predicate KeyOk(i: Item)
  {
    i.key == [] || |i.key| == 4
  }

  /** No close was echoed. */
  ghost predicate StillOpen(items: seq<Item>)
  {
    forall i :: 0 <= i < |items| ==> !items[i].CloseItem?
  }

  ghost predicate AllSendable(f: Framing, max: nat, items: seq<Item>)
  {
    forall i :: 0 <= i < |items| ==> KeyOk(items[i]) && Sendable(f, max, items[i])
  }

  ghost predicate Sendable(f: Framing, max: nat, i: Item)
  {
    && |i.body| <= max <= MAX_FRAME
    && (if f.WeMask() then |i.key| == 4 else i.key == [])
    && (!i.FrameItem? ==> !f.TlsRecord? && |i.body| <= MAX_CONTROL)
  }

  /** One frame of a peer: any opcode, final or a fragment, masked when it has a key. */
  function EncodeFrame(op: nat, fin: bool, key: Octets, body: Octets): (b: Octets)
    requires KnownOp(op) && (key == [] || |key| == 4)
  {
    WriteHeader(op, fin, key, |body|) + if key == [] then body else Mask(body, key, 0)
  }

  /** The only frames this program sends are final. */
  function EncodeWs(op: nat, key: Octets, body: Octets): (b: Octets)
    requires KnownOp(op) && (key == [] || |key| == 4)
  {
    EncodeFrame(op, true, key, body)
  }

  function EncodeTls(body: Octets): (b: Octets)
  {
    [0x17, 0x03, 0x03] + Store(|body|, 2) + body
  }

  function Encode(f: Framing, i: Item): (b: Octets)
    requires KeyOk(i)
  {
    if f.TlsRecord? then EncodeTls(i.body)
    else EncodeWs(i.Op(), i.key, i.body)
  }

  /** The queue space a frame takes is exactly its envelope length. */
  lemma EncodeLen(f: Framing, max: nat, i: Item)
    requires Sendable(f, max, i)
    ensures |Encode(f, i)| == SendEnvelopeLen(f, |i.body|)
  {
  }

  function Peer(f: Framing): (p: Framing)
  {
    match f case TlsRecord => TlsRecord case WsClient => WsServer case WsServer => WsClient
  }

  /** What an item delivers. */
  function Delivered(i: Item): (outs: seq<Out>)
  {
    if i.FrameItem? then [Envelope(i.body)] else []
  }

  lemma TlsDecodes(max: nat, body: Octets, rest: Octets)
    requires |body| <= max <= MAX_FRAME
    ensures TlsStep(max, Recv(EncodeTls(body) + rest, [], false)) == Advance(Recv(rest, [], false), [Envelope(body)])
  {
    var e := EncodeTls(body);
    var acc := e + rest;
    var n := |body|;
    assert acc[3..5] == Store(n, 2);
    assert Pow256(2) == 65536;
    LoadStore(n, 2);
    assert acc[5..5 + n] == body && acc[5 + n..] == rest;
  }

  /** Where the parser finds the header, the payload and what follows. */
  lemma EncodedLayout(op: nat, fin: bool, key: Octets, body: Octets, rest: Octets)
    requires |body| < LEN_LIMIT && (key == [] || |key| == 4)
    requires KnownOp(op) && (IsControl(op) ==> fin && |body| <= MAX_CONTROL)
    ensures var w := WriteHeader(op, fin, key, |body|); var h := Header(op, fin, key, |body|, |w|);
      var acc := EncodeFrame(op, fin, key, body) + rest;
      && ParseHeader(acc) == Complete(h) && |acc| == |w| + |body| + |rest|
      && Payload(h, acc) == body && acc[|w| + |body|..] == rest
  {
    var w := WriteHeader(op, fin, key, |body|);
    var sealed := if key == [] then body else Mask(body, key, 0);
    var acc := EncodeFrame(op, fin, key, body) + rest;
    HeaderRoundTrip(op, fin, key, |body|, sealed + rest);
    if key != [] { MaskTwice(body, key, 0); }
    hide ParseHeader;
    hide WriteHeader;
    hide Mask;
    Regroup(w, sealed, rest);
    Middle(w, sealed, rest);
    assert acc == w + (sealed + rest);
  }

  // ---------- what each kind of frame does, said of its bytes ----------

  /** A peer may send this frame to an end of framing `e`. */
  ghost predicate PeerFrame(e: Framing, max: nat, op: nat, fin: bool, key: Octets, body: Octets)
  {
    && !e.TlsRecord? && KnownOp(op) && (IsControl(op) ==> fin && |body| <= MAX_CONTROL)
    && (if e.PeerMasks() then |key| == 4 else key == []) && |body| <= max <= MAX_FRAME
  }

  lemma FrameTaken(e: Framing, max: nat, op: nat, fin: bool, key: Octets, body: Octets, rest: Octets, msg: Octets, active: bool)
    requires PeerFrame(e, max, op, fin, key, body)
    ensures |rest| < |EncodeFrame(op, fin, key, body) + rest|
    ensures var r := Recv(EncodeFrame(op, fin, key, body) + rest, msg, active);
      exists h: Header :: h.op == op && h.fin == fin && Step(e, max, r) == FrameStep(max, h, r, body, rest)
  {
    hide ParseHeader;
    hide WriteHeader;
    hide Payload;
    hide EncodeFrame;
    hide FrameStep;
    var w := WriteHeader(op, fin, key, |body|);
    var h := Header(op, fin, key, |body|, |w|);
    EncodedLayout(op, fin, key, body, rest);
    var r := Recv(EncodeFrame(op, fin, key, body) + rest, msg, active);
    assert HeaderStep(e.PeerMasks(), max, h, r) == FrameStep(max, h, r, body, rest);
  }

  /** A ping is answered with a pong that carries its payload, and leaves the message being reassembled alone. */
  lemma PingArrives(e: Framing, max: nat, key: Octets, body: Octets, rest: Octets, msg: Octets, active: bool)
    requires PeerFrame(e, max, OP_PING, true, key, body)
    ensures Step(e, max, Recv(EncodeFrame(OP_PING, true, key, body) + rest, msg, active))
         == Advance(Recv(rest, msg, active), [Pong(body)])
  {
    FrameTaken(e, max, OP_PING, true, key, body, rest, msg, active);
  }

  /** A pong is consumed without a trace. */
  lemma PongArrives(e: Framing, max: nat, key: Octets, body: Octets, rest: Octets, msg: Octets, active: bool)
    requires PeerFrame(e, max, OP_PONG, true, key, body)
    ensures Step(e, max, Recv(EncodeFrame(OP_PONG, true, key, body) + rest, msg, active)) == Advance(Recv(rest, msg, active), [])
  {
    FrameTaken(e, max, OP_PONG, true, key, body, rest, msg, active);
  }

  /** A close is echoed with its payload and ends the connection. */
  lemma CloseArrives(e: Framing, max: nat, key: Octets, body: Octets, rest: Octets, msg: Octets, active: bool)
    requires PeerFrame(e, max, OP_CLOSE, true, key, body)
    ensures Step(e, max, Recv(EncodeFrame(OP_CLOSE, true, key, body) + rest, msg, active)) == Break([CloseEcho(body)])
  {
    FrameTaken(e, max, OP_CLOSE, true, key, body, rest, msg, active);
  }

  /** A data frame that starts a message when none is open, or continues the open one, within the limit: it extends the
      message, and delivers it if it is final. */
  lemma DataArrives(e: Framing, max: nat, op: nat, fin: bool, key: Octets, body: Octets, rest: Octets, msg: Octets, active: bool)
    requires PeerFrame(e, max, op, fin, key, body) && !IsControl(op)
    requires (op == OP_CONTINUATION) == active && |msg| + |body| <= max
    ensures Step(e, max, Recv(EncodeFrame(op, fin, key, body) + rest, msg, active)) ==
            if fin then Advance(Recv(rest, [], false), [Envelope(msg + body)]) else Advance(Recv(rest, msg + body, true), [])
  {
    FrameTaken(e, max, op, fin, key, body, rest, msg, active);
  }

  /** A continuation of no message, a new message inside an open one, or one that would grow too long breaks the
      connection, and nothing is delivered. */
  lemma BadDataBreaks(e: Framing, max: nat, op: nat, fin: bool, key: Octets, body: Octets, rest: Octets, msg: Octets, active: bool)
    requires PeerFrame(e, max, op, fin, key, body) && !IsControl(op)
    requires (op == OP_CONTINUATION) != active || |msg| + |body| > max
    ensures Step(e, max, Recv(EncodeFrame(op, fin, key, body) + rest, msg, active)) == Break([])
  {
    FrameTaken(e, max, op, fin, key, body, rest, msg, active);
  }

  /** A frame masked the wrong way, or declared longer than the limit, breaks the connection as soon as its header is
      there, however much of its payload is. */
  lemma BadHeaderBreaks(e: Framing, max: nat, op: nat, fin: bool, key: Octets, len: nat, rest: Octets, msg: Octets, active: bool)
    requires !e.TlsRecord? && KnownOp(op) && (IsControl(op) ==> fin && len <= MAX_CONTROL) && (key == [] || |key| == 4)
    requires len < LEN_LIMIT && (e.PeerMasks() != (key != []) || len > max)
    ensures Step(e, max, Recv(WriteHeader(op, fin, key, len) + rest, msg, active)) == Break([])
  {
    HeaderRoundTrip(op, fin, key, len, rest);
    hide ParseHeader;
    hide WriteHeader;
  }

  /** A record declared longer than the limit breaks the connection as soon as its header is there. */
  lemma LongRecordBreaks(max: nat, r: Recv)
    requires |r.acc| >= RECORD_HEADER && Load(r.acc[3..5]) > max
    ensures Step(TlsRecord, max, r) == Break([])
  {
  }

  lemma WsDecodes(max: nat, op: nat, key: Octets, body: Octets, rest: Octets)
    requires |body| <= max <= MAX_FRAME && (key == [] || |key| == 4)
    requires op == OP_BINARY || (op == OP_PONG && |body| <= MAX_CONTROL)
    ensures WsStep(key != [], max, Recv(EncodeWs(op, key, body) + rest, [], false))
         == Advance(Recv(rest, [], false), if op == OP_BINARY then [Envelope(body)] else [])
  {
    hide EncodeFrame;
    hide WsStep;
    var e := if key != [] then WsServer else WsClient;
    assert [] + body == body;
    if op == OP_BINARY {
      DataArrives(e, max, op, true, key, body, rest, [], false);
    } else {
      PongArrives(e, max, key, body, rest, [], false);
    }
  }

  lemma ItemDecodes(f: Framing, max: nat, i: Item, rest: Octets)
    requires Sendable(f, max, i) && !i.CloseItem?
    ensures Step(Peer(f), max, Recv(Encode(f, i) + rest, [], false)) == Advance(Recv(rest, [], false), Delivered(i))
  {
    hide TlsStep;
    hide WsStep;
    if f.TlsRecord? {
      TlsDecodes(max, i.body, rest);
    } else {
      WsDecodes(max, i.Op(), i.key, i.body, rest);
    }
  }

  function EncodeAll(f: Framing, items: seq<Item>): (b: Octets)
    requires forall i :: 0 <= i < |items| ==> KeyOk(items[i])
  {
    if items == [] then [] else Encode(f, items[0]) + EncodeAll(f, items[1..])
  }

  lemma QueueAppend(f: Framing, max: nat, items: seq<Item>, i: Item)
    requires AllSendable(f, max, items) && KeyOk(i) && Sendable(f, max, i)
    ensures AllSendable(f, max, items + [i])
    ensures EncodeAll(f, items + [i]) == EncodeAll(f, items) + Encode(f, i)
  {
    hide Encode;
    hide EncodeAll;
    hide Sendable;
    EncodeAllAppend(f, items, i);
  }

  lemma {:induction false} EncodeAllAppend(f: Framing, items: seq<Item>, i: Item)
    requires (forall k :: 0 <= k < |items| ==> KeyOk(items[k])) && KeyOk(i)
    ensures EncodeAll(f, items + [i]) == EncodeAll(f, items) + Encode(f, i)
    decreases |items|
  {
    hide Encode;
    hide KeyOk;
    if items == [] {
      assert items + [i] == [i] && [i][1..] == [];
      assert Encode(f, i) + [] == Encode(f, i) == [] + Encode(f, i);
    } else {
      var all, rest := items + [i], items[1..];
      assert all[1..] == rest + [i] && all[0] == items[0];
      EncodeAllAppend(f, rest, i);
      Regroup(Encode(f, items[0]), EncodeAll(f, rest), Encode(f, i));
    }
  }

  /** The control frames a receive side owes: a pong for each ping, an echo for a close. */
  function Answers(outs: seq<Out>): (a: seq<Out>)
  {
    if outs == [] then []
    else Answers(outs[..|outs| - 1]) + (if outs[|outs| - 1].Envelope? then [] else [outs[|outs| - 1]])
  }

  /** The control frames among the items queued, as the answers they are. */
  function Replies(items: seq<Item>): (a: seq<Out>)
  {
    if items == [] then [] else Replies(items[..|items| - 1]) + Reply(items[|items| - 1])
  }

  function Reply(i: Item): (a: seq<Out>)
  {
    match i case FrameItem(_, _) => [] case PongItem(b, _) => [Pong(b)] case CloseItem(b, _) => [CloseEcho(b)]
  }

  lemma AnswersAppend(outs: seq<Out>, o: Out)
    ensures Answers(outs + [o]) == Answers(outs) + (if o.Envelope? then [] else [o])
  {
    assert (outs + [o])[..|outs|] == outs;
  }

  lemma RepliesAppend(items: seq<Item>, i: Item)
    ensures Replies(items + [i]) == Replies(items) + Reply(i)
  {
    assert (items + [i])[..|items|] == items;
  }

  /** The session's frames among the items queued. */
  function Sent(items: seq<Item>): (bodies: seq<Octets>)
  {
    if items == [] then [] else Sent(items[..|items| - 1]) + SentBody(items[|items| - 1])
  }

  function SentBody(i: Item): (bodies: seq<Octets>)
  {
    if i.FrameItem? then [i.body] else []
  }

  lemma SentAppend(items: seq<Item>, i: Item)
    ensures Sent(items + [i]) == Sent(items) + SentBody(i)
  {
    assert (items + [i])[..|items|] == items;
  }

  /** A longer frame takes no less room. */
  lemma EnvelopeGrows(f: Framing, a: nat, b: nat)
    requires a <= b
    ensures SendEnvelopeLen(f, a) <= SendEnvelopeLen(f, b)
  {
  }

  function DeliveredAll(items: seq<Item>): (outs: seq<Out>)
  {
    if items == [] then [] else Delivered(items[0]) + DeliveredAll(items[1..])
  }

  lemma {:induction false} AllDecode(f: Framing, max: nat, items: seq<Item>)
    requires AllSendable(f, max, items) && StillOpen(items)
    ensures Dispatch(Peer(f), max, Recv(EncodeAll(f, items), [], false)) == Result(FRESH, DeliveredAll(items), false)
    decreases |items|
  {
    if items != [] {
      AllDecode(f, max, items[1..]);
      ItemDecodes(f, max, items[0], EncodeAll(f, items[1..]));
      hide Step;
      hide Encode;
      hide Sendable;
    } else {
      assert Step(Peer(f), max, FRESH) == Wait;
    }
  }

  /** CONNECTION ROUND TRIP. Whatever prefix of the queued bytes the kernel has taken, and however the peer's reads
      cut it, the peer is never broken by it and delivers a prefix of the frames sent, in order and unchanged; once
      everything was taken it has delivered exactly the frames sent. */
  lemma RoundTrip(f: Framing, max: nat, items: seq<Item>, wire: Octets, chunks: seq<Octets>)
    requires AllSendable(f, max, items) && StillOpen(items)
    requires wire <= EncodeAll(f, items) && Flatten(chunks) == wire
    ensures var got := Receive(Peer(f), max, FRESH, chunks);
      && !got.broken && got.outs <= DeliveredAll(items)
      && (wire == EncodeAll(f, items) ==> got.outs == DeliveredAll(items))
  {
    hide Dispatch;
    hide Receive;
    hide Encode;
    var p := Peer(f);
    var all := EncodeAll(f, items);
    AllDecode(f, max, items);
    FreshWaits(p, max);
    ChunkingIrrelevant(p, max, FRESH, chunks);
    assert FRESH.Feed(wire) == Recv(wire, [], false);
    DispatchAppend(p, max, Recv(wire, [], false), all[|wire|..]);
    assert wire + all[|wire|..] == all;
  }

  lemma CloseDecodes(f: Framing, max: nat, i: Item, rest: Octets)
    requires Sendable(f, max, i) && i.CloseItem?
    ensures Step(Peer(f), max, Recv(Encode(f, i) + rest, [], false)) == Break([CloseEcho(i.body)])
  {
    hide EncodeFrame;
    hide Step;
    CloseArrives(Peer(f), max, i.key, i.body, rest, [], false);
  }

  /** The whole of a closed connection's bytes, dispatched at once. */
  lemma ClosedDispatch(f: Framing, max: nat, before: seq<Item>, close: Item)
    requires AllSendable(f, max, before) && StillOpen(before) && KeyOk(close) && Sendable(f, max, close) && close.CloseItem?
    ensures var d := Dispatch(Peer(f), max, Recv(EncodeAll(f, before) + Encode(f, close), [], false));
      d.broken && d.outs == DeliveredAll(before) + [CloseEcho(close.body)]
  {
    hide Encode;
    hide EncodeAll;
    hide Step;
    hide Sendable;
    hide DeliveredAll;
    var p, e := Peer(f), Encode(f, close);
    AllDecode(f, max, before);
    DispatchAppend(p, max, Recv(EncodeAll(f, before), [], false), e);
    CloseDecodes(f, max, close, []);
    assert e + [] == e && FRESH.Feed(e) == Recv(e, [], false);
    assert Dispatch(p, max, Recv(e, [], false)) == Result(Recv(e, [], false), [CloseEcho(close.body)], true);
  }

  /** A CONNECTION THAT CLOSES. With a close as the last thing sent: whatever prefix the kernel took and however reads cut
      it, the peer delivers a prefix of the frames before the close; all of them once their bytes are there; and once
      the close is there too, it echoes it and breaks. */
  lemma RoundTripClosed(f: Framing, max: nat, before: seq<Item>, close: Item, wire: Octets, chunks: seq<Octets>)
    requires AllSendable(f, max, before) && StillOpen(before) && KeyOk(close) && Sendable(f, max, close) && close.CloseItem?
    requires wire <= EncodeAll(f, before) + Encode(f, close) && Flatten(chunks) == wire
    ensures var got := Receive(Peer(f), max, FRESH, chunks); var all := EncodeAll(f, before) + Encode(f, close);
      && got.outs <= DeliveredAll(before) + [CloseEcho(close.body)]
      && (EncodeAll(f, before) <= wire ==> DeliveredAll(before) <= got.outs)
      && (wire == all ==> got.broken && got.outs == DeliveredAll(before) + [CloseEcho(close.body)])
  {
    hide Dispatch;
    hide Receive;
    hide Encode;
    hide EncodeAll;
    hide Sendable;
    var p := Peer(f);
    var first := EncodeAll(f, before);
    var all := first + Encode(f, close);
    ClosedDispatch(f, max, before, close);
    FreshWaits(p, max);
    ChunkingIrrelevant(p, max, FRESH, chunks);
    assert FRESH.Feed(wire) == Recv(wire, [], false);
    DispatchAppend(p, max, Recv(wire, [], false), all[|wire|..]);
    assert wire + all[|wire|..] == all;
    if first <= wire {
      AllDecode(f, max, before);
      DispatchAppend(p, max, Recv(first, [], false), wire[|first|..]);
      assert first + wire[|first|..] == wire;
    }
  }

  lemma FreshWaits(f: Framing, max: nat)
    ensures Dispatch(f, max, FRESH) == Result(FRESH, [], false)
  {
    assert Step(f, max, FRESH) == Wait;
  }
}

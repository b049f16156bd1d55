/** One connection (conn.c): the send queue under partial kernel writes, and the receive accumulator with its two
    dispatch loops, tied to the functions of Framing. */
module Conn {
  import opened Bytes
  import opened WsFrame
  import opened Framing
  import Ring
  import BQ = ByteQueue
  import K = Kernel

  const DRAIN_CHUNK: nat := 4096

  class Conn {
    const framing: Framing
    const maxFrame: nat
    const recvAcc: BQ.ByteQueue
    const sendQ: BQ.ByteQueue
    const scratch: array<byte>
    var msgLen: nat
    var msgActive: bool
    var broken: bool
    var wantWritable: bool

    var outs: seq<Out>       // callbacks made and control frames answered
    var wire: Octets         // bytes the kernel took
    var sendFailed: bool     // broken by its own send side
    var answers: seq<K.Answer> // what the kernel will answer from here on, whatever that is
    var asked: seq<K.Answer>   // what it has answered
    var script: seq<seq<Octets>> // frames the session will send from inside each envelope callback to come
    var given: seq<Octets>   // frames the session has asked to send
    ghost var items: seq<Item>

    ghost predicate Separate()
    {
      recvAcc != sendQ && recvAcc.data != sendQ.data && scratch != recvAcc.data && scratch != sendQ.data
    }

    /** Everything queued is either on the wire or still in the queue, in order. */
    ghost predicate SendValid()
      reads this`items, this`wire, this`broken, this`sendFailed, sendQ, sendQ.data
    {
      && sendQ.Valid() && !sendQ.closed && 0 < maxFrame <= MAX_FRAME && (sendFailed ==> broken)
      && AllSendable(framing, maxFrame, items)
      && wire + sendQ.Contents() == EncodeAll(framing, items)
    }

    ghost predicate RecvValid()
      reads this`msgLen, recvAcc, recvAcc.data, scratch
    {
      && recvAcc.Valid() && !recvAcc.closed && recvAcc.data.Length == AccCap(framing, maxFrame)
      && scratch.Length == RecvEnvelopeLen(framing, maxFrame) && msgLen <= maxFrame
    }

    /** The control frames queued are the answers due, in order; only a failed send leaves the last one out. */
    ghost predicate Answered()
      reads this`items, this`outs, this`sendFailed
    {
      Replies(items) <= Answers(outs) && (!sendFailed ==> Replies(items) == Answers(outs))
    }

    /** Bytes left in the queue of a connection that is not broken are waited for: write interest is on exactly then. */
    ghost predicate Armed()
      reads this`broken, this`wantWritable, sendQ, sendQ.data
    {
      sendQ.Valid() && (!broken ==> (sendQ.Contents() != [] <==> wantWritable))
    }

    /** The session's frames are queued in the order given, all of them while the connection is not broken. */
    ghost predicate Carried()
      reads this`items, this`given, this`broken
    {
      Sent(items) <= given && (!broken ==> Sent(items) == given)
    }

    /** The send side fails only for a reason: the kernel reported an error, the queue has no room left for a whole frame, or
        the session asked for a frame longer than the limit. */
    ghost predicate Blamed()
      reads this`sendFailed, this`asked, this`given, sendQ
    {
      sendFailed ==>
        K.Failed in asked || sendQ.data.Length - sendQ.len < SendEnvelopeLen(framing, maxFrame) || Overlong(given, maxFrame)
    }

    /** All that holds of the send side between two calls. */
    ghost predicate Settled()
      reads this`items, this`wire, this`broken, this`sendFailed, this`outs, this`wantWritable, this`given, this`asked
      reads sendQ, sendQ.data
    {
      SendValid() && Answered() && Armed() && Carried() && Blamed()
    }

    ghost predicate Valid()
      reads this, recvAcc, recvAcc.data, sendQ, sendQ.data, scratch
    {
      Separate() && RecvValid() && Settled()
    }

    /** Everything the kernel answers and the session asks for from inside callbacks, past and to come: no step makes any of
        it up. */
    ghost function Inputs(): (r: (seq<K.Answer>, seq<Octets>))
      reads this`answers, this`asked, this`script, this`given
    {
      (asked + answers, given + Later(script))
    }

    ghost function Abs(): (r: Recv)
      requires RecvValid()
      reads this`msgLen, this`msgActive, recvAcc, recvAcc.data, scratch
    {
      Recv(recvAcc.Contents(), scratch[..msgLen], msgActive)
    }

    constructor (f: Framing, max: nat, sendCap: nat)
      requires 0 < max <= MAX_FRAME && sendCap > 0
      ensures Valid() && Abs() == FRESH && !broken && outs == [] && wire == [] && items == []
      ensures framing == f && maxFrame == max && sendQ.data.Length == sendCap
    {
      framing, maxFrame := f, max;
      recvAcc := new BQ.ByteQueue(AccCap(f, max));
      sendQ := new BQ.ByteQueue(sendCap);
      scratch := new byte[RecvEnvelopeLen(f, max)];
      msgLen, msgActive, broken, wantWritable := 0, false, false, false;
      outs, wire, sendFailed, items, answers, asked, script, given := [], [], false, [], [], [], [], [];
    }

    // ---------- sending ----------

    /** Bytes the kernel took leave the queue and are on the wire. */
    method Take(n: nat)
      requires SendValid() && n <= sendQ.len
      modifies this`wire, sendQ
      ensures SendValid() && n <= |old(sendQ.Contents())|
      ensures wire == old(wire) + old(sendQ.Contents())[..n] && sendQ.Contents() == old(sendQ.Contents())[n..]
    {
      hide BQ.ByteQueue.Contents;
      hide EncodeAll;
      hide AllSendable;
      ghost var before := sendQ.Contents();
      var gone := sendQ.Read(n);
      assert before == gone + sendQ.Contents();
      Regroup(wire, gone, sendQ.Contents());
      wire := wire + gone;
    }

    /** send(): the kernel's next answer, which takes at most what it is offered. */
    method AskKernel(n: nat) returns (k: K.Answer)
      modifies this`answers, this`asked
      ensures asked + answers == old(asked + answers)
      ensures old(answers) == [] ==> k == K.Again && answers == []
      ensures old(answers) != [] ==>
        answers == old(answers)[1..] && k == if old(answers)[0].Took? then K.Took(K.Min(old(answers)[0].n, n)) else old(answers)[0]
    {
      if answers == [] {
        return K.Again;
      }
      k := if answers[0].Took? then K.Took(K.Min(answers[0].n, n)) else answers[0];
      asked, answers := asked + [answers[0]], answers[1..];
    }

    /** One offer of up to 4096 bytes. If the kernel takes it all there may be more to offer; otherwise this ends it. */
    method DrainTurn() returns (go: bool)
      requires SendValid() && sendQ.len > 0
      modifies this`wire, this`broken, this`sendFailed, this`wantWritable, this`answers, this`asked, sendQ
      ensures SendValid() && asked + answers == old(asked + answers)
      ensures var q := old(sendQ.Contents()); var ks := old(answers); var n := K.Min(|q|, DRAIN_CHUNK);
        if go then
          && K.Drain(|q|, DRAIN_CHUNK, ks) == K.After(n, K.Drain(|q| - n, DRAIN_CHUNK, answers))
          && wire == old(wire) + q[..n] && sendQ.Contents() == q[n..] && broken == old(broken) && sendFailed == old(sendFailed)
        else
          && Drained(old(wire), q, ks, old(broken))
          && sendFailed == (old(sendFailed) || K.Drain(|q|, DRAIN_CHUNK, ks).failed)
    {
      hide Conn.SendValid;
      hide BQ.ByteQueue.Contents;
      hide K.Drain;
      QueueValid();
      ghost var q := sendQ.Contents();
      K.DrainIs(|q|, DRAIN_CHUNK, answers);
      assert q[..0] == [] && q[0..] == q && wire + [] == wire;
      var peeked := sendQ.Peek(K.Min(sendQ.len, DRAIN_CHUNK));
      var k := AskKernel(|peeked|);
      if k == K.Again {
        wantWritable := true;
        return false;
      }
      if k == K.Failed {
        FailSend();
        return false;
      }
      Take(k.n);
      QueueValid();
      if k.n < |peeked| {
        wantWritable := true;
        return false;
      }
      return true;
    }

    /** `a` bytes of `q` have gone out so far. */
    ghost predicate Sofar(w: Octets, q: Octets, a: nat)
      reads this`items, this`wire, this`broken, this`sendFailed, sendQ, sendQ.data
    {
      && SendValid() && sendQ.Valid() && a <= |q| && wire == w + q[..a] && sendQ.Contents() == q[a..]
    }

    /** One offer in the course of a drain whose outcome is to be `d`. */
    method DrainOn(ghost w: Octets, ghost q: Octets, ghost a: nat, ghost d: K.Outcome) returns (go: bool, ghost a': nat)
      requires Sofar(w, q, a) && sendQ.len > 0 && d == K.After(a, K.Drain(|q| - a, DRAIN_CHUNK, answers))
      modifies this`wire, this`broken, this`sendFailed, this`wantWritable, this`answers, this`asked, sendQ
      ensures asked + answers == old(asked + answers)
      ensures go ==> Sofar(w, q, a') && a < a' && d == K.After(a', K.Drain(|q| - a', DRAIN_CHUNK, answers))
      ensures go ==> broken == old(broken) && sendFailed == old(sendFailed)
      ensures !go ==> SendValid() && DrainedTo(w, q, d, old(broken)) && sendFailed == (old(sendFailed) || d.failed)
    {
      hide Conn.SendValid;
      hide BQ.ByteQueue.Contents;
      hide K.Drain;
      ghost var left := K.Drain(|q| - a, DRAIN_CHUNK, answers);
      a' := a + K.Min(|q| - a, DRAIN_CHUNK);
      SentMore(w, q, a, a' - a);
      SentMore(w, q, a, left.took);
      go := DrainTurn();
      if go {
        QueueValid();
      }
    }

    /** Offers until the queue is empty or the kernel stops; exactly the bytes the kernel took leave the queue, and write
        interest is on exactly while some are left. */
    method TryDrainSend()
      requires SendValid()
      modifies this`wire, this`broken, this`sendFailed, this`wantWritable, this`answers, this`asked, sendQ
      ensures SendValid() && (old(broken) ==> broken) && asked + answers == old(asked + answers)
      ensures Drained(old(wire), old(sendQ.Contents()), old(answers), old(broken))
      ensures sendFailed == (old(sendFailed) || K.Drain(|old(sendQ.Contents())|, DRAIN_CHUNK, old(answers)).failed)
    {
      hide Conn.SendValid;
      hide BQ.ByteQueue.Contents;
      hide K.Drain;
      QueueValid();
      ghost var w, q := wire, sendQ.Contents();
      ghost var d := K.Drain(|q|, DRAIN_CHUNK, answers);
      ghost var a := 0;
      assert q[..0] == [] && q[0..] == q && wire + [] == wire;
      while sendQ.len > 0
        invariant Sofar(w, q, a) && d == K.After(a, K.Drain(|q| - a, DRAIN_CHUNK, answers))
        invariant broken == old(broken) && sendFailed == old(sendFailed) && asked + answers == old(asked + answers)
        decreases |q| - a
      {
        var go;
        go, a := DrainOn(w, q, a, d);
        if !go {
          return;
        }
      }
      K.DrainIs(0, DRAIN_CHUNK, answers);
      wantWritable := false;
    }

    /** The wire has grown by exactly what the kernel's answers took of the queue; the rest is still queued, in order, and
        waited for. */
    ghost predicate Drained(w: Octets, q: Octets, ks: seq<K.Answer>, broken0: bool)
      reads this`wire, this`answers, this`broken, this`wantWritable, sendQ, sendQ.data
    {
      DrainedTo(w, q, K.Drain(|q|, DRAIN_CHUNK, ks), broken0)
    }

    ghost predicate DrainedTo(w: Octets, q: Octets, d: K.Outcome, broken0: bool)
      reads this`wire, this`answers, this`broken, this`wantWritable, sendQ, sendQ.data
    {
      && d.took <= |q|
      && sendQ.Valid() && wire == w + q[..d.took] && sendQ.Contents() == q[d.took..] && answers == d.rest
      && broken == (broken0 || d.failed) && (!broken ==> (sendQ.Contents() != [] <==> wantWritable))
    }

    /** The writable event. */
    method OnWritable()
      requires Valid() && !broken
      modifies this`wire, this`broken, this`sendFailed, this`wantWritable, this`answers, this`asked, sendQ
      ensures Valid() && Inputs() == old(Inputs()) && Drained(old(wire), old(sendQ.Contents()), old(answers), false)
    {
      hide Conn.RecvValid;
      hide K.Drain;
      hide EncodeAll;
      hide AllSendable;
      hide BQ.ByteQueue.Contents;
      FailureIsAsked(asked, answers, |sendQ.Contents()|);
      TryDrainSend();
    }

    lemma QueueValid()
      requires SendValid()
      ensures sendQ.Valid() && !sendQ.closed
    {
    }

    /** Bytes that fit go to the back of the queue. */
    method Append(bytes: Octets)
      requires sendQ.Valid() && !sendQ.closed && sendQ.Free() >= |bytes|
      modifies sendQ, sendQ.data
      ensures sendQ.Valid() && !sendQ.closed && wire + sendQ.Contents() == old(wire + sendQ.Contents()) + bytes
      ensures sendQ.Contents() == old(sendQ.Contents()) + bytes
    {
      hide BQ.ByteQueue.Contents;
      ghost var before := sendQ.Contents();
      var _ := sendQ.Write(bytes);
      assert sendQ.Contents() == before + bytes;
      Regroup(wire, before, bytes);
    }

    method Enqueue(bytes: Octets, ghost i: Item)
      requires SendValid() && sendQ.Free() >= |bytes|
      requires KeyOk(i) && Sendable(framing, maxFrame, i) && bytes == Encode(framing, i)
      modifies this`items, sendQ, sendQ.data
      ensures SendValid() && items == old(items) + [i] && sendQ.Contents() == old(sendQ.Contents()) + bytes
    {
      hide Encode;
      hide EncodeAll;
      hide Sendable;
      hide AllSendable;
      hide BQ.ByteQueue.Contents;
      hide BQ.ByteQueue.Valid;
      QueueAppend(framing, maxFrame, items, i);
      Append(bytes);
      items := items + [i];
    }

    /** Queues one whole frame or nothing: the room is checked before the first byte is written. */
    method QueueItem(i: Item) returns (ok: bool)
      requires SendValid() && KeyOk(i) && Sendable(framing, maxFrame, i)
      modifies this`items, sendQ, sendQ.data
      ensures SendValid()
      ensures ok == (old(sendQ.Free()) >= SendEnvelopeLen(framing, |i.body|))
      ensures items == if ok then old(items) + [i] else old(items)
      ensures sendQ.Contents() == old(sendQ.Contents()) + if ok then Encode(framing, i) else []
    {
      EncodeLen(framing, maxFrame, i);
      hide Encode;
      hide EncodeAll;
      hide Sendable;
      hide AllSendable;
      hide BQ.ByteQueue.Contents;
      if sendQ.Free() < SendEnvelopeLen(framing, |i.body|) {
        return false;
      }
      var bytes := EncodeBytes(i);
      Enqueue(bytes, i);
      return true;
    }

    /** Sends one session frame: refused when broken, too long or without room, the last two breaking the
        connection; `key` is the fresh mask key of a client's frame. */
    method Send(body: Octets, key: Octets) returns (ok: bool)
      requires Valid() && (if framing.WeMask() then |key| == 4 else key == [])
      modifies this`items, this`wire, this`broken, this`sendFailed, this`wantWritable, this`answers, this`asked, sendQ, sendQ.data
      modifies this`given
      ensures given == old(given) + [body] && asked + answers == old(asked + answers)
      ensures Valid() && ok == !broken && (broken ==> old(broken) || sendFailed) && (old(sendFailed) ==> sendFailed)
      ensures ok ==> items == old(items) + [FrameItem(body, key)]
      ensures old(!broken && |body| <= maxFrame && sendQ.Free() >= SendEnvelopeLen(framing, |body|)) ==>
        && items == old(items) + [FrameItem(body, key)]
        && Drained(old(wire), old(sendQ.Contents()) + Encode(framing, FrameItem(body, key)), old(answers), false)
      ensures old(broken || |body| > maxFrame || sendQ.Free() < SendEnvelopeLen(framing, |body|)) ==>
        !ok && items == old(items) && wire == old(wire)
    {
      hide Conn.SendValid;
      hide Conn.RecvValid;
      hide Conn.Drained;
      hide Replies;
      hide Answers;
      hide Encode;
      hide Sent;
      hide BQ.ByteQueue.Contents;
      hide BQ.ByteQueue.Valid;
      hide SendEnvelopeLen;
      SendFacts();
      OverlongMore(given, body, maxFrame);
      hide Overlong;
      if !broken && |body| <= maxFrame {
        ok := SendFitting(body, key);
        return;
      }
      given := given + [body];
      if !broken {
        FailSend();
      }
      return false;
    }

    /** A frame within the limit, on a connection that is not broken. */
    method SendFitting(body: Octets, key: Octets) returns (ok: bool)
      requires Settled() && !broken && |body| <= maxFrame && (if framing.WeMask() then |key| == 4 else key == [])
      modifies this`items, this`wire, this`broken, this`sendFailed, this`wantWritable, this`answers, this`asked, sendQ, sendQ.data
      modifies this`given
      ensures Settled() && given == old(given) + [body] && asked + answers == old(asked + answers)
      ensures ok == !broken && (broken ==> sendFailed)
      ensures if old(sendQ.Free()) >= SendEnvelopeLen(framing, |body|)
              then items == old(items) + [FrameItem(body, key)]
                   && Drained(old(wire), old(sendQ.Contents()) + Encode(framing, FrameItem(body, key)), old(answers), false)
              else !ok && items == old(items) && wire == old(wire)
    {
      hide Conn.SendValid;
      hide Conn.Armed;
      hide Conn.Blamed;
      hide Conn.Drained;
      hide Replies;
      hide Answers;
      hide Encode;
      hide Sent;
      hide BQ.ByteQueue.Contents;
      SendFacts();
      QueueValid();
      SentAppend(items, FrameItem(body, key));
      RepliesAppend(items, FrameItem(body, key));
      given := given + [body];
      ok := QueueAndDrain(FrameItem(body, key));
    }

    lemma SendFacts()
      requires SendValid()
      ensures 0 < maxFrame <= MAX_FRAME && (sendFailed ==> broken)
    {
    }

    method FailSend()
      requires SendValid()
      modifies this`broken, this`sendFailed
      ensures SendValid() && broken && sendFailed
    {
      broken, sendFailed := true, true;
    }

    /** Queues an item and lets the kernel take what it will; no room breaks the connection. */
    method QueueAndDrain(i: Item) returns (ok: bool)
      requires SendValid() && !broken && KeyOk(i) && Sendable(framing, maxFrame, i)
      modifies this`items, this`wire, this`broken, this`sendFailed, this`wantWritable, this`answers, this`asked, sendQ, sendQ.data
      ensures SendValid() && Armed() && Blamed() && ok == !broken && (broken <==> sendFailed)
      ensures asked + answers == old(asked + answers)
      ensures if old(sendQ.Free()) >= SendEnvelopeLen(framing, |i.body|)
              then items == old(items) + [i] && Drained(old(wire), old(sendQ.Contents()) + Encode(framing, i), old(answers), false)
              else !ok && items == old(items) && wire == old(wire)
    {
      hide EncodeAll;
      hide AllSendable;
      assert |i.body| <= maxFrame;
      hide Sendable;
      hide Encode;
      hide K.Drain;
      hide BQ.ByteQueue.Contents;
      SendFacts();
      QueueValid();
      EnvelopeGrows(framing, |i.body|, maxFrame);
      var queued := QueueItem(i);
      if !queued {
        broken, sendFailed := true, true;
        return false;
      }
      FailureIsAsked(asked, answers, |sendQ.Contents()|);
      TryDrainSend();
      return !broken;
    }

    /** The bytes of one frame; a client's payload is masked chunk by chunk. */
    method EncodeBytes(i: Item) returns (bytes: Octets)
      requires KeyOk(i)
      ensures bytes == Encode(framing, i)
    {
      if framing.TlsRecord? {
        return [0x17, 0x03, 0x03] + Store(|i.body|, 2) + i.body;
      }
      var header := WriteHeader(i.Op(), true, i.key, |i.body|);
      if i.key == [] {
        return header + i.body;
      }
      var masked := MaskInChunks(i.body, i.key);
      return header + masked;
    }

    // ---------- receiving ----------

    /** on_envelope: the session may send on this very connection, any number of frames, and so break it. `script` is what it
        will send at each callback; past its end, nothing. */
    method Deliver(body: Octets)
      requires Valid() && !broken
      modifies this`outs
      modifies this`items, this`wire, this`broken, this`sendFailed, this`wantWritable, this`answers, this`asked, sendQ, sendQ.data
      modifies this`given, this`script
      ensures Inputs() == old(Inputs())
      ensures Valid() && outs == old(outs) + [Envelope(body)] && (broken ==> sendFailed)
    {
      hide Replies;
      hide Answers;
      hide Conn.SendValid;
      hide Conn.RecvValid;
      hide Conn.Armed;
      hide Conn.Carried;
      hide Conn.Blamed;
      hide BQ.ByteQueue.Contents;
      AnswersAppend(outs, Envelope(body));
      outs := outs + [Envelope(body)];
      if script == [] {
        return;
      }
      var frames := script[0];
      script := script[1..];
      assert Settled();
      hide Conn.Settled;
      hide Conn.Answered;
      Regroup(given, frames, Later(script));
      SendAll(frames);
    }

    /** What the session sends from inside a callback. */
    method SendAll(frames: seq<Octets>)
      requires Valid()
      modifies this`items, this`wire, this`broken, this`sendFailed, this`wantWritable, this`answers, this`asked, sendQ, sendQ.data
      modifies this`given
      ensures Valid() && given == old(given) + frames && asked + answers == old(asked + answers)
      ensures broken ==> old(broken) || sendFailed
    {
      hide Conn.Settled;
      hide Conn.RecvValid;
      hide BQ.ByteQueue.Contents;
      hide Encode;
      for i := 0 to |frames|
        invariant Valid() && (broken ==> old(broken) || sendFailed)
        invariant given == old(given) + frames[..i] && asked + answers == old(asked + answers)
      {
        var key := FreshKey();
        assert frames[..i + 1] == frames[..i] + [frames[i]];
        var ok := Send(frames[i], key);
      }
      assert frames[..|frames|] == frames;
    }

    /** One turn of the record loop. */
    method TlsOnce() returns (go: bool)
      requires Valid() && framing.TlsRecord? && !broken
      modifies this`outs, this`broken, recvAcc
      modifies this`items, this`wire, this`sendFailed, this`wantWritable, this`answers, this`asked, sendQ, sendQ.data
      modifies this`given, this`script
      ensures Inputs() == old(Inputs())
      ensures Valid()
      ensures match TlsStep(maxFrame, old(Abs()))
        case Wait => !go && !broken && Abs() == old(Abs()) && outs == old(outs)
        case Break(o) => !go && broken && outs == old(outs) + o
        case Advance(n, o) => go == !broken && (broken ==> sendFailed) && Abs() == n && outs == old(outs) + o
    {
      hide BQ.ByteQueue.Contents;
      hide Load;
      hide Conn.SendValid;
      hide Conn.Answered;
      ghost var acc := recvAcc.Contents();
      var header := recvAcc.Peek(RECORD_HEADER);
      if |header| < RECORD_HEADER {
        return false;
      }
      assert header[3..5] == acc[3..5];
      var len := Load(header[3..5]);
      if len > maxFrame {
        Breaks();
        return false;
      }
      if recvAcc.len < RECORD_HEADER + len {
        return false;
      }
      var envelope := recvAcc.Read(RECORD_HEADER + len);
      assert acc == envelope + recvAcc.Contents();
      assert recvAcc.Contents() == acc[RECORD_HEADER + len..];
      assert envelope[RECORD_HEADER..] == acc[RECORD_HEADER..RECORD_HEADER + len];
      Deliver(envelope[RECORD_HEADER..]);
      return !broken;
    }

    /** conn_mark_broken, from the receive side: nothing is owed any more. */
    method Breaks()
      requires Settled()
      modifies this`broken
      ensures Settled() && broken
    {
      hide Replies;
      hide Answers;
      hide Sent;
      hide EncodeAll;
      hide AllSendable;
      hide BQ.ByteQueue.Contents;
      broken := true;
    }

    /** Takes one whole frame out of the accumulator and unmasks its payload. */
    method TakePayload(h: Header) returns (body: Octets)
      requires recvAcc.Valid() && h.headerLen + h.len <= recvAcc.len && (h.key == [] || |h.key| == 4)
      modifies recvAcc
      ensures recvAcc.Valid() && recvAcc.closed == old(recvAcc.closed)
      ensures body == Payload(h, old(recvAcc.Contents()))
      ensures recvAcc.Contents() == old(recvAcc.Contents())[h.headerLen + h.len..]
    {
      hide BQ.ByteQueue.Contents;
      hide Mask;
      ghost var acc := recvAcc.Contents();
      var skip := recvAcc.Read(h.headerLen);
      ghost var mid := recvAcc.Contents();
      assert mid == acc[h.headerLen..];
      body := recvAcc.Read(h.len);
      assert body == mid[..h.len] == acc[h.headerLen..h.headerLen + h.len];
      assert recvAcc.Contents() == mid[h.len..];
      if h.Masked() {
        body := Mask(body, h.key, 0);
      }
    }

    method FreshKey() returns (key: Octets)
      ensures if framing.WeMask() then |key| == 4 else key == []
    {
      if !framing.WeMask() {
        return [];
      }
      var a: byte, b: byte, c: byte, d: byte := *, *, *, *;
      return [a, b, c, d];
    }

    /** Answers a ping or a close with its own payload; a queue without room, or a kernel error, breaks the connection. */
    method Answer(close: bool, body: Octets)
      requires SendValid() && !framing.TlsRecord? && |body| <= MAX_CONTROL && |body| <= maxFrame && !broken
      modifies this`items, this`wire, this`broken, this`sendFailed, this`wantWritable, this`answers, this`asked, sendQ, sendQ.data
      ensures SendValid() && Armed() && Blamed() && (broken <==> sendFailed) && Sent(items) == old(Sent(items))
      ensures asked + answers == old(asked + answers)
      ensures old(sendQ.Free()) < SendEnvelopeLen(framing, |body|) ==> broken && items == old(items) && wire == old(wire)
      ensures old(sendQ.Free()) >= SendEnvelopeLen(framing, |body|) ==>
        && Replies(items) == old(Replies(items)) + (if close then [CloseEcho(body)] else [Pong(body)])
        && items != [] && Drained(old(wire), old(sendQ.Contents()) + Encode(framing, items[|items| - 1]), old(answers), false)
        && broken == K.Drain(|old(sendQ.Contents())| + SendEnvelopeLen(framing, |body|), DRAIN_CHUNK, old(answers)).failed
    {
      hide Conn.SendValid;
      hide Conn.Armed;
      hide Conn.Blamed;
      hide BQ.ByteQueue.Contents;
      hide Replies;
      hide Sent;
      hide Encode;
      hide SendEnvelopeLen;
      hide K.Drain;
      QueueValid();
      var key := FreshKey();
      var i := if close then CloseItem(body, key) else PongItem(body, key);
      SendFacts();
      RepliesAppend(items, i);
      SentAppend(items, i);
      EncodeLen(framing, maxFrame, i);
      assert |sendQ.Contents() + Encode(framing, i)| == |sendQ.Contents()| + SendEnvelopeLen(framing, |body|);
      var _ := QueueAndDrain(i);
    }

    /** One data frame, already taken: extend the message in scratch, deliver it when it is complete. */
    method DataFrame(h: Header, body: Octets)
      requires Valid() && !broken && |body| + msgLen <= maxFrame
      modifies this`outs, this`msgLen, this`msgActive, scratch
      modifies this`items, this`wire, this`broken, this`sendFailed, this`wantWritable, this`answers, this`asked, sendQ, sendQ.data
      modifies this`given, this`script
      ensures Inputs() == old(Inputs())
      ensures Valid() && (broken ==> sendFailed)
      ensures outs == old(outs) + if h.fin then [Envelope(old(scratch[..msgLen]) + body)] else []
      ensures Abs() == Recv(recvAcc.Contents(), if h.fin then [] else old(scratch[..msgLen]) + body, !h.fin)
    {
      hide BQ.ByteQueue.Contents;
      hide Conn.SendValid;
      hide Conn.Answered;
      Ring.Copy(scratch, msgLen, body);
      assert scratch[..msgLen + |body|] == old(scratch[..msgLen]) + body;
      assert SendValid();
      msgLen := msgLen + |body|;
      if !h.fin {
        msgActive := true;
        return;
      }
      var n := msgLen;
      msgLen := 0;
      msgActive := false;
      Deliver(scratch[..n]);
    }

    /** One turn of the WebSocket loop. A pong that cannot be sent breaks the connection after its step. */
    method WsOnce() returns (go: bool)
      requires Valid() && !framing.TlsRecord? && !broken
      modifies this`outs, this`broken, this`msgLen, this`msgActive, scratch, recvAcc
      modifies this`items, this`wire, this`sendFailed, this`wantWritable, this`answers, this`asked, sendQ, sendQ.data
      modifies this`given, this`script
      ensures Inputs() == old(Inputs())
      ensures Valid()
      ensures match WsStep(framing.PeerMasks(), maxFrame, old(Abs()))
        case Wait => !go && !broken && Abs() == old(Abs()) && outs == old(outs)
        case Break(o) => !go && broken && outs == old(outs) + o
        case Advance(n, o) => go == !broken && (broken ==> sendFailed) && Abs() == n && outs == old(outs) + o
    {
      hide BQ.ByteQueue.Contents;
      hide ParseHeader;
      hide HeaderStep;
      hide EncodeAll;
      hide AllSendable;
      var peeked := recvAcc.Peek(MAX_HEADER);
      ParsePeeked(recvAcc.Contents());
      var parsed := ParseHeader(peeked);
      if parsed == NeedMore {
        return false;
      }
      if parsed == Malformed {
        Breaks();
        return false;
      }
      go := HeaderOnce(parsed.h);
    }

    /** A parsed header: the mask rule, the length bound, the wait for the payload, then the frame. */
    method HeaderOnce(h: Header) returns (go: bool)
      requires Valid() && !framing.TlsRecord? && !broken
      requires 2 <= h.headerLen && (h.key == [] || |h.key| == 4) && (IsControl(h.op) ==> h.len <= MAX_CONTROL)
      modifies this`outs, this`broken, this`msgLen, this`msgActive, scratch, recvAcc
      modifies this`items, this`wire, this`sendFailed, this`wantWritable, this`answers, this`asked, sendQ, sendQ.data
      modifies this`given, this`script
      ensures Inputs() == old(Inputs())
      ensures Valid()
      ensures match HeaderStep(framing.PeerMasks(), maxFrame, h, old(Abs()))
        case Wait => !go && !broken && Abs() == old(Abs()) && outs == old(outs)
        case Break(o) => !go && broken && outs == old(outs) + o
        case Advance(n, o) => go == !broken && (broken ==> sendFailed) && Abs() == n && outs == old(outs) + o
    {
      hide BQ.ByteQueue.Contents;
      hide Payload;
      hide EncodeAll;
      hide AllSendable;
      if h.Masked() != framing.PeerMasks() || h.len > maxFrame {
        Breaks();
        return false;
      }
      if recvAcc.len < h.headerLen + h.len {
        return false;
      }
      if IsControl(h.op) {
        go := ControlFrame(h);
        return;
      }
      if (h.op == OP_CONTINUATION) != msgActive {
        Breaks();
        return false;
      }
      if h.len > maxFrame - msgLen {
        Breaks();
        return false;
      }
      var body := TakePayload(h);
      DataFrame(h, body);
      return !broken;
    }

    /** The payload of a ping or a close goes back in its answer. */
    method Respond(close: bool, body: Octets)
      requires Settled() && !framing.TlsRecord? && |body| <= MAX_CONTROL && |body| <= maxFrame && !broken
      modifies this`outs
      modifies this`items, this`wire, this`broken, this`sendFailed, this`wantWritable, this`answers, this`asked, sendQ, sendQ.data
      ensures Settled() && (broken ==> sendFailed) && asked + answers == old(asked + answers)
      ensures outs == old(outs) + [if close then CloseEcho(body) else Pong(body)]
      ensures var q := old(sendQ.Contents()); var n := SendEnvelopeLen(framing, |body|);
        sendQ.Valid() && (broken <==> old(sendQ.Free()) < n || K.Drain(|q| + n, DRAIN_CHUNK, old(answers)).failed)
    {
      hide BQ.ByteQueue.Contents;
      hide EncodeAll;
      hide AllSendable;
      hide Replies;
      hide Answers;
      hide Sent;
      hide Encode;
      hide K.Drain;
      var out := if close then CloseEcho(body) else Pong(body);
      AnswersAppend(outs, out);
      outs := outs + [out];
      Answer(close, body);
    }

    method ControlFrame(h: Header) returns (go: bool)
      requires Valid() && !framing.TlsRecord? && !broken && IsControl(h.op) && h.len <= MAX_CONTROL && h.len <= maxFrame
      requires 2 <= h.headerLen && h.headerLen + h.len <= recvAcc.len && (h.key == [] || |h.key| == 4)
      modifies this`outs, this`broken, recvAcc
      modifies this`items, this`wire, this`sendFailed, this`wantWritable, this`answers, this`asked, sendQ, sendQ.data
      ensures Valid() && Inputs() == old(Inputs())
      ensures var acc := old(recvAcc.Contents());
        match ControlStep(h, old(Abs()), Payload(h, acc), acc[h.headerLen + h.len..])
        case Wait => false
        case Break(o) => !go && broken && outs == old(outs) + o && o != []
        case Advance(n, o) => go == !broken && (broken ==> sendFailed) && Abs() == n && outs == old(outs) + o
      ensures h.op == OP_PONG ==> go
      ensures var n := SendEnvelopeLen(framing, h.len);
        old(sendQ.Valid()) && (h.op == OP_PING ==>
          (broken <==> old(sendQ.Free()) < n || K.Drain(|old(sendQ.Contents())| + n, DRAIN_CHUNK, old(answers)).failed))
    {
      hide BQ.ByteQueue.Contents;
      hide Payload;
      hide Conn.Answered;
      hide Conn.Armed;
      hide Conn.Carried;
      hide Conn.Blamed;
      hide EncodeAll;
      hide AllSendable;
      hide K.Drain;
      hide SendEnvelopeLen;
      var body := TakePayload(h);
      if h.op == OP_PING {
        Respond(false, body);
        return !broken;
      }
      if h.op == OP_PONG {
        return true;
      }
      Respond(true, body);
      Breaks();
      return false;
    }

    /** One turn of whichever loop this connection's framing runs. */
    method Once() returns (go: bool)
      requires Valid() && !broken
      modifies this`outs, this`broken, this`msgLen, this`msgActive, scratch, recvAcc
      modifies this`items, this`wire, this`sendFailed, this`wantWritable, this`answers, this`asked, sendQ, sendQ.data
      modifies this`given, this`script
      ensures Inputs() == old(Inputs())
      ensures Valid()
      ensures match Step(framing, maxFrame, old(Abs()))
        case Wait => !go && !broken && Abs() == old(Abs()) && outs == old(outs)
        case Break(o) => !go && broken && outs == old(outs) + o
        case Advance(n, o) => go == !broken && (broken ==> sendFailed) && Abs() == n && outs == old(outs) + o
      ensures go ==> recvAcc.len < old(recvAcc.len)
    {
      hide TlsStep;
      hide WsStep;
      hide BQ.ByteQueue.Contents;
      hide EncodeAll;
      hide AllSendable;
      if framing.TlsRecord? {
        go := TlsOnce();
      } else {
        go := WsOnce();
      }
    }

    /** The dispatch loop. Unless the connection's own send side failed it, its outputs, its verdict and the state
        it stops in are those of Dispatch; if it did fail, the outputs are a prefix of those. */
    method ExtractAndDispatch()
      requires Valid() && !broken
      modifies this`outs, this`broken, this`msgLen, this`msgActive, scratch, recvAcc
      modifies this`items, this`wire, this`sendFailed, this`wantWritable, this`answers, this`asked, sendQ, sendQ.data
      modifies this`given, this`script
      ensures Inputs() == old(Inputs())
      ensures Valid()
      ensures var d := Dispatch(framing, maxFrame, old(Abs()));
        && outs <= old(outs) + d.outs
        && (sendFailed || (outs == old(outs) + d.outs && broken == d.broken && (!broken ==> Abs() == d.r)))
    {
      hide Step;
      hide Conn.SendValid;
      hide Conn.RecvValid;
      hide Conn.Settled;
      hide Conn.Inputs;
      hide Conn.Abs;
      ghost var done := [];
      ghost var d := Dispatch(framing, maxFrame, Abs());
      AfterAfter([], [], d);
      while true
        invariant Valid() && !broken && outs == old(outs) + done && Inputs() == old(Inputs())
        invariant d == After(done, Dispatch(framing, maxFrame, Abs()))
        decreases recvAcc.len
      {
        ghost var o := Step(framing, maxFrame, Abs());
        var go := Once();
        if o.Advance? {
          ghost var rest := Dispatch(framing, maxFrame, o.next);
          AfterAfter(done, o.outs, rest);
          Regroup(old(outs), done, o.outs);
          done := done + o.outs;
          Regroup(old(outs), done, rest.outs);
        }
        if !go {
          return;
        }
      }
    }

    /** One read's bytes enter the accumulator, where there is always room for them, and are dispatched. */
    method OnRead(bytes: Octets)
      requires Valid() && !broken && |bytes| <= recvAcc.Free()
      modifies this`outs, this`broken, this`msgLen, this`msgActive, scratch, recvAcc, recvAcc.data
      modifies this`items, this`wire, this`sendFailed, this`wantWritable, this`answers, this`asked, sendQ, sendQ.data
      modifies this`given, this`script
      ensures Inputs() == old(Inputs())
      ensures Valid()
      ensures var d := Dispatch(framing, maxFrame, old(Abs()).Feed(bytes));
        && outs <= old(outs) + d.outs
        && (sendFailed || (outs == old(outs) + d.outs && broken == d.broken && (!broken ==> Abs() == d.r)))
      ensures !broken && (framing.TlsRecord? || maxFrame + (if framing.PeerMasks() then 4 else 0) >= 6) ==>
        recvAcc.Free() > 0
    {
      hide Dispatch;
      hide Step;
      hide EncodeAll;
      hide AllSendable;
      hide BQ.ByteQueue.Contents;
      ghost var r := Abs().Feed(bytes);
      var _ := recvAcc.Write(bytes);
      assert Abs() == r by { assert recvAcc.Contents() == r.acc; }
      ExtractAndDispatch();
      if !broken {
        DispatchSettles(framing, maxFrame, r);
        AccumulatorNeverFills(framing, maxFrame);
      }
    }
  }

  /** All frames of the callbacks to come. */
  function Later(script: seq<seq<Octets>>): (frames: seq<Octets>)
  {
    if script == [] then [] else script[0] + Later(script[1..])
  }

  ghost predicate Overlong(frames: seq<Octets>, max: nat)
  {
    exists f :: f in frames && |f| > max
  }

  lemma OverlongMore(frames: seq<Octets>, body: Octets, max: nat)
    ensures Overlong(frames + [body], max) <==> Overlong(frames, max) || |body| > max
  {
    var more := frames + [body];
    if |body| > max {
      assert body in more;
    }
    assert forall f :: f in frames ==> f in more;
  }

  /** A drain that fails has been told so. */
  lemma FailureIsAsked(asked: seq<K.Answer>, ks: seq<K.Answer>, len: nat)
    ensures var d := K.Drain(len, DRAIN_CHUNK, ks);
      d.failed ==> forall now :: now + d.rest == asked + ks ==> K.Failed in now
  {
    var d := K.Drain(len, DRAIN_CHUNK, ks);
    K.StopsForAReason(len, DRAIN_CHUNK, ks);
    hide K.Drain;
    if d.failed {
      var used := |ks| - |d.rest|;
      forall now | now + d.rest == asked + ks
        ensures K.Failed in now
      {
        assert |now| == |asked| + used;
        assert now[|asked| + used - 1] == (now + d.rest)[|asked| + used - 1] == ks[used - 1];
      }
    }
  }

  lemma SentMore(w: Octets, q: Octets, a: nat, n: nat)
    requires a + n <= |q|
    ensures (w + q[..a]) + q[a..][..n] == w + q[..a + n] && q[a..][n..] == q[a + n..]
  {
    assert q[..a] + q[a..][..n] == q[..a + n];
    Regroup(w, q[..a], q[a..][..n]);
  }
}

/** A WebSocket message in fragments (conn.c, sections 5.4 and 5.5 of RFC 6455): however a peer cuts a message, and whatever
    pings and pongs it puts between the pieces, the message is delivered once and whole and each ping is answered. */
module Fragments {
  import opened Bytes
  import opened WsFrame
  import opened Framing

  /** One frame of the sequence: a piece of the message, or a control frame between two of them. */
  datatype Piece = DataPiece(body: Octets, key: Octets) | PingPiece(body: Octets, key: Octets) | PongPiece(body: Octets, key: Octets)

  predicate HasData(ps: seq<Piece>)
  {
    ps != [] && (ps[0].DataPiece? || HasData(ps[1..]))
  }

  /** The opcode a piece has on the wire: the message's own on its first piece, continuation on the others. */
  function OpOf(p: Piece, op: nat, started: bool): (o: nat)
  {
    if p.PingPiece? then OP_PING else if p.PongPiece? then OP_PONG else if started then OP_CONTINUATION else op
  }

  /** Final are the control frames and the last piece of the message. */
  predicate Final(ps: seq<Piece>)
    requires ps != []
  {
    !ps[0].DataPiece? || !HasData(ps[1..])
  }

  ghost predicate Sendables(e: Framing, max: nat, op: nat, ps: seq<Piece>)
  {
    (op == OP_TEXT || op == OP_BINARY) &&
    forall i :: 0 <= i < |ps| ==>
      PeerFrame(e, max, OpOf(ps[i], op, false), true, ps[i].key, ps[i].body) && KeyFits(ps[i].key)
  }

  predicate KeyFits(key: Octets)
  {
    key == [] || |key| == 4
  }

  function Encoded(op: nat, ps: seq<Piece>, started: bool): (b: Octets)
    requires (op == OP_TEXT || op == OP_BINARY) && forall i :: 0 <= i < |ps| ==> KeyFits(ps[i].key)
  {
    if ps == [] then []
    else
      assert KeyFits(ps[0].key);
      EncodeFrame(OpOf(ps[0], op, started), Final(ps), ps[0].key, ps[0].body) +
      Encoded(op, ps[1..], started || ps[0].DataPiece?)
  }

  /** The message. */
  function Whole(ps: seq<Piece>): (b: Octets)
  {
    if ps == [] then [] else (if ps[0].DataPiece? then ps[0].body else []) + Whole(ps[1..])
  }

  /** What the receiver is to do: a pong for each ping where it comes, the message where its last piece comes. */
  function Expected(ps: seq<Piece>, msg: Octets): (outs: seq<Out>)
  {
    if ps == [] then []
    else if ps[0].PingPiece? then [Pong(ps[0].body)] + Expected(ps[1..], msg)
    else if ps[0].PongPiece? then Expected(ps[1..], msg)
    else if HasData(ps[1..]) then Expected(ps[1..], msg + ps[0].body)
    else [Envelope(msg + ps[0].body)] + Expected(ps[1..], [])
  }

  function Pings(ps: seq<Piece>): (outs: seq<Out>)
  {
    if ps == [] then [] else (if ps[0].PingPiece? then [Pong(ps[0].body)] else []) + Pings(ps[1..])
  }

  function Envelopes(outs: seq<Out>): (r: seq<Out>)
  {
    if outs == [] then [] else (if outs[0].Envelope? then [outs[0]] else []) + Envelopes(outs[1..])
  }

  function Others(outs: seq<Out>): (r: seq<Out>)
  {
    if outs == [] then [] else (if outs[0].Envelope? then [] else [outs[0]]) + Others(outs[1..])
  }

  // ---------- one piece after another ----------

  lemma DispatchOn(e: Framing, max: nat, r: Recv, next: Recv, outs: seq<Out>)
    requires Step(e, max, r) == Advance(next, outs)
    ensures Dispatch(e, max, r) == After(outs, Dispatch(e, max, next))
  {
    hide Step;
  }

  /** A ping, in any state of the message: its pong first, then whatever the bytes behind it give. */
  lemma PingDispatched(e: Framing, max: nat, key: Octets, body: Octets, rest: Octets, msg: Octets, active: bool)
    requires PeerFrame(e, max, OP_PING, true, key, body)
    ensures Dispatch(e, max, Recv(EncodeFrame(OP_PING, true, key, body) + rest, msg, active))
         == After([Pong(body)], Dispatch(e, max, Recv(rest, msg, active)))
  {
    hide Dispatch;
    hide EncodeFrame;
    PingArrives(e, max, key, body, rest, msg, active);
    DispatchOn(e, max, Recv(EncodeFrame(OP_PING, true, key, body) + rest, msg, active), Recv(rest, msg, active), [Pong(body)]);
  }

  lemma SendablesRest(e: Framing, max: nat, op: nat, ps: seq<Piece>)
    requires Sendables(e, max, op, ps) && ps != []
    ensures Sendables(e, max, op, ps[1..])
  {
    assert forall i :: 0 <= i < |ps[1..]| ==> ps[1..][i] == ps[i + 1];
  }

  /** A control frame, in any state of the message. */
  lemma ControlPiece(e: Framing, max: nat, op: nat, ps: seq<Piece>, started: bool, rest: Octets, msg: Octets, active: bool)
    requires Sendables(e, max, op, ps) && ps != [] && !ps[0].DataPiece?
    ensures var tail := Encoded(op, ps[1..], started) + rest;
      Dispatch(e, max, Recv(Encoded(op, ps, started) + rest, msg, active))
      == After(if ps[0].PingPiece? then [Pong(ps[0].body)] else [], Dispatch(e, max, Recv(tail, msg, active)))
  {
    var p := ps[0];
    var tail := Encoded(op, ps[1..], started) + rest;
    assert PeerFrame(e, max, OpOf(p, op, false), true, p.key, p.body);
    var o := OpOf(p, op, started);
    hide Dispatch;
    hide EncodeFrame;
    hide Step;
    Regroup(EncodeFrame(o, true, p.key, p.body), Encoded(op, ps[1..], started), rest);
    if p.PingPiece? {
      PingDispatched(e, max, p.key, p.body, tail, msg, active);
    } else {
      PongArrives(e, max, p.key, p.body, tail, msg, active);
      DispatchOn(e, max, Recv(Encoded(op, ps, started) + rest, msg, active), Recv(tail, msg, active), []);
    }
  }

  /** A piece of the message, with `msg` collected so far. */
  lemma DataPieceArrives(e: Framing, max: nat, op: nat, ps: seq<Piece>, started: bool, rest: Octets, msg: Octets)
    requires Sendables(e, max, op, ps) && ps != [] && ps[0].DataPiece? && |msg| + |ps[0].body| <= max
    ensures var tail := Encoded(op, ps[1..], true) + rest; var m := msg + ps[0].body;
      Dispatch(e, max, Recv(Encoded(op, ps, started) + rest, msg, started))
      == if HasData(ps[1..]) then After([], Dispatch(e, max, Recv(tail, m, true)))
         else After([Envelope(m)], Dispatch(e, max, Recv(tail, [], false)))
  {
    var p := ps[0];
    var tail := Encoded(op, ps[1..], true) + rest;
    var o, fin := OpOf(p, op, started), Final(ps);
    assert PeerFrame(e, max, OpOf(p, op, false), true, p.key, p.body);
    hide Dispatch;
    hide EncodeFrame;
    hide Step;
    Regroup(EncodeFrame(o, fin, p.key, p.body), Encoded(op, ps[1..], true), rest);
    DataArrives(e, max, o, fin, p.key, p.body, tail, msg, started);
    var r := Recv(Encoded(op, ps, started) + rest, msg, started);
    if fin {
      DispatchOn(e, max, r, Recv(tail, [], false), [Envelope(msg + p.body)]);
    } else {
      DispatchOn(e, max, r, Recv(tail, msg + p.body, true), []);
    }
  }

  /** Control frames alone. */
  lemma {:induction false} ControlsArrive(e: Framing, max: nat, op: nat, ps: seq<Piece>, started: bool, rest: Octets)
    requires Sendables(e, max, op, ps) && !HasData(ps)
    ensures Dispatch(e, max, Recv(Encoded(op, ps, started) + rest, [], false))
         == After(Expected(ps, []), Dispatch(e, max, Recv(rest, [], false)))
    decreases |ps|
  {
    hide Dispatch;
    if ps == [] {
      assert Encoded(op, ps, started) + rest == rest;
      AfterAfter([], [], Dispatch(e, max, Recv(rest, [], false)));
    } else {
      SendablesRest(e, max, op, ps);
      ControlPiece(e, max, op, ps, started, rest, [], false);
      ControlsArrive(e, max, op, ps[1..], started, rest);
      AfterAfter(if ps[0].PingPiece? then [Pong(ps[0].body)] else [], Expected(ps[1..], []), Dispatch(e, max, Recv(rest, [], false)));
      hide Encoded;
      assert [] + Expected(ps[1..], []) == Expected(ps[1..], []);
    }
  }

  lemma {:induction false} PiecesArrive(e: Framing, max: nat, op: nat, ps: seq<Piece>, started: bool, rest: Octets, msg: Octets)
    requires Sendables(e, max, op, ps) && HasData(ps) && |msg| + |Whole(ps)| <= max
    ensures Dispatch(e, max, Recv(Encoded(op, ps, started) + rest, msg, started))
         == After(Expected(ps, msg), Dispatch(e, max, Recv(rest, [], false)))
    decreases |ps|
  {
    hide Dispatch;
    hide Encoded;
    SendablesRest(e, max, op, ps);
    var d := Dispatch(e, max, Recv(rest, [], false));
    if !ps[0].DataPiece? {
      ControlPiece(e, max, op, ps, started, rest, msg, started);
      PiecesArrive(e, max, op, ps[1..], started, rest, msg);
      AfterAfter(if ps[0].PingPiece? then [Pong(ps[0].body)] else [], Expected(ps[1..], msg), d);
      assert [] + Expected(ps[1..], msg) == Expected(ps[1..], msg);
    } else {
      DataPieceArrives(e, max, op, ps, started, rest, msg);
      var m := msg + ps[0].body;
      if HasData(ps[1..]) {
        PiecesArrive(e, max, op, ps[1..], true, rest, m);
        AfterAfter([], Expected(ps[1..], m), d);
        assert [] + Expected(ps[1..], m) == Expected(ps[1..], m);
      } else {
        ControlsArrive(e, max, op, ps[1..], true, rest);
        AfterAfter([Envelope(m)], Expected(ps[1..], []), d);
      }
    }
  }

  // ---------- what is expected is the message, once, and a pong for each ping ----------

  lemma {:induction false} ExpectedControls(ps: seq<Piece>)
    requires !HasData(ps)
    ensures Envelopes(Expected(ps, [])) == [] && Others(Expected(ps, [])) == Pings(ps) && Whole(ps) == []
  {
    if ps != [] {
      ExpectedControls(ps[1..]);
      if ps[0].PingPiece? {
        assert Expected(ps, [])[1..] == Expected(ps[1..], []);
      }
    }
  }

  lemma {:induction false} ExpectedIsWhole(ps: seq<Piece>, msg: Octets)
    requires HasData(ps)
    ensures Envelopes(Expected(ps, msg)) == [Envelope(msg + Whole(ps))]
    ensures Others(Expected(ps, msg)) == Pings(ps)
  {
    var rest := ps[1..];
    if ps[0].PingPiece? {
      ExpectedIsWhole(rest, msg);
      assert Expected(ps, msg)[1..] == Expected(rest, msg);
      assert [] + Whole(rest) == Whole(rest);
    } else if ps[0].PongPiece? {
      ExpectedIsWhole(rest, msg);
      assert [] + Whole(rest) == Whole(rest);
    } else if HasData(rest) {
      ExpectedIsWhole(rest, msg + ps[0].body);
      Regroup(msg, ps[0].body, Whole(rest));
    } else {
      ExpectedControls(rest);
      assert Expected(ps, msg)[1..] == Expected(rest, []);
      assert ps[0].body + [] == ps[0].body;
    }
  }

  /** A FRAGMENTED MESSAGE. For any cut of a message into a first frame and continuations, any masking keys, any pings and
      pongs between them and any cut of the reads, an end that expects that masking delivers exactly one envelope, the
      concatenation of the pieces, answers each ping with its own payload in order, and is not broken. */
  lemma MessageArrives(e: Framing, max: nat, op: nat, ps: seq<Piece>, chunks: seq<Octets>)
    requires Sendables(e, max, op, ps) && HasData(ps) && |Whole(ps)| <= max
    requires Flatten(chunks) == Encoded(op, ps, false)
    ensures var got := Receive(e, max, FRESH, chunks);
      !got.broken && got.r == FRESH && Envelopes(got.outs) == [Envelope(Whole(ps))] && Others(got.outs) == Pings(ps)
  {
    hide Dispatch;
    hide Receive;
    hide Encoded;
    hide Expected;
    var b := Encoded(op, ps, false);
    assert b + [] == b && FRESH.Feed(b) == Recv(b, [], false);
    PiecesArrive(e, max, op, ps, false, [], []);
    ExpectedIsWhole(ps, []);
    FreshWaits(e, max);
    ChunkingIrrelevant(e, max, FRESH, chunks);
    assert [] + Whole(ps) == Whole(ps);
    assert Expected(ps, []) + [] == Expected(ps, []);
  }
}

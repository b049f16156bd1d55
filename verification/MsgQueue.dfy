/** The datagram queue (msgqueue.c): messages stored in a byte ring, each behind a four-byte length. */
module MsgQueue {
  import opened Bytes
  import Ring

  const LEN_PREFIX: nat := 4

  datatype WriteResult = Queued | ErrFull | ErrTooLarge | ErrClosed
  datatype ReadResult = Message(body: Octets) | Empty | ShortBuffer

  // ---------- the queue as a value ----------

  function Encode(msgs: seq<Octets>): (b: Octets)
  {
    if msgs == [] then [] else Store(|msgs[0]|, LEN_PREFIX) + msgs[0] + Encode(msgs[1..])
  }

  function Payload(msgs: seq<Octets>): (n: nat)
  {
    if msgs == [] then 0 else |msgs[0]| + Payload(msgs[1..])
  }

  lemma {:induction false} EncodeAppend(msgs: seq<Octets>, m: Octets)
    ensures Encode(msgs + [m]) == Encode(msgs) + (Store(|m|, LEN_PREFIX) + m)
    ensures Payload(msgs + [m]) == Payload(msgs) + |m|
  {
    if msgs != [] {
      EncodeAppend(msgs[1..], m);
      assert (msgs + [m])[1..] == msgs[1..] + [m];
    } else {
      assert Encode([m]) == Store(|m|, LEN_PREFIX) + m + Encode([]);
    }
  }

  lemma {:induction false} EncodeLen(msgs: seq<Octets>)
    ensures |Encode(msgs)| == Payload(msgs) + LEN_PREFIX * |msgs|
  {
    if msgs != [] { EncodeLen(msgs[1..]); }
  }

  /** The ring after a message is stored behind a region of `len` bytes. */
  function StoredMessage(s: Octets, head: nat, len: nat, m: Octets): (t: Octets)
    requires head < |s| && len + LEN_PREFIX + |m| <= |s|
    ensures |t| == |s|
  {
    var t := Ring.Put(s, Ring.Step(head, len, |s|), Store(|m|, LEN_PREFIX));
    Ring.Put(t, Ring.Step(head, len + LEN_PREFIX, |s|), m)
  }

  lemma StoredTwice(s: Octets, head: nat, len: nat, prefix: Octets, m: Octets)
    requires head < |s| && len + |prefix| + |m| <= |s|
    ensures Ring.Get(Ring.Put(Ring.Put(s, Ring.Step(head, len, |s|), prefix), Ring.Step(head, len + |prefix|, |s|), m),
                     head, len + |prefix| + |m|)
         == Ring.Get(s, head, len) + (prefix + m)
  {
    hide *;
    var t := Ring.Put(s, Ring.Step(head, len, |s|), prefix);
    Ring.GetAppend(s, head, len, prefix);
    Ring.GetAppend(t, head, len + |prefix|, m);
  }

  /** Storing the prefix and then the body behind the queued region queues one more message. */
  lemma Appended(s: Octets, head: nat, len: nat, msgs: seq<Octets>, m: Octets)
    requires head < |s| && len + LEN_PREFIX + |m| <= |s| && Ring.Get(s, head, len) == Encode(msgs)
    ensures Ring.Get(StoredMessage(s, head, len, m), head, len + LEN_PREFIX + |m|) == Encode(msgs + [m])
  {
    hide Ring.Get;
    hide Ring.Put;
    hide Store;
    hide Encode;
    var prefix := Store(|m|, LEN_PREFIX);
    StoredTwice(s, head, len, prefix, m);
    EncodeAppend(msgs, m);
  }

  lemma PrefixLoads(n: nat)
    requires n <= 0xffff_ffff
    ensures Load(Store(n, LEN_PREFIX)) == n
  {
    assert Pow256(4) == 0x1_0000_0000 by { assert Pow256(2) == 65536; }
    LoadStore(n, LEN_PREFIX);
  }

  /** Where the head message lies in the ring, and what is left once it is taken. */
  lemma HeadLayout(s: Octets, head: nat, len: nat, msgs: seq<Octets>)
    requires head < |s| && len <= |s| && Ring.Get(s, head, len) == Encode(msgs) && msgs != []
    ensures len >= LEN_PREFIX + |msgs[0]|
    ensures Ring.Get(s, head, LEN_PREFIX) == Store(|msgs[0]|, LEN_PREFIX)
    ensures Ring.Get(s, Ring.Step(head, LEN_PREFIX, |s|), |msgs[0]|) == msgs[0]
    ensures Ring.Get(s, Ring.Step(head, LEN_PREFIX + |msgs[0]|, |s|), len - LEN_PREFIX - |msgs[0]|) == Encode(msgs[1..])
  {
    var m, rest := msgs[0], Encode(msgs[1..]);
    var prefix := Store(|m|, LEN_PREFIX);
    var k := LEN_PREFIX + |m|;
    assert Encode(msgs) == prefix + m + rest;
    Ring.GetSplit(s, head, k, len - k);
    var first := Ring.Get(s, head, k);
    assert first + Ring.Get(s, Ring.Step(head, k, |s|), len - k) == (prefix + m) + rest;
    assert first == prefix + m by { assert first == Encode(msgs)[..k]; }
    assert Ring.Get(s, Ring.Step(head, k, |s|), len - k) == Encode(msgs)[k..];
    Ring.GetSplit(s, head, LEN_PREFIX, |m|);
    assert first[..LEN_PREFIX] == prefix && first[LEN_PREFIX..] == m;
  }

  /** What writing `m` to a queue of capacity `cap` holding `msgs` answers. */
  function WriteSpec(cap: nat, msgs: seq<Octets>, closed: bool, m: Octets): (r: WriteResult)
  {
    if closed then ErrClosed
    else if |m| + LEN_PREFIX > cap || |m| > 0xffff_ffff then ErrTooLarge
    else if |m| + LEN_PREFIX + |Encode(msgs)| > cap then ErrFull
    else Queued
  }

  function ReadSpec(msgs: seq<Octets>, cap: nat): (r: ReadResult)
  {
    if msgs == [] then Empty
    else if cap < |msgs[0]| then ShortBuffer
    else Message(msgs[0])
  }

  lemma PutNothing(s: Octets, off: nat, m: Octets)
    requires off < |s| && m == []
    ensures Ring.Put(s, off, m) == s
  {
  }

  method StoreMessage(data: array<byte>, head: nat, len: nat, m: Octets)
    requires head < data.Length && len + LEN_PREFIX + |m| <= data.Length
    modifies data
    ensures data[..] == StoredMessage(old(data[..]), head, len, m)
  {
    hide Store;
    hide Ring.Put;
    hide Ring.Step;
    var tail := Ring.Step(head, len, data.Length);
    Ring.StepStep(head, len, LEN_PREFIX, data.Length);
    Ring.Store(data, tail, Store(|m|, LEN_PREFIX));
    if |m| > 0 {
      Ring.Store(data, Ring.Step(tail, LEN_PREFIX, data.Length), m);
    } else {
      PutNothing(data[..], Ring.Step(head, len + LEN_PREFIX, data.Length), m);
    }
  }

  class MsgQueue {
    const data: array<byte>
    var head: nat
    var len: nat
    var count: nat
    var payloadBytes: nat
    var closed: bool
    ghost var msgs: seq<Octets>

    ghost predicate Valid()
      reads this, data
    {
      && data.Length > LEN_PREFIX && head < data.Length && len <= data.Length
      && Ring.Get(data[..], head, len) == Encode(msgs)
      && count == |msgs| && payloadBytes == Payload(msgs)
      && (forall m :: m in msgs ==> |m| <= 0xffff_ffff)
    }

    constructor (cap: nat)
      requires cap > LEN_PREFIX
      ensures Valid() && fresh(data) && data.Length == cap && msgs == [] && !closed
    {
      data := new byte[cap];
      head, len, count, payloadBytes, closed := 0, 0, 0, 0, false;
      msgs := [];
    }

    /** All or nothing, whatever the wrap cuts: the prefix, the body, or neither. */
    method Write(m: Octets) returns (r: WriteResult)
      requires Valid()
      modifies this, data
      ensures Valid() && closed == old(closed)
      ensures r == WriteSpec(data.Length, old(msgs), closed, m)
      ensures msgs == if r == Queued then old(msgs) + [m] else old(msgs)
    {
      hide Encode;
      hide Payload;
      hide Ring.Get;
      hide StoredMessage;
      if closed {
        return ErrClosed;
      }
      if |m| > data.Length - LEN_PREFIX || |m| > 0xffff_ffff {
        return ErrTooLarge;
      }
      if |m| + LEN_PREFIX > data.Length - len {
        return ErrFull;
      }
      Appended(data[..], head, len, msgs, m);
      EncodeAppend(msgs, m);
      StoreMessage(data, head, len, m);
      len := len + LEN_PREFIX + |m|;
      payloadBytes := payloadBytes + |m|;
      count := count + 1;
      msgs := msgs + [m];
      return Queued;
    }

    /** The length of the head message, decoded from the ring. */
    method PeekLen() returns (found: bool, n: nat)
      requires Valid()
      ensures found == (msgs != [])
      ensures found ==> n == |msgs[0]|
    {
      if count == 0 {
        return false, 0;
      }
      HeadLayout(data[..], head, len, msgs);
      assert msgs[0] in msgs;
      PrefixLoads(|msgs[0]|);
      var prefix := Ring.Fetch(data, head, LEN_PREFIX);
      return true, Load(prefix);
    }

    /** One whole message or none: a short buffer or an empty queue changes nothing. */
    method Read(cap: nat) returns (r: ReadResult)
      requires Valid()
      modifies this
      ensures Valid() && closed == old(closed)
      ensures r == ReadSpec(old(msgs), cap)
      ensures msgs == if r.Message? then old(msgs)[1..] else old(msgs)
    {
      hide Ring.Get;
      hide Store;
      var found, n := PeekLen();
      if !found {
        return Empty;
      }
      if cap < n {
        return ShortBuffer;
      }
      HeadLayout(data[..], head, len, msgs);
      var body := [];
      if n > 0 {
        body := Ring.Fetch(data, Ring.Step(head, LEN_PREFIX, data.Length), n);
      }
      head := Ring.Step(head, LEN_PREFIX + n, data.Length);
      len := len - (LEN_PREFIX + n);
      payloadBytes := payloadBytes - n;
      count := count - 1;
      msgs := msgs[1..];
      return Message(body);
    }

    method Close()
      requires Valid()
      modifies this
      ensures Valid() && closed && msgs == old(msgs)
    {
      closed := true;
    }
  }
}

/** The bounded byte queue (bytequeue.c): a ring buffer that behaves as a sequence of bytes. */
module ByteQueue {
  import opened Bytes
  import Ring

  class ByteQueue {
    const data: array<byte>
    var head: nat
    var len: nat
    var closed: bool

    ghost predicate Valid()
      reads this, data
    {
      head < data.Length && len <= data.Length
    }

    ghost function Contents(): (s: Octets)
      requires Valid()
      reads this, data
      ensures |s| == len
    {
      Ring.Get(data[..], head, len)
    }

    constructor (cap: nat)
      requires cap > 0
      ensures Valid() && fresh(data) && data.Length == cap && Contents() == [] && !closed
    {
      data := new byte[cap];
      head, len, closed := 0, 0, false;
    }

    /** All or nothing: refused when closed or when the bytes do not fit. */
    method Write(src: Octets) returns (n: nat)
      requires Valid()
      modifies this, data
      ensures Valid() && closed == old(closed)
      ensures n == if old(closed) || |src| > data.Length - old(len) then 0 else |src|
      ensures Contents() == if n == 0 then old(Contents()) else old(Contents()) + src
    {
      if |src| == 0 {
        return 0;
      }
      if closed || |src| > data.Length - len {
        return 0;
      }
      ghost var before := data[..];
      var tail := Ring.Step(head, len, data.Length);
      Ring.Store(data, tail, src);
      Ring.GetAppend(before, head, len, src);
      len := len + |src|;
      return |src|;
    }

    method Read(want: nat) returns (out: Octets)
      requires Valid()
      modifies this
      ensures Valid() && closed == old(closed)
      ensures |out| == if want < old(len) then want else old(len)
      ensures old(Contents()) == out + Contents()
    {
      var n := if want < len then want else len;
      if n == 0 {
        return [];
      }
      out := Ring.Fetch(data, head, n);
      Ring.GetSplit(data[..], head, n, len - n);
      head := Ring.Step(head, n, data.Length);
      len := len - n;
    }

    method Peek(want: nat) returns (out: Octets)
      requires Valid()
      ensures out == Contents()[..if want < len then want else len]
    {
      var n := if want < len then want else len;
      if n == 0 {
        return [];
      }
      out := Ring.Fetch(data, head, n);
      Ring.GetSplit(data[..], head, n, len - n);
    }

    method Close()
      requires Valid()
      modifies this
      ensures Valid() && closed && Contents() == old(Contents())
    {
      closed := true;
    }

    function Free(): (n: nat)
      requires Valid()
      reads this, data
      ensures n + |Contents()| == data.Length
    {
      data.Length - len
    }

    predicate IsEof()
      requires Valid()
      reads this, data
      ensures IsEof() <==> closed && Contents() == []
    {
      closed && len == 0
    }
  }
}

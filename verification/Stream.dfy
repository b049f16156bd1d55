/** A stream in ordered mode (stream.c): the pending-frame heap kept in an array that grows by doubling, the ring
    behind it, and the write loop. Every method is tied to its function in Reassembly. */
module Stream {
  import opened Bytes
  import opened Heap
  import opened Reassembly
  import BQ = ByteQueue

  /** heap_grow's new capacity. */
  function GrownCap(cap: nat, max: nat): (n: nat)
    requires cap < max
    ensures cap < n <= max
  {
    var n := if cap == 0 then 8 else cap * 2;
    if n > max then max else n
  }

  class Stream {
    // receive side
    var heap: array<Node<Body>>
    var heapLen: nat
    const maxPending: nat
    var nextRecv: nat
    var closingSeen: bool
    const recvBytes: BQ.ByteQueue

    // write side; `sent` is what the sink took
    const unordered: bool
    const maxPayload: nat
    var nextWrite: nat
    var writeClosed: bool
    var sent: seq<Frame>
    ghost var writes: seq<Octets>

    /** While open, the sink has exactly the frames of the writes so far; afterwards it has nothing else, except
        perhaps one closing frame behind them. */
    ghost predicate WriteSideValid()
      reads this
    {
      && maxPayload > 0
      && (unordered ==> Whole(writes, maxPayload))
      && (!writeClosed ==> sent == Frames(writes, maxPayload, 0) && nextWrite == |sent|)
      && (forall f :: f in sent ==> Sent(Frames(writes, maxPayload, 0), f))
    }

    ghost predicate Valid()
      reads this, heap, recvBytes, recvBytes.data
    {
      && recvBytes.Valid() && maxPayload > 0
      && heapLen <= heap.Length <= maxPending
      && (recvBytes.closed <==> closingSeen)
    }

    ghost function Lim(): (l: Limits)
      reads this
    {
      Limits(recvBytes.data.Length, maxPending)
    }

    ghost function Abs(): (r: Receiver)
      requires Valid()
      reads this, heap, recvBytes, recvBytes.data
    {
      Receiver(heap[..heapLen], nextRecv, recvBytes.Contents(), closingSeen)
    }

    /** max_pending_frames of zero is raised to one. */
    constructor (isUnordered: bool, payloadLimit: nat, recvCapacity: nat, pendingLimit: nat)
      requires payloadLimit > 0 && recvCapacity > 0
      ensures Valid() && fresh(heap) && fresh(recvBytes) && fresh(recvBytes.data)
      ensures Abs() == START.r && recvBytes.data.Length == recvCapacity
      ensures maxPending == if pendingLimit > 0 then pendingLimit else 1
      ensures unordered == isUnordered && maxPayload == payloadLimit && WriteSideValid() && !writeClosed && sent == [] && writes == []
    {
      heap := new Node<Body>[0];
      heapLen := 0;
      maxPending := if pendingLimit > 0 then pendingLimit else 1;
      nextRecv, closingSeen := 0, false;
      recvBytes := new BQ.ByteQueue(recvCapacity);
      unordered := isUnordered;
      maxPayload, nextWrite, writeClosed, sent, writes := payloadLimit, 0, false, [], [];
    }

    method HeapGrow()
      requires Valid() && heap.Length < maxPending
      modifies this`heap
      ensures Valid() && fresh(heap) && heap.Length > old(heap.Length)
      ensures heap[..heapLen] == old(heap[..heapLen])
    {
      var bigger := new Node<Body>[GrownCap(heap.Length, maxPending)];
      forall k | 0 <= k < heapLen { bigger[k] := heap[k]; }
      heap := bigger;
    }

    /** Appends and swaps towards the root. */
    method HeapPush(e: Node<Body>) returns (ok: bool)
      requires Valid()
      modifies this`heap, this`heapLen, heap
      ensures Valid() && (heap == old(heap) || fresh(heap))
      ensures ok == (old(heapLen) < maxPending)
      ensures heap[..heapLen] == if ok then Push(old(heap[..heapLen]), e) else old(heap[..heapLen])
    {
      if heapLen >= maxPending {
        return false;
      }
      if heapLen == heap.Length {
        HeapGrow();
      }
      var i := heapLen;
      heapLen := heapLen + 1;
      heap[i] := e;
      assert heap[..heapLen] == old(heap[..heapLen]) + [e];
      SwapUp(heap, heapLen, i);
      return true;
    }

    /** Takes the root; the last element fills the hole and is swapped away from the root. */
    method HeapPop() returns (top: Node<Body>)
      requires Valid() && heapLen > 0
      modifies this`heapLen, heap
      ensures Valid()
      ensures top == old(heap[0]) && heap[..heapLen] == RemoveAt(old(heap[..heapLen]), 0)
    {
      top := heap[0];
      heapLen := heapLen - 1;
      ghost var all := old(heap[..heapLen]);
      if heapLen > 0 {
        heap[0] := heap[heapLen];
        assert heap[..heapLen] == all[..heapLen][0 := all[heapLen]];
        SwapAway(heap, heapLen, 0);
      }
    }

    method HeapContains(num: nat) returns (found: bool)
      requires Valid()
      ensures found == Pending(heap[..heapLen], num)
    {
      for i := 0 to heapLen
        invariant forall k :: 0 <= k < i ==> heap[k].key != num
      {
        if heap[i].key == num {
          assert heap[..heapLen][i].key == num;
          return true;
        }
      }
      return false;
    }

    /** Moves the root's payload into the byte queue and advances. */
    method DrainRoot()
      requires Valid() && heapLen > 0 && recvBytes.Free() >= |heap[0].val.payload|
      modifies this`heapLen, this`nextRecv, heap, recvBytes, recvBytes.data
      ensures Valid() && heapLen == old(heapLen) - 1
      ensures Abs() == Receiver(RemoveAt(old(Abs()).heap, 0), old(nextRecv) + 1,
                                Enqueued(old(Abs()), old(heap[0].val.payload)), closingSeen)
    {
      hide RemoveAt;
      var pf := HeapPop();
      if |pf.val.payload| > 0 {
        var _ := recvBytes.Write(pf.val.payload);
      }
      nextRecv := nextRecv + 1;
    }

    method TryDrain() returns (closing: bool)
      requires Valid()
      modifies this`heapLen, this`nextRecv, this`closingSeen, heap, recvBytes, recvBytes.data
      ensures Valid()
      ensures (Abs(), closing) == Drain(Lim().cap, old(Abs()))
    {
      hide RemoveAt;
      while heapLen > 0 && heap[0].key == nextRecv
        invariant Valid()
        invariant Drain(Lim().cap, Abs()) == Drain(Lim().cap, old(Abs()))
        decreases heapLen
      {
        if heap[0].val.closing != CLOSING_NOTHING {
          var _ := HeapPop();
          closingSeen := true;
          recvBytes.Close();
          return true;
        }
        if recvBytes.Free() < |heap[0].val.payload| {
          break;
        }
        DrainRoot();
      }
      return false;
    }

    method FeedFrame(f: Frame) returns (rc: int)
      requires Valid()
      modifies this`heap, this`heapLen, this`nextRecv, this`closingSeen, heap, recvBytes, recvBytes.data
      ensures Valid() && (heap == old(heap) || fresh(heap))
      ensures (Abs(), rc) == Feed(Lim(), old(Abs()), f)
    {
      if closingSeen {
        return -1;
      }
      var dup := f.num < nextRecv;
      if !dup {
        dup := HeapContains(f.num);
      }
      if dup {
        return -1;
      }
      if |f.body.payload| > recvBytes.len + recvBytes.Free() {
        return -1;
      }
      var pushed := HeapPush(Node(f.num, f.body));
      if !pushed {
        return -1;
      }
      var closing := TryDrain();
      rc := if closing then 1 else 0;
    }

    method ReadBytes(want: nat) returns (res: ReadResult)
      requires Valid()
      modifies this`heapLen, this`nextRecv, this`closingSeen, heap, recvBytes, recvBytes.data
      ensures Valid()
      ensures (Abs(), res) == Read(Lim(), old(Abs()), want)
    {
      var out := recvBytes.Read(want);
      assert out == old(recvBytes.Contents())[..|out|];
      assert recvBytes.Contents() == old(recvBytes.Contents())[|out|..];
      if |out| > 0 {
        var _ := TryDrain();
        return Bytes(out);
      }
      if recvBytes.IsEof() {
        return Eof;
      }
      return Nothing;
    }

    /** The write loop. The sink takes `accepts` more frames and then fails, which closes the write side; the
        number of the frame it failed on is spent. */
    method SendChunks(data: Octets, accepts: nat) returns (ok: bool)
      requires maxPayload > 0 && !writeClosed
      modifies this`nextWrite, this`writeClosed, this`sent
      ensures var fs := Chunks(data, maxPayload, old(nextWrite));
        && ok == (accepts >= |fs|) && writeClosed == !ok
        && sent == old(sent) + (if ok then fs else fs[..accepts])
        && nextWrite == old(nextWrite) + if ok then |fs| else accepts + 1
    {
      hide Chunks;
      ghost var fs := Chunks(data, maxPayload, nextWrite);
      var n := 0;
      var calls := 0;
      assert data[0..] == data;
      while n < |data|
        invariant n <= |data| && !writeClosed && calls <= accepts && calls <= |fs|
        invariant nextWrite == old(nextWrite) + calls
        invariant sent == old(sent) + fs[..calls]
        invariant Chunks(data[n..], maxPayload, nextWrite) == fs[calls..]
      {
        var remaining := |data| - n;
        var chunk := if remaining <= maxPayload then remaining else maxPayload;
        var frame := Frame(nextWrite, Body(CLOSING_NOTHING, data[n..n + chunk]));
        ChunkStep(data, n, maxPayload, nextWrite);
        HeadOfRest(fs, calls, frame, Chunks(data[n + chunk..], maxPayload, nextWrite + 1));
        nextWrite := nextWrite + 1;
        if calls == accepts {
          writeClosed := true;
          return false;
        }
        SentOne(old(sent), fs, calls);
        calls := calls + 1;
        sent := sent + [frame];
        n := n + chunk;
      }
      NoChunks(maxPayload, nextWrite);
      assert data[n..] == [];
      assert fs[..calls] == fs;
      return true;
    }

    /** A closed stream sends nothing. An unordered one never splits: a write longer than one frame is refused before
        anything is sent, and the stream stays open. */
    method Write(data: Octets, accepts: nat) returns (ok: bool)
      requires WriteSideValid()
      modifies this`nextWrite, this`writeClosed, this`sent, this`writes
      ensures WriteSideValid()
      ensures old(writeClosed) || (unordered && |data| > maxPayload) ==>
        !ok && sent == old(sent) && writes == old(writes) && nextWrite == old(nextWrite) && writeClosed == old(writeClosed)
      ensures !(old(writeClosed) || (unordered && |data| > maxPayload)) ==>
        var fs := Chunks(data, maxPayload, old(nextWrite));
        && writes == old(writes) + [data]
        && ok == (accepts >= |fs|) && writeClosed == !ok
        && sent == old(sent) + if ok then fs else fs[..accepts]
    {
      if writeClosed {
        return false;
      }
      if unordered && |data| > maxPayload {
        return false;
      }
      ghost var fs := Chunks(data, maxPayload, nextWrite);
      FramesAppend(writes, data, maxPayload, 0);
      hide Frames;
      hide Chunks;
      writes := writes + [data];
      ok := SendChunks(data, accepts);
      assert forall f :: f in sent ==> f in old(sent) + fs;
    }

    /** Sends a closing frame with 1 to 256 bytes of padding, clamped to what one frame may carry, and closes the
        write side whatever the sink says. */
    method SendClosing(kind: byte, lenByte: byte, random: Octets, accepts: bool) returns (ok: bool)
      requires WriteSideValid() && kind != CLOSING_NOTHING && |random| == 256
      modifies this`nextWrite, this`writeClosed, this`sent
      ensures WriteSideValid() && writeClosed
      ensures ok == (!old(writeClosed) && accepts)
      ensures !ok ==> sent == old(sent)
      ensures ok ==> |sent| == |old(sent)| + 1 && sent[..|old(sent)|] == old(sent)
      ensures ok ==> var f := sent[|old(sent)|];
        f.num == |old(sent)| && f.body.closing == kind && 0 < |f.body.payload| <= maxPayload
    {
      if writeClosed {
        return false;
      }
      var maxPad := if maxPayload < 256 then maxPayload else 256;
      var padLen := lenByte as nat + 1;
      if padLen > maxPad {
        padLen := maxPad;
      }
      var frame := Frame(nextWrite, Body(kind, random[..padLen]));
      writeClosed := true;
      nextWrite := nextWrite + 1;
      if !accepts {
        return false;
      }
      assert Sent(Frames(writes, maxPayload, 0), frame);
      sent := sent + [frame];
      return true;
    }
  }

  /** No write is longer than one frame. */
  ghost predicate Whole(writes: seq<Octets>, max: nat)
  {
    forall i :: 0 <= i < |writes| ==> |writes[i]| <= max
  }

  lemma HeadOfRest(fs: seq<Frame>, k: nat, f: Frame, rest: seq<Frame>)
    requires k <= |fs| && fs[k..] == [f] + rest
    ensures k < |fs| && fs[k] == f && fs[k + 1..] == rest
  {
    assert fs[k] == fs[k..][0] && fs[k + 1..] == fs[k..][1..];
  }

  lemma SentOne(was: seq<Frame>, fs: seq<Frame>, k: nat)
    requires k < |fs|
    ensures (was + fs[..k]) + [fs[k]] == was + fs[..k + 1]
  {
  }

  lemma NoChunks(max: nat, num: nat)
    requires max > 0
    ensures Chunks([], max, num) == []
  {
  }
}

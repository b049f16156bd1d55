/** The relay's read budget (stream_relay.c, switchboard.c): how much may be read so that whatever it is split into
    fits whichever connection each frame is sent to. */
module PoolBudget {
  import opened Bytes
  import R = Reassembly
  import F = Framing
  import C = FrameCodec

  const RELAY_CHUNK: nat := 16384

  /** A connection as its sender sees it: how it frames, and the free space of its send queue. */
  datatype Link = Link(framing: F.Framing, free: nat)

  // ---------- the budget ----------

  function FrameCost(maxPayload: nat): (n: nat)
    ensures n > maxPayload
  {
    F.RECORD_HEADER + maxPayload + C.HEADER + C.MAX_EXTRA
  }

  /** Whole frames that fit the fullest connection, in payload bytes, capped at one relay chunk and, when the
      stream may not split a write, at one frame; the rate limiter may grant less. */
  function Budget(minFree: nat, maxPayload: nat, ordered: bool, grant: nat): (n: nat)
  {
    BudgetFor(minFree / FrameCost(maxPayload), maxPayload, ordered, grant)
  }

  function BudgetFor(frames: nat, maxPayload: nat, ordered: bool, grant: nat): (n: nat)
  {
    if frames == 0 then 0 else
      var b := Min(frames * maxPayload, RELAY_CHUNK);
      var b' := if ordered then b else Min(b, maxPayload);
      Min(b', grant)
  }

  function Min(a: nat, b: nat): (m: nat)
  {
    if a < b then a else b
  }

  /** The smallest free space in the pool, zero for an empty pool. */
  method MinConnFree(pool: seq<Link>) returns (m: nat)
    ensures pool == [] ==> m == 0
    ensures pool != [] ==> (exists i :: 0 <= i < |pool| && pool[i].free == m)
    ensures forall i :: 0 <= i < |pool| ==> m <= pool[i].free
  {
    if pool == [] {
      return 0;
    }
    m := pool[0].free;
    for i := 1 to |pool|
      invariant exists k :: 0 <= k < i && pool[k].free == m
      invariant forall k :: 0 <= k < i ==> m <= pool[k].free
    {
      if pool[i].free < m {
        m := pool[i].free;
      }
    }
  }

  // ---------- sending ----------

  /** One send: the connection drawn, the padding drawn, and what the kernel drained meanwhile. */
  datatype Pick = Pick(conn: nat, pad: nat, drained: nat)

  /** The most a frame can carry behind its payload: 255 bytes while it is padded, the bare tag from number 5 on. */
  function MostExtra(tag: nat, num: nat): (n: nat)
  {
    if num < C.PAD_FIRST_N then C.MAX_EXTRA else tag
  }

  /** Any connection, and any padding the codec can draw for that frame number. */
  ghost predicate Plausible(pool: seq<Link>, tag: nat, fs: seq<R.Frame>, picks: seq<Pick>)
  {
    |picks| == |fs| &&
    forall i :: 0 <= i < |picks| ==> picks[i].conn < |pool| && tag + picks[i].pad <= MostExtra(tag, fs[i].num)
  }

  /** Queue space the frame takes on a connection of this framing. */
  function Need(framing: F.Framing, f: R.Frame, extra: nat): (n: nat)
  {
    F.SendEnvelopeLen(framing, C.HEADER + |f.body.payload| + extra)
  }

  function After(pool: seq<Link>, tag: nat, f: R.Frame, p: Pick): (pool': seq<Link>)
    requires p.conn < |pool| && Need(pool[p.conn].framing, f, tag + p.pad) <= pool[p.conn].free
    ensures |pool'| == |pool|
  {
    var l := pool[p.conn];
    pool[p.conn := l.(free := l.free - Need(l.framing, f, tag + p.pad) + p.drained)]
  }

  /** Every send finds room in the queue it was drawn for. */
  ghost predicate AllFit(pool: seq<Link>, tag: nat, fs: seq<R.Frame>, picks: seq<Pick>)
    requires Plausible(pool, tag, fs, picks)
    decreases |fs|
  {
    fs == [] ||
    (Need(pool[picks[0].conn].framing, fs[0], tag + picks[0].pad) <= pool[picks[0].conn].free &&
     AllFit(After(pool, tag, fs[0], picks[0]), tag, fs[1..], picks[1..]))
  }

  /** What the codec can draw for a frame is a plausible pick, and what it queues is exactly the modelled need. */
  lemma CodecIsPlausible(o: C.Obfuscator, f: C.Frame, d: C.Draw, framing: F.Framing)
    requires C.Sound(o) && C.Drawable(o, f, d) && f.payload != [] && C.FieldsFit(f)
    ensures |C.Body(o, f, d)| >= C.SALSA_NONCE && C.TagLen(o) + |d.pad| <= MostExtra(C.TagLen(o), f.num)
    ensures F.SendEnvelopeLen(framing, |C.Wire(o, f, d)|)
         == Need(framing, R.Frame(f.num, R.Body(f.closing, f.payload)), C.TagLen(o) + |d.pad|)
  {
    hide C.Wire;
    hide C.Body;
    hide C.Sound;
    hide C.Decode;
    C.RoundTrip(o, f, d);
  }

  /** And every plausible padding is one the codec can draw: nothing is assumed that cannot happen. */
  lemma PlausibleIsDrawn(o: C.Obfuscator, f: C.Frame, pad: nat) returns (d: C.Draw)
    requires C.TagLen(o) + pad <= MostExtra(C.TagLen(o), f.num)
    ensures C.Drawable(o, f, d) && |d.pad| == pad
  {
    d := C.Draw(seq(pad, _ => 0), seq(C.SALSA_NONCE, _ => 0));
  }

  // ---------- exactly when a list of frames fits ----------

  /** Queue space for all the frames on one connection, each with the most extra bytes its number allows. */
  function Worst(framing: F.Framing, tag: nat, fs: seq<R.Frame>): (n: nat)
  {
    if fs == [] then 0 else Need(framing, fs[0], MostExtra(tag, fs[0].num)) + Worst(framing, tag, fs[1..])
  }

  /** Each connection alone could take all the frames at their worst. */
  ghost predicate Roomy(pool: seq<Link>, tag: nat, fs: seq<R.Frame>)
  {
    forall i :: 0 <= i < |pool| ==> Worst(pool[i].framing, tag, fs) <= pool[i].free
  }

  lemma {:induction false} RoomSuffices(pool: seq<Link>, tag: nat, fs: seq<R.Frame>, picks: seq<Pick>)
    requires Plausible(pool, tag, fs, picks) && Roomy(pool, tag, fs)
    ensures AllFit(pool, tag, fs, picks)
    decreases |fs|
  {
    if fs != [] {
      var p := picks[0];
      assert Need(pool[p.conn].framing, fs[0], tag + p.pad) <= Need(pool[p.conn].framing, fs[0], MostExtra(tag, fs[0].num));
      hide Need;
      var pool' := After(pool, tag, fs[0], p);
      assert Roomy(pool', tag, fs[1..]);
      assert Plausible(pool', tag, fs[1..], picks[1..]);
      RoomSuffices(pool', tag, fs[1..], picks[1..]);
    }
  }

  /** Every frame to connection `i` with the most padding, and a kernel that takes nothing. */
  function WorstPicks(tag: nat, fs: seq<R.Frame>, i: nat): (picks: seq<Pick>)
    requires tag <= C.MAX_EXTRA
    ensures |picks| == |fs|
  {
    seq(|fs|, k requires 0 <= k < |fs| => Pick(i, MostExtra(tag, fs[k].num) - tag, 0))
  }

  lemma {:induction false} WorstCaseFits(pool: seq<Link>, tag: nat, i: nat, fs: seq<R.Frame>)
    requires i < |pool| && tag <= C.MAX_EXTRA
    ensures Plausible(pool, tag, fs, WorstPicks(tag, fs, i))
    ensures AllFit(pool, tag, fs, WorstPicks(tag, fs, i)) ==> Worst(pool[i].framing, tag, fs) <= pool[i].free
    decreases |fs|
  {
    hide Need;
    if fs != [] {
      var picks := WorstPicks(tag, fs, i);
      assert picks[1..] == WorstPicks(tag, fs[1..], i);
      if Need(pool[i].framing, fs[0], tag + picks[0].pad) <= pool[i].free {
        WorstCaseFits(After(pool, tag, fs[0], picks[0]), tag, i, fs[1..]);
      }
    }
  }

  /** EXACTLY WHEN. On any pool, of any mix of framings, a list of frames is safe for every draw of connections and
      paddings if and only if each connection alone has room for all of them at the most extra bytes their numbers
      allow. */
  lemma ExactlyWhenSafe(pool: seq<Link>, tag: nat, fs: seq<R.Frame>)
    requires tag <= C.MAX_EXTRA
    ensures (forall picks :: Plausible(pool, tag, fs, picks) ==> AllFit(pool, tag, fs, picks)) <==> Roomy(pool, tag, fs)
  {
    hide Worst;
    hide AllFit;
    hide Plausible;
    if Roomy(pool, tag, fs) {
      forall picks | Plausible(pool, tag, fs, picks) ensures AllFit(pool, tag, fs, picks) {
        RoomSuffices(pool, tag, fs, picks);
      }
    } else {
      var i :| 0 <= i < |pool| && Worst(pool[i].framing, tag, fs) > pool[i].free;
      WorstCaseFits(pool, tag, i, fs);
    }
  }

  // ---------- how much a write takes ----------

  /** How many of `n` frames numbered from `num` on are padded. */
  function Padded(num: nat, n: nat): (k: nat)
    ensures k <= n
  {
    if num >= C.PAD_FIRST_N then 0 else Min(n, C.PAD_FIRST_N - num)
  }

  /** For TLS records the worst case of a write in closed form: its bytes, five plus fourteen plus the tag for each
      frame, and up to 255 instead of the tag for each padded one. */
  lemma {:induction false} WorstOfTls(data: Octets, max: nat, num: nat, tag: nat)
    requires max > 0 && tag <= C.MAX_EXTRA
    ensures var n := |R.Chunks(data, max, num)|;
      Worst(F.TlsRecord, tag, R.Chunks(data, max, num))
      == |data| + n * (F.RECORD_HEADER + C.HEADER + tag) + Padded(num, n) * (C.MAX_EXTRA - tag)
    decreases |data|
  {
    if data != [] {
      var n := if |data| <= max then |data| else max;
      WorstOfTls(data[n..], max, num + 1, tag);
      var all, rest := R.Chunks(data, max, num), R.Chunks(data[n..], max, num + 1);
      assert all[1..] == rest;
      Distribute(|rest|, F.RECORD_HEADER + C.HEADER + tag);
      Distribute(Padded(num + 1, |rest|), C.MAX_EXTRA - tag);
      assert Padded(num, |all|) == Padded(num + 1, |rest|) + if num < C.PAD_FIRST_N then 1 else 0;
    }
  }

  lemma Distribute(n: nat, k: nat)
    ensures (n + 1) * k == n * k + k
  {
  }

  /** The framings a budget that counts five bytes of framing covers: all, once the padded frames are behind. */
  predicate Covered(framing: F.Framing, num: nat)
  {
    !framing.WsClient? || num >= C.PAD_FIRST_N
  }

  /** A frame costs at most what the relay counts for its payload. */
  lemma NeedBound(framing: F.Framing, f: R.Frame, tag: nat)
    requires tag <= C.AEAD_TAG && Covered(framing, f.num)
    ensures Need(framing, f, MostExtra(tag, f.num)) <= |f.body.payload| + Fixed()
  {
  }

  /** What the relay counts for each frame besides its payload. */
  function Fixed(): (n: nat)
  {
    F.RECORD_HEADER + C.HEADER + C.MAX_EXTRA
  }

  lemma {:induction false} WorstBound(framing: F.Framing, data: Octets, max: nat, num: nat, tag: nat)
    requires max > 0 && tag <= C.AEAD_TAG && Covered(framing, num)
    ensures Worst(framing, tag, R.Chunks(data, max, num)) <= |data| + |R.Chunks(data, max, num)| * Fixed()
    decreases |data|
  {
    if data != [] {
      var n := if |data| <= max then |data| else max;
      WorstBound(framing, data[n..], max, num + 1, tag);
      var all, rest := R.Chunks(data, max, num), R.Chunks(data[n..], max, num + 1);
      assert all[1..] == rest;
      NeedBound(framing, all[0], tag);
      Distribute(|rest|, Fixed());
      hide Need;
    }
  }

  /** A write of at most `frames` full payloads makes at most `frames` frames. */
  lemma {:induction false} ChunkCount(data: Octets, max: nat, num: nat, frames: nat)
    requires max > 0 && |data| <= frames * max
    ensures |R.Chunks(data, max, num)| <= frames
    decreases |data|
  {
    if data != [] {
      var n := if |data| <= max then |data| else max;
      assert frames > 0;
      Distribute(frames - 1, max);
      assert (frames - 1) * max >= 0;
      ChunkCount(data[n..], max, num + 1, frames - 1);
    }
  }

  lemma BudgetFrames(minFree: nat, max: nat, ordered: bool, grant: nat)
    requires max > 0
    ensures var frames := minFree / FrameCost(max);
      frames * FrameCost(max) <= minFree && Budget(minFree, max, ordered, grant) <= frames * max
  {
    var frames := minFree / FrameCost(max);
    assert frames * FrameCost(max) <= minFree;
  }

  /** THE BUDGET IS THE MOST IT CAN BE. A read size is within it if and only if some number of whole frames, all of which fit
      the least free connection, carries it, it is at most one relay chunk, at most one frame on a stream that may not
      split, and granted. */
  lemma BudgetIsMost(minFree: nat, max: nat, ordered: bool, grant: nat, n: nat)
    requires max > 0
    ensures n <= Budget(minFree, max, ordered, grant) <==>
            && (exists k: nat :: n <= k * max && k * FrameCost(max) <= minFree)
            && n <= RELAY_CHUNK && (!ordered ==> n <= max) && n <= grant
  {
    var frames := minFree / FrameCost(max);
    FramesAreMost(minFree, FrameCost(max), max, n);
    hide FrameCost;
    BudgetOf(frames, max, ordered, grant, n);
    assert Budget(minFree, max, ordered, grant) == BudgetFor(frames, max, ordered, grant);
    hide Budget;
    hide BudgetFor;
  }

  /** The budget for a number of frames is the least of its bounds, or nothing for none. */
  lemma BudgetOf(frames: nat, max: nat, ordered: bool, grant: nat, n: nat)
    requires max > 0
    ensures n <= BudgetFor(frames, max, ordered, grant) <==>
            n <= frames * max && n <= RELAY_CHUNK && (!ordered ==> n <= max) && n <= grant
  {
    if frames == 0 {
      assert frames * max == 0;
    } else {
      AtLeastOne(frames, max);
    }
  }


  lemma AtLeastOne(k: nat, max: nat)
    requires k >= 1
    ensures k * max >= max
  {
    assert (k - 1) * max >= 0;
  }

  lemma FramesAreMost(minFree: nat, cost: nat, max: nat, n: nat)
    requires cost > 0
    ensures (exists k: nat :: n <= k * max && k * cost <= minFree) <==> n <= minFree / cost * max
  {
    var frames := minFree / cost;
    assert frames * cost <= minFree;
    forall k: nat | k * cost <= minFree
      ensures k * max <= frames * max
    {
      QuotientIsMost(minFree, cost, k);
      Scale(k, frames, max);
    }
  }

  lemma QuotientIsMost(x: nat, cost: nat, k: nat)
    requires cost > 0 && k * cost <= x
    ensures k <= x / cost
  {
    var q := x / cost;
    assert x < (q + 1) * cost;
    if k >= q + 1 {
      Scale(q + 1, k, cost);
    }
  }

  lemma Scale(a: nat, b: nat, c: nat)
    requires a <= b
    ensures a * c <= b * c
  {
  }

  /** Nothing is read exactly when not even one frame fits the least free connection, or nothing is granted. */
  lemma BudgetIsNothing(minFree: nat, max: nat, ordered: bool, grant: nat)
    requires max > 0
    ensures Budget(minFree, max, ordered, grant) == 0 <==> minFree < FrameCost(max) || grant == 0
  {
    var frames := minFree / FrameCost(max);
    hide FrameCost;
    if minFree >= FrameCost(max) {
      QuotientIsMost(minFree, FrameCost(max), 1);
      AtLeastOne(frames, max);
    } else {
      assert frames == 0;
    }
  }

  lemma WholeFrames(n: nat, k: nat, frames: nat, max: nat)
    requires n <= frames * max && k <= frames
    ensures n + k * Fixed() <= frames * FrameCost(max)
  {
    assert k * Fixed() <= frames * Fixed();
    assert frames * FrameCost(max) == frames * max + frames * Fixed();
  }

  /** POOL BUDGET. Any write no longer than the budget is split into frames that all fit, whichever connection each
      one is sent to, whatever padding it draws and whatever drains meanwhile: on TLS and WebSocket-server
      connections always, on WebSocket-client ones once the stream's padded frames are behind it. */
  lemma BudgetHolds(pool: seq<Link>, minFree: nat, max: nat, ordered: bool, grant: nat, data: Octets, num: nat,
                    o: C.Obfuscator, picks: seq<Pick>)
    requires max > 0 && (forall i :: 0 <= i < |pool| ==> minFree <= pool[i].free && Covered(pool[i].framing, num))
    requires |data| <= Budget(minFree, max, ordered, grant)
    requires Plausible(pool, C.TagLen(o), R.Chunks(data, max, num), picks)
    ensures AllFit(pool, C.TagLen(o), R.Chunks(data, max, num), picks)
  {
    hide R.Chunks;
    hide Budget;
    hide AllFit;
    hide Plausible;
    hide Worst;
    hide Covered;
    var fs, tag := R.Chunks(data, max, num), C.TagLen(o);
    var frames := minFree / FrameCost(max);
    BudgetFrames(minFree, max, ordered, grant);
    hide FrameCost;
    ChunkCount(data, max, num, frames);
    WholeFrames(|data|, |fs|, frames, max);
    forall i | 0 <= i < |pool| ensures Worst(pool[i].framing, tag, fs) <= pool[i].free {
      WorstBound(pool[i].framing, data, max, num, tag);
    }
    RoomSuffices(pool, tag, fs, picks);
  }

  /** Some draw of connections and paddings finds a queue without room. */
  ghost predicate CanOverflow(pool: seq<Link>, tag: nat, fs: seq<R.Frame>)
  {
    exists picks :: Plausible(pool, tag, fs, picks) && !AllFit(pool, tag, fs, picks)
  }

  /** The budget does not protect a WebSocket client's first frames: it counts five bytes of framing where a masked
      frame takes eight. At the usual frame size, a queue with room for exactly one frame cost gets a budget of 16132
      bytes, and a write of that size that makes one of a stream's first five frames can overflow it. */
  lemma ClientCanOverflow(data: Octets, num: nat, o: C.Obfuscator)
    requires |data| == 16132
    ensures Budget(16406, 16132, true, RELAY_CHUNK) == |data|
    ensures CanOverflow([Link(F.WsClient, 16406)], C.TagLen(o), R.Chunks(data, 16132, num)) <==> num < C.PAD_FIRST_N
  {
    var fs, tag := R.Chunks(data, 16132, num), C.TagLen(o);
    var pool := [Link(F.WsClient, 16406)];
    assert R.Chunks(data[16132..], 16132, num + 1) == [];
    assert fs == [R.Frame(num, R.Body(R.CLOSING_NOTHING, data[..16132]))];
    hide R.Chunks;
    assert fs[1..] == [];
    assert Worst(F.WsClient, tag, fs) == 8 + 14 + 16132 + MostExtra(tag, num);
    assert pool[0].framing == F.WsClient;
    assert Roomy(pool, tag, fs) <==> Worst(pool[0].framing, tag, fs) <= 16406;
    hide AllFit;
    hide Plausible;
    hide Roomy;
    ExactlyWhenSafe(pool, tag, fs);
    assert Roomy(pool, tag, fs) <==> num >= C.PAD_FIRST_N;
    assert CanOverflow(pool, tag, fs) <==> !Roomy(pool, tag, fs);
  }
}

/** What the kernel answers to a series of sends, and what the two drain loops (conn.c, stream_relay.c) make of it. */
module Kernel {

  /** A send takes some bytes, would block, or fails. */
  datatype Answer = Took(n: nat) | Again | Failed

  /** How many bytes went out, the answers not asked for, and whether the descriptor failed. */
  datatype Outcome = Outcome(took: nat, rest: seq<Answer>, failed: bool)

  function Min(a: nat, b: nat): (m: nat)
  {
    if a < b then a else b
  }

  /** A connection's drain: offer up to `chunk` bytes at a time until all are out, the kernel takes fewer than offered or
      would block, or the send fails. A kernel with no answer left would block. */
  function Drain(len: nat, chunk: nat, ks: seq<Answer>): (o: Outcome)
    requires chunk > 0
    ensures o.took <= len && |o.rest| <= |ks|
    decreases |ks|
  {
    if len == 0 then Outcome(0, ks, false)
    else if ks == [] then Outcome(0, [], false)
    else
      var offer := Min(len, chunk);
      match ks[0]
      case Again => Outcome(0, ks[1..], false)
      case Failed => Outcome(0, ks[1..], true)
      case Took(n) =>
        if n < offer then Outcome(n, ks[1..], false)
        else
          var o := Drain(len - offer, chunk, ks[1..]);
          o.(took := offer + o.took)
  }

  /** One answer at a time. */
  lemma DrainIs(len: nat, chunk: nat, ks: seq<Answer>)
    requires chunk > 0
    ensures len == 0 ==> Drain(len, chunk, ks) == Outcome(0, ks, false)
    ensures len > 0 && ks == [] ==> Drain(len, chunk, ks) == Outcome(0, [], false)
    ensures len > 0 && ks != [] && ks[0] == Again ==> Drain(len, chunk, ks) == Outcome(0, ks[1..], false)
    ensures len > 0 && ks != [] && ks[0] == Failed ==> Drain(len, chunk, ks) == Outcome(0, ks[1..], true)
    ensures len > 0 && ks != [] && ks[0].Took? && ks[0].n < Min(len, chunk) ==>
      Drain(len, chunk, ks) == Outcome(ks[0].n, ks[1..], false)
    ensures len > 0 && ks != [] && ks[0].Took? && ks[0].n >= Min(len, chunk) ==>
      Drain(len, chunk, ks) == After(Min(len, chunk), Drain(len - Min(len, chunk), chunk, ks[1..]))
  {
  }

  /** `n` bytes before the rest. */
  function After(n: nat, o: Outcome): (r: Outcome)
  {
    o.(took := n + o.took)
  }

  /** The relay's drain: any bytes taken are followed by another offer; taking none is a failure. */
  function Relayed(len: nat, chunk: nat, ks: seq<Answer>): (o: Outcome)
    requires chunk > 0
    ensures o.took <= len && |o.rest| <= |ks|
    decreases |ks|
  {
    if len == 0 then Outcome(0, ks, false)
    else if ks == [] then Outcome(0, [], false)
    else
      match ks[0]
      case Again => Outcome(0, ks[1..], false)
      case Failed => Outcome(0, ks[1..], true)
      case Took(n) =>
        if n == 0 then Outcome(0, ks[1..], true)
        else
          var t := Min(n, Min(len, chunk));
          var o := Relayed(len - t, chunk, ks[1..]);
          o.(took := t + o.took)
  }

  lemma RelayedIs(len: nat, chunk: nat, ks: seq<Answer>)
    requires chunk > 0
    ensures len == 0 ==> Relayed(len, chunk, ks) == Outcome(0, ks, false)
    ensures len > 0 && ks == [] ==> Relayed(len, chunk, ks) == Outcome(0, [], false)
    ensures len > 0 && ks != [] && ks[0] == Again ==> Relayed(len, chunk, ks) == Outcome(0, ks[1..], false)
    ensures len > 0 && ks != [] && (ks[0] == Failed || ks[0] == Took(0)) ==> Relayed(len, chunk, ks) == Outcome(0, ks[1..], true)
    ensures len > 0 && ks != [] && ks[0].Took? && ks[0].n > 0 ==>
      var t := Min(ks[0].n, Min(len, chunk)); Relayed(len, chunk, ks) == After(t, Relayed(len - t, chunk, ks[1..]))
  {
  }

  /** A kernel that takes whatever it is offered. */
  ghost predicate Willing(ks: seq<Answer>, chunk: nat)
  {
    forall i :: 0 <= i < |ks| ==> ks[i].Took? && ks[i].n >= chunk
  }

  /** Bytes that a series of answers took, of what was offered chunk by chunk. */
  function Sum(ks: seq<Answer>): (n: nat)
  {
    if ks == [] then 0 else (if ks[0].Took? then ks[0].n else 0) + Sum(ks[1..])
  }

  /** A willing kernel, asked often enough, leaves nothing queued. */
  lemma {:induction false} WillingTakesAll(len: nat, chunk: nat, ks: seq<Answer>)
    requires chunk > 0 && Willing(ks, chunk) && len <= |ks| * chunk
    ensures Drain(len, chunk, ks).took == len && !Drain(len, chunk, ks).failed
    ensures Relayed(len, chunk, ks).took == len && !Relayed(len, chunk, ks).failed
    decreases |ks|
  {
    if len > 0 && ks != [] {
      var offer := Min(len, chunk);
      assert |ks| * chunk == |ks[1..]| * chunk + chunk;
      assert ks[0].Took? && ks[0].n >= chunk;
      assert Willing(ks[1..], chunk);
      assert len - offer <= |ks[1..]| * chunk by {
        assert |ks[1..]| * chunk >= 0;
      }
      WillingTakesAll(len - offer, chunk, ks[1..]);
    }
  }

  /** It stops short only for a reason: a failure, no answer left, or a last answer that blocked or took less than was
      offered. */
  lemma {:induction false} StopsForAReason(len: nat, chunk: nat, ks: seq<Answer>)
    requires chunk > 0
    ensures var o := Drain(len, chunk, ks); var used := |ks| - |o.rest|;
      o.took < len && !o.failed ==>
        o.rest == [] || (used > 0 && (ks[used - 1] == Again || (ks[used - 1].Took? && ks[used - 1].n < chunk)))
    ensures Drain(len, chunk, ks).failed ==>
      var used := |ks| - |Drain(len, chunk, ks).rest|; used > 0 && ks[used - 1] == Failed
    ensures Drain(len, chunk, ks).rest == ks[|ks| - |Drain(len, chunk, ks).rest|..]
    decreases |ks|
  {
    if len > 0 && ks != [] && ks[0].Took? && ks[0].n >= Min(len, chunk) {
      StopsForAReason(len - Min(len, chunk), chunk, ks[1..]);
    }
  }

  /** What goes out is what the answers took, when no answer claims more than it was offered. */
  lemma {:induction false} TookIsTheSum(len: nat, chunk: nat, ks: seq<Answer>)
    requires chunk > 0 && Sum(ks) <= len && forall i :: 0 <= i < |ks| ==> ks[i].Took? ==> ks[i].n <= chunk
    ensures var o := Drain(len, chunk, ks); o.took + Sum(o.rest) <= Sum(ks)
    ensures var o := Drain(len, chunk, ks); o.rest == [] ==> o.took == Sum(ks)
    decreases |ks|
  {
    if len > 0 && ks != [] && ks[0].Took? && ks[0].n >= Min(len, chunk) {
      TookIsTheSum(len - Min(len, chunk), chunk, ks[1..]);
    }
  }

  /** From the answers `was` on, those up to `now` were asked for, and the last of them blocked or none is left. */
  ghost predicate Blocked(was: seq<Answer>, now: seq<Answer>)
  {
    Used(was, now) && (now == [] || (|now| < |was| && was[|was| - |now| - 1] == Again))
  }

  /** Likewise, and the last of them was a failure, or took nothing of what it was offered. */
  ghost predicate Gave(was: seq<Answer>, now: seq<Answer>)
  {
    Used(was, now) && |now| < |was| && (was[|was| - |now| - 1] == Failed || was[|was| - |now| - 1] == Took(0))
  }

  ghost predicate Used(was: seq<Answer>, now: seq<Answer>)
  {
    |now| <= |was| && now == was[|was| - |now|..]
  }

  lemma UsedAll(a: seq<Answer>)
    ensures Used(a, a)
  {
  }

  lemma UsedMore(a: seq<Answer>, b: seq<Answer>, c: seq<Answer>)
    requires Used(a, b) && Used(b, c)
    ensures Used(a, c) && (Blocked(b, c) ==> Blocked(a, c)) && (Gave(b, c) ==> Gave(a, c))
  {
  }

  lemma {:induction false} RelayedStops(len: nat, chunk: nat, ks: seq<Answer>)
    requires chunk > 0
    ensures var o := Relayed(len, chunk, ks); Used(ks, o.rest) && (o.took < len && !o.failed ==> Blocked(ks, o.rest))
    ensures var o := Relayed(len, chunk, ks); o.failed ==> Gave(ks, o.rest)
    decreases |ks|
  {
    RelayedIs(len, chunk, ks);
    hide Relayed;
    if len > 0 && ks != [] {
      assert Used(ks, ks[1..]);
      if ks[0].Took? && ks[0].n > 0 {
        var t := Min(ks[0].n, Min(len, chunk));
        RelayedStops(len - t, chunk, ks[1..]);
        UsedMore(ks, ks[1..], Relayed(len - t, chunk, ks[1..]).rest);
      }
    }
  }
}

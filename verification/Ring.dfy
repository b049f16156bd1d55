/** Reading and writing a circular buffer, as the two memcpy calls around the wrap do it. */
module Ring {

  /** The `n` elements from offset `off`, wrapping once. */
  function Get<T>(s: seq<T>, off: nat, n: nat): (r: seq<T>)
    requires off < |s| && n <= |s|
    ensures |r| == n
  {
    if |s| - off >= n then s[off..off + n] else s[off..] + s[..n - (|s| - off)]
  }

  /** `s` with `src` stored from offset `off`, wrapping once. */
  function Put<T>(s: seq<T>, off: nat, src: seq<T>): (r: seq<T>)
    requires off < |s| && |src| <= |s|
    ensures |r| == |s|
  {
    var first := |s| - off;
    if first >= |src| then s[..off] + src + s[off + |src|..]
    else src[first..] + s[|src| - first..off] + src[..first]
  }

  /** The offset `n` places further round the ring; StepIsMod says it is (off + n) % cap. */
  function Step(off: nat, n: nat, cap: nat): (r: nat)
    requires off < cap && n <= cap
    ensures r < cap
  {
    if off + n < cap then off + n else off + n - cap
  }

  lemma StepIsMod(off: nat, n: nat, cap: nat)
    requires off < cap && n <= cap
    ensures Step(off, n, cap) == (off + n) % cap
  {
    if off + n >= cap {
      ModOnce(off + n - cap, cap);
    }
  }

  lemma ModOnce(x: nat, cap: nat)
    requires x < cap
    ensures (x + cap) % cap == x
  {
    assert x + cap == 1 * cap + x;
  }

  lemma StepStep(off: nat, a: nat, b: nat, cap: nat)
    requires off < cap && a + b <= cap
    ensures Step(Step(off, a, cap), b, cap) == Step(off, a + b, cap)
  {
  }

  lemma GetPut<T>(s: seq<T>, off: nat, src: seq<T>)
    requires off < |s| && |src| <= |s|
    ensures Get(Put(s, off, src), off, |src|) == src
  {
    var first := |s| - off;
    if first < |src| { assert src[..first] + src[first..] == src; }
  }

  /** Element `k` of a region is the ring's element at the stepped offset. */
  lemma GetAt<T>(s: seq<T>, off: nat, n: nat, k: nat)
    requires off < |s| && n <= |s| && k < n
    ensures Get(s, off, n)[k] == s[Step(off, k, |s|)]
  {
  }

  /** A store just behind a region leaves the region alone while both fit in the ring. */
  lemma GetPutBehind<T>(s: seq<T>, off: nat, n: nat, src: seq<T>)
    requires off < |s| && n + |src| <= |s|
    ensures Get(Put(s, Step(off, n, |s|), src), off, n) == Get(s, off, n)
  {
    var t := Put(s, Step(off, n, |s|), src);
    assert src == [] ==> t == s;
    forall k | 0 <= k < n ensures Get(t, off, n)[k] == Get(s, off, n)[k] {
      GetAt(s, off, n, k);
      GetAt(t, off, n, k);
    }
  }

  /** A region is its first `a` elements followed by the `b` elements after them. */
  lemma GetSplit<T>(s: seq<T>, off: nat, a: nat, b: nat)
    requires off < |s| && a + b <= |s|
    ensures Get(s, off, a + b) == Get(s, off, a) + Get(s, Step(off, a, |s|), b)
  {
    hide Get;
    var to := Step(off, a, |s|);
    forall k | 0 <= k < a + b
      ensures Get(s, off, a + b)[k] == (Get(s, off, a) + Get(s, to, b))[k]
    {
      SplitAt(s, off, a, b, k);
    }
  }

  lemma SplitAt<T>(s: seq<T>, off: nat, a: nat, b: nat, k: nat)
    requires off < |s| && a + b <= |s| && k < a + b
    ensures Get(s, off, a + b)[k] == (Get(s, off, a) + Get(s, Step(off, a, |s|), b))[k]
  {
    hide Get;
    GetAt(s, off, a + b, k);
    if k < a {
      GetAt(s, off, a, k);
    } else {
      GetAt(s, Step(off, a, |s|), b, k - a);
      StepStep(off, a, k - a, |s|);
    }
  }

  /** Appending behind a region. */
  lemma GetAppend<T>(s: seq<T>, off: nat, n: nat, src: seq<T>)
    requires off < |s| && n + |src| <= |s|
    ensures Get(Put(s, Step(off, n, |s|), src), off, n + |src|) == Get(s, off, n) + src
  {
    var t := Put(s, Step(off, n, |s|), src);
    GetSplit(t, off, n, |src|);
    GetPut(s, Step(off, n, |s|), src);
    GetPutBehind(s, off, n, src);
  }

  method Copy<T>(data: array<T>, off: nat, src: seq<T>)
    requires off + |src| <= data.Length
    modifies data
    ensures data[..] == old(data[..off]) + src + old(data[off + |src|..])
  {
    forall k | 0 <= k < |src| { data[off + k] := src[k]; }
  }

  /** The two-part memcpy into a ring. */
  /** The two copies around the wrap, one after the other. */
  lemma PutWraps<T>(s: seq<T>, off: nat, src: seq<T>, mid: seq<T>)
    requires off < |s| && |s| - off < |src| <= |s|
    requires mid == s[..off] + src[..|s| - off] + s[|s|..]
    ensures mid[..0] + src[|s| - off..] + mid[|src| - (|s| - off)..] == Put(s, off, src)
  {
    var first := |s| - off;
    assert mid == s[..off] + src[..first];
    assert mid[|src| - first..] == s[|src| - first..off] + src[..first];
    assert mid[..0] == [];
  }

  method Store<T>(data: array<T>, off: nat, src: seq<T>)
    requires off < data.Length && |src| <= data.Length
    modifies data
    ensures data[..] == Put(old(data[..]), off, src)
  {
    var first := data.Length - off;
    if first >= |src| {
      Copy(data, off, src);
    } else {
      ghost var was := data[..];
      Copy(data, off, src[..first]);
      ghost var mid := data[..];
      assert mid == was[..off] + src[..first] + was[|was|..];
      PutWraps(was, off, src, mid);
      hide Put;
      Copy(data, 0, src[first..]);
    }
  }

  /** The two-part memcpy out of a ring. */
  method Fetch<T>(data: array<T>, off: nat, n: nat) returns (out: seq<T>)
    requires off < data.Length && n <= data.Length
    ensures out == Get(data[..], off, n)
  {
    var first := data.Length - off;
    if first >= n {
      out := data[off..off + n];
    } else {
      out := data[off..] + data[..n - first];
    }
  }
}

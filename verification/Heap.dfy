/** The binary min-heap that both the stream reassembler and the reactor's timers keep in an array.

    The sift functions below are the loops of the two implementations read as functions on sequences; the
    reactor's hole-based sift and the stream's swap-based sift agree with them. */
module Heap {

  datatype Node<T> = Node(key: nat, val: T)

  function Parent(i: nat): (p: nat)
    requires i > 0
    ensures p < i
  {
    (i - 1) / 2
  }

  function Swap<T>(s: seq<T>, i: nat, j: nat): (r: seq<T>)
    requires i < |s| && j < |s|
    ensures |r| == |s|
  {
    s[i := s[j]][j := s[i]]
  }

  /** The child `i` is not smaller than its parent. */
  predicate Ok<T>(s: seq<Node<T>>, i: nat)
    requires 0 < i < |s|
  {
    s[Parent(i)].key <= s[i].key
  }

  ghost predicate Ordered<T>(s: seq<Node<T>>)
  {
    forall c :: 0 < c < |s| ==> Ok(s, c)
  }

  /** Ordered but for the links that touch `i`, with `i`'s parent below `i`'s children. */
  ghost predicate Almost<T>(s: seq<Node<T>>, i: nat)
  {
    && (forall c :: 0 < c < |s| && c != i && Parent(c) != i ==> Ok(s, c))
    && (forall c {:trigger Ok(s, c)} :: 0 < c < |s| && 0 < i < |s| && Parent(c) == i ==> s[Parent(i)].key <= s[c].key)
  }

  ghost predicate UpOk<T>(s: seq<Node<T>>, i: nat)
    requires i < |s|
  {
    i > 0 ==> Ok(s, i)
  }

  ghost predicate DownOk<T>(s: seq<Node<T>>, i: nat)
  {
    forall c :: 0 < c < |s| && Parent(c) == i ==> Ok(s, c)
  }

  function SiftUp<T>(s: seq<Node<T>>, i: nat): (r: seq<Node<T>>)
    requires i < |s|
    ensures |r| == |s|
    decreases i
  {
    if i == 0 || Ok(s, i) then s else SiftUp(Swap(s, Parent(i), i), Parent(i))
  }

  /** The child a sift-down moves up into `i`, or `i` itself when neither child is smaller. */
  function Smallest<T>(s: seq<Node<T>>, i: nat): (j: nat)
    requires i < |s|
    ensures j < |s| && (j != i ==> j > 0 && Parent(j) == i)
  {
    var left := 2 * i + 1;
    var right := 2 * i + 2;
    var first := if left < |s| && s[left].key < s[i].key then left else i;
    if right < |s| && s[right].key < s[first].key then right else first
  }

  function SiftDown<T>(s: seq<Node<T>>, i: nat): (r: seq<Node<T>>)
    requires i < |s|
    ensures |r| == |s|
    decreases |s| - i
  {
    var j := Smallest(s, i);
    if j == i then s else SiftDown(Swap(s, i, j), j)
  }

  /** Append and sift up. */
  function Push<T>(s: seq<Node<T>>, e: Node<T>): (r: seq<Node<T>>)
    ensures |r| == |s| + 1
  {
    SiftUp(s + [e], |s|)
  }

  /** Fill the hole at `pos` with the last element, sift it down and, if it did not move, up. */
  function RemoveAt<T>(s: seq<Node<T>>, pos: nat): (r: seq<Node<T>>)
    requires pos < |s|
    ensures |r| == |s| - 1
  {
    var last := |s| - 1;
    if pos == last then s[..last] else
      var t := s[..last][pos := s[last]];
      if Smallest(t, pos) != pos then SiftDown(t, pos) else SiftUp(t, pos)
  }

  // ---------- order ----------

  lemma {:induction false} SiftUpOrders<T>(s: seq<Node<T>>, i: nat)
    requires i < |s| && Almost(s, i) && DownOk(s, i)
    ensures Ordered(SiftUp(s, i))
    decreases i
  {
    if i > 0 && !Ok(s, i) {
      var p := Parent(i);
      var t := Swap(s, p, i);
      assert Almost(t, p) && DownOk(t, p) by {
        forall c | 0 < c < |t| ensures
          && (c != p && Parent(c) != p ==> Ok(t, c))
          && (Parent(c) == p ==> Ok(t, c))
          && (p > 0 && Parent(c) == p ==> t[Parent(p)].key <= t[c].key)
        {
          assert c != i && Parent(c) != i ==> Ok(s, c);
          assert Parent(c) == i ==> Ok(s, c);
          if p > 0 { assert Ok(s, p); }
        }
      }
      SiftUpOrders(t, p);
    }
  }

  lemma {:induction false} SiftDownOrders<T>(s: seq<Node<T>>, i: nat)
    requires i < |s| && Almost(s, i)
    requires UpOk(s, i) || Smallest(s, i) != i
    ensures Ordered(SiftDown(s, i))
    decreases |s| - i
  {
    var j := Smallest(s, i);
    if j == i {
      SmallestStays(s, i);
    } else {
      SwapDown(s, i);
      SiftDownOrders(Swap(s, i, j), j);
    }
  }

  lemma SmallestStays<T>(s: seq<Node<T>>, i: nat)
    requires i < |s| && Smallest(s, i) == i
    ensures DownOk(s, i)
  {
    forall c | 0 < c < |s| && Parent(c) == i ensures Ok(s, c) {
      assert c == 2 * i + 1 || c == 2 * i + 2;
    }
  }

  /** One sift-down step moves the only possible disorder from `i` to the chosen child. */
  lemma SwapDown<T>(s: seq<Node<T>>, i: nat)
    requires i < |s| && Almost(s, i) && Smallest(s, i) != i
    ensures Almost(Swap(s, i, Smallest(s, i)), Smallest(s, i))
    ensures UpOk(Swap(s, i, Smallest(s, i)), Smallest(s, i))
  {
    var j := Smallest(s, i);
    var t := Swap(s, i, j);
    forall c | 0 < c < |t| ensures
      && (c != j && Parent(c) != j ==> Ok(t, c))
      && (Parent(c) == j ==> t[Parent(j)].key <= t[c].key)
    {
      assert c != i && Parent(c) != i ==> Ok(s, c);
      if Parent(c) == i { assert c == 2 * i + 1 || c == 2 * i + 2; }
      if c == i { assert Ok(s, j) || !Ok(s, j); }
    }
  }

  lemma PushOrders<T>(s: seq<Node<T>>, e: Node<T>)
    requires Ordered(s)
    ensures Ordered(Push(s, e))
  {
    var t := s + [e];
    forall c | 0 < c < |t| && c != |s| ensures Ok(t, c) {
      assert Ok(s, c);
    }
    SiftUpOrders(t, |s|);
  }

  lemma RemoveOrders<T>(s: seq<Node<T>>, pos: nat)
    requires Ordered(s) && pos < |s|
    ensures Ordered(RemoveAt(s, pos))
  {
    var last := |s| - 1;
    forall c | 0 < c < last ensures Ok(s[..last], c) { assert Ok(s, c); }
    if pos != last {
      var t := s[..last][pos := s[last]];
      forall c | 0 < c < last ensures
        && (c != pos && Parent(c) != pos ==> Ok(t, c))
        && (0 < pos && Parent(c) == pos ==> t[Parent(pos)].key <= t[c].key)
      {
        assert Ok(s, c);
        if pos > 0 { assert Ok(s, pos); }
      }
      assert Almost(t, pos);
      if Smallest(t, pos) != pos {
        SiftDownOrders(t, pos);
      } else {
        SmallestStays(t, pos);
        SiftUpOrders(t, pos);
      }
    }
  }

  lemma {:induction false} RootIsLeast<T>(s: seq<Node<T>>, i: nat)
    requires Ordered(s) && i < |s|
    ensures s[0].key <= s[i].key
    decreases i
  {
    if i > 0 {
      RootIsLeast(s, Parent(i));
      assert Ok(s, i);
    }
  }

  // ---------- contents ----------

  lemma {:induction false} SiftUpKeeps<T>(s: seq<Node<T>>, i: nat)
    requires i < |s|
    ensures multiset(SiftUp(s, i)) == multiset(s)
    decreases i
  {
    if i > 0 && !Ok(s, i) { SiftUpKeeps(Swap(s, Parent(i), i), Parent(i)); }
  }

  lemma {:induction false} SiftDownKeeps<T>(s: seq<Node<T>>, i: nat)
    requires i < |s|
    ensures multiset(SiftDown(s, i)) == multiset(s)
    decreases |s| - i
  {
    var j := Smallest(s, i);
    if j != i { SiftDownKeeps(Swap(s, i, j), j); }
  }

  lemma PushKeeps<T>(s: seq<Node<T>>, e: Node<T>)
    ensures multiset(Push(s, e)) == multiset(s) + multiset{e}
  {
    SiftUpKeeps(s + [e], |s|);
  }

  lemma RemoveKeeps<T>(s: seq<Node<T>>, pos: nat)
    requires pos < |s|
    ensures multiset(RemoveAt(s, pos)) == multiset(s) - multiset{s[pos]}
  {
    var last := |s| - 1;
    assert s == s[..last] + [s[last]];
    if pos != last {
      var t := s[..last][pos := s[last]];
      assert multiset(t) == multiset(s[..last]) - multiset{s[pos]} + multiset{s[last]};
      if Smallest(t, pos) != pos { SiftDownKeeps(t, pos); } else { SiftUpKeeps(t, pos); }
    }
  }

  // ---------- cost ----------

  function Log2(n: nat): (r: nat)
    requires n > 0
  {
    if n == 1 then 0 else 1 + Log2(n / 2)
  }

  lemma {:induction false} Log2Monotone(a: nat, b: nat)
    requires 0 < a <= b
    ensures Log2(a) <= Log2(b)
  {
    if a > 1 { Log2Monotone(a / 2, b / 2); }
  }

  function UpMoves<T>(s: seq<Node<T>>, i: nat): (n: nat)
    requires i < |s|
    decreases i
  {
    if i == 0 || Ok(s, i) then 0 else 1 + UpMoves(Swap(s, Parent(i), i), Parent(i))
  }

  function DownMoves<T>(s: seq<Node<T>>, i: nat): (n: nat)
    requires i < |s|
    decreases |s| - i
  {
    var j := Smallest(s, i);
    if j == i then 0 else 1 + DownMoves(Swap(s, i, j), j)
  }

  /** Elements written while the hole at `pos` is closed. */
  function RemoveMoves<T>(s: seq<Node<T>>, pos: nat): (n: nat)
    requires pos < |s|
  {
    var last := |s| - 1;
    if pos == last then 0 else
      var t := s[..last][pos := s[last]];
      1 + if DownMoves(t, pos) > 0 then DownMoves(t, pos) else UpMoves(t, pos)
  }

  lemma {:induction false} UpMovesBound<T>(s: seq<Node<T>>, i: nat)
    requires i < |s|
    ensures UpMoves(s, i) <= Log2(i + 1)
    decreases i
  {
    if i > 0 && !Ok(s, i) {
      UpMovesBound(Swap(s, Parent(i), i), Parent(i));
      assert Parent(i) + 1 == (i + 1) / 2;
    }
  }

  lemma {:induction false} DownMovesBound<T>(s: seq<Node<T>>, i: nat)
    requires i < |s|
    ensures DownMoves(s, i) + Log2(i + 1) <= Log2(|s|)
    decreases |s| - i
  {
    var j := Smallest(s, i);
    if j == i {
      Log2Monotone(i + 1, |s|);
    } else {
      DownMovesBound(Swap(s, i, j), j);
      assert (j + 1) / 2 == i + 1;
    }
  }

  /** Closing a hole in a heap of `n` writes at most 1 + log2(n) elements. */
  lemma RemoveMovesBound<T>(s: seq<Node<T>>, pos: nat)
    requires pos < |s|
    ensures RemoveMoves(s, pos) <= 1 + Log2(|s|)
  {
    var last := |s| - 1;
    if pos != last {
      var t := s[..last][pos := s[last]];
      DownMovesBound(t, pos);
      UpMovesBound(t, pos);
      Log2Monotone(pos + 1, |s|);
      Log2Monotone(last, |s|);
    }
  }

  // ---------- swapping in place ----------

  method SwapUp<T>(a: array<Node<T>>, n: nat, start: nat)
    requires start < n <= a.Length
    modifies a
    ensures a[..n] == SiftUp(old(a[..n]), start)
  {
    var i := start;
    while i > 0
      invariant 0 <= i < n
      invariant SiftUp(a[..n], i) == SiftUp(old(a[..n]), start)
    {
      var parent := (i - 1) / 2;
      ghost var before := a[..n];
      if a[parent].key <= a[i].key {
        break;
      }
      a[parent], a[i] := a[i], a[parent];
      assert a[..n] == Swap(before, parent, i);
      i := parent;
    }
  }

  method SwapAway<T>(a: array<Node<T>>, n: nat, start: nat)
    requires start < n <= a.Length
    modifies a
    ensures a[..n] == SiftDown(old(a[..n]), start)
  {
    var i := start;
    while true
      invariant 0 <= i < n
      invariant SiftDown(a[..n], i) == SiftDown(old(a[..n]), start)
      decreases n - i
    {
      ghost var before := a[..n];
      var left := 2 * i + 1;
      var right := 2 * i + 2;
      var smallest := i;
      if left < n && a[left].key < a[smallest].key {
        smallest := left;
      }
      if right < n && a[right].key < a[smallest].key {
        smallest := right;
      }
      assert smallest == Smallest(before, i);
      if smallest == i {
        break;
      }
      a[i], a[smallest] := a[smallest], a[i];
      assert a[..n] == Swap(before, i, smallest);
      i := smallest;
    }
  }
}

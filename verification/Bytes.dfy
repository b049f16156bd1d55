/** Bytes, big-endian fields, exclusive or and flattening: the vocabulary that every wire format below shares. */
module Bytes {

  newtype byte = x: int | 0 <= x < 256

  type Octets = seq<byte>

  // ---------- big-endian fields ----------

  /** The `width`-byte big-endian form of `v`, high bytes dropped as a C narrowing store drops them. */
  function Store(v: nat, width: nat): (b: Octets)
    ensures |b| == width
    decreases width
  {
    if width == 0 then [] else Store(v / 256, width - 1) + [(v % 256) as byte]
  }

  function Load(b: Octets): (v: nat)
  {
    if b == [] then 0 else 256 * Load(b[..|b| - 1]) + b[|b| - 1] as nat
  }

  function Pow256(n: nat): (p: nat)
    ensures p >= 1
  {
    if n == 0 then 1 else 256 * Pow256(n - 1)
  }

  /** A stored value that fits its field loads back unchanged. */
  lemma {:induction false} LoadStore(v: nat, width: nat)
    requires v < Pow256(width)
    ensures Load(Store(v, width)) == v
    decreases width
  {
    if width > 0 {
      LoadStore(v / 256, width - 1);
      assert Store(v, width)[..width - 1] == Store(v / 256, width - 1);
    }
  }

  lemma {:induction false} LoadBound(b: Octets)
    ensures Load(b) < Pow256(|b|)
  {
    if b != [] { LoadBound(b[..|b| - 1]); }
  }

  /** Loading determines the bytes: the two directions are inverse. */
  lemma {:induction false} StoreLoad(b: Octets)
    ensures Store(Load(b), |b|) == b
  {
    if b != [] {
      StoreLoad(b[..|b| - 1]);
      assert Load(b) / 256 == Load(b[..|b| - 1]) && Load(b) % 256 == b[|b| - 1] as nat;
    }
  }

  // ---------- exclusive or ----------

  function XorBits(a: nat, b: nat, bits: nat): (r: nat)
    decreases bits
  {
    if bits == 0 then 0 else (a + b) % 2 + 2 * XorBits(a / 2, b / 2, bits - 1)
  }

  function Pow2(n: nat): (p: nat)
    ensures p >= 1
  {
    if n == 0 then 1 else 2 * Pow2(n - 1)
  }

  lemma {:induction false} XorBitsRange(a: nat, b: nat, bits: nat)
    ensures XorBits(a, b, bits) < Pow2(bits)
    decreases bits
  {
    if bits > 0 { XorBitsRange(a / 2, b / 2, bits - 1); }
  }

  lemma LowBit(a: nat, b: nat, half: nat)
    ensures ((a + b) % 2 + 2 * half) / 2 == half && ((a + b) % 2 + 2 * half + b) % 2 == a % 2
  {
  }

  lemma {:induction false} XorBitsTwice(a: nat, b: nat, bits: nat)
    requires a < Pow2(bits)
    ensures XorBits(XorBits(a, b, bits), b, bits) == a
    decreases bits
  {
    if bits > 0 {
      var half, low := XorBits(a / 2, b / 2, bits - 1), (a + b) % 2;
      XorBitsTwice(a / 2, b / 2, bits - 1);
      LowBit(a, b, half);
      assert XorBits(low + 2 * half, b, bits) == a % 2 + 2 * XorBits(half, b / 2, bits - 1);
    }
  }

  function Xor(a: byte, b: byte): (r: byte)
  {
    XorBitsRange(a as nat, b as nat, 8);
    assert Pow2(8) == 256 by { assert Pow2(4) == 16; }
    XorBits(a as nat, b as nat, 8) as byte
  }

  /** Masking with the same byte twice gives the original back. */
  lemma XorTwice(a: byte, b: byte)
    ensures Xor(Xor(a, b), b) == a
  {
    assert Pow2(8) == 256 by { assert Pow2(4) == 16; }
    XorBitsTwice(a as nat, b as nat, 8);
  }

  // ---------- flattening ----------

  function Flatten<T>(parts: seq<seq<T>>): (whole: seq<T>)
  {
    if parts == [] then [] else parts[0] + Flatten(parts[1..])
  }

  lemma {:induction false} FlattenAppend<T>(a: seq<seq<T>>, b: seq<seq<T>>)
    ensures Flatten(a + b) == Flatten(a) + Flatten(b)
  {
    if a == [] {
      assert a + b == b;
    } else {
      FlattenAppend(a[1..], b);
      assert (a + b)[1..] == a[1..] + b;
      assert Flatten(a + b) == a[0] + (Flatten(a[1..]) + Flatten(b));
    }
  }

  /** The middle one of three pieces. */
  lemma Middle<T>(a: seq<T>, b: seq<T>, c: seq<T>)
    ensures (a + (b + c))[|a|..|a| + |b|] == b && (a + (b + c))[|a| + |b|..] == c
  {
  }

  lemma Regroup<T>(a: seq<T>, b: seq<T>, c: seq<T>)
    ensures a + (b + c) == (a + b) + c
  {
  }
}

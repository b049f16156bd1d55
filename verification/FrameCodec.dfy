/** The multiplex frame codec (frame.c): header, random padding, AEAD over the payload, and the header masked with a
    Salsa20 keystream whose nonce is the frame's last eight bytes. */
module FrameCodec {
  import opened Wrappers
  import opened Bytes
  import Ring

  const HEADER: nat := 14
  const MAX_EXTRA: nat := 255
  const PAD_FIRST_N: nat := 5
  const SALSA_NONCE: nat := 8
  const AEAD_NONCE: nat := 12
  const AEAD_TAG: nat := 16

  /** A keyed AEAD as a pair of functions of nonce and text, and the keystream block as one of nonce and counter. */
  datatype Obfuscator =
    | Plain(block: (Octets, nat) -> Octets)
    | Aead(block: (Octets, nat) -> Octets, seal: (Octets, Octets) -> Octets, open: (Octets, Octets) -> Option<Octets>)

  /** Opening undoes sealing; lengths differ by the tag. */
  ghost predicate Sound(o: Obfuscator)
  {
    && (forall n: Octets, c: nat {:trigger o.block(n, c)} :: |o.block(n, c)| == 64)
    && (o.Aead? ==>
          && (forall n: Octets, p: Octets {:trigger o.seal(n, p)} ::
                |o.seal(n, p)| == |p| + AEAD_TAG && o.open(n, o.seal(n, p)) == Some(p))
          && (forall n: Octets, c: Octets {:trigger o.open(n, c)} ::
                o.open(n, c).Some? ==> |c| == |o.open(n, c).value| + AEAD_TAG))
  }

  function TagLen(o: Obfuscator): (n: nat)
    ensures n <= MAX_EXTRA
  {
    if o.Plain? then SALSA_NONCE else AEAD_TAG
  }

  datatype Frame = Frame(streamId: nat, num: nat, closing: byte, payload: Octets)

  ghost predicate FieldsFit(f: Frame)
  {
    f.streamId < 0x1_0000_0000 && f.num < 0x1_0000_0000_0000_0000
  }

  // ---------- the keystream ----------

  /** Byte i is xored with byte i mod 64 of keystream block i / 64. */
  function KeyXor(src: Octets, block: (Octets, nat) -> Octets, nonce: Octets): (dst: Octets)
    requires forall c: nat :: |block(nonce, c)| == 64
    ensures |dst| == |src|
  {
    seq(|src|, i requires 0 <= i < |src| => Xor(src[i], block(nonce, i / 64)[i % 64]))
  }

  lemma KeyXorTwice(src: Octets, block: (Octets, nat) -> Octets, nonce: Octets)
    requires forall c: nat :: |block(nonce, c)| == 64
    ensures KeyXor(KeyXor(src, block, nonce), block, nonce) == src
  {
    var once := KeyXor(src, block, nonce);
    forall i | 0 <= i < |src| ensures KeyXor(once, block, nonce)[i] == src[i] {
      XorTwice(src[i], block(nonce, i / 64)[i % 64]);
    }
  }

  // ---------- encoding ----------

  function Header(f: Frame, extra: nat): (h: Octets)
    requires extra < 256
    ensures |h| == HEADER
  {
    Store(f.streamId, 4) + Store(f.num, 8) + [f.closing, extra as byte]
  }

  /** The random choices of one encoding: the padding, and in plain mode the nonce bytes. */
  datatype Draw = Draw(pad: Octets, filler: Octets)

  /** Padding only for a stream's first frames, and never so much that the extra-length byte would truncate. */
  ghost predicate Drawable(o: Obfuscator, f: Frame, d: Draw)
  {
    && |d.pad| <= MAX_EXTRA - TagLen(o) && (f.num >= PAD_FIRST_N ==> d.pad == [])
    && |d.filler| == SALSA_NONCE
  }

  /** The sealed region behind the header. */
  function Body(o: Obfuscator, f: Frame, d: Draw): (b: Octets)
    requires |d.pad| + TagLen(o) < 256
  {
    if o.Plain? then f.payload + d.pad + d.filler
    else o.seal(Header(f, |d.pad| + TagLen(o))[..AEAD_NONCE], f.payload + d.pad)
  }

  function Last8(b: Octets): (n: Octets)
    requires |b| >= SALSA_NONCE
  {
    b[|b| - SALSA_NONCE..]
  }

  function UsefulLen(o: Obfuscator, payloadLen: nat, padLen: nat): (n: nat)
  {
    HEADER + payloadLen + padLen + TagLen(o)
  }

  /** Empty payloads and payloads the buffer cannot hold are refused. */
  predicate Refuses(o: Obfuscator, f: Frame, d: Draw, cap: nat)
  {
    f.payload == [] || |f.payload| > cap || cap < UsefulLen(o, |f.payload|, |d.pad|)
  }

  function Wire(o: Obfuscator, f: Frame, d: Draw): (w: Octets)
    requires |d.pad| + TagLen(o) < 256
    requires (forall n: Octets, c: nat :: |o.block(n, c)| == 64) && |Body(o, f, d)| >= SALSA_NONCE
  {
    var body := Body(o, f, d);
    KeyXor(Header(f, |d.pad| + TagLen(o)), o.block, Last8(body)) + body
  }

  // ---------- decoding ----------

  /** What an unmasked header and the region behind it say. */
  function DecodeBody(o: Obfuscator, h: Octets, body: Octets): (r: Option<Frame>)
    requires Sound(o) && |h| == HEADER
    ensures r.Some? ==> |r.value.payload| + TagLen(o) <= |body|
  {
    var extra := h[13] as nat;
    if extra < TagLen(o) || extra > |body| then None else
      var useful := |body| - extra;
      var text := if o.Plain? then Some(body) else o.open(h[..AEAD_NONCE], body);
      if text.None? || useful > |text.value| then None
      else Some(Frame(Load(h[..4]), Load(h[4..12]), h[12], text.value[..useful]))
  }

  /** Any accepted input yields a payload that lies inside its buffer, behind the header and before the tag. */
  function Decode(o: Obfuscator, buf: Octets): (r: Option<Frame>)
    requires Sound(o)
    ensures r.Some? ==> |r.value.payload| + HEADER + TagLen(o) <= |buf|
  {
    if |buf| < HEADER + SALSA_NONCE then None
    else DecodeBody(o, KeyXor(buf[..HEADER], o.block, Last8(buf)), buf[HEADER..])
  }

  lemma HeaderLoads(f: Frame, extra: nat)
    requires FieldsFit(f) && extra < 256
    ensures var h := Header(f, extra);
      Load(h[..4]) == f.streamId && Load(h[4..12]) == f.num && h[12] == f.closing && h[13] as nat == extra
  {
    var a, b, c := Store(f.streamId, 4), Store(f.num, 8), [f.closing, extra as byte];
    var h := Header(f, extra);
    assert Pow256(4) == 0x1_0000_0000 by { assert Pow256(2) == 65536; }
    assert Pow256(8) == 256 * (256 * (256 * (256 * Pow256(4))));
    LoadStore(f.streamId, 4);
    LoadStore(f.num, 8);
    hide Store;
    hide Load;
    Regroup(a, b, c);
    Middle(a, b, c);
    assert h[..4] == a;
  }

  lemma BodyLen(o: Obfuscator, f: Frame, d: Draw)
    requires Sound(o) && Drawable(o, f, d)
    ensures |Body(o, f, d)| == |f.payload| + |d.pad| + TagLen(o)
  {
  }

  /** FRAME ROUND TRIP. For every cipher, stream, number, closing flag, non-empty payload and padding draw, decoding
      the wire form returns the frame; its length is the payload plus at most 14 + 255, and the extra-length byte
      holds the whole of padding and tag. */
  lemma RoundTrip(o: Obfuscator, f: Frame, d: Draw)
    requires Sound(o) && FieldsFit(f) && Drawable(o, f, d) && f.payload != []
    ensures |Body(o, f, d)| >= SALSA_NONCE && Decode(o, Wire(o, f, d)) == Some(f)
    ensures |Wire(o, f, d)| == UsefulLen(o, |f.payload|, |d.pad|) <= HEADER + |f.payload| + MAX_EXTRA
  {
    var h, body := Header(f, |d.pad| + TagLen(o)), Body(o, f, d);
    BodyLen(o, f, d);
    KeyXorTwice(h, o.block, Last8(body));
    WireParts(o, f, d);
    BodyDecodes(o, f, d);
    hide Header;
    hide KeyXor;
    hide Wire;
    hide Body;
    hide DecodeBody;
  }

  lemma BodyDecodes(o: Obfuscator, f: Frame, d: Draw)
    requires Sound(o) && FieldsFit(f) && Drawable(o, f, d)
    ensures DecodeBody(o, Header(f, |d.pad| + TagLen(o)), Body(o, f, d)) == Some(f)
  {
    BodyLen(o, f, d);
    HeaderLoads(f, |d.pad| + TagLen(o));
    hide Header;
    hide Load;
    if o.Plain? {
      assert Body(o, f, d)[..|f.payload|] == f.payload;
    } else {
      assert (f.payload + d.pad)[..|f.payload|] == f.payload;
    }
  }

  /** The masked header, the body, and the nonce at the body's end. */
  lemma WireParts(o: Obfuscator, f: Frame, d: Draw)
    requires Sound(o) && Drawable(o, f, d)
    ensures |Body(o, f, d)| >= SALSA_NONCE
    ensures var w, body := Wire(o, f, d), Body(o, f, d);
      && |w| == HEADER + |body| && w[HEADER..] == body && Last8(w) == Last8(body)
      && w[..HEADER] == KeyXor(Header(f, |d.pad| + TagLen(o)), o.block, Last8(body))
  {
    BodyLen(o, f, d);
    var body := Body(o, f, d);
    var m := KeyXor(Header(f, |d.pad| + TagLen(o)), o.block, Last8(body));
    hide Header;
    hide KeyXor;
    hide Body;
    HeadAndTail(m, body);
    assert Wire(o, f, d) == m + body;
  }

  lemma HeadAndTail(h: Octets, body: Octets)
    requires |h| == HEADER && |body| >= SALSA_NONCE
    ensures (h + body)[..HEADER] == h && (h + body)[HEADER..] == body && Last8(h + body) == Last8(body)
  {
  }

  lemma MaskedIsWire(o: Obfuscator, f: Frame, d: Draw)
    requires Sound(o) && Drawable(o, f, d)
    ensures |Body(o, f, d)| >= SALSA_NONCE
    ensures var plain := Header(f, |d.pad| + TagLen(o)) + Body(o, f, d);
      KeyXor(plain[..HEADER], o.block, Last8(plain)) + plain[HEADER..] == Wire(o, f, d)
  {
    BodyLen(o, f, d);
    HeadAndTail(Header(f, |d.pad| + TagLen(o)), Body(o, f, d));
    hide Header;
    hide Body;
    hide KeyXor;
    hide Last8;
  }

  // ---------- in place ----------

  /** The Salsa20 loop: one keystream block per 64 bytes. */
  method Salsa20Xor(buf: array<byte>, n: nat, nonce: Octets, block: (Octets, nat) -> Octets)
    requires n <= buf.Length && forall c: nat :: |block(nonce, c)| == 64
    modifies buf
    ensures buf[..n] == KeyXor(old(buf[..n]), block, nonce) && buf[n..] == old(buf[n..])
  {
    var counter := 0;
    var offset := 0;
    while offset < n
      invariant offset <= n && (offset == 64 * counter || offset == n)
      invariant forall i :: 0 <= i < offset ==> buf[i] == Xor(old(buf[i]), block(nonce, i / 64)[i % 64])
      invariant buf[offset..] == old(buf[offset..])
    {
      var key := block(nonce, counter);
      var chunk := if n - offset > 64 then 64 else n - offset;
      XorBlock(buf, offset, chunk, key, counter);
      assert forall i :: offset <= i < offset + chunk ==> i / 64 == counter && i % 64 == i - offset;
      offset := offset + chunk;
      counter := counter + 1;
    }
  }

  method XorBlock(buf: array<byte>, offset: nat, chunk: nat, key: Octets, counter: nat)
    requires offset + chunk <= buf.Length && chunk <= 64 == |key| && offset == 64 * counter
    modifies buf
    ensures buf[..offset] == old(buf[..offset]) && buf[offset + chunk..] == old(buf[offset + chunk..])
    ensures forall i :: offset <= i < offset + chunk ==> buf[i] == Xor(old(buf[i]), key[i - offset])
  {
    for j := 0 to chunk
      invariant buf[..offset] == old(buf[..offset]) && buf[offset + j..] == old(buf[offset + j..])
      invariant forall i :: offset <= i < offset + j ==> buf[i] == Xor(old(buf[i]), key[i - offset])
    {
      assert buf[offset + j] == buf[offset + j..][0];
      buf[offset + j] := Xor(buf[offset + j], key[j]);
    }
  }

  /** Masks or unmasks the header of the frame in buf[..n] with the frame's own last eight bytes. */
  method XorHeader(o: Obfuscator, buf: array<byte>, n: nat)
    requires Sound(o) && HEADER + SALSA_NONCE <= n <= buf.Length
    modifies buf
    ensures var was := old(buf[..n]);
      buf[..n] == KeyXor(was[..HEADER], o.block, Last8(was)) + was[HEADER..]
  {
    ghost var was := buf[..n];
    var nonce := buf[n - SALSA_NONCE..n];
    assert nonce == Last8(was) && was[..HEADER] == buf[..HEADER] && was[HEADER..] == buf[HEADER..][..n - HEADER];
    Salsa20Xor(buf, HEADER, nonce, o.block);
    hide KeyXor;
    assert buf[HEADER..n] == buf[HEADER..][..n - HEADER];
    assert buf[..n] == buf[..HEADER] + buf[HEADER..n];
  }

  /** Stores header and payload, then seals payload and padding in place behind the header. */
  method FillBuffer(o: Obfuscator, f: Frame, d: Draw, buf: array<byte>)
    requires Sound(o) && Drawable(o, f, d) && UsefulLen(o, |f.payload|, |d.pad|) <= buf.Length
    modifies buf
    ensures buf[..UsefulLen(o, |f.payload|, |d.pad|)] == Header(f, |d.pad| + TagLen(o)) + Body(o, f, d)
  {
    BodyLen(o, f, d);
    var header := Header(f, |d.pad| + TagLen(o));
    Ring.Copy(buf, HEADER, f.payload);
    Ring.Copy(buf, 0, header);
    var body;
    if o.Plain? {
      body := f.payload + d.pad + d.filler;
    } else {
      assert buf[..AEAD_NONCE] == header[..AEAD_NONCE];
      body := o.seal(buf[..AEAD_NONCE], f.payload + d.pad);
    }
    assert body == Body(o, f, d);
    hide Header;
    hide Body;
    assert buf[..HEADER] == header;
    Ring.Copy(buf, HEADER, body);
  }

  method EncodeInto(o: Obfuscator, f: Frame, d: Draw, buf: array<byte>, useful: nat)
    requires Sound(o) && Drawable(o, f, d) && UsefulLen(o, |f.payload|, |d.pad|) == useful <= buf.Length
    modifies buf
    ensures |Body(o, f, d)| >= SALSA_NONCE && buf[..useful] == Wire(o, f, d)
  {
    hide Header;
    hide Body;
    hide KeyXor;
    hide Wire;
    hide Last8;
    hide Drawable;
    FillBuffer(o, f, d, buf);
    XorHeader(o, buf, useful);
    MaskedIsWire(o, f, d);
  }

  /** Encodes into `buf`: header, payload, randomness, seal, then the header masked in place. */
  method Obfuscate(o: Obfuscator, f: Frame, d: Draw, buf: array<byte>) returns (written: int)
    requires Sound(o) && Drawable(o, f, d)
    modifies buf
    ensures written < 0 <==> Refuses(o, f, d, buf.Length)
    ensures |Body(o, f, d)| >= SALSA_NONCE
    ensures written >= 0 ==> written <= buf.Length && buf[..written] == Wire(o, f, d)
  {
    BodyLen(o, f, d);
    if f.payload == [] || |f.payload| > buf.Length {
      return -1;
    }
    var useful := HEADER + |f.payload| + |d.pad| + TagLen(o);
    if buf.Length < useful {
      return -1;
    }
    EncodeInto(o, f, d, buf, useful);
    return useful;
  }

  /** Decodes `n` bytes in place. */
  method Deobfuscate(o: Obfuscator, buf: array<byte>, n: nat) returns (r: Option<Frame>)
    requires Sound(o) && n <= buf.Length
    modifies buf
    ensures r == Decode(o, old(buf[..n]))
  {
    if n < HEADER + SALSA_NONCE {
      return None;
    }
    hide KeyXor;
    XorHeader(o, buf, n);
    assert buf[..HEADER] == buf[..n][..HEADER] && buf[HEADER..n] == buf[..n][HEADER..];
    return DecodeBody(o, buf[..HEADER], buf[HEADER..n]);
  }
}

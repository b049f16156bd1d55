/** RFC 6455 frame headers and masking (ws_frame.c), sections 5.2 and 5.3. */
module WsFrame {
  import opened Bytes

  const OP_CONTINUATION: nat := 0
  const OP_TEXT: nat := 1
  const OP_BINARY: nat := 2
  const OP_CLOSE: nat := 8
  const OP_PING: nat := 9
  const OP_PONG: nat := 10

  const MAX_HEADER: nat := 14
  const MAX_CONTROL: nat := 125
  const LEN_LIMIT: nat := 0x8000_0000_0000_0000

  predicate KnownOp(op: nat) { op <= 2 || 8 <= op <= 10 }
  predicate IsControl(op: nat) { op >= 8 }

  datatype Header = Header(op: nat, fin: bool, key: seq<byte>, len: nat, headerLen: nat)
  {
    /** A masked frame carries a four-byte key, an unmasked one none. */
    predicate Masked() { key != [] }
  }

  datatype Parsed = NeedMore | Malformed | Complete(h: Header)

  /** Everything the two fixed bytes alone can rule out. */
  predicate BadStart(b0: nat, b1: nat)
  {
    var op, len7 := b0 % 16, b1 % 128;
    b0 / 16 % 8 != 0 || !KnownOp(op) || (IsControl(op) && (len7 > MAX_CONTROL || b0 < 128))
  }

  function ExtLen(b1: nat): (n: nat)
  {
    if b1 % 128 == 126 then 2 else if b1 % 128 == 127 then 8 else 0
  }

  function KeyLen(b1: nat): (n: nat)
  {
    if b1 >= 128 then 4 else 0
  }

  function ParseHeader(buf: Octets): (r: Parsed)
    ensures r.Complete? ==> 2 <= r.h.headerLen <= |buf| && r.h.headerLen <= MAX_HEADER - 4 + |r.h.key|
    ensures r.Complete? ==> |r.h.key| == if r.h.Masked() then 4 else 0
    ensures r.Complete? && IsControl(r.h.op) ==> r.h.fin && r.h.len <= MAX_CONTROL
    ensures r == NeedMore ==> |buf| < MAX_HEADER
  {
    if |buf| < 2 then NeedMore else
      var b0, b1 := buf[0] as nat, buf[1] as nat;
      if BadStart(b0, b1) then Malformed else
        var ext := ExtLen(b1);
        if |buf| < 2 + ext then NeedMore else
          var len := if ext == 0 then b1 % 128 else Load(buf[2..2 + ext]);
          if len >= LEN_LIMIT then Malformed else
            var need := 2 + ext + KeyLen(b1);
            if |buf| < need then NeedMore
            else Complete(Header(b0 % 16, b0 >= 128, buf[2 + ext..need], len, need))
  }

  /** More bytes never change a verdict already reached. */
  lemma ParseMonotone(buf: Octets, more: Octets)
    requires ParseHeader(buf) != NeedMore
    ensures ParseHeader(buf + more) == ParseHeader(buf)
  {
    var b1 := buf[1] as nat;
    var ext := ExtLen(b1);
    if !BadStart(buf[0] as nat, b1) {
      assert (buf + more)[2..2 + ext] == buf[2..2 + ext];
      if |buf| >= 2 + ext + KeyLen(b1) {
        assert (buf + more)[2 + ext..2 + ext + KeyLen(b1)] == buf[2 + ext..2 + ext + KeyLen(b1)];
      }
    }
  }

  /** The first fourteen bytes decide. */
  lemma ParsePeeked(buf: Octets)
    ensures ParseHeader(buf[..if |buf| < MAX_HEADER then |buf| else MAX_HEADER]) == ParseHeader(buf)
  {
    if |buf| < MAX_HEADER {
      assert buf[..|buf|] == buf;
    } else {
      ParseMonotone(buf[..MAX_HEADER], buf[MAX_HEADER..]);
      assert buf[..MAX_HEADER] + buf[MAX_HEADER..] == buf;
    }
  }

  // ---------- writing ----------

  function LenBytes(len: nat): (n: nat)
  {
    if len <= 125 then 0 else if len <= 0xffff then 2 else 8
  }

  /** A frame's header in the minimal length form; `key` is empty when this end does not mask. */
  function WriteHeader(op: nat, fin: bool, key: Octets, len: nat): (b: Octets)
    requires KnownOp(op)
    ensures |b| == 2 + LenBytes(len) + |key|
  {
    [FirstByte(op, fin) as byte, SecondByte(key != [], len) as byte] + Store(len, LenBytes(len)) + key
  }

  function FirstByte(op: nat, fin: bool): (b0: nat)
    requires KnownOp(op)
    ensures b0 < 256
  {
    op + if fin then 128 else 0
  }

  function SecondByte(masked: bool, len: nat): (b1: nat)
    ensures b1 < 256
  {
    (if len <= 125 then len else if len <= 0xffff then 126 else 127) + if masked then 128 else 0
  }

  lemma StartParses(op: nat, fin: bool, masked: bool, len: nat)
    requires KnownOp(op) && (IsControl(op) ==> fin && len <= MAX_CONTROL)
    ensures !BadStart(FirstByte(op, fin), SecondByte(masked, len)) && FirstByte(op, fin) % 16 == op
    ensures FirstByte(op, fin) >= 128 <==> fin
    ensures ExtLen(SecondByte(masked, len)) == LenBytes(len) && KeyLen(SecondByte(masked, len)) == if masked then 4 else 0
    ensures LenBytes(len) == 0 ==> SecondByte(masked, len) % 128 == len
  {
  }

  lemma LenFits(len: nat)
    requires len < LEN_LIMIT
    ensures LenBytes(len) > 0 ==> Load(Store(len, LenBytes(len))) == len
  {
    if LenBytes(len) > 0 {
      assert Pow256(2) == 65536;
      assert Pow256(4) == 0x1_0000_0000;
      assert Pow256(8) == 256 * (256 * (256 * (256 * Pow256(4))));
      LoadStore(len, LenBytes(len));
    }
  }

  lemma HeaderLayout(op: nat, fin: bool, key: Octets, len: nat, rest: Octets)
    requires KnownOp(op)
    ensures var n, buf := LenBytes(len), WriteHeader(op, fin, key, len) + rest;
      && |buf| >= 2 + n + |key| && buf[0] as nat == FirstByte(op, fin) && buf[1] as nat == SecondByte(key != [], len)
      && buf[2..2 + n] == Store(len, n) && buf[2 + n..2 + n + |key|] == key
  {
    var n := LenBytes(len);
    var start := [FirstByte(op, fin) as byte, SecondByte(key != [], len) as byte];
    var field := Store(len, n);
    var buf := WriteHeader(op, fin, key, len) + rest;
    hide Store;
    hide FirstByte;
    hide SecondByte;
    Regroup(start + field, key, rest);
    Regroup(start, field, key + rest);
    Middle(start, field, key + rest);
    Middle(start + field, key, rest);
  }

  /** The parser reads back exactly what the writer wrote, whatever follows it. */
  lemma HeaderRoundTrip(op: nat, fin: bool, key: Octets, len: nat, rest: Octets)
    requires KnownOp(op) && (IsControl(op) ==> fin && len <= MAX_CONTROL) && (key == [] || |key| == 4) && len < LEN_LIMIT
    ensures ParseHeader(WriteHeader(op, fin, key, len) + rest)
         == Complete(Header(op, fin, key, len, |WriteHeader(op, fin, key, len)|))
  {
    LenFits(len);
    StartParses(op, fin, key != [], len);
    HeaderLayout(op, fin, key, len, rest);
    hide WriteHeader;
    hide Load;
    hide Store;
    hide BadStart;
    hide ExtLen;
    hide KeyLen;
    hide FirstByte;
    hide SecondByte;
  }

  // ---------- masking ----------

  /** Byte `i` of the whole payload is masked with key byte i mod 4; `pos` is where `b` starts in it. */
  function Mask(b: Octets, key: Octets, pos: nat): (r: Octets)
    requires |key| == 4
    ensures |r| == |b|
  {
    seq(|b|, i requires 0 <= i < |b| => Xor(b[i], key[(pos + i) % 4]))
  }

  lemma MaskTwice(b: Octets, key: Octets, pos: nat)
    requires |key| == 4
    ensures Mask(Mask(b, key, pos), key, pos) == b
  {
    var m := Mask(b, key, pos);
    forall i | 0 <= i < |b| ensures Mask(m, key, pos)[i] == b[i] { XorTwice(b[i], key[(pos + i) % 4]); }
  }

  lemma PositionRuns(pos: nat, i: nat)
    ensures (pos + i) % 4 == (pos % 4 + i) % 4
  {
  }

  /** Masking piece by piece with a running position is masking the whole. */
  lemma MaskSplit(a: Octets, b: Octets, key: Octets, pos: nat)
    requires |key| == 4
    ensures Mask(a + b, key, pos) == Mask(a, key, pos) + Mask(b, key, (pos + |a|) % 4)
  {
    var whole, parts := Mask(a + b, key, pos), Mask(a, key, pos) + Mask(b, key, (pos + |a|) % 4);
    forall i | 0 <= i < |whole| ensures whole[i] == parts[i] {
      if i >= |a| { PositionRuns(pos + |a|, i - |a|); }
    }
  }

  /** The send path masks through a chunk whose size is no multiple of four, so the position must run on. */
  const MASK_CHUNK: nat := 1022

  method MaskInChunks(payload: Octets, key: Octets) returns (out: Octets)
    requires |key| == 4
    ensures out == Mask(payload, key, 0)
  {
    out := [];
    var pos := 0;
    var off := 0;
    while off < |payload|
      invariant off <= |payload| && pos == off % 4
      invariant out == Mask(payload[..off], key, 0)
    {
      var n := |payload| - off;
      if n > MASK_CHUNK {
        n := MASK_CHUNK;
      }
      MaskSplit(payload[..off], payload[off..off + n], key, 0);
      assert payload[..off] + payload[off..off + n] == payload[..off + n];
      out := out + Mask(payload[off..off + n], key, pos);
      pos := (pos + n) % 4;
      off := off + n;
    }
    assert payload[..off] == payload;
  }
}

/** cloak_clienthello_build_with_grease_seed: the five phases, in place in the caller's buffer. */
module HelloBuilder {
  import opened Wrappers
  import opened Bytes
  import opened ClientHello

  /** A captured message and the offsets the builder works by; 0 for a padding offset means there is none. */
  datatype Template = Template(
    bytes: Octets,
    randomOff: nat,
    sessionOff: nat,
    extsLenOff: nat,
    sniLenOff: nat,
    listLenOff: nat,
    nameLenOff: nat,
    hostOff: nat,
    hostLen: nat,
    padOff: nat,
    padLen: nat,
    echLenOff: nat,
    payloadLenOff: nat,
    payloadOff: nat,
    candidates: seq<nat>)

  function Size(l: Layout): (n: nat)
  {
    6 + |l.head| + ExtsLen(l)
  }

  /** The template's bytes are the layout's and its offsets point where the layout puts each field. */
  ghost predicate Describes(t: Template, l: Layout)
  {
    var p := Parts(l);
    && Valid(l) && t.bytes == Wire(l)
    && t.randomOff == Off(p, HEAD) + 2 && t.sessionOff == Off(p, HEAD) + 35
    && t.extsLenOff == Off(p, EXTS)
    && t.sniLenOff == Off(p, SNI) && t.listLenOff == Off(p, LIST) && t.nameLenOff == Off(p, NAME)
    && t.hostOff == Off(p, HOST) && t.hostLen == |l.host|
    && t.padOff == (if l.rest.Padding? then Off(p, REST) else 0)
    && (l.rest.Padding? ==> t.padLen == l.rest.n)
    && (l.rest.Ech? <==> t.candidates != [])
    && (l.rest.Ech? ==>
          t.candidates[0] == |l.rest.payload| && t.echLenOff == Off(p, REST_LEN) &&
          t.payloadLenOff == Off(p, PAYLOAD_LEN) && t.payloadOff == Off(p, PAYLOAD))
    && RoomFor(t, l)
  }

  /** No 16-bit length can overflow, whatever host and payload are chosen. */
  ghost predicate RoomFor(t: Template, l: Layout)
  {
    ExtsLen(l) + HOST_MAX + PAD_TO + 5 < 65536 &&
    forall c :: c in t.candidates ==> ExtsLen(l) + HOST_MAX + c < 65536
  }

  /** The template of a layout. */
  ghost function TemplateOf(l: Layout, candidates: seq<nat>): (t: Template)
  {
    var p := Parts(l);
    Template(Wire(l), Off(p, HEAD) + 2, Off(p, HEAD) + 35, Off(p, EXTS), Off(p, SNI), Off(p, LIST), Off(p, NAME),
             Off(p, HOST), |l.host|, if l.rest.Padding? then Off(p, REST) else 0, if l.rest.Padding? then l.rest.n else 0,
             Off(p, REST_LEN), Off(p, PAYLOAD_LEN), Off(p, PAYLOAD), candidates)
  }

  /** Every valid message with room to grow is some template's, so the builder's theorems are about all of them. */
  lemma EveryLayoutHasTemplate(l: Layout, candidates: seq<nat>)
    requires Valid(l) && RoomFor(TemplateOf(l, candidates), l)
    requires if l.rest.Ech? then candidates != [] && candidates[0] == |l.rest.payload| else candidates == []
    ensures Describes(TemplateOf(l, candidates), l)
  {
    hide Valid;
    hide Parts;
    hide Wire;
    hide Off;
  }

  // ---------- what is built ----------

  /** The padding a message of `unpadded` bytes gets: up to 512 in all, never an empty extension, none from 512 on. */
  function NewPad(unpadded: int): (n: nat)
  {
    if unpadded < PAD_TO then (if PAD_TO - unpadded - 4 > 1 then PAD_TO - unpadded - 4 else 1) else 0
  }

  function Unpadded(l: Layout): (n: int)
    requires l.rest.Padding?
  {
    Size(l) - 4 - l.rest.n
  }

  function NewRest(l: Layout, payload: Octets): (r: Rest)
  {
    match l.rest
    case Plain => Plain
    case Padding(n) => var m := NewPad(Unpadded(l)); if m == 0 then Plain else Padding(m)
    case Ech(pre, _, tail) => Ech(pre, payload, tail)
  }

  ghost function Spliced(l: Layout, host: Octets, random: Octets, session: Octets): (r: Layout)
    requires HeadOk(l.head) && |random| == 32 && |session| == 32
  {
    Named(l.(host := host), random, session)
  }

  lemma NamedKeeps(l: Layout, random: Octets, session: Octets)
    requires Valid(l) && |random| == 32 && |session| == 32
    ensures Valid(Named(l, random, session))
    ensures var h := Named(l, random, session).head;
            h[2..34] == random && h[35..67] == session && |h| == |l.head| && h[67..69] == l.head[67..69]
  {
    hide Load;
    hide IsExts;
    hide Walk;
    var h := Named(l, random, session).head;
    assert h[67..69] == l.head[67..69];
    assert Over(l.head, 2, random)[2..34] == random;
    assert h[2..34] == random;
    assert h[35..67] == session;
  }

  lemma SplicedValid(l: Layout, host: Octets, random: Octets, session: Octets)
    requires Valid(l) && |random| == 32 && |session| == 32 && 0 < |host| <= HOST_MAX && ExtsLen(l) + HOST_MAX < 65536
    ensures Valid(Spliced(l, host, random, session))
    ensures ExtsLen(Spliced(l, host, random, session)) == ExtsLen(l) + |host| - |l.host|
    ensures |Spliced(l, host, random, session).head| == |l.head|
  {
    hide HeadOk;
    hide IsExts;
    hide NoType;
    hide Walk;
    NamedKeeps(l.(host := host), random, session);
  }

  lemma SplicedFit(l: Layout, host: Octets, random: Octets, session: Octets, f: Fill)
    requires Valid(l) && |random| == 32 && |session| == 32 && Valid(Spliced(l, host, random, session)) && Fits(l, f)
    ensures Fits(Spliced(l, host, random, session), f)
  {
    hide FillFits;
    hide IsExts;
    hide Walk;
    hide Load;
    OverFar(Over(l.head, 2, random), 35, session, 67, 69);
    OverFar(l.head, 2, random, 67, 69);
  }

  lemma SplicedFits(l: Layout, host: Octets, random: Octets, session: Octets, fs: seq<Fill>)
    requires Valid(l) && |random| == 32 && |session| == 32 && Valid(Spliced(l, host, random, session)) && AllFit(l, fs)
    ensures AllFit(Spliced(l, host, random, session), fs)
  {
    assert HeadOk(l.head);
    hide Valid;
    hide Fits;
    hide Spliced;
    forall f | f in fs
      ensures Fits(Spliced(l, host, random, session), f)
    {
      SplicedFit(l, host, random, session, f);
    }
  }

  /** The message that is asked for: the host, the refills, then the last resize. */
  ghost function Built(l: Layout, host: Octets, random: Octets, session: Octets, fills: seq<Fill>, payload: Octets)
    : (r: Layout)
    requires Valid(l) && |random| == 32 && |session| == 32 && AllFit(l, fills)
    requires 0 < |host| <= HOST_MAX && ExtsLen(l) + HOST_MAX < 65536
  {
    hide Valid;
    hide Fits;
    SplicedValid(l, host, random, session);
    SplicedFits(l, host, random, session, fills);
    var m := ApplyAll(Spliced(l, host, random, session), fills);
    m.(rest := NewRest(m, payload))
  }

  /** Resizing the last piece keeps the layout valid, so all its lengths agree. */
  lemma ResizeValid(m: Layout, payload: Octets)
    requires Valid(m) && ExtsLen(m) + PAD_TO + 5 < 65536
    requires m.rest.Ech? ==> ExtsLen(m) - |m.rest.payload| + |payload| < 65536
    ensures Valid(m.(rest := NewRest(m, payload)))
  {
    hide HeadOk;
    hide IsExts;
    hide NoType;
    hide Walk;
  }

  lemma BuiltShape(l: Layout, host: Octets, random: Octets, session: Octets, fills: seq<Fill>, payload: Octets)
    requires Valid(l) && |random| == 32 && |session| == 32 && AllFit(l, fills)
    requires 0 < |host| <= HOST_MAX && ExtsLen(l) + HOST_MAX + PAD_TO + 5 < 65536
    requires l.rest.Ech? ==> ExtsLen(l) + HOST_MAX + |payload| < 65536
    ensures var r := Built(l, host, random, session, fills, payload);
            Valid(r) && r.host == host && r.head[2..34] == random && r.head[35..67] == session
  {
    hide Fits;
    hide HeadOk;
    hide IsExts;
    hide NoType;
    hide Walk;
    hide ApplyAll;
    SplicedValid(l, host, random, session);
    SplicedFits(l, host, random, session, fills);
    NamedKeeps(l.(host := host), random, session);
    var s := Spliced(l, host, random, session);
    var m := ApplyAll(s, fills);
    ResizeValid(m, payload);
    StartReads(s.head, m.head);
  }

  lemma StartReads(h: Octets, g: Octets)
    requires SameStart(h, g)
    ensures g[2..34] == h[2..34] && g[35..67] == h[35..67]
  {
    assert g[2..34] == g[..69][2..34] && h[2..34] == h[..69][2..34];
    assert g[35..67] == g[..69][35..67] && h[35..67] == h[..69][35..67];
  }

  /** The reader accepts `w`, so its handshake length is its size less 4 and its extension list ends with it, and finds
      this host, random and session id in it. */
  predicate Carries(w: Octets, host: Octets, random: Octets, session: Octets)
  {
    |w| >= 4 && Load(w[1..4]) == |w| - 4 && Read(w).Some? &&
    Read(w).value.host == host && Read(w).value.random == random && Read(w).value.session == session
  }

  /** What any reader of the built message sees: the asked-for host, random and session id, and an extension list that
      ends with the message. */
  lemma BuiltReads(l: Layout, host: Octets, random: Octets, session: Octets, fills: seq<Fill>, payload: Octets)
    requires Valid(l) && |random| == 32 && |session| == 32 && AllFit(l, fills)
    requires 0 < |host| <= HOST_MAX && ExtsLen(l) + HOST_MAX + PAD_TO + 5 < 65536
    requires l.rest.Ech? ==> ExtsLen(l) + HOST_MAX + |payload| < 65536
    ensures Carries(Wire(Built(l, host, random, session, fills, payload)), host, random, session)
  {
    hide Valid;
    hide Fits;
    hide Wire;
    hide Built;
    hide ExtsLen;
    hide HeadOk;
    BuiltShape(l, host, random, session, fills, payload);
    WireReads(Built(l, host, random, session, fills, payload));
  }

  /** The padding rule: a message that would have under 512 bytes is padded to 512, or by one byte when it is too near
      for that; from 512 on it has no padding extension. */
  lemma PaddingRule(l: Layout, host: Octets, random: Octets, session: Octets, fills: seq<Fill>, payload: Octets)
    requires Valid(l) && |random| == 32 && |session| == 32 && AllFit(l, fills) && l.rest.Padding?
    requires 0 < |host| <= HOST_MAX && ExtsLen(l) + HOST_MAX + PAD_TO + 5 < 65536
    ensures var r := Built(l, host, random, session, fills, payload);
            var bare := Unpadded(l) + |host| - |l.host|;
            r.rest.Padding? == (bare < PAD_TO) &&
            |Wire(r)| == (if bare >= PAD_TO then bare else if bare <= PAD_TO - 5 then PAD_TO else bare + 5) &&
            (r.rest.Padding? ==> r.rest.n >= 1)
  {
    hide Fits;
    hide HeadOk;
    hide IsExts;
    hide NoType;
    hide Walk;
    hide ApplyAll;
    hide Wire;
    SplicedValid(l, host, random, session);
    SplicedFits(l, host, random, session, fills);
    var s := Spliced(l, host, random, session);
    assert s.rest == l.rest;
    BuiltShape(l, host, random, session, fills, payload);
    WireShape(Built(l, host, random, session, fills, payload));
  }

  // ---------- the phases, in place ----------

  method WriteAt(out: array<byte>, off: nat, d: Octets)
    requires off + |d| <= out.Length
    modifies out
    ensures out[..] == Over(old(out[..]), off, d)
  {
    for i := 0 to |d|
      invariant forall j :: 0 <= j < out.Length ==>
                  out[j] == if off <= j < off + i then d[j - off] else old(out[j])
    {
      out[off + i] := d[i];
    }
  }

  lemma OverLeft(a: Octets, b: Octets, off: nat, d: Octets)
    requires off + |d| <= |a|
    ensures Over(a + b, off, d) == Over(a, off, d) + b
  {
  }

  lemma OverThree(o: Octets, a: Octets, b: Octets, c: Octets)
    requires |a| + |b| + |c| <= |o|
    ensures Over(Over(Over(o, 0, a), |a|, b), |a| + |b|, c) == a + b + c + o[|a| + |b| + |c|..]
  {
    assert Over(o, 0, a) == a + o[|a|..];
    assert Over(Over(o, 0, a), |a|, b) == a + b + o[|a| + |b|..];
  }

  /** Writes inside one part of the message; `junk` is the buffer behind it. */
  method FillPart(out: array<byte>, off: nat, d: Octets, ghost p: seq<Octets>, ghost i: nat, ghost k: nat, ghost junk: Octets)
    requires out[..] == Flatten(p) + junk
    requires i < |p| && k + |d| <= |p[i]| && off == Off(p, i) + k
    modifies out
    ensures out[..] == Flatten(p[i := Over(p[i], k, d)]) + junk
  {
    hide Flatten;
    hide Over;
    hide Off;
    OverPart(p, i, k, d);
    OverLeft(Flatten(p), junk, off, d);
    assert off + |d| <= |Flatten(p)| <= |out[..]|;
    WriteAt(out, off, d);
  }

  lemma PartAt(p: seq<Octets>, i: nat, junk: Octets)
    requires i < |p|
    ensures Off(p, i) + |p[i]| <= |Flatten(p)|
    ensures (Flatten(p) + junk)[Off(p, i)..Off(p, i) + |p[i]|] == p[i]
  {
    SplitParts(p, i);
    hide Flatten;
    var a, c := Flatten(p[..i]), Flatten(p[i + 1..]);
    Middle(a, p[i], c);
  }

  /** patch_be16_delta and patch_be24_delta on a length field. */
  method PatchPart(out: array<byte>, off: nat, delta: int, ghost p: seq<Octets>, ghost i: nat, ghost junk: Octets, width: nat)
    requires out[..] == Flatten(p) + junk
    requires i < |p| && |p[i]| == width && off == Off(p, i) && Load(p[i]) + delta >= 0
    modifies out
    ensures out[..] == Flatten(p[i := Store(Load(p[i]) + delta, width)]) + junk
  {
    hide Flatten;
    hide Load;
    hide Store;
    hide Off;
    PartAt(p, i, junk);
    assert off + width <= |Flatten(p)| <= |out[..]|;
    assert out[off..off + width] == out[..][off..off + width];
    var v := Load(out[off..off + width]) + delta;
    assert Over(p[i], 0, Store(v, width)) == Store(v, width);
    FillPart(out, off, Store(v, width), p, i, 0, junk);
  }

  /** The parts by name, as they are between two patches. */
  datatype Fields = Fields(
    len: Octets, head: Octets, elen: Octets, a: Octets, sni: Octets, list: Octets, name: Octets, host: Octets, b: Octets,
    rest: seq<Octets>)

  ghost predicate Sized(f: Fields)
  {
    |f.len| == 3 && |f.elen| == 2 && |f.sni| == 2 && |f.list| == 2 && |f.name| == 2 && |f.rest| == 6
  }

  ghost function Mk(f: Fields): (p: seq<Octets>)
    requires |f.rest| == 6
    ensures |p| == 18
  {
    [[1], f.len, f.head, f.elen, f.a, [0, 0], f.sni, f.list, [0], f.name, f.host, f.b] + f.rest
  }

  ghost function FieldsOf(l: Layout): (f: Fields)
    ensures Sized(f)
  {
    Fields(Store(|l.head| + 2 + ExtsLen(l), 3), l.head, Store(ExtsLen(l), 2), l.a, Store(|l.host| + 5, 2),
           Store(|l.host| + 3, 2), Store(|l.host|, 2), l.host, l.b, RestParts(l.rest))
  }

  lemma PartsMk(l: Layout)
    ensures Parts(l) == Mk(FieldsOf(l))
  {
    hide Store;
    hide ExtsLen;
    hide RestParts;
  }

  lemma MkAt(f: Fields)
    requires |f.rest| == 6
    ensures var p := Mk(f);
            p[0] == [1] && p[LEN] == f.len && p[EXTS] == f.elen && p[SNI] == f.sni && p[LIST] == f.list &&
            p[NAME] == f.name && p[HOST] == f.host && p[HEAD] == f.head
  {
  }

  lemma MkLen(f: Fields, x: Octets)
    requires |f.rest| == 6
    ensures Mk(f)[LEN := x] == Mk(f.(len := x))
  {
  }

  lemma MkExts(f: Fields, x: Octets)
    requires |f.rest| == 6
    ensures Mk(f)[EXTS := x] == Mk(f.(elen := x))
  {
  }

  lemma MkSni(f: Fields, x: Octets)
    requires |f.rest| == 6
    ensures Mk(f)[SNI := x] == Mk(f.(sni := x))
  {
  }

  lemma MkList(f: Fields, x: Octets)
    requires |f.rest| == 6
    ensures Mk(f)[LIST := x] == Mk(f.(list := x))
  {
  }

  lemma MkName(f: Fields, x: Octets)
    requires |f.rest| == 6
    ensures Mk(f)[NAME := x] == Mk(f.(name := x))
  {
  }

  lemma MkHost(f: Fields, x: Octets)
    requires |f.rest| == 6
    ensures Mk(f)[HOST := x] == Mk(f.(host := x))
  {
  }

  /** Up to the host, offsets do not depend on what stands in the length fields or the host. */
  lemma {:induction false} MkOff(f: Fields, g: Fields, i: nat)
    requires Sized(f) && Sized(g) && |f.head| == |g.head| && |f.a| == |g.a| && i <= HOST
    ensures Off(Mk(f), i) == Off(Mk(g), i)
  {
    if i > 0 {
      MkOff(f, g, i - 1);
      OffStep(Mk(f), i - 1);
      OffStep(Mk(g), i - 1);
    }
  }

  /** The two lengths that count everything, moved by the same amount. */
  method PatchTotals(out: array<byte>, extsLenOff: nat, delta: int, ghost f: Fields, ghost n: nat, ghost e: nat, ghost junk: Octets)
    requires Sized(f) && out[..] == Flatten(Mk(f)) + junk
    requires f.len == Store(n, 3) && f.elen == Store(e, 2) && n < 0x100_0000 && e < 65536
    requires extsLenOff == Off(Mk(f), EXTS) && n + delta >= 0 && e + delta >= 0
    modifies out
    ensures out[..] == Flatten(Mk(f.(len := Store(n + delta, 3), elen := Store(e + delta, 2)))) + junk
  {
    hide Flatten;
    hide Load;
    hide Store;
    hide Off;
    Loads3(n);
    Loads2(e);
    MkAt(f);
    OffOne(Mk(f));
    hide Mk;
    PatchPart(out, 1, delta, Mk(f), LEN, junk, 3);
    MkLen(f, Store(n + delta, 3));
    ghost var g := f.(len := Store(n + delta, 3));
    MkAt(g);
    MkOff(f, g, EXTS);
    PatchPart(out, extsLenOff, delta, Mk(g), EXTS, junk, 2);
    MkExts(g, Store(e + delta, 2));
  }

  lemma OffOne(p: seq<Octets>)
    requires |p| > 0 && |p[0]| == 1
    ensures Off(p, 1) == 1
  {
    OffStep(p, 0);
  }

  /** Phase 1: the host between the two halves of the template, and the lengths that count it. */
  method SpliceHost(out: array<byte>, t: Template, host: Octets, ghost l: Layout)
    requires Describes(t, l) && 0 < |host| <= HOST_MAX
    requires t.hostLen <= |t.bytes| && |t.bytes| - t.hostLen + |host| <= out.Length
    modifies out
    ensures out[..] == Wire(l.(host := host)) + old(out[|t.bytes| - t.hostLen + |host|..])
  {
    hide *;
    ghost var junk := old(out[|t.bytes| - t.hostLen + |host|..]);
    HostRoom(t, l);
    SpliceFacts(t, l, host);
    SplicedOff(t, l, host);
    SplicedWire(l, host);
    SpliceRaw(out, t, host);
    PatchFields(out, t, host, l, HostFields(l, host), junk);
  }

  ghost function HostFields(l: Layout, host: Octets): (f: Fields)
    ensures Sized(f)
  {
    FieldsOf(l).(host := host)
  }

  lemma SpliceFacts(t: Template, l: Layout, host: Octets)
    requires Describes(t, l)
    ensures t.hostOff + t.hostLen <= |t.bytes|
    ensures t.bytes[..t.hostOff] + host + t.bytes[t.hostOff + t.hostLen..] == Flatten(Mk(HostFields(l, host)))
  {
    var f := FieldsOf(l);
    HostRoom(t, l);
    PartsMk(l);
    MkAt(f);
    hide Flatten;
    hide Off;
    hide Parts;
    hide Describes;
    hide Mk;
    SplicePart(Mk(f), HOST, host);
    MkHost(f, host);
  }

  lemma SplicedWire(l: Layout, host: Octets)
    requires ExtsLen(l) + |host| - |l.host| >= 0
    ensures Wire(l.(host := host)) == Flatten(Mk(SplicedFields(l, host)))
  {
    SplicedFieldsOf(l, host);
    hide Flatten;
    hide Parts;
    hide FieldsOf;
    hide Mk;
    PartsMk(l.(host := host));
  }

  ghost function SplicedFields(l: Layout, host: Octets): (f: Fields)
    requires ExtsLen(l) + |host| - |l.host| >= 0
  {
    var delta := |host| - |l.host|;
    FieldsOf(l).(host := host, len := Store(|l.head| + 2 + ExtsLen(l) + delta, 3), elen := Store(ExtsLen(l) + delta, 2),
                 sni := Store(|l.host| + 5 + delta, 2), list := Store(|l.host| + 3 + delta, 2), name := Store(|host|, 2))
  }

  lemma SplicedFieldsOf(l: Layout, host: Octets)
    requires ExtsLen(l) + |host| - |l.host| >= 0
    ensures FieldsOf(l.(host := host)) == SplicedFields(l, host)
  {
    hide Store;
  }

  lemma HostRoom(t: Template, l: Layout)
    requires Describes(t, l)
    ensures 0 < |l.host| && |l.host| + 9 <= ExtsLen(l) < 65000 && |l.head| < 0x10000
    ensures t.bytes == Flatten(Parts(l)) && t.hostOff == Off(Parts(l), HOST) && t.hostLen == |l.host|
  {
  }

  lemma SplicedOff(t: Template, l: Layout, host: Octets)
    requires Describes(t, l)
    ensures var p := Mk(HostFields(l, host));
            t.extsLenOff == Off(p, EXTS) && t.sniLenOff == Off(p, SNI) && t.listLenOff == Off(p, LIST) &&
            t.nameLenOff == Off(p, NAME)
  {
    PartsMk(l);
    var f := FieldsOf(l);
    var g := f.(host := host);
    hide Off;
    MkOff(f, g, EXTS);
    MkOff(f, g, SNI);
    MkOff(f, g, LIST);
    MkOff(f, g, NAME);
  }

  method PatchFields(out: array<byte>, t: Template, host: Octets, ghost l: Layout, ghost g: Fields, ghost junk: Octets)
    requires 0 < |l.host| && |l.host| + 9 <= ExtsLen(l) < 65000 && |l.head| < 0x10000
    requires g == HostFields(l, host) && t.hostLen == |l.host|
    requires out[..] == Flatten(Mk(g)) + junk
    requires t.extsLenOff == Off(Mk(g), EXTS) && t.sniLenOff == Off(Mk(g), SNI) && t.listLenOff == Off(Mk(g), LIST)
    requires t.nameLenOff == Off(Mk(g), NAME)
    modifies out
    ensures out[..] == Flatten(Mk(SplicedFields(l, host))) + junk
  {
    hide Flatten;
    hide Off;
    hide Mk;
    hide ExtsLen;
    hide Store;
    ghost var n, e := |l.head| + 2 + ExtsLen(l), ExtsLen(l);
    PatchTotals(out, t.extsLenOff, |host| - t.hostLen, g, n, e, junk);
    ghost var delta := |host| - |l.host|;
    ghost var h := g.(len := Store(n + delta, 3), elen := Store(e + delta, 2));
    MkOff(g, h, SNI);
    MkOff(g, h, LIST);
    MkOff(g, h, NAME);
    PatchSni(out, t, host, h, |l.host|, junk);
  }

  method SpliceRaw(out: array<byte>, t: Template, host: Octets)
    requires t.hostOff + t.hostLen <= |t.bytes| && |t.bytes| - t.hostLen + |host| <= out.Length
    modifies out
    ensures out[..] == t.bytes[..t.hostOff] + host + t.bytes[t.hostOff + t.hostLen..] +
                       old(out[|t.bytes| - t.hostLen + |host|..])
  {
    hide Over;
    OverThree(out[..], t.bytes[..t.hostOff], host, t.bytes[t.hostOff + t.hostLen..]);
    WriteAt(out, 0, t.bytes[..t.hostOff]);
    WriteAt(out, t.hostOff, host);
    WriteAt(out, t.hostOff + |host|, t.bytes[t.hostOff + t.hostLen..]);
  }

  /** The three lengths nested around the host. */
  method PatchSni(out: array<byte>, t: Template, host: Octets, ghost f: Fields, ghost n: nat, ghost junk: Octets)
    requires Sized(f) && out[..] == Flatten(Mk(f)) + junk && n + 5 < 65536 && t.hostLen == n
    requires f.sni == Store(n + 5, 2) && f.list == Store(n + 3, 2)
    requires t.sniLenOff == Off(Mk(f), SNI) && t.listLenOff == Off(Mk(f), LIST) && t.nameLenOff == Off(Mk(f), NAME)
    modifies out
    ensures var delta := |host| - n;
            out[..] == Flatten(Mk(f.(sni := Store(n + 5 + delta, 2), list := Store(n + 3 + delta, 2),
                                     name := Store(|host|, 2)))) + junk
  {
    var delta := |host| - t.hostLen;
    Loads2(n + 5);
    Loads2(n + 3);
    hide Flatten;
    hide Load;
    hide Store;
    hide Off;
    hide Mk;
    MkAt(f);
    PatchPart(out, t.sniLenOff, delta, Mk(f), SNI, junk, 2);
    MkSni(f, Store(n + 5 + delta, 2));
    ghost var g := f.(sni := Store(n + 5 + delta, 2));
    MkAt(g);
    MkOff(f, g, LIST);
    PatchPart(out, t.listLenOff, delta, Mk(g), LIST, junk, 2);
    MkList(g, Store(n + 3 + delta, 2));
    ghost var h := g.(list := Store(n + 3 + delta, 2));
    MkAt(h);
    MkOff(f, h, NAME);
    assert Over(h.name, 0, Store(|host|, 2)) == Store(|host|, 2);
    FillPart(out, t.nameLenOff, Store(|host|, 2), Mk(h), NAME, 0, junk);
    MkName(h, Store(|host|, 2));
  }

  // ---------- phases 2 and 3 ----------

  /** Random and session id. */
  method FillNames(out: array<byte>, t: Template, random: Octets, session: Octets, ghost l: Layout, ghost junk: Octets)
    requires Valid(l) && out[..] == Wire(l) + junk && |random| == 32 && |session| == 32
    requires t.randomOff == Off(Parts(l), HEAD) + 2 && t.sessionOff == Off(Parts(l), HEAD) + 35
    modifies out
    ensures out[..] == Wire(Named(l, random, session)) + junk
  {
    ghost var h1 := Over(l.head, 2, random);
    ghost var h2 := Over(h1, 35, session);
    ghost var l1 := l.(head := h1);
    HeadPart(l);
    HeadPart(l1);
    SetPartParts(l, HEAD, h1);
    SetPartParts(l1, HEAD, h2);
    hide Flatten;
    hide Off;
    hide Over;
    hide Parts;
    hide IsExts;
    hide Walk;
    FillPart(out, t.randomOff, random, Parts(l), HEAD, 2, junk);
    HeadOff(l, l1);
    FillPart(out, t.sessionOff, session, Parts(l1), HEAD, 35, junk);
    assert l1.(head := h2) == Named(l, random, session);
  }

  lemma HeadPart(l: Layout)
    ensures Parts(l)[HEAD] == l.head && |Parts(l)[0]| == 1 && |Parts(l)[1]| == 3
  {
    hide Store;
  }

  lemma HeadOff(l: Layout, m: Layout)
    ensures Off(Parts(l), HEAD) == Off(Parts(m), HEAD)
  {
    HeadPart(l);
    HeadPart(m);
    hide Parts;
    OffStep(Parts(l), 0);
    OffStep(Parts(l), 1);
    OffStep(Parts(m), 0);
    OffStep(Parts(m), 1);
  }

  function ShiftOff(off: nat, hostOff: nat, delta: int): (n: int)
  {
    if off > hostOff then off + delta else off
  }

  lemma {:induction false} OffMono(p: seq<Octets>, i: nat, j: nat)
    requires i <= j <= |p|
    ensures Off(p, i) <= Off(p, j)
    decreases j
  {
    if i < j {
      OffMono(p, i, j - 1);
      OffStep(p, j - 1);
    }
  }

  ghost predicate SameBut(p: seq<Octets>, q: seq<Octets>)
  {
    |p| == 18 && |q| == 18 && forall x :: 0 <= x < 18 && x != HOST ==> |p[x]| == |q[x]|
  }

  /** shift_off finds each refill's place in the output. */
  lemma Shifted(l: Layout, q: seq<Octets>, f: Fill)
    requires Valid(l) && Fits(l, f) && SameBut(Parts(l), q) && f.off == Off(Parts(l), f.part) + f.inner
    ensures f.part < 18
    ensures ShiftOff(f.off, Off(Parts(l), HOST), |q[HOST]| - |l.host|) == Off(q, f.part) + f.inner
  {
    FitsBound(l, f);
    assert f.part == HEAD || f.part == A || f.part > HOST;
    assert l.host != [];
    hide Valid;
    hide Fits;
    hide Off;
    var p := Parts(l);
    assert p[HOST] == l.host by { PartsMk(l); MkAt(FieldsOf(l)); }
    hide Parts;
    OffShift(p, q, HOST, f.part);
    OffStep(p, f.part);
    OffStep(p, HOST);
    if f.part < HOST {
      OffMono(p, f.part + 1, HOST);
    } else {
      OffMono(p, HOST + 1, f.part);
    }
  }

  ghost predicate Placed(l: Layout, fs: seq<Fill>)
  {
    forall f :: f in fs ==> f.part < 18 && f.off == Off(Parts(l), f.part) + f.inner
  }

  /** One refill. */
  method FillOne(out: array<byte>, t: Template, delta: int, f: Fill, ghost l: Layout, ghost m: Layout, ghost junk: Octets)
    requires Valid(l) && Valid(m) && Fits(l, f) && Fits(m, f) && SameBut(Parts(l), Parts(m))
    requires f.off == Off(Parts(l), f.part) + f.inner && t.hostOff == Off(Parts(l), HOST)
    requires delta == |Parts(m)[HOST]| - |l.host|
    requires out[..] == Wire(m) + junk
    modifies out
    ensures f.inner + |f.data| <= |PartOf(m, f.part)| && Valid(Apply(m, f))
    ensures out[..] == Wire(Apply(m, f)) + junk && SameBut(Parts(l), Parts(Apply(m, f)))
    ensures Parts(Apply(m, f))[HOST] == Parts(m)[HOST]
  {
    hide Valid;
    hide Fits;
    hide Off;
    hide Parts;
    hide Flatten;
    Shifted(l, Parts(m), f);
    ApplyKeeps(m, f);
    hide Apply;
    NotHost(m, f);
    var off := ShiftOff(f.off, t.hostOff, delta);
    FillPart(out, off, f.data, Parts(m), f.part, f.inner, junk);
  }

  lemma NotHost(m: Layout, f: Fill)
    requires Valid(m) && Fits(m, f)
    ensures f.part != HOST
  {
  }

  method FillAll(out: array<byte>, t: Template, delta: int, fills: seq<Fill>, ghost l: Layout, ghost s: Layout, ghost junk: Octets)
    requires Valid(l) && Valid(s) && AllFit(l, fills) && AllFit(s, fills) && Placed(l, fills)
    requires SameBut(Parts(l), Parts(s)) && delta == |Parts(s)[HOST]| - |l.host| && t.hostOff == Off(Parts(l), HOST)
    requires out[..] == Wire(s) + junk
    modifies out
    ensures out[..] == Wire(ApplyAll(s, fills)) + junk
    ensures SameBut(Parts(l), Parts(ApplyAll(s, fills))) && Parts(ApplyAll(s, fills))[HOST] == Parts(s)[HOST]
  {
    hide Valid;
    hide Fits;
    hide Off;
    hide Parts;
    hide Wire;
    ghost var m := s;
    var i := 0;
    assert fills[0..] == fills;
    while i < |fills|
      invariant 0 <= i <= |fills|
      invariant Valid(m) && AllFit(m, fills[i..]) && ApplyAll(m, fills[i..]) == ApplyAll(s, fills)
      invariant SameBut(Parts(l), Parts(m)) && Parts(m)[HOST] == Parts(s)[HOST]
      invariant out[..] == Wire(m) + junk
    {
      ghost var rest := fills[i..];
      var f := fills[i];
      assert rest[0] == f && rest[1..] == fills[i + 1..];
      FillOne(out, t, delta, f, l, m, junk);
      ApplyFirst(m, rest);
      m := Apply(m, f);
      i := i + 1;
    }
    assert fills[i..] == [];
  }

  lemma ApplyFirst(m: Layout, fs: seq<Fill>)
    requires fs != [] && Valid(m) && AllFit(m, fs)
    ensures fs[0].inner + |fs[0].data| <= |PartOf(m, fs[0].part)| && Valid(Apply(m, fs[0]))
    ensures AllFit(Apply(m, fs[0]), fs[1..]) && ApplyAll(m, fs) == ApplyAll(Apply(m, fs[0]), fs[1..])
  {
    hide Valid;
    hide Fits;
    hide Apply;
    ApplyKeeps(m, fs[0]);
    AllStable(m, fs[0], fs[1..]);
  }

  // ---------- phase 4: padding ----------

  ghost function Top(f: Fields): (p: seq<Octets>)
    ensures |p| == 12
  {
    [[1], f.len, f.head, f.elen, f.a, [0, 0], f.sni, f.list, [0], f.name, f.host, f.b]
  }

  lemma MkRest(f: Fields)
    requires |f.rest| == 6
    ensures Flatten(Mk(f)) == Flatten(Top(f)) + Flatten(f.rest) && Off(Mk(f), REST) == |Flatten(Top(f))|
  {
    assert Mk(f) == Top(f) + f.rest;
    assert Mk(f)[..REST] == Top(f);
    hide Top;
    hide Mk;
    FlattenAppend(Top(f), f.rest);
  }

  /** The fields of a layout whose last piece changed size by `delta`. */
  ghost function ResizedFields(m: Layout, r: Rest): (f: Fields)
    requires ExtsLen(m) + RestLen(r) - RestLen(m.rest) >= 0
  {
    var delta := RestLen(r) - RestLen(m.rest);
    FieldsOf(m).(len := Store(|m.head| + 2 + ExtsLen(m) + delta, 3), elen := Store(ExtsLen(m) + delta, 2),
                 rest := RestParts(r))
  }

  lemma ResizedFieldsOf(m: Layout, r: Rest)
    ensures ExtsLen(m) + RestLen(r) - RestLen(m.rest) >= 0
    ensures Wire(m.(rest := r)) == Flatten(Mk(ResizedFields(m, r)))
    ensures Wire(m.(rest := r)) == Flatten(Top(ResizedFields(m, r))) + RestBytes(r)
  {
    hide Store;
    hide RestParts;
    hide Flatten;
    hide Parts;
    assert FieldsOf(m.(rest := r)) == ResizedFields(m, r);
    PartsMk(m.(rest := r));
    hide Mk;
    MkRest(ResizedFields(m, r));
    FlatRest(r);
  }

  method WritePad(out: array<byte>, off: nat, n: nat)
    requires off + 4 + n <= out.Length
    modifies out
    ensures out[..] == Over(old(out[..]), off, [0, 0x15] + (Store(n, 2) + Zeros(n)))
  {
    hide Store;
    hide Zeros;
    WriteAt(out, off, [0, 0x15]);
    WriteAt(out, off + 2, Store(n, 2));
    WriteAt(out, off + 4, Zeros(n));
  }

  lemma EndWrite(x: Octets, y: Octets, junk: Octets, d: Octets, k: nat)
    requires |x| + |d| <= k <= |x + y + junk|
    ensures Over(x + y + junk, |x|, d)[..|x| + |d|] == x + d
    ensures Over(x + y + junk, |x|, d)[k..] == (x + y + junk)[k..]
  {
  }

  function PadRest(n: nat): (r: Rest)
  {
    if n == 0 then Plain else Padding(n)
  }

  /** Writes the new padding extension behind `x`, or leaves it out; nothing from `k` on is touched. */
  method EndWithPad(out: array<byte>, padOff: nat, newPad: nat, ghost x: Octets, ghost y: Octets, ghost junk: Octets, ghost k: nat)
    requires out[..] == x + y + junk && |x| == padOff && padOff + RestLen(PadRest(newPad)) <= k <= out.Length
    modifies out
    ensures out[..padOff + RestLen(PadRest(newPad))] == x + RestBytes(PadRest(newPad))
    ensures out[k..] == old(out[k..])
  {
    hide Store;
    hide Zeros;
    if newPad > 0 {
      ghost var d := [0, 0x15] + (Store(newPad, 2) + Zeros(newPad));
      EndWrite(x, y, junk, d, k);
      hide Over;
      ghost var was := out[..];
      WritePad(out, padOff, newPad);
      assert out[k..] == out[..][k..] && was[k..] == old(out[k..]);
      assert out[..padOff + |d|] == out[..][..padOff + |d|];
    } else {
      assert out[..padOff] == out[..][..padOff];
    }
  }

  lemma RepadFacts(m: Layout, newPad: nat, delta: int, g: Fields)
    requires delta == RestLen(PadRest(newPad)) - RestLen(m.rest) && ExtsLen(m) + delta >= 0
    requires g == FieldsOf(m).(len := Store(|m.head| + 2 + ExtsLen(m) + delta, 3), elen := Store(ExtsLen(m) + delta, 2))
    ensures var x := Flatten(Top(g));
            Flatten(Mk(g)) == x + RestBytes(m.rest) && |RestBytes(m.rest)| == RestLen(m.rest) &&
            Wire(m.(rest := PadRest(newPad))) == x + RestBytes(PadRest(newPad)) &&
            |x| == Off(Parts(m), REST)
  {
    hide Flatten;
    hide Store;
    hide RestParts;
    hide ExtsLen;
    hide RestLen;
    hide Wire;
    hide Parts;
    ResizedFieldsOf(m, PadRest(newPad));
    FlatRest(m.rest);
    PartsMk(m);
    TopLen(FieldsOf(m), g);
    assert Top(ResizedFields(m, PadRest(newPad))) == Top(g);
    hide Mk;
    hide Top;
    hide Off;
    MkRest(FieldsOf(m));
    MkRest(g);
  }

  lemma TopLen(f: Fields, g: Fields)
    requires Sized(f) && Sized(g) && f.head == g.head && f.a == g.a && f.host == g.host && f.b == g.b && f.rest == g.rest
    ensures |Flatten(Top(f))| == |Flatten(Top(g))|
  {
    var p, q := Mk(f), Mk(g);
    OffShift(p, q, 0, REST);
    hide Flatten;
    MkRest(f);
    MkRest(g);
  }

  method Repad(out: array<byte>, t: Template, padOff: nat, padDelta: int, newPad: nat, ghost m: Layout, ghost junk: Octets,
               ghost k: nat)
    requires |m.head| < 0x10000 && ExtsLen(m) < 65536 && out[..] == Wire(m) + junk
    requires padOff == Off(Parts(m), REST) && t.extsLenOff == Off(Parts(m), EXTS)
    requires padDelta == RestLen(PadRest(newPad)) - RestLen(m.rest)
    requires padOff + RestLen(PadRest(newPad)) <= k <= out.Length && |Wire(m)| <= k
    modifies out
    ensures out[..padOff + RestLen(PadRest(newPad))] == Wire(m.(rest := PadRest(newPad)))
    ensures out[k..] == old(out[k..])
  {
    hide *;
    ghost var n, e := |m.head| + 2 + ExtsLen(m), ExtsLen(m);
    RepadStart(m);
    ghost var was := out[..];
    PatchTotals(out, t.extsLenOff, padDelta, FieldsOf(m), n, e, junk);
    ghost var g := RepadFields(m, padDelta);
    RepadFacts(m, newPad, padDelta, g);
    SameTail(was, Wire(m), out[..], Flatten(Mk(g)), junk, k);
    assert out[k..] == out[..][k..] && was[k..] == old(out[k..]);
    EndWithPad(out, padOff, newPad, Flatten(Top(g)), RestBytes(m.rest), junk, k);
  }

  ghost function RepadFields(m: Layout, delta: int): (g: Fields)
    requires ExtsLen(m) + delta >= 0
    ensures Sized(g) && |g.rest| == 6
    ensures g == FieldsOf(m).(len := Store(|m.head| + 2 + ExtsLen(m) + delta, 3), elen := Store(ExtsLen(m) + delta, 2))
  {
    FieldsOf(m).(len := Store(|m.head| + 2 + ExtsLen(m) + delta, 3), elen := Store(ExtsLen(m) + delta, 2))
  }

  lemma RepadStart(m: Layout)
    ensures ExtsLen(m) >= RestLen(m.rest) && Wire(m) == Flatten(Mk(FieldsOf(m))) && Parts(m) == Mk(FieldsOf(m))
    ensures FieldsOf(m).len == Store(|m.head| + 2 + ExtsLen(m), 3) && FieldsOf(m).elen == Store(ExtsLen(m), 2)
  {
    PartsMk(m);
  }

  lemma SameTail(s: Octets, x: Octets, t: Octets, y: Octets, junk: Octets, k: nat)
    requires s == x + junk && t == y + junk && |s| == |t| && |x| <= k <= |s|
    ensures s[k..] == t[k..]
  {
    assert s[k..] == junk[k - |x|..] && t[k..] == junk[k - |x|..];
  }

  // ---------- phase 5: the ECH payload ----------

  lemma MoveTail(x: Octets, y: Octets, tail: Octets, junk: Octets, z: Octets, k: nat)
    requires |x| + |z| + |tail| <= k <= |x + y + tail + junk| && |x| + |y| + |tail| <= k
    ensures var o := x + y + tail + junk;
            Over(Over(o, |x| + |z|, tail), |x|, z)[..|x| + |z| + |tail|] == x + z + tail
    ensures var o := x + y + tail + junk;
            Over(Over(o, |x| + |z|, tail), |x|, z)[k..] == o[k..]
  {
  }

  /** The memmove of what stands behind the payload, up or down, then the new payload. */
  method SwapPayload(out: array<byte>, payloadOff: nat, oldLen: nat, end: nat, payload: Octets,
                     ghost x: Octets, ghost y: Octets, ghost tail: Octets, ghost junk: Octets, ghost k: nat)
    requires out[..] == x + y + tail + junk && payloadOff == |x| && oldLen == |y| && end == |x| + |y| + |tail|
    requires |x| + |payload| + |tail| <= k <= out.Length && end <= k
    modifies out
    ensures out[..|x| + |payload| + |tail|] == x + payload + tail
    ensures out[k..] == old(out[k..])
  {
    ghost var was := out[..];
    assert was[payloadOff + oldLen..end] == tail;
    var moved := out[payloadOff + oldLen..end];
    assert moved == tail;
    MoveTail(x, y, tail, junk, payload, k);
    hide Over;
    WriteAt(out, payloadOff + |payload|, moved);
    WriteAt(out, payloadOff, payload);
    assert out[k..] == out[..][k..] && was[k..] == old(out[k..]);
    ghost var n := |x| + |payload| + |tail|;
    assert out[..n] == out[..][..n];
  }

  /** Parts around the payload. */
  lemma AroundPayload(f: Fields, z: Octets)
    requires |f.rest| == 6
    ensures var p := Mk(f);
            Flatten(p) == Flatten(p[..PAYLOAD]) + f.rest[4] + f.rest[5] && Off(p, PAYLOAD) == |Flatten(p[..PAYLOAD])| &&
            Flatten(Mk(f.(rest := f.rest[4 := z]))) == Flatten(p[..PAYLOAD]) + z + f.rest[5]
  {
    var p := Mk(f);
    var q := Mk(f.(rest := f.rest[4 := z]));
    assert q[..PAYLOAD] == p[..PAYLOAD];
    assert p[PAYLOAD..] == [f.rest[4], f.rest[5]] && q[PAYLOAD..] == [z, f.rest[5]];
    assert p == p[..PAYLOAD] + p[PAYLOAD..] && q == q[..PAYLOAD] + q[PAYLOAD..];
    hide Mk;
    FlattenAppend(p[..PAYLOAD], p[PAYLOAD..]);
    FlattenAppend(q[..PAYLOAD], q[PAYLOAD..]);
    FlatTwo(f.rest[4], f.rest[5]);
    FlatTwo(z, f.rest[5]);
    hide Flatten;
    Regroup(Flatten(p[..PAYLOAD]), f.rest[4], f.rest[5]);
    Regroup(Flatten(p[..PAYLOAD]), z, f.rest[5]);
  }

  lemma FlatTwo(a: Octets, b: Octets)
    ensures Flatten([a, b]) == a + b
  {
    assert [a, b][1..] == [b];
    FlatLast([b]);
  }

  lemma MkRestAt(f: Fields, i: nat, x: Octets)
    requires |f.rest| == 6 && i < 6
    ensures Mk(f)[REST + i] == f.rest[i] && Mk(f)[REST + i := x] == Mk(f.(rest := f.rest[i := x]))
  {
  }

  /** Up to the payload, offsets do not depend on the payload or on what stands in the length fields. */
  lemma EchOff(f: Fields, g: Fields, i: nat)
    requires Sized(f) && Sized(g) && |f.head| == |g.head| && |f.a| == |g.a| && |f.host| == |g.host| && |f.b| == |g.b|
    requires forall x :: 0 <= x < 6 && x != 4 ==> |f.rest[x]| == |g.rest[x]|
    requires i <= PAYLOAD
    ensures Off(Mk(f), i) == Off(Mk(g), i)
  {
    forall x | 0 <= x < 18 && x != PAYLOAD
      ensures |Mk(f)[x]| == |Mk(g)[x]|
    {
    }
    hide Mk;
    OffShift(Mk(f), Mk(g), PAYLOAD, i);
  }

  /** The lengths that count the payload. */
  method PatchPayload(out: array<byte>, t: Template, echLenOff: nat, payloadLenOff: nat, delta: int, newLen: nat,
                      ghost f: Fields, ghost n: nat, ghost e: nat, ghost v: nat, ghost junk: Octets)
    requires Sized(f) && out[..] == Flatten(Mk(f)) + junk
    requires f.len == Store(n, 3) && f.elen == Store(e, 2) && n < 0x100_0000 && e < 65536 && v < 65536
    requires n + delta >= 0 && e + delta >= 0 && v + delta >= 0
    requires f.rest[1] == Store(v, 2) && |f.rest[3]| == 2
    requires t.extsLenOff == Off(Mk(f), EXTS) && echLenOff == Off(Mk(f), REST_LEN) && payloadLenOff == Off(Mk(f), PAYLOAD_LEN)
    modifies out
    ensures out[..] == Flatten(Mk(f.(len := Store(n + delta, 3), elen := Store(e + delta, 2),
                                     rest := f.rest[1 := Store(v + delta, 2)][3 := Store(newLen, 2)]))) + junk
  {
    Loads2(v);
    hide Flatten;
    hide Load;
    hide Store;
    hide Off;
    hide Mk;
    PatchTotals(out, t.extsLenOff, delta, f, n, e, junk);
    ghost var g := f.(len := Store(n + delta, 3), elen := Store(e + delta, 2));
    EchOff(f, g, REST_LEN);
    MkRestAt(g, 1, Store(v + delta, 2));
    PatchPart(out, echLenOff, delta, Mk(g), REST_LEN, junk, 2);
    ghost var h := g.(rest := g.rest[1 := Store(v + delta, 2)]);
    EchOff(f, h, PAYLOAD_LEN);
    MkRestAt(h, 3, Store(newLen, 2));
    assert Over(h.rest[3], 0, Store(newLen, 2)) == Store(newLen, 2);
    FillPart(out, payloadLenOff, Store(newLen, 2), Mk(h), PAYLOAD_LEN, 0, junk);
  }

  ghost function PayloadFields(m: Layout, payload: Octets): (f: Fields)
    requires m.rest.Ech?
  {
    FieldsOf(m).(rest := RestParts(m.rest)[4 := payload])
  }

  ghost function BeforePayload(m: Layout): (x: Octets)
  {
    Flatten(Mk(FieldsOf(m))[..PAYLOAD])
  }

  method Resize(out: array<byte>, t: Template, payloadOff: nat, echLenOff: nat, payloadLenOff: nat, oldLen: nat, end: nat,
                payload: Octets, ghost m: Layout, ghost junk: Octets, ghost k: nat)
    requires Valid(m) && m.rest.Ech? && out[..] == Wire(m) + junk && oldLen == |m.rest.payload| && end == Size(m)
    requires t.extsLenOff == Off(Parts(m), EXTS) && echLenOff == Off(Parts(m), REST_LEN)
    requires payloadLenOff == Off(Parts(m), PAYLOAD_LEN) && payloadOff == Off(Parts(m), PAYLOAD)
    requires 0 <= end - oldLen + |payload| <= k <= out.Length && end <= k
    modifies out
    ensures out[..end - oldLen + |payload|] == Wire(m.(rest := m.rest.(payload := payload)))
    ensures out[k..] == old(out[k..])
  {
    hide *;
    ghost var g := PayloadFields(m, payload);
    ResizeFacts(m, payload);
    ResizeOffs(m, payload);
    ResizeDone(m, payload);
    ResizeRanges(m);
    ghost var x := BeforePayload(m);
    ghost var y, tail := m.rest.payload, m.rest.tail;
    SwapPayload(out, payloadOff, oldLen, end, payload, x, y, tail, junk, k);
    var n := end - oldLen + |payload|;
    ghost var mid := out[..];
    ghost var junk' := out[n..];
    assert mid == x + payload + tail + junk';
    assert mid[k..] == out[k..];
    PatchPayload(out, t, echLenOff, payloadLenOff, |payload| - oldLen, |payload|, g, |m.head| + 2 + ExtsLen(m), ExtsLen(m),
                 |m.rest.pre| + 2 + oldLen, junk');
    ghost var w := Wire(m.(rest := m.rest.(payload := payload)));
    assert out[..] == w + junk' && |w| == n;
    SameTail(mid, x + payload + tail, out[..], w, junk', k);
    assert out[k..] == out[..][k..] && out[..n] == out[..][..n];
  }

  lemma ResizeRanges(m: Layout)
    requires Valid(m) && m.rest.Ech?
    ensures |m.head| + 2 + ExtsLen(m) < 0x100_0000 && ExtsLen(m) < 65536
    ensures |m.rest.pre| + 2 + |m.rest.payload| < 65536 && |m.rest.payload| <= ExtsLen(m) <= Size(m)
    ensures |Wire(m)| == Size(m)
  {
    WireShape(m);
  }

  lemma ResizeOffs(m: Layout, payload: Octets)
    requires m.rest.Ech?
    ensures var p := Mk(PayloadFields(m, payload));
            Off(p, EXTS) == Off(Parts(m), EXTS) && Off(p, REST_LEN) == Off(Parts(m), REST_LEN) &&
            Off(p, PAYLOAD_LEN) == Off(Parts(m), PAYLOAD_LEN)
  {
    PartsMk(m);
    var f, g := FieldsOf(m), PayloadFields(m, payload);
    hide Off;
    hide Mk;
    hide Parts;
    hide Store;
    EchOff(f, g, EXTS);
    EchOff(f, g, REST_LEN);
    EchOff(f, g, PAYLOAD_LEN);
  }

  lemma ResizeDone(m: Layout, payload: Octets)
    requires m.rest.Ech?
    ensures var g := PayloadFields(m, payload); var delta := |payload| - |m.rest.payload|;
            |g.rest| == 6 && ExtsLen(m) + delta >= 0 && g.rest[1] == Store(|m.rest.pre| + 2 + |m.rest.payload|, 2) &&
            |g.rest[3]| == 2 && g.len == Store(|m.head| + 2 + ExtsLen(m), 3) && g.elen == Store(ExtsLen(m), 2) &&
            Wire(m.(rest := m.rest.(payload := payload))) ==
            Flatten(Mk(g.(len := Store(|m.head| + 2 + ExtsLen(m) + delta, 3), elen := Store(ExtsLen(m) + delta, 2),
                          rest := g.rest[1 := Store(|m.rest.pre| + 2 + |m.rest.payload| + delta, 2)]
                                        [3 := Store(|payload|, 2)])))
  {
    hide Flatten;
    hide Store;
    hide Parts;
    hide Mk;
    var r := m.rest.(payload := payload);
    ResizedFieldsOf(m, r);
    var g := PayloadFields(m, payload);
    assert RestParts(r) == g.rest[1 := Store(|r.pre| + 2 + |payload|, 2)][3 := Store(|payload|, 2)];
  }

  lemma ResizeFacts(m: Layout, payload: Octets)
    requires Valid(m) && m.rest.Ech?
    ensures var g := PayloadFields(m, payload); var x := BeforePayload(m);
            Wire(m) == x + m.rest.payload + m.rest.tail && |x| == Off(Parts(m), PAYLOAD) &&
            Sized(g) && Flatten(Mk(g)) == x + payload + m.rest.tail
  {
    hide Flatten;
    hide Store;
    hide Parts;
    hide Mk;
    hide Off;
    PartsMk(m);
    AroundPayload(FieldsOf(m), payload);
  }

  // ---------- the builder ----------

  /** Bytes after the host is in place: what phase 1 writes, whatever the later phases shrink. */
  function AfterSplice(l: Layout, host: Octets): (n: int)
  {
    Size(l) + |host| - |l.host|
  }

  function NewSize(l: Layout, host: Octets, payload: Octets): (n: int)
  {
    match l.rest
    case Plain => AfterSplice(l, host)
    case Padding(k) =>
      var bare := AfterSplice(l, host) - 4 - k;
      bare + RestLen(PadRest(NewPad(bare)))
    case Ech(_, old_, _) => AfterSplice(l, host) - |old_| + |payload|
  }

  /** The extent the buffer must cover. */
  function MaxWrite(l: Layout, host: Octets, payload: Octets): (n: int)
  {
    if AfterSplice(l, host) > NewSize(l, host, payload) then AfterSplice(l, host) else NewSize(l, host, payload)
  }

  lemma SplicedLens(l: Layout, host: Octets, random: Octets, session: Octets)
    requires HeadOk(l.head) && |random| == 32 && |session| == 32
    ensures var s := Spliced(l, host, random, session);
            SameBut(Parts(l), Parts(s)) && Parts(s)[HOST] == host && s.rest == l.rest
  {
    hide Store;
    hide ExtsLen;
    hide RestParts;
  }

  lemma ShiftedPart(p: seq<Octets>, q: seq<Octets>, i: nat)
    requires SameBut(p, q) && HOST < i < 18 && p[HOST] != []
    ensures ShiftOff(Off(p, i), Off(p, HOST), |q[HOST]| - |p[HOST]|) == Off(q, i)
  {
    hide Off;
    OffShift(p, q, HOST, i);
    OffStep(p, HOST);
    OffMono(p, HOST + 1, i);
  }

  /** Phases 1 to 3. */
  method Prepare(out: array<byte>, t: Template, random: Octets, session: Octets, host: Octets, fills: seq<Fill>,
                 ghost l: Layout, ghost s: Layout, ghost n: nat)
    requires Describes(t, l) && |random| == 32 && |session| == 32 && 0 < |host| <= HOST_MAX
    requires AllFit(l, fills) && Placed(l, fills)
    requires s == Spliced(l, host, random, session) && Valid(s) && AllFit(s, fills)
    requires n == |t.bytes| - t.hostLen + |host| && n <= out.Length && t.hostLen <= |t.bytes|
    modifies out
    ensures var m := ApplyAll(s, fills);
            out[..] == Wire(m) + old(out[n..]) && SameBut(Parts(l), Parts(m)) && Parts(m)[HOST] == host
  {
    ghost var junk := old(out[n..]);
    assert HeadOk(l.head) && Valid(l);
    hide Valid;
    hide Fits;
    hide Off;
    hide Parts;
    hide Wire;
    hide Describes;
    hide HeadOk;
    SpliceHost(out, t, host, l);
    HostRoom(t, l);
    SplicedLens(l, host, random, session);
    HeadOff(l, l.(host := host));
    NamesAt(t, l);
    HostValid(l, host);
    FillNames(out, t, random, session, l.(host := host), junk);
    FillAll(out, t, |host| - t.hostLen, fills, l, s, junk);
  }

  lemma NamesAt(t: Template, l: Layout)
    requires Describes(t, l)
    ensures t.randomOff == Off(Parts(l), HEAD) + 2 && t.sessionOff == Off(Parts(l), HEAD) + 35
    ensures HeadOk(l.head) && Valid(l)
  {
  }

  lemma HostValid(l: Layout, host: Octets)
    requires Valid(l) && 0 < |host| <= HOST_MAX && ExtsLen(l) < 65000
    ensures Valid(l.(host := host)) && HeadOk(l.(host := host).head)
  {
  }

  /** Where the last piece is found: each template offset, shifted. */
  lemma RestOffs(t: Template, l: Layout, q: seq<Octets>)
    requires Describes(t, l) && SameBut(Parts(l), q)
    ensures var delta := |q[HOST]| - t.hostLen;
            (l.rest.Padding? ==> ShiftOff(t.padOff, t.hostOff, delta) == Off(q, REST)) &&
            (l.rest.Ech? ==>
               ShiftOff(t.echLenOff, t.hostOff, delta) == Off(q, REST_LEN) &&
               ShiftOff(t.payloadLenOff, t.hostOff, delta) == Off(q, PAYLOAD_LEN) &&
               ShiftOff(t.payloadOff, t.hostOff, delta) == Off(q, PAYLOAD))
    ensures t.extsLenOff == Off(q, EXTS)
  {
    var p := Parts(l);
    HostRoom(t, l);
    PartsMk(l);
    MkAt(FieldsOf(l));
    assert p[HOST] == l.host;
    hide Mk;
    hide Parts;
    hide Off;
    hide Valid;
    hide RoomFor;
    hide Wire;
    OffShift(p, q, HOST, EXTS);
    ShiftedPart(p, q, REST);
    ShiftedPart(p, q, REST_LEN);
    ShiftedPart(p, q, PAYLOAD_LEN);
    ShiftedPart(p, q, PAYLOAD);
  }

  /** A padding extension stands behind at least the first byte, so its offset is never taken for "none". */
  lemma PadOffSet(t: Template, l: Layout)
    requires Describes(t, l)
    ensures t.padOff != 0 <==> l.rest.Padding?
    ensures l.rest.Padding? ==> t.padLen == l.rest.n
    ensures t.candidates != [] <==> l.rest.Ech?
    ensures l.rest.Ech? ==> t.candidates[0] == |l.rest.payload|
    ensures |t.bytes| == Size(l) && t.hostLen == |l.host| && Size(l) >= |l.host| + RestLen(l.rest) + 15 && |l.head| < 0x10000
    ensures ExtsLen(l) + HOST_MAX + PAD_TO + 5 < 65536 && Valid(l)
    ensures forall c :: c in t.candidates ==> ExtsLen(l) + HOST_MAX + c < 65536
  {
    PartsMk(l);
    WireShape(l);
    MkAt(FieldsOf(l));
    OffOne(Parts(l));
    hide Off;
    hide Parts;
    hide Mk;
    OffMono(Parts(l), 1, REST);
  }

  /** The last resize, if any. */
  method Finish(out: array<byte>, t: Template, host: Octets, newPad: nat, payload: Octets, n: nat, newLen: nat,
                ghost l: Layout, ghost m: Layout, ghost junk: Octets, ghost k: nat)
    requires Describes(t, l) && Valid(m) && SameBut(Parts(l), Parts(m)) && Parts(m)[HOST] == host && SameRest(l.rest, m.rest)
    requires out[..] == Wire(m) + junk && n == Size(m)
    requires newLen == Size(m.(rest := NewRest(m, payload))) <= k <= out.Length && n <= k
    requires l.rest.Padding? ==> newPad == NewPad(Unpadded(m))
    modifies out
    ensures out[..newLen] == Wire(m.(rest := NewRest(m, payload)))
    ensures out[k..] == old(out[k..])
  {
    hide Valid;
    hide Describes;
    hide Parts;
    hide Off;
    hide Wire;
    hide SameBut;
    hide ExtsLen;
    hide ShiftOff;
    PadOffSet(t, l);
    RestOffs(t, l, Parts(m));
    FinishSizes(m, payload);
    assert out[..|Wire(m)|] == out[..][..|Wire(m)|];
    var delta := |host| - t.hostLen;
    if t.padOff != 0 {
      var padDelta := (if newPad == 0 then 0 else 4 + newPad) - (4 + t.padLen);
      Repad(out, t, ShiftOff(t.padOff, t.hostOff, delta), padDelta, newPad, m, junk, k);
    } else if t.candidates != [] {
      Resize(out, t, ShiftOff(t.payloadOff, t.hostOff, delta), ShiftOff(t.echLenOff, t.hostOff, delta),
             ShiftOff(t.payloadLenOff, t.hostOff, delta), t.candidates[0], n, payload, m, junk, k);
    } else {
      assert m.(rest := NewRest(m, payload)) == m;
    }
  }

  lemma FinishSizes(m: Layout, payload: Octets)
    requires Valid(m)
    ensures |Wire(m)| == Size(m) && |m.head| < 0x10000 && ExtsLen(m) < 65536
    ensures m.rest.Padding? ==> Off(Parts(m), REST) + RestLen(m.rest) == Size(m) && NewRest(m, payload) == PadRest(NewPad(Unpadded(m)))
    ensures Size(m.(rest := NewRest(m, payload))) == Size(m) - RestLen(m.rest) + RestLen(NewRest(m, payload))
    ensures m.rest.Ech? ==> |m.rest.payload| <= Size(m)
  {
    WireShape(m);
    PartsMk(m);
    FlatRest(m.rest);
    MkRest(FieldsOf(m));
    hide Flatten;
    hide Mk;
    hide Off;
    hide Parts;
    hide HeadOk;
    hide IsExts;
    hide Walk;
    hide RestParts;
    hide Top;
  }

  /** What the caller gives and what the random draws gave: `payload` has the length of the candidate drawn. */
  ghost predicate Asked(t: Template, l: Layout, random: Octets, session: Octets, fills: seq<Fill>, payload: Octets)
  {
    && Describes(t, l) && |random| == 32 && |session| == 32 && AllFit(l, fills) && Placed(l, fills)
    && (t.candidates != [] ==> |payload| in t.candidates)
  }

  /** The message asked for. */
  ghost function BuiltFor(t: Template, l: Layout, host: Octets, random: Octets, session: Octets, fills: seq<Fill>,
                          payload: Octets): (r: Layout)
    requires Asked(t, l, random, session, fills, payload) && 0 < |host| <= HOST_MAX
    ensures Carries(Wire(r), host, random, session)
    ensures l.rest.Padding? ==> r.rest.Padding? == (Unpadded(l) + |host| - |l.host| < PAD_TO)
  {
    hide Describes;
    hide Valid;
    hide Fits;
    hide Wire;
    hide ExtsLen;
    hide Carries;
    PadOffSet(t, l);
    BuiltReads(l, host, random, session, fills, payload);
    if l.rest.Padding? then
      PaddingRule(l, host, random, session, fills, payload);
      Built(l, host, random, session, fills, payload)
    else
      Built(l, host, random, session, fills, payload)
  }

  /** Phases 1 to 5 on a buffer already found large enough. */
  method BuildIn(t: Template, random: Octets, session: Octets, host: Octets, fills: seq<Fill>, payload: Octets,
                 n: nat, newPad: nat, newLen: nat, out: array<byte>, ghost l: Layout, ghost k: nat)
    requires Asked(t, l, random, session, fills, payload) && 0 < |host| <= HOST_MAX
    requires n == AfterSplice(l, host) && newLen == NewSize(l, host, payload) && n <= k <= out.Length && newLen <= k
    requires l.rest.Padding? ==> newPad == NewPad(n - 4 - l.rest.n)
    modifies out
    ensures out[..newLen] == Wire(BuiltFor(t, l, host, random, session, fills, payload))
    ensures out[k..] == old(out[k..])
  {
    hide Describes;
    hide Valid;
    hide Fits;
    hide Wire;
    hide Off;
    hide Parts;
    hide ExtsLen;
    hide Placed;
    hide Carries;
    hide Spliced;
    hide SameBut;
    hide NewPad;
    PadOffSet(t, l);
    NamesAt(t, l);
    hide HeadOk;
    SplicedValid(l, host, random, session);
    SplicedFits(l, host, random, session, fills);
    SplicedLens(l, host, random, session);
    ghost var s := Spliced(l, host, random, session);
    ghost var m := ApplyAll(s, fills);
    ghost var junk := out[n..];
    Prepare(out, t, random, session, host, fills, l, s, n);
    assert n == Size(m);
    ghost var mid := out[..];
    assert mid[k..] == old(out[k..]) by {
      FinishSizes(m, payload);
      assert mid[k..] == junk[k - n..];
    }
    FinishSizes(m, payload);
    Finish(out, t, host, newPad, payload, n, newLen, l, m, junk, k);
  }

  /** The builder refuses a host it cannot carry and a buffer that some phase would overrun, and nothing else; otherwise
      the buffer starts with the asked-for message, and what lies behind the extent it checked is untouched. */
  method Build(t: Template, random: Octets, session: Octets, host: Octets, fills: seq<Fill>, payload: Octets,
               out: array<byte>, ghost l: Layout)
    returns (r: Option<nat>)
    requires Asked(t, l, random, session, fills, payload)
    modifies out
    ensures r.None? <==> !(0 < |host| <= HOST_MAX) || out.Length < MaxWrite(l, host, payload)
    ensures r.None? ==> out[..] == old(out[..])
    ensures r.Some? ==> r.value == NewSize(l, host, payload) <= out.Length &&
                        out[..r.value] == Wire(BuiltFor(t, l, host, random, session, fills, payload)) &&
                        Carries(out[..r.value], host, random, session)
    ensures r.Some? ==> 0 <= MaxWrite(l, host, payload) <= out.Length &&
                        out[MaxWrite(l, host, payload)..] == old(out[MaxWrite(l, host, payload)..])
  {
    hide Describes;
    hide Valid;
    hide Fits;
    hide Wire;
    hide Off;
    hide Parts;
    hide Size;
    hide ExtsLen;
    hide Placed;
    hide Carries;
    hide BuiltFor;
    PadOffSet(t, l);
    if |host| == 0 || |host| > HOST_MAX {
      return None;
    }
    var n := |t.bytes| + (|host| - t.hostLen);
    var padDelta, newPad, echDelta := 0, 0, 0;
    if t.padOff != 0 {
      newPad := NewPad(n - (4 + t.padLen));
      padDelta := (if newPad == 0 then 0 else 4 + newPad) - (4 + t.padLen);
    }
    if t.candidates != [] {
      echDelta := |payload| - t.candidates[0];
    }
    var newLen := n + padDelta + echDelta;
    assert newLen == NewSize(l, host, payload);
    var most := if n > newLen then n else newLen;
    if n < 0 || newLen < 0 || out.Length < most {
      return None;
    }
    BuildIn(t, random, session, host, fills, payload, n, newPad, newLen, out, l, most);
    r := Some(newLen);
  }
}

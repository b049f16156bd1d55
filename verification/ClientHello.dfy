/** The ClientHello builder (libcloak-common/src/clienthello.c): splicing a host name into a captured message,
    refilling its per-handshake fields, and resizing its padding or its ECH payload, all in one output buffer. */
module ClientHello {
  import opened Wrappers
  import opened Bytes

  const HOST_MAX: nat := 253
  const PAD_TO: nat := 512

  // ---------- a message as a list of parts ----------

  function Off(parts: seq<Octets>, i: nat): (n: nat)
    requires i <= |parts|
  {
    |Flatten(parts[..i])|
  }

  function Over(s: Octets, off: nat, d: Octets): (r: Octets)
    requires off + |d| <= |s|
    ensures |r| == |s|
  {
    s[..off] + d + s[off + |d|..]
  }

  lemma SplitParts(parts: seq<Octets>, i: nat)
    requires i < |parts|
    ensures Flatten(parts) == Flatten(parts[..i]) + (parts[i] + Flatten(parts[i + 1..]))
  {
    assert parts == parts[..i] + parts[i..];
    FlattenAppend(parts[..i], parts[i..]);
    assert parts[i..][0] == parts[i] && parts[i..][1..] == parts[i + 1..];
  }

  lemma OffStep(parts: seq<Octets>, i: nat)
    requires i < |parts|
    ensures Off(parts, i + 1) == Off(parts, i) + |parts[i]|
  {
    assert parts[..i + 1] == parts[..i] + [parts[i]];
    FlattenAppend(parts[..i], [parts[i]]);
    assert [parts[i]][1..] == [];
  }

  /** One part replaced, by a part of any length. */
  lemma SplicePart(parts: seq<Octets>, i: nat, d: Octets)
    requires i < |parts|
    ensures Off(parts, i) + |parts[i]| <= |Flatten(parts)|
    ensures Flatten(parts[i := d]) ==
            Flatten(parts)[..Off(parts, i)] + d + Flatten(parts)[Off(parts, i) + |parts[i]|..]
  {
    SplitParts(parts, i);
    var q := parts[i := d];
    SplitParts(q, i);
    assert q[..i] == parts[..i] && q[i + 1..] == parts[i + 1..];
    hide Flatten;
    Middle(Flatten(parts[..i]), parts[i], Flatten(parts[i + 1..]));
    Regroup(Flatten(parts[..i]), d, Flatten(parts[i + 1..]));
  }

  lemma OverFar(s: Octets, off: nat, d: Octets, i: nat, j: nat)
    requires off + |d| <= |s| && i <= j <= |s| && (j <= off || off + |d| <= i)
    ensures Over(s, off, d)[i..j] == s[i..j]
  {
  }

  lemma OverMiddle(a: Octets, b: Octets, c: Octets, k: nat, d: Octets)
    requires k + |d| <= |b|
    ensures Over(a + b + c, |a| + k, d) == a + Over(b, k, d) + c
  {
  }

  /** A write inside one part changes that part and nothing else. */
  lemma OverPart(parts: seq<Octets>, i: nat, k: nat, d: Octets)
    requires i < |parts| && k + |d| <= |parts[i]|
    ensures Off(parts, i) + k + |d| <= |Flatten(parts)|
    ensures Over(Flatten(parts), Off(parts, i) + k, d) == Flatten(parts[i := Over(parts[i], k, d)])
  {
    SplitParts(parts, i);
    var e := Over(parts[i], k, d);
    var q := parts[i := e];
    SplitParts(q, i);
    assert q[..i] == parts[..i] && q[i + 1..] == parts[i + 1..];
    hide Flatten;
    hide Over;
    Regroup(Flatten(parts[..i]), parts[i], Flatten(parts[i + 1..]));
    Regroup(Flatten(parts[..i]), e, Flatten(parts[i + 1..]));
    OverMiddle(Flatten(parts[..i]), parts[i], Flatten(parts[i + 1..]), k, d);
  }

  /** Parts that differ in length only at `j` have the same offsets up to it, and offsets moved by the difference
      behind it: what shift_off computes. */
  lemma {:induction false} OffShift(p: seq<Octets>, q: seq<Octets>, j: nat, i: nat)
    requires |p| == |q| && j < |p| && i <= |p|
    requires forall x :: 0 <= x < |p| && x != j ==> |p[x]| == |q[x]|
    ensures Off(q, i) == Off(p, i) + (if i > j then |q[j]| - |p[j]| else 0)
    decreases i
  {
    if i > 0 {
      OffShift(p, q, j, i - 1);
      OffStep(p, i - 1);
      OffStep(q, i - 1);
    }
  }

  // ---------- extension lists ----------

  function BodyLen(s: Octets): (n: nat)
    requires |s| >= 4
  {
    Load(s[2..4])
  }

  /** `s` is a list of extensions that ends exactly where `s` does. */
  predicate IsExts(s: Octets)
  {
    s == [] || (|s| >= 4 && 4 + BodyLen(s) <= |s| && IsExts(s[4 + BodyLen(s)..]))
  }

  datatype Ext = Ext(typ: nat, body: Octets)

  function Walk(s: Octets): (r: seq<Ext>)
    requires IsExts(s)
  {
    if s == [] then [] else [First(s)] + Walk(s[4 + BodyLen(s)..])
  }

  predicate NoType(list: seq<Ext>, typ: nat)
  {
    forall e :: e in list ==> e.typ != typ
  }

  function First(s: Octets): (e: Ext)
    requires |s| >= 4 && 4 + BodyLen(s) <= |s|
  {
    Ext(Load(s[..2]), s[4..4 + BodyLen(s)])
  }

  lemma WalkStep(s: Octets, n: nat)
    requires |s| >= 4 && n == 4 + BodyLen(s) <= |s| && IsExts(s[n..])
    ensures IsExts(s) && Walk(s) == [First(s)] + Walk(s[n..])
  {
    hide Load;
  }

  lemma FirstConcat(a: Octets, b: Octets)
    requires |a| >= 4 && 4 + BodyLen(a) <= |a|
    ensures BodyLen(a + b) == BodyLen(a) && First(a + b) == First(a)
    ensures (a + b)[4 + BodyLen(a)..] == a[4 + BodyLen(a)..] + b
  {
    hide Load;
    var t := a + b;
    assert t[2..4] == a[2..4] && t[..2] == a[..2];
    assert t[4..4 + BodyLen(a)] == a[4..4 + BodyLen(a)];
  }

  lemma {:induction false} WalkConcat(a: Octets, b: Octets)
    requires IsExts(a) && IsExts(b)
    ensures IsExts(a + b) && Walk(a + b) == Walk(a) + Walk(b)
    decreases |a|
  {
    if a == [] {
      assert a + b == b;
    } else {
      var n := 4 + BodyLen(a);
      assert IsExts(a[n..]) && n <= |a|;
      hide IsExts;
      hide Walk;
      hide BodyLen;
      hide First;
      WalkConcat(a[n..], b);
      FirstConcat(a, b);
      WalkStep(a + b, n);
      WalkStep(a, n);
      Regroup([First(a)], Walk(a[n..]), Walk(b));
    }
  }

  lemma Loads2(v: nat)
    requires v < 65536
    ensures Load(Store(v, 2)) == v
  {
    assert Pow256(1) == 256;
    assert Pow256(2) == 65536;
    hide Load;
    hide Store;
    LoadStore(v, 2);
  }

  lemma Loads3(v: nat)
    requires v < 0x100_0000
    ensures Load(Store(v, 3)) == v
  {
    assert Pow256(1) == 256;
    assert Pow256(2) == 65536;
    assert Pow256(3) == 0x100_0000;
    hide Load;
    hide Store;
    LoadStore(v, 3);
  }

  lemma WalkOne(typ: Octets, len: Octets, body: Octets)
    requires |typ| == 2 && |len| == 2 && Load(len) == |body|
    ensures var s := typ + (len + body);
            IsExts(s) && Walk(s) == [Ext(Load(typ), body)]
  {
    hide Load;
    var s := typ + (len + body);
    assert s[2..4] == len && s[..2] == typ;
    var n := 4 + |body|;
    assert s[4..n] == body;
    assert s[n..] == [];
    WalkStep(s, n);
  }

  /** A write that stays inside one extension's body, or sets a non-zero extension type. */
  predicate FillFits(s: Octets, k: nat, d: Octets)
    requires IsExts(s)
  {
    s != [] &&
    var n := 4 + BodyLen(s);
    if k >= n then FillFits(s[n..], k - n, d)
    else (4 <= k && k + |d| <= n) || (k == 0 && |d| == 2 && Load(d) != 0)
  }

  lemma {:induction false} FillBound(s: Octets, k: nat, d: Octets)
    requires IsExts(s) && FillFits(s, k, d)
    ensures k + |d| <= |s|
    decreases |s|
  {
    var n := 4 + BodyLen(s);
    if k >= n { FillBound(s[n..], k - n, d); }
  }

  /** What such a write does to the first extension and to the rest. */
  lemma FillFirst(s: Octets, k: nat, d: Octets)
    requires s != [] && IsExts(s) && FillFits(s, k, d) && k + |d| <= |s|
    ensures var n := 4 + BodyLen(s); var t := Over(s, k, d);
            BodyLen(t) == BodyLen(s) && (First(s).typ != 0 ==> First(t).typ != 0) &&
            (if k >= n then k - n + |d| <= |s[n..]| && t[n..] == Over(s[n..], k - n, d) else t[n..] == s[n..])
  {
    hide Load;
    var n := 4 + BodyLen(s);
    var t := Over(s, k, d);
    assert t[2..4] == s[2..4];
    if k >= n {
      assert t[n..] == Over(s[n..], k - n, d) && t[..2] == s[..2];
    } else {
      assert t[n..] == s[n..];
      assert k == 0 ==> t[..2] == d;
      assert k > 0 ==> t[..2] == s[..2];
    }
  }

  /** Such a write keeps every length, so the list still ends where it ended, and adds no server_name. */
  lemma {:induction false} FillKeeps(s: Octets, k: nat, d: Octets)
    requires IsExts(s) && FillFits(s, k, d) && k + |d| <= |s|
    ensures IsExts(Over(s, k, d))
    ensures NoType(Walk(s), 0) ==> NoType(Walk(Over(s, k, d)), 0)
    decreases |s|
  {
    var n := 4 + BodyLen(s);
    var t := Over(s, k, d);
    FillFirst(s, k, d);
    hide Over;
    hide First;
    hide BodyLen;
    if k >= n {
      FillKeeps(s[n..], k - n, d);
    }
    WalkStep(t, n);
    WalkStep(s, n);
    assert NoType(Walk(s), 0) ==> First(s) in Walk(s) && NoType(Walk(s[n..]), 0);
  }

  /** Whether another write fits does not depend on what this one wrote. */
  lemma {:induction false} FillStable(s: Octets, k: nat, d: Octets, k2: nat, d2: Octets)
    requires IsExts(s) && FillFits(s, k, d) && k + |d| <= |s| && IsExts(Over(s, k, d))
    ensures FillFits(Over(s, k, d), k2, d2) == FillFits(s, k2, d2)
    decreases |s|
  {
    hide Over;
    hide First;
    hide BodyLen;
    var n := 4 + BodyLen(s);
    FillFirst(s, k, d);
    if k >= n {
      FillKeeps(s[n..], k - n, d);
      if k2 >= n {
        FillStable(s[n..], k - n, d, k2 - n, d2);
      }
    }
  }

  // ---------- the message ----------

  /** What follows the extensions behind server_name: nothing, a padding extension that is the very last one, or an
      encrypted_client_hello extension (its fixed fields, then its payload) with more extensions behind it. */
  datatype Rest = Plain | Padding(n: nat) | Ech(pre: Octets, payload: Octets, tail: Octets)

  /** `head`: version to compression methods. `a`, `b`: the extensions before and behind server_name. */
  datatype Layout = Layout(head: Octets, a: Octets, host: Octets, b: Octets, rest: Rest)

  function Zeros(n: nat): (z: Octets)
    ensures |z| == n
  {
    seq(n, _ => 0)
  }

  function RestLen(r: Rest): (n: nat)
  {
    match r
    case Plain => 0
    case Padding(n) => 4 + n
    case Ech(pre, payload, tail) => 6 + |pre| + |payload| + |tail|
  }

  function ExtsLen(l: Layout): (n: nat)
  {
    |l.a| + 9 + |l.host| + |l.b| + RestLen(l.rest)
  }

  function RestParts(r: Rest): (p: seq<Octets>)
    ensures |p| == 6
  {
    match r
    case Plain => [[], [], [], [], [], []]
    case Padding(n) => [[0, 0x15], Store(n, 2), Zeros(n), [], [], []]
    case Ech(pre, payload, tail) =>
      [[0xfe, 0x0d], Store(|pre| + 2 + |payload|, 2), pre, Store(|payload|, 2), payload, tail]
  }

  function SniParts(host: Octets): (p: seq<Octets>)
    ensures |p| == 6
  {
    [[0, 0], Store(|host| + 5, 2), Store(|host| + 3, 2), [0], Store(|host|, 2), host]
  }

  // Places in the list of parts.
  const LEN := 1
  const HEAD := 2
  const EXTS := 3
  const A := 4
  const SNI := 6
  const LIST := 7
  const NAME := 9
  const HOST := 10
  const B := 11
  const REST := 12
  const REST_LEN := 13
  const ECH_PRE := 14
  const PAYLOAD_LEN := 15
  const PAYLOAD := 16
  const TAIL := 17

  function Parts(l: Layout): (p: seq<Octets>)
    ensures |p| == 18
  {
    [[1], Store(|l.head| + 2 + ExtsLen(l), 3), l.head, Store(ExtsLen(l), 2), l.a] + SniParts(l.host) + [l.b] +
    RestParts(l.rest)
  }

  function Wire(l: Layout): (b: Octets)
  {
    Flatten(Parts(l))
  }

  /** Version, random, a 32-byte session id, cipher suites, compression methods, and nothing behind them. */
  predicate HeadOk(h: Octets)
  {
    |h| >= 70 && h[34] == 32 &&
    var cs := Load(h[67..69]);
    69 + cs < |h| && 69 + cs + 1 + h[69 + cs] as nat == |h|
  }

  predicate RestOk(r: Rest)
  {
    match r
    case Plain => true
    case Padding(n) => n < 65536
    case Ech(pre, payload, tail) => |pre| + 2 + |payload| < 65536 && IsExts(tail)
  }

  predicate Valid(l: Layout)
  {
    HeadOk(l.head) && IsExts(l.a) && NoType(Walk(l.a), 0) && IsExts(l.b) && RestOk(l.rest) &&
    0 < |l.host| && ExtsLen(l) < 65536 && |l.head| < 0x10000
  }

  // ---------- an independent reader (section 4.1.2 of RFC 8446, section 3 of RFC 6066) ----------

  datatype View = View(random: Octets, session: Octets, exts: seq<Ext>, host: Octets)

  function ReadExts(random: Octets, session: Octets, s: Octets): (r: Option<View>)
  {
    if |s| < 2 || Load(s[..2]) != |s| - 2 || !IsExts(s[2..]) then None
    else
      var list := Walk(s[2..]);
      match FindHost(list)
      case None => None
      case Some(host) => Some(View(random, session, list, host))
  }

  function ReadCiphers(random: Octets, session: Octets, s: Octets): (r: Option<View>)
  {
    if |s| < 2 || |s| < 3 + Load(s[..2]) then None
    else
      var t := s[2 + Load(s[..2])..];
      if |t| < 1 + t[0] as nat then None else ReadExts(random, session, t[1 + t[0] as nat..])
  }

  function Read(b: Octets): (r: Option<View>)
  {
    if |b| < 39 || b[0] != 1 || Load(b[1..4]) != |b| - 4 then None
    else
      var h := b[4..];
      var n := h[34] as nat;
      if |h| < 35 + n then None else ReadCiphers(h[2..34], h[35..35 + n], h[35 + n..])
  }

  /** The host name of the first server_name extension, whose list must hold one entry that fills it. */
  function FindHost(list: seq<Ext>): (r: Option<Octets>)
  {
    if list == [] then None
    else if list[0].typ != 0 then FindHost(list[1..])
    else
      var s := list[0].body;
      if |s| >= 5 && Load(s[..2]) == |s| - 2 && s[2] == 0 && Load(s[3..5]) == |s| - 5 then Some(s[5..]) else None
  }

  // ---------- the reader accepts every valid layout ----------

  function SniBody(host: Octets): (s: Octets)
  {
    Store(|host| + 3, 2) + ([0] + (Store(|host|, 2) + host))
  }

  function SniExt(host: Octets): (s: Octets)
  {
    [0, 0] + (Store(|host| + 5, 2) + SniBody(host))
  }

  function RestBytes(r: Rest): (s: Octets)
  {
    match r
    case Plain => []
    case Padding(n) => [0, 0x15] + (Store(n, 2) + Zeros(n))
    case Ech(pre, payload, tail) =>
      [0xfe, 0x0d] + (Store(|pre| + 2 + |payload|, 2) + EchBody(pre, payload)) + tail
  }

  function EchBody(pre: Octets, payload: Octets): (s: Octets)
  {
    pre + (Store(|payload|, 2) + payload)
  }

  function RestList(r: Rest): (list: seq<Ext>)
    requires RestOk(r)
  {
    match r
    case Plain => []
    case Padding(n) => [Ext(0x15, Zeros(n))]
    case Ech(pre, payload, tail) => [Ext(0xfe0d, EchBody(pre, payload))] + Walk(tail)
  }

  function ExtsBytes(l: Layout): (s: Octets)
  {
    l.a + (SniExt(l.host) + (l.b + RestBytes(l.rest)))
  }

  lemma {:induction false} Flat6(p: seq<Octets>)
    requires |p| == 6
    ensures Flatten(p) == p[0] + (p[1] + (p[2] + (p[3] + (p[4] + p[5]))))
  {
    FlatCons(p);
    FlatCons(p[1..]);
    FlatCons(p[1..][1..]);
    FlatCons(p[1..][1..][1..]);
    FlatCons(p[1..][1..][1..][1..]);
    FlatLast(p[1..][1..][1..][1..][1..]);
  }

  lemma FlatCons(p: seq<Octets>)
    requires |p| > 0
    ensures Flatten(p) == p[0] + Flatten(p[1..])
  {
  }

  lemma FlatLast(p: seq<Octets>)
    requires |p| == 1
    ensures Flatten(p) == p[0]
  {
  }

  lemma FlatSni(host: Octets)
    ensures Flatten(SniParts(host)) == SniExt(host) && |SniExt(host)| == 9 + |host|
  {
    hide Flatten;
    hide Store;
    Flat6(SniParts(host));
  }

  lemma FlatRest(r: Rest)
    ensures Flatten(RestParts(r)) == RestBytes(r) && |RestBytes(r)| == RestLen(r)
  {
    hide Flatten;
    hide Store;
    hide Zeros;
    Flat6(RestParts(r));
    match r
    case Plain =>
    case Padding(n) =>
    case Ech(pre, payload, tail) =>
      Regroup(pre, Store(|payload|, 2) + payload, tail);
      Regroup(Store(|payload|, 2), payload, tail);
      Regroup(Store(|pre| + 2 + |payload|, 2), EchBody(pre, payload), tail);
      Regroup([0xfe, 0x0d], Store(|pre| + 2 + |payload|, 2) + EchBody(pre, payload), tail);
  }

  /** The wire form, grouped by what its lengths count. */
  lemma WireShape(l: Layout)
    ensures Wire(l) == [1] + (Store(|l.head| + 2 + ExtsLen(l), 3) + (l.head + (Store(ExtsLen(l), 2) + ExtsBytes(l))))
    ensures |ExtsBytes(l)| == ExtsLen(l) && |Wire(l)| == 6 + |l.head| + ExtsLen(l)
  {
    ExtsBytesLen(l);
    assert Parts(l) == [[1], Store(|l.head| + 2 + ExtsLen(l), 3), l.head, Store(ExtsLen(l), 2), l.a] +
                       (SniParts(l.host) + [l.b] + RestParts(l.rest));
    hide Flatten;
    hide Store;
    hide Parts;
    hide SniParts;
    hide RestParts;
    hide ExtsLen;
    Assemble([[1], Store(|l.head| + 2 + ExtsLen(l), 3), l.head, Store(ExtsLen(l), 2), l.a], l.host, l.b, l.rest);
  }

  lemma ExtsBytesLen(l: Layout)
    ensures |ExtsBytes(l)| == ExtsLen(l)
  {
    hide Store;
    hide RestBytes;
    FlatRest(l.rest);
  }

  lemma Assemble(top: seq<Octets>, host: Octets, b: Octets, r: Rest)
    requires |top| == 5
    ensures Flatten(top + (SniParts(host) + [b] + RestParts(r))) ==
            top[0] + (top[1] + (top[2] + (top[3] + (top[4] + (SniExt(host) + (b + RestBytes(r)))))))
  {
    hide Flatten;
    hide SniParts;
    hide RestParts;
    hide SniExt;
    hide RestBytes;
    var q := SniParts(host) + [b] + RestParts(r);
    FlatSni(host);
    FlatRest(r);
    FlatTail(host, b, r);
    FlattenAppend(top, q);
    FlatTop(top, Flatten(q));
  }

  lemma FlatTail(host: Octets, b: Octets, r: Rest)
    ensures Flatten(SniParts(host) + [b] + RestParts(r)) ==
            Flatten(SniParts(host)) + (b + Flatten(RestParts(r)))
  {
    hide SniParts;
    hide RestParts;
    Regroup(SniParts(host), [b], RestParts(r));
    FlattenAppend(SniParts(host), [b] + RestParts(r));
    FlattenAppend([b], RestParts(r));
    FlatLast([b]);
  }

  lemma FlatTop(top: seq<Octets>, x: Octets)
    requires |top| == 5
    ensures Flatten(top) + x == top[0] + (top[1] + (top[2] + (top[3] + (top[4] + x))))
  {
    hide Flatten;
    Flat6(top + [x]);
    FlattenAppend(top, [x]);
    FlatLast([x]);
  }

  lemma SniWalks(host: Octets)
    requires |host| + 5 < 65536
    ensures IsExts(SniExt(host)) && Walk(SniExt(host)) == [Ext(0, SniBody(host))]
  {
    Loads2(|host| + 5);
    assert Load([0, 0]) == 0 by { assert [0, 0][..1] == [0]; assert Load([0]) == 0 by { assert [0][..0] == []; } }
    hide Load;
    hide Store;
    WalkOne([0, 0], Store(|host| + 5, 2), SniBody(host));
  }

  lemma RestWalks(r: Rest)
    requires RestOk(r)
    ensures IsExts(RestBytes(r)) && Walk(RestBytes(r)) == RestList(r)
  {
    hide Load;
    hide Store;
    TypeLoads();
    if r.Padding? {
      Loads2(r.n);
      WalkOne([0, 0x15], Store(r.n, 2), Zeros(r.n));
    } else if r.Ech? {
      EchWalks(r.pre, r.payload, r.tail);
    }
  }

  lemma EchWalks(pre: Octets, payload: Octets, tail: Octets)
    requires RestOk(Ech(pre, payload, tail))
    ensures var s := RestBytes(Ech(pre, payload, tail));
            IsExts(s) && Walk(s) == [Ext(0xfe0d, EchBody(pre, payload))] + Walk(tail)
  {
    hide Load;
    hide Store;
    hide IsExts;
    hide Walk;
    var len := Store(|pre| + 2 + |payload|, 2);
    TypeLoads();
    Loads2(|pre| + 2 + |payload|);
    assert Load(len) == |EchBody(pre, payload)|;
    hide EchBody;
    WalkOne([0xfe, 0x0d], len, EchBody(pre, payload));
    WalkConcat([0xfe, 0x0d] + (len + EchBody(pre, payload)), tail);
  }

  lemma TypeLoads()
    ensures Load([0, 0x15]) == 0x15 && Load([0xfe, 0x0d]) == 0xfe0d
  {
    assert [0, 0x15][..1] == [0] && [0xfe, 0x0d][..1] == [0xfe];
    assert Load([0]) == 0 by { assert [0][..0] == []; }
    assert Load([0xfe]) == 0xfe by { assert [0xfe][..0] == []; }
  }

  function ExtsList(l: Layout): (list: seq<Ext>)
    requires Valid(l)
  {
    Walk(l.a) + ([Ext(0, SniBody(l.host))] + (Walk(l.b) + RestList(l.rest)))
  }

  lemma ExtsWalk(l: Layout)
    requires Valid(l)
    ensures IsExts(ExtsBytes(l)) && Walk(ExtsBytes(l)) == ExtsList(l)
  {
    hide IsExts;
    hide Walk;
    hide SniExt;
    hide RestBytes;
    SniWalks(l.host);
    RestWalks(l.rest);
    WalkConcat(l.b, RestBytes(l.rest));
    WalkConcat(SniExt(l.host), l.b + RestBytes(l.rest));
    WalkConcat(l.a, SniExt(l.host) + (l.b + RestBytes(l.rest)));
  }

  lemma {:induction false} FindBehind(list: seq<Ext>, more: seq<Ext>)
    requires NoType(list, 0)
    ensures FindHost(list + more) == FindHost(more)
  {
    if list == [] {
      assert list + more == more;
    } else {
      FindBehind(list[1..], more);
      assert (list + more)[1..] == list[1..] + more && list[0] in list;
    }
  }

  lemma SniReads(host: Octets, more: seq<Ext>)
    requires |host| + 5 < 65536
    ensures FindHost([Ext(0, SniBody(host))] + more) == Some(host)
  {
    var s := SniBody(host);
    Loads2(|host| + 3);
    Loads2(|host|);
    hide Load;
    hide Store;
    assert s[..2] == Store(|host| + 3, 2) && s[2] == 0;
    assert s[3..5] == Store(|host|, 2);
    assert s[5..] == host;
  }

  lemma HeadReads(h: Octets, rest: Octets)
    requires HeadOk(h)
    ensures var t := h + rest;
            t[34] == 32 && t[2..34] == h[2..34] && t[35..67] == h[35..67] &&
            ReadCiphers(h[2..34], h[35..67], t[67..]) == ReadExts(h[2..34], h[35..67], rest)
  {
    hide Load;
    hide ReadExts;
    var t := h + rest;
    var s := t[67..];
    assert s[..2] == h[67..69];
    var cs := Load(h[67..69]);
    var u := s[2 + cs..];
    assert u[0] == h[69 + cs];
    assert u[1 + u[0] as nat..] == rest;
    assert t[2..34] == h[2..34] && t[35..67] == h[35..67];
  }

  /** Every valid layout is well nested: the reader walks it exactly to the end and finds its host. */
  lemma WireReads(l: Layout)
    requires Valid(l)
    ensures Read(Wire(l)) == Some(View(l.head[2..34], l.head[35..67], ExtsList(l), l.host))
  {
    assert |l.head| >= 70 && |l.head| < 0x10000 && ExtsLen(l) < 65536;
    assert HeadOk(l.head);
    hide HeadOk;
    hide Valid;
    hide IsExts;
    hide Walk;
    hide Load;
    hide Store;
    hide Read;
    hide ReadExts;
    hide ExtsLen;
    hide ExtsBytes;
    hide ExtsList;
    hide FindHost;
    hide Wire;
    WireShape(l);
    Loads3(|l.head| + 2 + ExtsLen(l));
    Loads2(ExtsLen(l));
    ExtsWalk(l);
    ExtsFind(l);
    WireReadsFrom(Wire(l), Store(|l.head| + 2 + ExtsLen(l), 3), l.head, Store(ExtsLen(l), 2), ExtsBytes(l));
    ReadExtsIs(l.head[2..34], l.head[35..67], Store(ExtsLen(l), 2), ExtsBytes(l));
  }

  lemma ExtsFind(l: Layout)
    requires Valid(l)
    ensures FindHost(ExtsList(l)) == Some(l.host)
  {
    hide Walk;
    hide IsExts;
    hide FindHost;
    FindBehind(Walk(l.a), [Ext(0, SniBody(l.host))] + (Walk(l.b) + RestList(l.rest)));
    SniReads(l.host, Walk(l.b) + RestList(l.rest));
  }

  lemma ReadExtsIs(random: Octets, session: Octets, len: Octets, exts: Octets)
    requires |len| == 2 && Load(len) == |exts| && IsExts(exts) && FindHost(Walk(exts)).Some?
    ensures ReadExts(random, session, len + exts) ==
            Some(View(random, session, Walk(exts), FindHost(Walk(exts)).value))
  {
    hide Load;
    hide IsExts;
    hide FindHost;
    var s := len + exts;
    assert s[..2] == len && s[2..] == exts;
  }

  lemma WireReadsFrom(w: Octets, len: Octets, h: Octets, elen: Octets, exts: Octets)
    requires |len| == 3 && |elen| == 2 && HeadOk(h)
    requires w == [1] + (len + (h + (elen + exts))) && Load(len) == |w| - 4
    ensures Load(w[1..4]) == |w| - 4
    ensures Read(w) == ReadExts(h[2..34], h[35..67], elen + exts)
  {
    hide Load;
    hide ReadExts;
    hide ReadCiphers;
    assert w[1..4] == len;
    assert w[4..] == h + (elen + exts);
    HeadReads(h, elen + exts);
  }

  // ---------- refilled fields ----------

  /** A per-handshake field: `data` goes `inner` bytes into part `part`, which is template offset `off`. */
  datatype Fill = Fill(off: nat, part: nat, inner: nat, data: Octets)

  /** Refills stay inside cipher suites, extension bodies, extension types and the ECH fields before the payload. */
  predicate Fits(l: Layout, f: Fill)
    requires Valid(l)
  {
    if f.part == HEAD then 69 <= f.inner && f.inner + |f.data| <= 69 + Load(l.head[67..69])
    else if f.part == A then FillFits(l.a, f.inner, f.data)
    else if f.part == B then FillFits(l.b, f.inner, f.data)
    else if f.part == ECH_PRE && l.rest.Ech? then f.inner + |f.data| <= |l.rest.pre|
    else f.part == TAIL && l.rest.Ech? && FillFits(l.rest.tail, f.inner, f.data)
  }

  /** What is at part `i` of the layout and may be refilled. */
  function PartOf(l: Layout, i: nat): (s: Octets)
  {
    if i == HEAD then l.head
    else if i == A then l.a
    else if i == B then l.b
    else if i == ECH_PRE && l.rest.Ech? then l.rest.pre
    else if i == TAIL && l.rest.Ech? then l.rest.tail
    else []
  }

  function SetPart(l: Layout, i: nat, s: Octets): (r: Layout)
  {
    if i == HEAD then l.(head := s)
    else if i == A then l.(a := s)
    else if i == B then l.(b := s)
    else if i == ECH_PRE && l.rest.Ech? then l.(rest := l.rest.(pre := s))
    else if i == TAIL && l.rest.Ech? then l.(rest := l.rest.(tail := s))
    else l
  }

  lemma FitsBound(l: Layout, f: Fill)
    requires Valid(l) && Fits(l, f)
    ensures f.inner + |f.data| <= |PartOf(l, f.part)| && f.part < 18 && PartOf(l, f.part) == Parts(l)[f.part]
  {
    hide IsExts;
    hide FillFits;
    hide Store;
    hide Load;
    if f.part == A { FillBound(l.a, f.inner, f.data); }
    if f.part == B { FillBound(l.b, f.inner, f.data); }
    if f.part == TAIL && l.rest.Ech? { FillBound(l.rest.tail, f.inner, f.data); }
  }

  function Apply(l: Layout, f: Fill): (r: Layout)
    requires f.inner + |f.data| <= |PartOf(l, f.part)|
  {
    SetPart(l, f.part, Over(PartOf(l, f.part), f.inner, f.data))
  }

  /** Refills change neither the kind of what ends the message nor any length in it. */
  predicate SameRest(r: Rest, q: Rest)
  {
    (r.Plain? && q.Plain?) || (r.Padding? && r == q) ||
    (r.Ech? && q.Ech? && |r.pre| == |q.pre| && r.payload == q.payload && |r.tail| == |q.tail|)
  }

  lemma SetPartParts(l: Layout, i: nat, s: Octets)
    requires i == HEAD || i == A || i == B || (l.rest.Ech? && (i == ECH_PRE || i == TAIL))
    requires |s| == |PartOf(l, i)|
    ensures Parts(SetPart(l, i, s)) == Parts(l)[i := s]
    ensures SetPart(l, i, s).host == l.host && SameRest(l.rest, SetPart(l, i, s).rest)
    ensures ExtsLen(SetPart(l, i, s)) == ExtsLen(l) && |SetPart(l, i, s).head| == |l.head|
  {
    hide Store;
  }

  /** Version, random and session id agree. */
  predicate SameStart(h: Octets, g: Octets)
  {
    |h| >= 69 && |g| >= 69 && h[..69] == g[..69]
  }

  lemma HeadKeeps(h: Octets, k: nat, d: Octets)
    requires HeadOk(h) && 69 <= k && k + |d| <= 69 + Load(h[67..69])
    ensures HeadOk(Over(h, k, d)) && Over(h, k, d)[67..69] == h[67..69]
    ensures SameStart(h, Over(h, k, d))
  {
    hide Load;
    assert Over(h, k, d)[67..69] == h[67..69];
  }

  lemma ApplyKeeps(l: Layout, f: Fill)
    requires Valid(l) && Fits(l, f)
    ensures f.inner + |f.data| <= |PartOf(l, f.part)| && Valid(Apply(l, f))
    ensures f.part < 18 && f.inner + |f.data| <= |Parts(l)[f.part]|
    ensures Parts(Apply(l, f)) == Parts(l)[f.part := Over(Parts(l)[f.part], f.inner, f.data)]
    ensures Apply(l, f).host == l.host && ExtsLen(Apply(l, f)) == ExtsLen(l) && |Apply(l, f).head| == |l.head|
    ensures SameRest(l.rest, Apply(l, f).rest) && SameStart(l.head, Apply(l, f).head)
  {
    FitsBound(l, f);
    hide IsExts;
    hide Walk;
    hide Load;
    hide Over;
    hide Store;
    hide Parts;
    hide NoType;
    SetPartParts(l, f.part, Over(PartOf(l, f.part), f.inner, f.data));
    assert |l.head| >= 69;
    hide HeadOk;
    if f.part == HEAD {
      HeadKeeps(l.head, f.inner, f.data);
    } else if f.part == A {
      FillKeeps(l.a, f.inner, f.data);
    } else if f.part == B {
      FillKeeps(l.b, f.inner, f.data);
    } else if f.part == TAIL {
      FillKeeps(l.rest.tail, f.inner, f.data);
    }
  }

  lemma FitsStable(l: Layout, f: Fill, g: Fill)
    requires Valid(l) && Fits(l, f) && f.inner + |f.data| <= |PartOf(l, f.part)| && Valid(Apply(l, f))
    ensures Fits(l, g) ==> Fits(Apply(l, f), g)
  {
    hide IsExts;
    hide FillFits;
    hide Load;
    hide Over;
    hide NoType;
    hide Walk;
    if f.part == HEAD {
      HeadKeeps(l.head, f.inner, f.data);
    } else if f.part == A {
      FillStable(l.a, f.inner, f.data, g.inner, g.data);
    } else if f.part == B {
      FillStable(l.b, f.inner, f.data, g.inner, g.data);
    } else if f.part == TAIL {
      FillStable(l.rest.tail, f.inner, f.data, g.inner, g.data);
    }
  }

  ghost predicate AllFit(l: Layout, fs: seq<Fill>)
    requires Valid(l)
  {
    forall f :: f in fs ==> Fits(l, f)
  }

  lemma AllStable(l: Layout, f: Fill, fs: seq<Fill>)
    requires Valid(l) && Fits(l, f) && AllFit(l, fs)
    requires f.inner + |f.data| <= |PartOf(l, f.part)| && Valid(Apply(l, f))
    ensures AllFit(Apply(l, f), fs)
  {
    hide Valid;
    hide Fits;
    hide Apply;
    forall g | g in fs
      ensures Fits(Apply(l, f), g)
    {
      FitsStable(l, f, g);
    }
  }

  /** All refills, in order. */
  ghost function ApplyAll(l: Layout, fs: seq<Fill>): (r: Layout)
    requires Valid(l) && AllFit(l, fs)
    ensures Valid(r) && r.host == l.host && ExtsLen(r) == ExtsLen(l) && |r.head| == |l.head|
    ensures SameRest(l.rest, r.rest) && SameStart(l.head, r.head)
    decreases |fs|
  {
    if fs == [] then l
    else
      hide Valid;
      hide Fits;
      hide Apply;
      ApplyKeeps(l, fs[0]);
      AllStable(l, fs[0], fs[1..]);
      ApplyAll(Apply(l, fs[0]), fs[1..])
  }

  /** Random and session id, at bytes 6 and 39 of the message. */
  function Named(l: Layout, random: Octets, session: Octets): (r: Layout)
    requires HeadOk(l.head) && |random| == 32 && |session| == 32
  {
    l.(head := Over(Over(l.head, 2, random), 35, session))
  }
}

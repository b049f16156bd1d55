/** The option-string editor (cmd/ck-client/main.c) over the format config_ssv.c parses: key=value fields separated
    by ';', with '\\' escaping '\\', '=' and ';'. */
module Ssv {
  import opened Wrappers
  import opened Bytes

  const KEY_CAP: nat := 128
  const VALUE_CAP: nat := 512
  const ESC_CAP: nat := 1024

  predicate Special(c: char)
  {
    c == '\\' || c == '=' || c == ';'
  }

  // ---------- scanning, escaping, unescaping ----------

  /** The first `c` in `s` that no backslash hides, or the end. A field ends at ';', a key at '='. */
  function Scan(s: string, c: char): (n: nat)
    ensures n <= |s|
  {
    if s == [] then 0
    else if s[0] == '\\' && |s| > 1 then 2 + Scan(s[2..], c)
    else if s[0] == c then 0
    else 1 + Scan(s[1..], c)
  }

  /** `s` does not end in a backslash that would hide whatever is put behind it. */
  predicate Closed(s: string)
  {
    if s == [] then true
    else if s[0] == '\\' then |s| > 1 && Closed(s[2..])
    else Closed(s[1..])
  }

  function Unescape(s: string): (r: string)
    ensures |r| <= |s|
  {
    if s == [] then ""
    else if s[0] == '\\' && |s| > 1 && Special(s[1]) then [s[1]] + Unescape(s[2..])
    else [s[0]] + Unescape(s[1..])
  }

  function Escape(s: string): (r: string)
  {
    if s == [] then "" else (if Special(s[0]) then ['\\', s[0]] else [s[0]]) + Escape(s[1..])
  }

  lemma {:induction false} UnescapeEscape(s: string)
    ensures Unescape(Escape(s)) == s && |Escape(s)| <= 2 * |s|
  {
    if s != [] {
      UnescapeEscape(s[1..]);
      if Special(s[0]) {
        assert Escape(s)[2..] == Escape(s[1..]);
      } else {
        assert Escape(s)[1..] == Escape(s[1..]);
      }
    }
  }

  /** An escaped value hides every separator in it and leaves nothing hidden behind it. */
  lemma {:induction false} EscapeHides(s: string, c: char)
    requires c == ';' || c == '='
    ensures Closed(Escape(s)) && Scan(Escape(s), c) == |Escape(s)|
  {
    if s != [] {
      EscapeHides(s[1..], c);
      if Special(s[0]) {
        assert Escape(s)[2..] == Escape(s[1..]);
      } else {
        assert Escape(s)[1..] == Escape(s[1..]);
      }
    }
  }

  /** Scanning past a closed text that does not hold `c`. */
  lemma {:induction false} ScanPast(a: string, b: string, c: char)
    requires Closed(a) && Scan(a, c) == |a|
    ensures Scan(a + b, c) == |a| + Scan(b, c)
    decreases |a|
  {
    if a == [] {
      assert a + b == b;
    } else if a[0] == '\\' {
      ScanPast(a[2..], b, c);
      assert (a + b)[2..] == a[2..] + b;
    } else {
      ScanPast(a[1..], b, c);
      assert (a + b)[1..] == a[1..] + b;
    }
  }

  /** A `c` found in `a` is found in the same place whatever follows. */
  lemma {:induction false} ScanWithin(a: string, b: string, c: char)
    requires c != '\\' && Scan(a, c) < |a|
    ensures Scan(a + b, c) == Scan(a, c)
    decreases |a|
  {
    if a[0] == '\\' && |a| > 1 {
      ScanWithin(a[2..], b, c);
      assert (a + b)[2..] == a[2..] + b;
    } else if a[0] != c {
      ScanWithin(a[1..], b, c);
      assert (a + b)[1..] == a[1..] + b;
    }
  }

  lemma {:induction false} ClosedConcat(a: string, b: string)
    requires Closed(a)
    ensures Closed(a + b) == Closed(b)
    decreases |a|
  {
    if a == [] {
      assert a + b == b;
    } else if a[0] == '\\' {
      ClosedConcat(a[2..], b);
      assert (a + b)[2..] == a[2..] + b;
    } else {
      ClosedConcat(a[1..], b);
      assert (a + b)[1..] == a[1..] + b;
    }
  }

  /** What stands before the found character is closed and does not hold it. */
  lemma {:induction false} ScanPrefix(s: string, c: char)
    requires c != '\\'
    ensures Scan(s, c) < |s| ==> s[Scan(s, c)] == c && Closed(s[..Scan(s, c)])
    ensures Closed(s) ==> Closed(s[..Scan(s, c)])
    ensures Scan(s[..Scan(s, c)], c) == Scan(s, c)
  {
    var n := Scan(s, c);
    if s == [] {
    } else if s[0] == '\\' && |s| > 1 {
      ScanPrefix(s[2..], c);
      assert s[..n][2..] == s[2..][..n - 2];
    } else if s[0] != c {
      ScanPrefix(s[1..], c);
      assert s[..n][1..] == s[1..][..n - 1];
    }
  }

  lemma UnescapePlain(x: char, s: string)
    requires x != '\\' || s == [] || !Special(s[0])
    ensures Unescape([x] + s) == [x] + Unescape(s)
  {
    assert ([x] + s)[1..] == s;
  }

  lemma UnescapePair(x: char, s: string)
    ensures Unescape(['\\', x] + s) == (if Special(x) then [x] else ['\\', x]) + Unescape(s)
  {
    assert (['\\', x] + s)[2..] == s && (['\\', x] + s)[1..] == [x] + s;
    if !Special(x) {
      UnescapePlain(x, s);
    }
  }

  lemma {:induction false} UnescapeConcat(a: string, b: string)
    requires Closed(a)
    ensures Unescape(a + b) == Unescape(a) + Unescape(b)
    decreases |a|
  {
    if a == [] {
      assert a + b == b;
    } else if a[0] == '\\' {
      var x, t := a[1], a[2..];
      UnescapeConcat(t, b);
      UnescapePairs(a, x, t, b);
    } else {
      var x, t := a[0], a[1..];
      UnescapeConcat(t, b);
      UnescapePlains(a, x, t, b);
    }
  }

  lemma UnescapePairs(a: string, x: char, t: string, b: string)
    requires a == ['\\', x] + t && Unescape(t + b) == Unescape(t) + Unescape(b)
    ensures Unescape(a + b) == Unescape(a) + Unescape(b)
  {
    hide Unescape;
    Regroup(['\\', x], t, b);
    UnescapePair(x, t + b);
    UnescapePair(x, t);
    Regroup(if Special(x) then [x] else ['\\', x], Unescape(t), Unescape(b));
  }

  lemma UnescapePlains(a: string, x: char, t: string, b: string)
    requires a == [x] + t && x != '\\' && Unescape(t + b) == Unescape(t) + Unescape(b)
    ensures Unescape(a + b) == Unescape(a) + Unescape(b)
  {
    hide Unescape;
    Regroup([x], t, b);
    UnescapePlain(x, t + b);
    UnescapePlain(x, t);
    Regroup([x], Unescape(t), Unescape(b));
  }

  /** A lone backslash at the end hides the next character, and only that one. */
  lemma {:induction false} ScanSwallows(a: string, x: char, b: string, c: char)
    requires c != '\\' && !Closed(a) && Scan(a, c) == |a|
    ensures Scan(a + [x] + b, c) == |a| + 1 + Scan(b, c)
    ensures Closed(a + [x])
    decreases |a|
  {
    var t := a + [x] + b;
    if a[0] != '\\' {
      ScanSwallows(a[1..], x, b, c);
      assert t[1..] == a[1..] + [x] + b && (a + [x])[1..] == a[1..] + [x];
    } else if |a| > 1 {
      ScanSwallows(a[2..], x, b, c);
      assert t[2..] == a[2..] + [x] + b && (a + [x])[2..] == a[2..] + [x];
    } else {
      assert t[2..] == b && (a + [x])[2..] == [];
    }
  }

  // ---------- fields ----------

  /** The non-empty fields, in order: what both loops, the editor's and the library's, visit. */
  function Fields(s: string): (fs: seq<string>)
    decreases |s|
  {
    if s == [] then []
    else
      var n := Scan(s, ';');
      (if n > 0 then [s[..n]] else []) + (if n == |s| then [] else Fields(s[n + 1..]))
  }

  predicate IsField(f: string)
  {
    f != [] && Scan(f, ';') == |f|
  }

  function KeyLen(f: string): (n: nat)
    ensures n <= |f|
  {
    Scan(f, '=')
  }

  predicate KeyIs(f: string, key: string)
  {
    var k := Unescape(f[..KeyLen(f)]);
    KeyLen(f) < |f| && |k| < KEY_CAP && k == key
  }

  function ValueOf(f: string): string
    requires KeyLen(f) < |f|
  {
    Unescape(f[KeyLen(f) + 1..])
  }

  /** The first field under `key` decides: an empty or oversized value reads as absent. */
  function Find(fs: seq<string>, key: string): (r: Option<string>)
    ensures r.Some? ==> 0 < |r.value| < VALUE_CAP
  {
    if fs == [] then None
    else if KeyIs(fs[0], key) then
      var v := ValueOf(fs[0]);
      if 0 < |v| < VALUE_CAP then Some(v) else None
    else Find(fs[1..], key)
  }

  function Get(doc: string, key: string): (r: Option<string>)
  {
    Find(Fields(doc), key)
  }

  function Without(fs: seq<string>, key: string): (r: seq<string>)
  {
    if fs == [] then [] else (if KeyIs(fs[0], key) then [] else [fs[0]]) + Without(fs[1..], key)
  }

  /** `out` with one more field behind it. */
  function Append(out: string, f: string): (r: string)
  {
    (if out == [] then [] else out + [';']) + f
  }

  function Join(fs: seq<string>): (r: string)
  {
    if fs == [] then [] else Append(Join(fs[..|fs| - 1]), fs[|fs| - 1])
  }

  /** The field `Set` writes: the key goes in as it is, only the value is escaped. */
  function NewField(key: string, value: string): (r: string)
  {
    key + ['='] + Escape(value)
  }

  function Kept(doc: string, key: string): (r: string)
  {
    Join(Without(Fields(doc), key))
  }

  function Set(doc: string, key: string, value: string): (r: Option<string>)
  {
    if |Escape(value)| >= ESC_CAP then None else Some(Append(Kept(doc, key), NewField(key, value)))
  }

  /** A key that survives being written unescaped. */
  predicate KeyOk(key: string)
  {
    Closed(key) && Scan(key, ';') == |key| && Scan(key, '=') == |key| && Unescape(key) == key && |key| < KEY_CAP
  }

  // ---------- fields of a joined document ----------

  lemma {:induction false} FieldsAreFields(s: string)
    ensures forall f :: f in Fields(s) ==> IsField(f)
    ensures Closed(s) ==> forall f :: f in Fields(s) ==> Closed(f)
    ensures InnerClosed(Fields(s))
    decreases |s|
  {
    if s != [] {
      var n := Scan(s, ';');
      ScanPrefix(s, ';');
      if n < |s| {
        assert s == s[..n] + s[n..] && s[n..] == [';'] + s[n + 1..] && s[n..][1..] == s[n + 1..];
        ClosedConcat(s[..n], s[n..]);
        FieldsAreFields(s[n + 1..]);
      }
    }
  }

  /** Two texts joined by a separator: the fields of one, then the fields of the other. */
  lemma {:induction false} FieldsConcat(a: string, b: string)
    requires Closed(a)
    ensures Fields(a + [';'] + b) == Fields(a) + Fields(b)
    decreases |a|
  {
    hide Fields;
    hide Closed;
    hide Scan;
    var t := a + [';'] + b;
    var n := Scan(a, ';');
    assert t == a + ([';'] + b);
    if n < |a| {
      ScanWithin(a, [';'] + b, ';');
      ClosedRest(a, ';');
      FieldsConcat(a[n + 1..], b);
      assert t[n + 1..] == a[n + 1..] + [';'] + b && t[..n] == a[..n];
      FieldsSplit(t, n);
      FieldsSplit(a, n);
    } else {
      ScanPast(a, [';'] + b, ';');
      ScanHit(b, ';');
      assert t[..n] == a && t[n + 1..] == b;
      FieldsSplit(t, n);
      if a == [] { NoFields(); } else { OneField(a); }
    }
  }

  lemma NoFields()
    ensures Fields([]) == []
  {
  }

  lemma ScanHit(b: string, c: char)
    requires c != '\\'
    ensures Scan([c] + b, c) == 0
  {
  }

  lemma ClosedRest(s: string, c: char)
    requires c != '\\' && Closed(s) && Scan(s, c) < |s|
    ensures Closed(s[Scan(s, c) + 1..])
  {
    var n := Scan(s, c);
    ScanPrefix(s, c);
    assert s == s[..n] + s[n..] && s[n..][1..] == s[n + 1..];
    ClosedConcat(s[..n], s[n..]);
  }

  lemma FieldsSplit(s: string, n: nat)
    requires n == Scan(s, ';') < |s|
    ensures Fields(s) == (if n > 0 then [s[..n]] else []) + Fields(s[n + 1..])
  {
  }

  lemma OneField(f: string)
    requires IsField(f)
    ensures Fields(f) == [f]
  {
    assert f[..|f|] == f;
  }

  lemma FieldsAppend(out: string, b: string)
    requires Closed(out)
    ensures Fields(Append(out, b)) == Fields(out) + Fields(b)
  {
    hide Fields;
    hide Closed;
    if out != [] {
      FieldsConcat(out, b);
    } else {
      NoFields();
      assert Append(out, b) == b;
    }
  }

  /** Every field but the last is closed: a separator was found behind it. */
  ghost predicate InnerClosed(fs: seq<string>)
  {
    forall i :: 0 <= i < |fs| - 1 ==> Closed(fs[i])
  }

  /** Cutting a joined text gives back the fields; it is closed exactly when its last field is. */
  lemma {:induction false} FieldsJoin(fs: seq<string>)
    requires forall f :: f in fs ==> IsField(f)
    requires InnerClosed(fs)
    ensures Fields(Join(fs)) == fs
    ensures Closed(Join(fs)) <==> (fs == [] || Closed(fs[|fs| - 1]))
    ensures fs != [] ==> Join(fs) != []
  {
    if fs != [] {
      hide Fields;
      hide Closed;
      hide IsField;
      var init, f := fs[..|fs| - 1], fs[|fs| - 1];
      assert init == [] || Closed(init[|init| - 1]);
      FieldsJoin(init);
      JoinStep(init, f);
      assert fs == init + [f];
    }
  }

  lemma JoinStep(init: seq<string>, f: string)
    requires Fields(Join(init)) == init && Closed(Join(init)) && IsField(f)
    ensures Fields(Join(init + [f])) == init + [f]
    ensures Closed(Join(init + [f])) == Closed(f) && Join(init + [f]) != []
  {
    hide Fields;
    hide Closed;
    hide Scan;
    assert (init + [f])[..|init|] == init;
    FieldsAppend(Join(init), f);
    OneField(f);
    AppendClosed(Join(init), f);
  }

  lemma AppendClosed(out: string, f: string)
    requires Closed(out)
    ensures Closed(Append(out, f)) == Closed(f)
  {
    if out != [] {
      assert [';'][1..] == [];
      ClosedConcat(out, [';']);
      assert Closed(out + [';']);
      ClosedConcat(out + [';'], f);
    } else {
      assert Append(out, f) == f;
    }
  }

  lemma {:induction false} WithoutKeeps(fs: seq<string>, key: string)
    ensures forall f :: f in Without(fs, key) <==> f in fs && !KeyIs(f, key)
  {
    hide KeyIs;
    if fs != [] {
      WithoutKeeps(fs[1..], key);
    }
  }

  /** Only the very last field can be unclosed, and it stays last if it stays at all. */
  lemma {:induction false} WithoutClosed(fs: seq<string>, key: string)
    requires InnerClosed(fs)
    ensures InnerClosed(Without(fs, key))
  {
    hide KeyIs;
    hide Closed;
    if fs != [] {
      assert forall i :: 0 <= i < |fs[1..]| - 1 ==> fs[1..][i] == fs[i + 1];
      WithoutClosed(fs[1..], key);
      var rest := Without(fs[1..], key);
      if |fs| > 1 {
        assert Closed(fs[0]);
        assert forall i :: 0 < i < |rest| ==> ([fs[0]] + rest)[i] == rest[i - 1];
      }
    }
  }

  lemma KeptFields(doc: string, key: string)
    ensures Fields(Kept(doc, key)) == Without(Fields(doc), key)
    ensures forall f :: f in Fields(Kept(doc, key)) ==> IsField(f) && !KeyIs(f, key)
    ensures Closed(doc) ==> Closed(Kept(doc, key))
  {
    hide KeyIs;
    hide Closed;
    hide IsField;
    hide Fields;
    FieldsAreFields(doc);
    WithoutKeeps(Fields(doc), key);
    WithoutClosed(Fields(doc), key);
    FieldsJoin(Without(Fields(doc), key));
  }

  // ---------- the written field ----------

  lemma NewFieldShape(key: string, value: string)
    requires KeyOk(key)
    ensures var f := NewField(key, value);
            IsField(f) && Closed(f) && KeyLen(f) == |key| && KeyIs(f, key) && ValueOf(f) == value
  {
    hide Closed;
    hide Escape;
    hide Scan;
    hide Unescape;
    var e := Escape(value);
    var f := NewField(key, value);
    assert f == key + (['='] + e);
    EscapeHides(value, ';');
    UnescapeEscape(value);
    NewFieldScan(key, e);
    assert f[..|key|] == key && f[|key| + 1..] == e;
  }

  lemma NewFieldScan(key: string, e: string)
    requires KeyOk(key) && Closed(e) && Scan(e, ';') == |e|
    ensures var f := key + (['='] + e); Closed(f) && Scan(f, ';') == |f| && Scan(f, '=') == |key|
  {
    var t := ['='] + e;
    assert t[1..] == e;
    assert Scan(t, ';') == |t| && Scan(t, '=') == 0 && Closed(t);
    ScanPast(key, t, ';');
    ScanPast(key, t, '=');
    ClosedConcat(key, t);
  }

  /** In key=value no separator is found inside the escaped value, whatever the key holds. */
  lemma {:induction false} FirstFound(k: string, value: string, c: char)
    requires c == ';' || c == '='
    ensures var t := k + ['='] + Escape(value);
            Scan(t, c) <= |k| || Scan(t, c) == |t|
    decreases |k|
  {
    var e := Escape(value);
    var t := k + ['='] + e;
    if |k| == 0 {
      EscapeHides(value, c);
      assert t[1..] == e;
    } else if k[0] == '\\' && |k| > 1 {
      FirstFound(k[2..], value, c);
      assert t[2..] == k[2..] + ['='] + e;
    } else if k[0] == '\\' {
      EscapeHides(value, c);
      assert t[2..] == e;
    } else if k[0] != c {
      FirstFound(k[1..], value, c);
      assert t[1..] == k[1..] + ['='] + e;
    }
  }

  /** A key's own separators only cut it shorter: a field of key=value under that very key is the whole of it. */
  lemma {:induction false} OnlyWhole(k: string, value: string, key: string, f: string)
    requires |k| <= |key|
    requires f in Fields(k + ['='] + Escape(value)) && KeyIs(f, key)
    ensures |k| == |key| && KeyLen(f) == |k| && f[..|k|] == k
    decreases |k|
  {
    hide Closed;
    hide Escape;
    hide Scan;
    hide Unescape;
    var e := Escape(value);
    var t := k + ['='] + e;
    FirstFound(k, value, ';');
    FirstFound(k, value, '=');
    var n := Scan(t, ';');
    ScanPrefix(t, ';');
    if n > 0 && f == t[..n] {
      assert t == t[..n] + t[n..];
      ScanWithin(t[..n], t[n..], '=');
      assert KeyLen(f) <= |k|;
    } else {
      assert n < |k|;
      assert t[n + 1..] == k[n + 1..] + ['='] + e;
      OnlyWhole(k[n + 1..], value, key, f);
    }
  }

  lemma WholeKeyOk(f: string, key: string)
    requires IsField(f) && KeyIs(f, key) && KeyLen(f) == |key| && f[..|key|] == key
    ensures KeyOk(key)
  {
    ScanPrefix(f, '=');
    if Scan(key, ';') < |key| {
      assert f == key + f[|key|..];
      ScanWithin(key, f[|key|..], ';');
    }
  }

  // ---------- what lookups find ----------

  lemma {:induction false} FindNone(fs: seq<string>, key: string)
    requires forall f :: f in fs ==> !KeyIs(f, key)
    ensures Find(fs, key) == None
  {
    hide KeyIs;
    if fs != [] {
      FindNone(fs[1..], key);
    }
  }

  lemma {:induction false} FindSkips(fs: seq<string>, key: string, gs: seq<string>)
    requires forall f :: f in fs ==> !KeyIs(f, key)
    ensures Find(fs + gs, key) == Find(gs, key)
  {
    hide KeyIs;
    if fs == [] {
      assert fs + gs == gs;
    } else {
      FindSkips(fs[1..], key, gs);
      assert (fs + gs)[1..] == fs[1..] + gs;
    }
  }

  /** Dropping the fields of one key, and adding a field of that key behind, is invisible under any other key. */
  lemma {:induction false} FindOther(fs: seq<string>, key: string, other: string, f: string)
    requires other != key && KeyIs(f, key)
    ensures Find(Without(fs, key) + [f], other) == Find(fs, other)
  {
    if fs == [] {
      assert Without(fs, key) + [f] == [f];
      assert [f][1..] == [];
    } else {
      FindOther(fs[1..], key, other, f);
      var rest := Without(fs[1..], key) + [f];
      if !KeyIs(fs[0], key) {
        assert Without(fs, key) + [f] == [fs[0]] + rest;
        assert ([fs[0]] + rest)[1..] == rest;
      } else {
        assert Without(fs, key) + [f] == rest;
      }
    }
  }

  // ---------- the editor's laws ----------

  /** After a set on a document that hides nothing behind it: the other fields unchanged and in order, then the new
      one, which is the only one of its key; every other key reads as before. */
  lemma SetFields(doc: string, key: string, value: string)
    requires KeyOk(key) && Closed(Kept(doc, key)) && Set(doc, key, value).Some?
    ensures var doc' := Set(doc, key, value).value;
            Closed(doc') && Fields(doc') == Without(Fields(doc), key) + [NewField(key, value)]
  {
    hide Closed;
    hide IsField;
    hide Fields;
    hide KeyIs;
    hide KeyOk;
    KeptFields(doc, key);
    NewFieldShape(key, value);
    FieldsAppend(Kept(doc, key), NewField(key, value));
    OneField(NewField(key, value));
    AppendClosed(Kept(doc, key), NewField(key, value));
  }

  lemma SetLeavesOne(doc: string, key: string, value: string)
    requires KeyOk(key) && Closed(Kept(doc, key)) && Set(doc, key, value).Some?
    ensures var fs := Fields(Set(doc, key, value).value);
            fs != [] && forall i :: 0 <= i < |fs| ==> (KeyIs(fs[i], key) <==> i == |fs| - 1)
  {
    hide *;
    SetFields(doc, key, value);
    WithoutKeeps(Fields(doc), key);
    NewFieldShape(key, value);
    var w := Without(Fields(doc), key);
    assert forall i :: 0 <= i < |w| ==> w[i] in w;
  }

  lemma SetLeavesOthers(doc: string, key: string, value: string, other: string)
    requires KeyOk(key) && Closed(Kept(doc, key)) && Set(doc, key, value).Some? && other != key
    ensures Get(Set(doc, key, value).value, other) == Get(doc, other)
  {
    hide Closed;
    hide Fields;
    hide KeyIs;
    hide KeyOk;
    SetFields(doc, key, value);
    NewFieldShape(key, value);
    FindOther(Fields(doc), key, other, NewField(key, value));
  }

  lemma MergedKey(g: string, key: string, f: string)
    requires IsField(g) && !Closed(g) && !KeyIs(g, key) && KeyOk(key)
    requires f[..KeyLen(f)] == key && IsField(f)
    ensures IsField(g + [';'] + f) && !KeyIs(g + [';'] + f, key)
  {
    hide Closed;
    hide Scan;
    hide Unescape;
    var t := g + [';'] + f;
    ScanSwallows(g, ';', f, ';');
    assert t == g + ([';'] + f);
    if Scan(g, '=') < |g| {
      ScanWithin(g, [';'] + f, '=');
      assert t[..KeyLen(t)] == g[..KeyLen(g)];
    } else {
      ScanSwallows(g, ';', f, '=');
      assert t[..KeyLen(t)] == (g + [';']) + key;
      UnescapeConcat(g + [';'], key);
      UnescapeSome(g + [';']);
    }
  }

  lemma UnescapeSome(s: string)
    requires s != []
    ensures Unescape(s) != []
  {
  }

  /** No field of the merged text is under `key`. */
  lemma {:induction false} MergedFields(out: string, key: string, f: string)
    requires !Closed(out) && KeyOk(key) && f[..KeyLen(f)] == key && IsField(f)
    requires forall g :: g in Fields(out) ==> !KeyIs(g, key)
    ensures forall g :: g in Fields(out + [';'] + f) ==> !KeyIs(g, key)
    decreases |out|
  {
    hide Closed;
    hide Fields;
    hide KeyIs;
    hide KeyLen;
    hide KeyOk;
    hide Scan;
    var t := out + [';'] + f;
    var n := Scan(out, ';');
    assert t == out + ([';'] + f);
    if n < |out| {
      ScanWithin(out, [';'] + f, ';');
      OpenRest(out, ';');
      FieldsSplit(out, n);
      FieldsSplit(t, n);
      assert t[n + 1..] == out[n + 1..] + [';'] + f && t[..n] == out[..n];
      MergedFields(out[n + 1..], key, f);
    } else {
      OpenSome(out);
      OneField(out);
      assert out in Fields(out);
      MergedKey(out, key, f);
      OneField(t);
    }
  }

  lemma OpenSome(s: string)
    requires !Closed(s)
    ensures s != []
  {
  }

  lemma OpenRest(s: string, c: char)
    requires c != '\\' && !Closed(s) && Scan(s, c) < |s|
    ensures !Closed(s[Scan(s, c) + 1..])
  {
    var n := Scan(s, c);
    ScanPrefix(s, c);
    assert s == s[..n] + s[n..] && s[n..][1..] == s[n + 1..];
    ClosedConcat(s[..n], s[n..]);
  }

  /** When a lone backslash ends what is kept, it swallows the separator: the new field cannot be found. */
  lemma SetLost(doc: string, key: string, value: string)
    requires KeyOk(key) && !Closed(Kept(doc, key)) && Set(doc, key, value).Some?
    ensures Get(Set(doc, key, value).value, key) == None
  {
    hide Closed;
    hide IsField;
    hide Fields;
    hide KeyIs;
    hide KeyLen;
    hide KeyOk;
    KeptFields(doc, key);
    var out := Kept(doc, key);
    OpenSome(out);
    var f := NewField(key, value);
    NewFieldShape(key, value);
    MergedFields(out, key, f);
    FindNone(Fields(Append(out, f)), key);
  }

  // ---------- exactly which other keys change ----------

  /** With a lone backslash at the end of `out`, the last field and the one put behind it become one; the others stay. */
  lemma {:induction false} MergedList(out: string, f: string)
    requires !Closed(out) && IsField(f)
    ensures Fields(out) != [] && !Closed(LastOf(Fields(out)))
    ensures Fields(out + [';'] + f) == InitOf(Fields(out)) + [LastOf(Fields(out)) + [';'] + f]
    decreases |out|
  {
    hide Closed;
    hide Fields;
    hide Scan;
    var t := out + [';'] + f;
    var n := Scan(out, ';');
    assert t == out + ([';'] + f);
    if n < |out| {
      ScanWithin(out, [';'] + f, ';');
      OpenRest(out, ';');
      FieldsSplit(out, n);
      FieldsSplit(t, n);
      assert t[n + 1..] == out[n + 1..] + [';'] + f && t[..n] == out[..n];
      MergedList(out[n + 1..], f);
      LastBehind(if n > 0 then [out[..n]] else [], Fields(out[n + 1..]), LastOf(Fields(out[n + 1..])) + [';'] + f);
    } else {
      OpenSome(out);
      OneField(out);
      ScanSwallows(out, ';', f, ';');
      OneField(t);
      assert InitOf([out]) == [];
    }
  }

  function LastOf(fs: seq<string>): (f: string)
    requires fs != []
  {
    fs[|fs| - 1]
  }

  function InitOf(fs: seq<string>): (r: seq<string>)
    requires fs != []
  {
    fs[..|fs| - 1]
  }

  lemma LastBehind(a: seq<string>, b: seq<string>, x: string)
    requires b != []
    ensures LastOf(a + b) == LastOf(b) && InitOf(a + b) + [x] == a + (InitOf(b) + [x])
  {
  }

  /** A field that a lookup of `k` would return. */
  predicate Shows(f: string, k: string)
  {
    KeyIs(f, k) && 0 < |ValueOf(f)| < VALUE_CAP
  }

  /** An earlier field under the key decides instead. */
  ghost predicate Shadowed(fs: seq<string>, k: string)
  {
    exists f :: f in fs && KeyIs(f, k)
  }

  lemma {:induction false} FindLast(fs: seq<string>, x: string, k: string)
    ensures Shadowed(fs, k) ==> Find(fs + [x], k) == Find(fs, k)
    ensures !Shadowed(fs, k) ==> Find(fs + [x], k) == if Shows(x, k) then Some(ValueOf(x)) else None
  {
    hide KeyIs;
    if fs == [] {
      FindFirst(x, [], k);
      assert fs + [x] == [x] + [];
    } else {
      FindFirst(fs[0], fs[1..] + [x], k);
      FindFirst(fs[0], fs[1..], k);
      assert fs + [x] == [fs[0]] + (fs[1..] + [x]) && fs == [fs[0]] + fs[1..];
      FindLast(fs[1..], x, k);
      assert Shadowed(fs, k) <==> KeyIs(fs[0], k) || Shadowed(fs[1..], k) by { ShadowedCons(fs, k); }
    }
  }

  lemma ShadowedCons(fs: seq<string>, k: string)
    requires fs != []
    ensures Shadowed(fs, k) <==> KeyIs(fs[0], k) || Shadowed(fs[1..], k)
  {
    hide KeyIs;
    assert forall f :: f in fs <==> f == fs[0] || f in fs[1..];
  }

  lemma {:induction false} FindWithout(fs: seq<string>, key: string, other: string)
    requires other != key
    ensures Find(Without(fs, key), other) == Find(fs, other)
  {
    if fs != [] {
      FindWithout(fs[1..], key, other);
      var rest := Without(fs[1..], key);
      FindFirst(fs[0], fs[1..], other);
      FindFirst(fs[0], rest, other);
      assert fs == [fs[0]] + fs[1..];
      assert KeyIs(fs[0], key) ==> !KeyIs(fs[0], other);
      hide KeyIs;
      hide Find;
      assert Without(fs, key) == if KeyIs(fs[0], key) then rest else [fs[0]] + rest;
    }
  }

  /** What is put behind a lone backslash only makes a value longer. */
  lemma MergedLonger(a: string, f: string)
    requires !Closed(a) && f != []
    ensures |Unescape(a)| < |Unescape(a + [';'] + f)|
  {
    OpenUnescape(a);
    UnescapeConcat(a + [';'], f);
    UnescapeSome(f);
  }

  lemma {:induction false} OpenUnescape(a: string)
    requires !Closed(a)
    ensures Closed(a + [';']) && |Unescape(a + [';'])| == |Unescape(a)|
    decreases |a|
  {
    if a[0] == '\\' && |a| > 1 {
      OpenUnescape(a[2..]);
      assert a == ['\\', a[1]] + a[2..] && a + [';'] == ['\\', a[1]] + (a[2..] + [';']);
      UnescapePair(a[1], a[2..]);
      UnescapePair(a[1], a[2..] + [';']);
      assert (a + [';'])[2..] == a[2..] + [';'];
    } else if a[0] == '\\' {
      assert a == ['\\'] && a + [';'] == ['\\', ';'] + [];
      UnescapePair(';', []);
      assert (a + [';'])[2..] == [];
    } else {
      OpenUnescape(a[1..]);
      assert a == [a[0]] + a[1..] && a + [';'] == [a[0]] + (a[1..] + [';']);
      UnescapePlain(a[0], a[1..]);
      UnescapePlain(a[0], a[1..] + [';']);
      assert (a + [';'])[1..] == a[1..] + [';'];
    }
  }

  /** Merging changes the value under the last field's own key. */
  lemma MergedValue(g: string, f: string, k: string)
    requires IsField(g) && !Closed(g) && f != [] && KeyIs(g, k)
    ensures var m := g + [';'] + f; KeyIs(m, k) && |ValueOf(g)| < |ValueOf(m)|
  {
    hide Closed;
    hide Scan;
    hide Unescape;
    var m := g + [';'] + f;
    var n := Scan(g, '=');
    Regroup(g, [';'], f);
    ScanWithin(g, [';'] + f, '=');
    MergedParts(g, f, n);
    OpenRest(g, '=');
    MergedLonger(g[n + 1..], f);
  }

  lemma MergedParts(g: string, f: string, n: nat)
    requires n < |g|
    ensures var m := g + [';'] + f; m[..n] == g[..n] && m[n + 1..] == g[n + 1..] + [';'] + f
  {
  }

  /** EXACTLY WHICH OTHER KEYS CHANGE. A set leaves another key's lookup as it was if and only if the kept fields end well,
      or an earlier field under that key decides anyway, or neither the last kept field nor the field it merges into
      would be returned for it. */
  lemma SetOthersExactly(doc: string, key: string, value: string, other: string)
    requires KeyOk(key) && Set(doc, key, value).Some? && other != key
    ensures !Closed(Kept(doc, key)) ==> Fields(Kept(doc, key)) != []
    ensures Get(Set(doc, key, value).value, other) == Get(doc, other) <==>
            Closed(Kept(doc, key)) ||
            var fs := Fields(Kept(doc, key));
            Shadowed(InitOf(fs), other) ||
            (!Shows(LastOf(fs), other) && !Shows(LastOf(fs) + [';'] + NewField(key, value), other))
  {
    hide Closed;
    hide IsField;
    hide Fields;
    hide KeyIs;
    hide KeyOk;
    hide ValueOf;
    if Closed(Kept(doc, key)) {
      SetLeavesOthers(doc, key, value, other);
    } else {
      KeptFields(doc, key);
      var out, f := Kept(doc, key), NewField(key, value);
      OpenSome(out);
      NewFieldShape(key, value);
      MergedList(out, f);
      var fs := Fields(out);
      var g := LastOf(fs);
      assert fs == InitOf(fs) + [g] && g in fs;
      FindWithout(Fields(doc), key, other);
      FindLast(InitOf(fs), g, other);
      FindLast(InitOf(fs), g + [';'] + f, other);
      if KeyIs(g, other) {
        MergedValue(g, f, other);
      }
    }
  }

  /** Set, then get: for a key the format can hold, exactly when the value is one that get can return and the kept
      fields do not end in a lone backslash. */
  lemma SetThenGet(doc: string, key: string, value: string)
    requires KeyOk(key) && Set(doc, key, value).Some?
    ensures Get(Set(doc, key, value).value, key) == Some(value) <==>
            0 < |value| < VALUE_CAP && Closed(Kept(doc, key))
  {
    hide Closed;
    hide Fields;
    hide KeyIs;
    hide KeyOk;
    if !Closed(Kept(doc, key)) {
      SetLost(doc, key, value);
    } else {
      SetFields(doc, key, value);
      WithoutKeeps(Fields(doc), key);
      NewFieldShape(key, value);
      FindSkips(Without(Fields(doc), key), key, [NewField(key, value)]);
      assert [NewField(key, value)][1..] == [];
    }
  }

  /** The key is written unescaped: on a well-ended document, set-then-get holds exactly for the keys of `KeyOk`. */
  lemma SetThenGetKeys(doc: string, key: string, value: string)
    requires Closed(Kept(doc, key)) && Set(doc, key, value).Some? && 0 < |value| < VALUE_CAP
    ensures Get(Set(doc, key, value).value, key) == Some(value) <==> KeyOk(key)
  {
    hide Closed;
    hide Fields;
    hide IsField;
    hide KeyIs;
    hide KeyLen;
    hide KeyOk;
    if KeyOk(key) {
      SetThenGet(doc, key, value);
    } else {
      var out, t := Kept(doc, key), NewField(key, value);
      KeptFields(doc, key);
      FieldsAppend(out, t);
      FieldsAreFields(t);
      forall f | f in Fields(out) + Fields(t)
        ensures !KeyIs(f, key)
      {
        if f in Fields(t) && KeyIs(f, key) {
          OnlyWhole(key, value, key, f);
          WholeKeyOk(f, key);
        }
      }
      FindNone(Fields(out) + Fields(t), key);
    }
  }

  /** A document that is not closed, concretely. It holds both a ';' and a '=', so it is taken as an option string; its last
      field is a lone backslash, which swallows the separator, and the option just set cannot be found. */
  lemma LoneBackslashLosesTheKey(doc: string)
    requires doc == "a=1;\\"
    ensures ';' in doc && '=' in doc
    ensures Set(doc, "x", "1") == Some(doc + ";x=1") && Get(doc + ";x=1", "x") == None
  {
    ExampleOk();
    hide *;
    assert doc[1] == '=' && doc[3] == ';';
    ExampleKept(doc);
    ExampleSet(doc);
    SetLost(doc, "x", "1");
  }

  lemma ExampleOk()
    ensures Escape("1") == "1" && KeyOk("x")
  {
  }

  lemma ExampleSet(doc: string)
    requires Kept(doc, "x") == doc && doc != [] && Escape("1") == "1"
    ensures Set(doc, "x", "1") == Some(doc + ";x=1")
  {
    hide Kept;
    hide Escape;
    assert doc + [';'] + ("x" + ['='] + "1") == doc + ";x=1";
  }

  lemma ExampleFields()
    ensures IsField("a=1") && Closed("a=1") && !KeyIs("a=1", "x")
    ensures IsField("\\") && !Closed("\\") && !KeyIs("\\", "x")
  {
    var d := "a=1";
    assert d[1..] == "=1" && "=1"[1..] == "1" && "1"[1..] == "";
    assert Scan("1", ';') == 1;
    assert Scan("=1", ';') == 2;
    assert Closed("1");
    assert Closed("=1");
    assert Scan(d, '=') == 1;
    assert d[..1] == "a" && "a"[1..] == "";
    assert Unescape("a") == "a";
  }

  lemma ExampleKept(doc: string)
    requires doc == "a=1;\\"
    ensures Kept(doc, "x") == doc && !Closed(Kept(doc, "x"))
  {
    ExampleFields();
    hide KeyIs;
    hide IsField;
    hide Closed;
    hide Fields;
    hide Scan;
    hide Append;
    var a, b := "a=1", "\\";
    assert doc == a + [';'] + b;
    FieldsConcat(a, b);
    OneField(a);
    OneField(b);
    KeepTwo(a, b, "x");
    AppendClosed(a, b);
    AppendIs(a, b);
  }

  lemma AppendIs(a: string, b: string)
    requires a != []
    ensures Append(a, b) == a + [';'] + b
  {
  }

  lemma KeepTwo(a: string, b: string, key: string)
    requires !KeyIs(a, key) && !KeyIs(b, key) && a != []
    ensures Join(Without([a] + [b], key)) == a + [';'] + b
  {
    hide KeyIs;
    WithoutFirst(a, [b], key);
    WithoutFirst(b, [], key);
    assert [b] + [] == [b];
    assert Without([b], key) == [b];
    JoinSnoc([a], b);
    JoinSnoc([], a);
    assert [] + [a] == [a] && [a] + [b] == [a, b];
    assert Join([a]) == a;
  }

  // ---------- the library's reading of the same text ----------

  datatype Parsed = Options(list: seq<(string, string)>) | Malformed

  /** The options config_ssv.c hands on, in order; it rejects a field with no '=' and names or values over its caps. */
  function Parse(fs: seq<string>): (r: Parsed)
  {
    if fs == [] then Options([])
    else if !FieldOk(fs[0]) then Malformed
    else
      var rest := Parse(fs[1..]);
      if rest.Malformed? then Malformed else Options([Pair(fs[0])] + rest.list)
  }

  predicate FieldOk(f: string)
  {
    KeyLen(f) < |f| && |Unescape(f[..KeyLen(f)])| < KEY_CAP && |ValueOf(f)| < VALUE_CAP
  }

  function Pair(f: string): (string, string)
    requires KeyLen(f) < |f|
  {
    (Unescape(f[..KeyLen(f)]), ValueOf(f))
  }

  function FirstOption(list: seq<(string, string)>, key: string): (r: Option<string>)
  {
    if list == [] then None else if list[0].0 == key then Some(list[0].1) else FirstOption(list[1..], key)
  }

  function Others(list: seq<(string, string)>, key: string): (r: seq<(string, string)>)
  {
    if list == [] then [] else (if list[0].0 == key then [] else [list[0]]) + Others(list[1..], key)
  }

  /** On text the library accepts, the editor reads what the library read, an empty value counting as absent. */
  lemma {:induction false} GetAgrees(fs: seq<string>, key: string)
    requires Parse(fs).Options?
    ensures var o := FirstOption(Parse(fs).list, key); Find(fs, key) == (if o == Some("") then None else o)
  {
    hide KeyLen;
    hide ValueOf;
    if fs != [] {
      GetAgrees(fs[1..], key);
      assert ([Pair(fs[0])] + Parse(fs[1..]).list)[1..] == Parse(fs[1..]).list;
    }
  }

  lemma {:induction false} ParseEdited(fs: seq<string>, key: string, f: string)
    requires Parse(fs).Options? && FieldOk(f) && Pair(f).0 == key
    ensures Parse(Without(fs, key) + [f]) == Options(Others(Parse(fs).list, key) + [Pair(f)])
  {
    if fs == [] {
      assert Without(fs, key) + [f] == [f] && [f][1..] == [];
      assert Parse([]) == Options([]);
      assert Others([], key) == [];
      hide *;
      ParseOne(f);
    } else {
      assert FieldOk(fs[0]) && Parse(fs[1..]).Options?;
      ParseEdited(fs[1..], key, f);
      EditedStep(fs, key, f);
    }
  }

  lemma ParseOne(f: string)
    requires FieldOk(f)
    ensures Parse([f]) == Options([Pair(f)])
  {
    hide FieldOk;
    hide Pair;
    assert [f][1..] == [];
  }

  lemma ParseCons(f: string, fs: seq<string>)
    requires FieldOk(f) && Parse(fs).Options?
    ensures Parse([f] + fs) == Options([Pair(f)] + Parse(fs).list)
  {
    hide FieldOk;
    hide Pair;
    assert ([f] + fs)[1..] == fs;
  }

  lemma OthersCons(p: (string, string), list: seq<(string, string)>, key: string)
    ensures Others([p] + list, key) == (if p.0 == key then [] else [p]) + Others(list, key)
  {
    assert ([p] + list)[1..] == list;
  }

  lemma EditedStep(fs: seq<string>, key: string, f: string)
    requires fs != [] && FieldOk(fs[0]) && Parse(fs[1..]).Options? && FieldOk(f) && Pair(f).0 == key
    requires Parse(Without(fs[1..], key) + [f]) == Options(Others(Parse(fs[1..]).list, key) + [Pair(f)])
    ensures Parse(Without(fs, key) + [f]) == Options(Others(Parse(fs).list, key) + [Pair(f)])
  {
    assert KeyIs(fs[0], key) <==> Pair(fs[0]).0 == key;
    var rest := Without(fs[1..], key) + [f];
    OthersCons(Pair(fs[0]), Parse(fs[1..]).list, key);
    assert fs == [fs[0]] + fs[1..];
    assert Without(fs, key) + [f] == (if KeyIs(fs[0], key) then rest else [fs[0]] + rest);
    hide *;
    ParseCons(fs[0], fs[1..]);
    if !KeyIs(fs[0], key) {
      ParseCons(fs[0], rest);
      Regroup([Pair(fs[0])], Others(Parse(fs[1..]).list, key), [Pair(f)]);
    }
  }

  /** Both of the library's scans: to the first unescaped `c` before `limit`. */
  method LibraryScan(text: string, from: nat, limit: nat, c: char) returns (at: nat)
    requires from <= limit <= |text|
    ensures at == from + Scan(text[from..limit], c)
  {
    at := from;
    while at < limit
      invariant from <= at <= limit
      invariant at + Scan(text[at..limit], c) == from + Scan(text[from..limit], c)
    {
      if text[at] == '\\' && at + 1 < limit {
        assert text[at..limit][2..] == text[at + 2..limit];
        at := at + 2;
        continue;
      }
      if text[at] == c {
        break;
      }
      assert text[at..limit][1..] == text[at + 1..limit];
      at := at + 1;
    }
  }

  /** One non-empty field of the library's loop: split at the first unescaped '=', both sides unescaped into buffers; None
      for a field without one, an option name of 128 bytes or more, or a value of 512 or more. */
  method LibraryField(text: string, cursor: nat, limit: nat) returns (r: Option<(string, string)>)
    requires cursor < limit <= |text|
    ensures var f := text[cursor..limit]; r == if FieldOk(f) then Some(Pair(f)) else None
  {
    hide Scan;
    hide Unescape;
    var eq := LibraryScan(text, cursor, limit, '=');
    if eq >= limit {
      return None;
    }
    ghost var f := text[cursor..limit];
    assert f[..eq - cursor] == text[cursor..eq] && f[eq - cursor + 1..] == text[eq + 1..limit];
    var key, value := new char[KEY_CAP], new char[VALUE_CAP];
    var k := UnescapeInto(text[cursor..eq], key);
    if k.None? {
      return None;
    }
    var v := UnescapeInto(text[eq + 1..limit], value);
    if v.None? {
      return None;
    }
    return Some((key[..k.value], value[..v.value]));
  }

  /** cloak_client_config_parse_ssv's own cursor loop over the text: it sees exactly the editor's fields, in order, and stops
      at the first it rejects. An empty option string is refused. */
  method LibraryParse(text: string) returns (r: Parsed)
    ensures r == if text == [] then Malformed else Parse(Fields(text))
  {
    if text == [] {
      return Malformed;
    }
    hide Fields;
    hide Parse;
    hide Prepend;
    hide Scan;
    var cursor := 0;
    var list: seq<(string, string)> := [];
    assert text[0..] == text;
    ParsedNone(Fields(text));
    NoFields();
    while cursor < |text|
      invariant 0 <= cursor <= |text|
      invariant Parse(Fields(text)) == Prepend(list, Parse(Fields(text[cursor..])))
    {
      var ok, end;
      ok, list, end := LibraryTurn(text, cursor, list);
      if !ok {
        return Malformed;
      }
      if end == |text| {
        cursor := end;
        assert text[cursor..] == [];
        break;
      }
      cursor := end + 1;
    }
    assert text[cursor..] == [];
    ParsedDone(list);
    return Options(list);
  }

  /** The field at the cursor: skipped when empty, added when good, refused otherwise. */
  method LibraryTurn(text: string, cursor: nat, list: seq<(string, string)>)
    returns (ok: bool, list': seq<(string, string)>, end: nat)
    requires cursor < |text|
    ensures cursor <= end <= |text|
    ensures Prepend(list, Parse(Fields(text[cursor..]))) ==
            if !ok then Malformed else Prepend(list', Parse(if end == |text| then [] else Fields(text[end + 1..])))
  {
    hide Fields;
    hide FieldOk;
    hide KeyLen;
    hide Pair;
    hide Parse;
    hide Prepend;
    hide Scan;
    end := LibraryScan(text, cursor, |text|, ';');
    assert text[cursor..|text|] == text[cursor..];
    FieldsFrom(text, cursor, end);
    ghost var rest := if end == |text| then [] else Fields(text[end + 1..]);
    list', ok := list, true;
    if end == cursor {
      assert [] + rest == rest;
      return;
    }
    var field := LibraryField(text, cursor, end);
    ParsedStep(text[cursor..end], rest, list);
    if field.None? {
      ok := false;
      return;
    }
    list' := list + [field.value];
  }

  lemma ParsedDone(list: seq<(string, string)>)
    ensures Prepend(list, Parse([])) == Options(list)
  {
    assert list + [] == list;
  }

  ghost function Prepend(list: seq<(string, string)>, p: Parsed): (r: Parsed)
  {
    if p.Malformed? then Malformed else Options(list + p.list)
  }

  lemma ParsedNone(fs: seq<string>)
    ensures Prepend([], Parse(fs)) == Parse(fs)
  {
    hide Parse;
    assert Parse(fs).Options? ==> [] + Parse(fs).list == Parse(fs).list;
  }

  lemma ParsedStep(f: string, rest: seq<string>, list: seq<(string, string)>)
    ensures !FieldOk(f) ==> Prepend(list, Parse([f] + rest)) == Malformed
    ensures FieldOk(f) ==> Prepend(list, Parse([f] + rest)) == Prepend(list + [Pair(f)], Parse(rest))
  {
    assert FieldOk(f) ==> KeyLen(f) < |f|;
    hide FieldOk;
    hide Pair;
    hide KeyLen;
    assert ([f] + rest)[1..] == rest;
    if FieldOk(f) && Parse(rest).Options? {
      Regroup(list, [Pair(f)], Parse(rest).list);
    }
  }

  /** The library reads an edited document as the old options without that key, then the new one. */
  lemma LibraryReadsEdit(doc: string, key: string, value: string)
    requires KeyOk(key) && Closed(Kept(doc, key)) && |value| < VALUE_CAP && Set(doc, key, value).Some?
    requires Parse(Fields(doc)).Options?
    ensures Parse(Fields(Set(doc, key, value).value)) ==
            Options(Others(Parse(Fields(doc)).list, key) + [(key, value)])
  {
    hide Closed;
    hide Fields;
    hide Scan;
    SetFields(doc, key, value);
    NewFieldShape(key, value);
    ParseEdited(Fields(doc), key, NewField(key, value));
  }

  // ---------- the editor's loops ----------

  /** ssv_unescape: fails exactly when the text and its terminator do not fit. */
  method UnescapeInto(src: string, dst: array<char>) returns (len: Option<nat>)
    modifies dst
    ensures len.Some? <==> |Unescape(src)| < dst.Length
    ensures len.Some? ==> len.value == |Unescape(src)| && dst[..len.value] == Unescape(src) && dst[len.value] == '\0'
  {
    var o, i := 0, 0;
    while i < |src|
      invariant 0 <= i <= |src|
      invariant o <= dst.Length && (o > 0 ==> o < dst.Length)
      invariant dst[..o] + Unescape(src[i..]) == Unescape(src)
    {
      ghost var done := dst[..o];
      var ch := src[i];
      var width := if ch == '\\' && i + 1 < |src| && Special(src[i + 1]) then 2 else 1;
      if width == 2 {
        ch := src[i + 1];
        assert src[i..][2..] == src[i + 2..];
      } else {
        assert src[i..][1..] == src[i + 1..];
      }
      assert Unescape(src[i..]) == [ch] + Unescape(src[i + width..]);
      if o + 1 >= dst.Length {
        return None;
      }
      dst[o] := ch;
      o := o + 1;
      i := i + width;
      assert dst[..o] == done + [ch];
      Regroup(done, [ch], Unescape(src[i..]));
    }
    assert dst[..o] == Unescape(src);
    if o >= dst.Length {
      return None;
    }
    dst[o] := '\0';
    len := Some(o);
  }

  /** ssv_escape. */
  method EscapeInto(src: string, dst: array<char>) returns (len: Option<nat>)
    modifies dst
    ensures len.Some? <==> |Escape(src)| < dst.Length
    ensures len.Some? ==> len.value == |Escape(src)| && dst[..len.value] == Escape(src) && dst[len.value] == '\0'
  {
    var o, i := 0, 0;
    while i < |src|
      invariant 0 <= i <= |src|
      invariant o <= dst.Length && (o > 0 ==> o < dst.Length)
      invariant dst[..o] + Escape(src[i..]) == Escape(src)
    {
      ghost var done := dst[..o];
      var ch := src[i];
      assert src[i..][1..] == src[i + 1..];
      ghost var unit := if Special(ch) then ['\\', ch] else [ch];
      assert Escape(src[i..]) == unit + Escape(src[i + 1..]);
      if Special(ch) {
        if o + 2 >= dst.Length {
          return None;
        }
        dst[o] := '\\';
        o := o + 1;
      } else if o + 1 >= dst.Length {
        return None;
      }
      dst[o] := ch;
      o := o + 1;
      i := i + 1;
      assert dst[..o] == done + unit;
      Regroup(done, unit, Escape(src[i..]));
    }
    assert dst[..o] == Escape(src);
    if o >= dst.Length {
      return None;
    }
    dst[o] := '\0';
    len := Some(o);
  }

  /** ssv_field_end and ssv_key_end: the first unescaped `c` in [cur, limit), or limit. */
  method ScanTo(text: string, cur: nat, limit: nat, c: char) returns (end: nat)
    requires cur <= limit <= |text|
    ensures end == cur + Scan(text[cur..limit], c)
  {
    end := cur;
    while end < limit
      invariant cur <= end <= limit
      invariant end + Scan(text[end..limit], c) == cur + Scan(text[cur..limit], c)
    {
      if text[end] == '\\' && end + 1 < limit {
        assert text[end..limit][2..] == text[end + 2..limit];
        end := end + 2;
        continue;
      }
      if text[end] == c {
        break;
      }
      assert text[end..limit][1..] == text[end + 1..limit];
      end := end + 1;
    }
  }

  method FieldEnd(text: string, cur: nat) returns (end: nat)
    requires cur <= |text|
    ensures end == cur + Scan(text[cur..], ';')
  {
    end := ScanTo(text, cur, |text|, ';');
    assert text[cur..|text|] == text[cur..];
  }

  /** Whether the field [cur, end) is under `key`, and where its key ends. */
  method FieldKeyIs(text: string, cur: nat, end: nat, key: string) returns (eq: nat, yes: bool)
    requires cur <= end <= |text|
    ensures eq == cur + KeyLen(text[cur..end])
    ensures yes <==> KeyIs(text[cur..end], key)
  {
    eq := ScanTo(text, cur, end, '=');
    if eq >= end {
      return eq, false;
    }
    var k := new char[KEY_CAP];
    var n := UnescapeInto(text[cur..eq], k);
    assert text[cur..end][..eq - cur] == text[cur..eq];
    yes := n.Some? && k[..n.value] == key;
  }

  /** The value part (eq, end) of a field, or None where get reports the key absent. */
  method FieldValue(text: string, cur: nat, eq: nat, end: nat) returns (r: Option<string>)
    requires cur <= eq < end <= |text| && eq == cur + KeyLen(text[cur..end])
    ensures var v := ValueOf(text[cur..end]); r == if 0 < |v| < VALUE_CAP then Some(v) else None
  {
    var val := new char[VALUE_CAP];
    var n := UnescapeInto(text[eq + 1..end], val);
    assert text[cur..end][eq - cur + 1..] == text[eq + 1..end];
    if n.None? || n.value == 0 {
      return None;
    }
    return Some(val[..n.value]);
  }

  /** One field's step through the text: what Fields holds from `cur` on. */
  lemma FieldsFrom(text: string, cur: nat, end: nat)
    requires cur < |text| && end == cur + Scan(text[cur..], ';')
    ensures end <= |text|
    ensures Fields(text[cur..]) ==
            (if end > cur then [text[cur..end]] else []) + (if end == |text| then [] else Fields(text[end + 1..]))
  {
    hide Fields;
    hide Scan;
    var t := text[cur..];
    if end == |text| {
      OneField(t);
      assert text[cur..end] == t;
    } else {
      FieldsSplit(t, end - cur);
      assert t[..end - cur] == text[cur..end] && t[end - cur + 1..] == text[end + 1..];
    }
  }

  class Conf {
    var text: string

    constructor (text: string)
      ensures this.text == text
    {
      this.text := text;
    }

    /** conf_get. */
    method GetOption(key: string) returns (r: Option<string>)
      ensures r == Get(text, key)
    {
      hide Fields;
      hide Find;
      hide KeyIs;
      hide KeyLen;
      hide Scan;
      hide ValueOf;
      var cur := 0;
      assert text[0..] == text;
      while cur < |text|
        invariant 0 <= cur <= |text|
        invariant Find(Fields(text[cur..]), key) == Get(text, key)
      {
        var end := FieldEnd(text, cur);
        FieldsFrom(text, cur, end);
        ghost var rest := if end == |text| then [] else Fields(text[end + 1..]);
        if end > cur {
          var eq, yes := FieldKeyIs(text, cur, end, key);
          FindFirst(text[cur..end], rest, key);
          if yes {
            KeyHasEnd(text[cur..end], key);
            r := FieldValue(text, cur, eq, end);
            return;
          }
        }
        assert [] + rest == rest;
        if end == |text| {
          cur := end;
          assert rest == Fields(text[cur..]) by { NoFields(); assert text[cur..] == []; }
          break;
        }
        cur := end + 1;
      }
      NoFields();
      assert text[cur..] == [];
      assert Find([], key) == None by { FindNone([], key); }
      return None;
    }

    /** conf_set. The buffer is the text's length plus the key's, the escaped value's, and four. */
    method SetOption(key: string, value: string) returns (ok: bool)
      modifies this
      ensures ok <==> Set(old(text), key, value).Some?
      ensures text == if ok then Set(old(text), key, value).value else old(text)
    {
      hide Kept;
      hide Escape;
      var esc := new char[ESC_CAP];
      var n := EscapeInto(value, esc);
      if n.None? {
        return false;
      }
      var out := new char[|text| + |key| + n.value + 4];
      var o := CopyKept(text, key, out);
      o := PutField(out, o, key, esc[..n.value]);
      out[o] := '\0';
      text := out[..o];
      ok := true;
    }
  }

  lemma FindFirst(f: string, rest: seq<string>, key: string)
    ensures Find([f] + rest, key) ==
            if KeyIs(f, key) then (if 0 < |ValueOf(f)| < VALUE_CAP then Some(ValueOf(f)) else None)
            else Find(rest, key)
  {
    assert ([f] + rest)[1..] == rest;
  }

  lemma KeyHasEnd(f: string, key: string)
    requires KeyIs(f, key)
    ensures KeyLen(f) < |f|
  {
  }

  /** memcpy to the end of what is written. */
  method Put(out: array<char>, o: nat, s: string) returns (o': nat)
    requires o + |s| <= out.Length
    modifies out
    ensures o' == o + |s| && out[..o'] == old(out[..o]) + s
  {
    for i := 0 to |s|
      invariant out[..o + i] == old(out[..o]) + s[..i]
    {
      out[o + i] := s[i];
    }
    o' := o + |s|;
  }

  /** The new field at the end, behind a separator unless it is the first. */
  method PutField(out: array<char>, o: nat, key: string, esc: string) returns (o': nat)
    requires o + |key| + |esc| + 2 <= out.Length
    modifies out
    ensures o' <= o + |key| + |esc| + 2 && out[..o'] == Append(old(out[..o]), key + ['='] + esc)
  {
    o' := o;
    ghost var was := out[..o];
    if o > 0 {
      o' := Put(out, o, [';']);
    }
    ghost var mid := out[..o'];
    o' := Put(out, o', key);
    o' := Put(out, o', ['=']);
    o' := Put(out, o', esc);
    assert mid + key + ['='] + esc == mid + (key + ['='] + esc);
  }

  /** One turn of the copy loop: skip an empty field or one under `key`, append any other. */
  method CopyField(text: string, key: string, out: array<char>, o: nat, cur: nat) returns (o': nat, end: nat, kept: bool)
    requires cur < |text| <= out.Length && (o > 0 ==> o < cur)
    modifies out
    ensures end == cur + Scan(text[cur..], ';') && end <= |text|
    ensures kept <==> end > cur && !KeyIs(text[cur..end], key)
    ensures o' <= end && out[..o'] == if kept then Append(old(out[..o]), text[cur..end]) else old(out[..o])
  {
    hide KeyIs;
    hide Scan;
    hide KeyLen;
    end := FieldEnd(text, cur);
    kept := false;
    o' := o;
    if end > cur {
      var _, yes := FieldKeyIs(text, cur, end, key);
      kept := !yes;
    }
    if kept {
      if o > 0 {
        o' := Put(out, o, [';']);
      }
      o' := Put(out, o', text[cur..end]);
    }
  }

  lemma JoinSnoc(fs: seq<string>, f: string)
    ensures Join(fs + [f]) == Append(Join(fs), f)
  {
    assert (fs + [f])[..|fs|] == fs;
  }

  lemma WithoutFirst(f: string, rest: seq<string>, key: string)
    ensures Without([f] + rest, key) == (if KeyIs(f, key) then [] else [f]) + Without(rest, key)
  {
    hide KeyIs;
    assert ([f] + rest)[1..] == rest;
  }

  /** The fields kept from `cur` on, one step further. */
  lemma KeptFrom(text: string, key: string, cur: nat, end: nat)
    requires cur < |text| && end == cur + Scan(text[cur..], ';')
    ensures end <= |text|
    ensures Without(Fields(text[cur..]), key) ==
            (if end > cur && !KeyIs(text[cur..end], key) then [text[cur..end]] else []) +
            (if end == |text| then [] else Without(Fields(text[end + 1..]), key))
  {
    hide KeyIs;
    hide Fields;
    FieldsFrom(text, cur, end);
    var rest := if end == |text| then [] else Fields(text[end + 1..]);
    WithoutFirst(text[cur..end], rest, key);
    assert [] + rest == rest;
  }

  /** Every field but those under `key`, joined again; never longer than the text it came from. */
  method CopyKept(text: string, key: string, out: array<char>) returns (o: nat)
    requires |text| <= out.Length
    modifies out
    ensures o <= |text| && out[..o] == Kept(text, key)
  {
    hide Append;
    hide Fields;
    hide Join;
    hide KeyIs;
    hide Scan;
    hide Without;
    o := 0;
    var cur := 0;
    ghost var done := [];
    assert text[0..] == text;
    NoneKept(key);
    while cur < |text|
      invariant 0 <= cur <= |text|
      invariant o <= |text| && (o > 0 ==> o < cur || cur == |text|)
      invariant out[..o] == Join(done)
      invariant done + Without(Fields(text[cur..]), key) == Without(Fields(text), key)
    {
      ghost var tail := Without(Fields(text[cur..]), key);
      var end, kept;
      o, end, kept := CopyField(text, key, out, o, cur);
      KeptFrom(text, key, cur, end);
      ghost var rest := if end == |text| then [] else Without(Fields(text[end + 1..]), key);
      if kept {
        Regroup(done, [text[cur..end]], rest);
        JoinSnoc(done, text[cur..end]);
        done := done + [text[cur..end]];
      } else {
        assert [] + rest == rest;
      }
      if end == |text| {
        cur := end;
        assert text[cur..] == [];
        break;
      }
      cur := end + 1;
    }
    assert text[cur..] == [];
    assert done + [] == done;
  }

  lemma NoneKept(key: string)
    ensures Without(Fields([]), key) == [] && Join([]) == []
  {
  }
}

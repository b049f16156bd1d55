/** The client's handshake reply reader (client_transport.c): exactly three records, read without ever asking for a
    byte beyond them, whatever way the stream is cut. */
module ReplyReader {
  import opened Bytes

  const RECORDS: nat := 3
  const PREFIX: nat := 112
  const MAX_BODY: nat := 16640
  const MAX_REPLY: nat := 3 * (5 + MAX_BODY)

  datatype Status = Pending | Done | Protocol | AuthFailed

  /** Length of the body that the header at the start of `p` declares. */
  function Total(p: Octets): (n: nat)
    requires |p| >= 5
  {
    Load(p[3..5])
  }

  predicate BadHeader(index: nat, p: Octets)
    requires |p| >= 5
  {
    Total(p) > MAX_BODY || (index == 0 && (p[0] != 0x16 || Total(p) < PREFIX))
  }

  // ---------- the reference: one pass over the whole stream ----------

  /** Truncated is what a reader that must wait for more sees. */
  datatype Verdict = Verdict(status: Status, consumed: nat)

  /** `s` starts at record `index`; `opens` says whether the captured prefix yields the session key. */
  function Scan(opens: Octets -> bool, index: nat, s: Octets): (v: Verdict)
    requires index <= RECORDS
    ensures v.consumed <= |s|
    decreases RECORDS - index
  {
    if index == RECORDS then Verdict(Done, 0)
    else if |s| < 5 then Verdict(Pending, |s|)
    else if BadHeader(index, s) then Verdict(Protocol, 5)
    else if |s| < 5 + Total(s) then Verdict(Pending, |s|)
    else if index == 0 && !opens(s[5..5 + PREFIX]) then Verdict(AuthFailed, 5 + Total(s))
    else
      var rest := Scan(opens, index + 1, s[5 + Total(s)..]);
      Verdict(rest.status, 5 + Total(s) + rest.consumed)
  }

  /** The part of the first record's body that has arrived, up to the prefix that matters. */
  function Captured(s: Octets): (c: Octets)
  {
    if |s| < 5 || BadHeader(0, s) then [] else s[5..if |s| < 5 + PREFIX then |s| else 5 + PREFIX]
  }

  // ---------- the reader, one byte at a time ----------

  /** `partial` holds the current record's bytes so far; `taken` counts every byte consumed. */
  datatype Reader = Reader(status: Status, index: nat, partial: Octets, sh: Octets, taken: nat)

  const START := Reader(Pending, 0, [], [], 0)

  function RecordComplete(opens: Octets -> bool, r: Reader): (r': Reader)
  {
    if r.index == 0 && !opens(r.sh) then r.(status := AuthFailed, index := 1)
    else if r.index + 1 == RECORDS then r.(status := Done, index := RECORDS)
    else r.(index := r.index + 1, partial := [])
  }

  function TakeByte(opens: Octets -> bool, r: Reader, b: byte): (r': Reader)
  {
    var p := r.partial + [b];
    var r1 := r.(partial := p, taken := r.taken + 1);
    if |p| < 5 then r1
    else if |p| == 5 then
      if BadHeader(r.index, p) then r1.(status := Protocol)
      else if Total(p) == 0 then RecordComplete(opens, r1)
      else r1
    else
      var r2 := if r.index == 0 && |r.sh| < PREFIX then r1.(sh := r.sh + [b]) else r1;
      if |p| == 5 + Total(p) then RecordComplete(opens, r2) else r2
  }

  function Feed(opens: Octets -> bool, r: Reader, data: Octets): (r': Reader)
    decreases |data|
  {
    if data == [] || r.status != Pending then r else Feed(opens, TakeByte(opens, r, data[0]), data[1..])
  }

  /** Between bytes, a pending reader is inside a record, and still wants at least one byte of it. */
  ghost predicate Inv(r: Reader)
  {
    && (r.status == Pending ==>
          && r.index < RECORDS
          && (|r.partial| >= 5 ==> !BadHeader(r.index, r.partial) && |r.partial| < 5 + Total(r.partial))
          && (r.index == 0 ==> r.sh == Captured(r.partial))
          && r.taken <= r.index * (5 + MAX_BODY) + |r.partial|)
  }

  /** How many bytes of the piece in flight are missing: all a read ever asks for. */
  function Wanted(r: Reader): (n: nat)
    requires Inv(r) && r.status == Pending
    ensures n > 0
  {
    if |r.partial| < 5 then 5 - |r.partial| else 5 + Total(r.partial) - |r.partial|
  }

  lemma HeaderFixed(p: Octets, more: Octets)
    requires |p| >= 5
    ensures Total(p + more) == Total(p) && (p + more)[0] == p[0]
  {
    assert (p + more)[3..5] == p[3..5];
  }

  lemma TakeByteKeeps(opens: Octets -> bool, r: Reader, b: byte)
    requires Inv(r) && r.status == Pending
    ensures Inv(TakeByte(opens, r, b))
  {
    hide Load;
    if |r.partial| >= 5 { HeaderFixed(r.partial, [b]); }
    var p := r.partial + [b];
    if r.index == 0 && |p| > 5 && |r.sh| < PREFIX { assert Captured(p) == Captured(r.partial) + [b]; }
  }

  /** The byte-count guard behind the per-record bound cannot fire: with the header of any record in hand, what was
      read plus what it declares stays within the ceiling. */
  lemma GuardUnreachable(r: Reader, b: byte)
    requires Inv(r) && r.status == Pending && |r.partial| == 4 && !BadHeader(r.index, r.partial + [b])
    ensures r.taken + 1 + Total(r.partial + [b]) <= MAX_REPLY
  {
  }

  // ---------- the reader agrees with the reference, however the stream is cut ----------

  lemma {:induction false} FeedAppend(opens: Octets -> bool, r: Reader, a: Octets, b: Octets)
    ensures Feed(opens, Feed(opens, r, a), b) == Feed(opens, r, a + b)
    decreases |a|
  {
    hide TakeByte;
    if a == [] {
      assert a + b == b;
    } else if r.status == Pending {
      FeedAppend(opens, TakeByte(opens, r, a[0]), a[1..], b);
      assert (a + b)[1..] == a[1..] + b;
    }
  }

  function FeedAll(opens: Octets -> bool, r: Reader, chunks: seq<Octets>): (r': Reader)
    decreases |chunks|
  {
    if chunks == [] then r else FeedAll(opens, Feed(opens, r, chunks[0]), chunks[1..])
  }

  lemma {:induction false} FeedAllIsFeed(opens: Octets -> bool, r: Reader, chunks: seq<Octets>)
    ensures FeedAll(opens, r, chunks) == Feed(opens, r, Flatten(chunks))
    decreases |chunks|
  {
    hide TakeByte;
    if chunks != [] {
      FeedAllIsFeed(opens, Feed(opens, r, chunks[0]), chunks[1..]);
      FeedAppend(opens, r, chunks[0], Flatten(chunks[1..]));
    }
  }

  /** What scanning the current record onwards says of a pending reader's future. */
  ghost predicate Matches(opens: Octets -> bool, r: Reader, data: Octets, end: Reader)
    requires r.index <= RECORDS
  {
    var v := Scan(opens, r.index, r.partial + data);
    && end.status == v.status && end.taken + |r.partial| == r.taken + v.consumed
    && end.sh == if r.index == 0 then Captured(r.partial + data) else r.sh
  }

  lemma {:induction false} FeedMatchesScan(opens: Octets -> bool, r: Reader, data: Octets)
    requires Inv(r) && r.status == Pending
    ensures Matches(opens, r, data, Feed(opens, r, data))
    decreases |data|
  {
    hide TakeByte;
    hide Inv;
    if data == [] {
      NothingMore(opens, r);
    } else {
      var r' := TakeByte(opens, r, data[0]);
      TakeByteKeeps(opens, r, data[0]);
      InvIndex(r);
      if r'.status == Pending {
        InvIndex(r');
        FeedMatchesScan(opens, r', data[1..]);
      }
      hide Matches;
      if |r.partial| + 1 < 5 || (|r.partial| + 1 > 5 && !EndsRecord(r, data[0])) {
        InsideMatches(opens, r, data, Feed(opens, r', data[1..]));
      } else if EndsRecord(r, data[0]) {
        EndMatches(opens, r, data, Feed(opens, r', data[1..]));
      } else {
        HeaderMatches(opens, r, data, Feed(opens, r', data[1..]));
      }
    }
  }

  lemma InvIndex(r: Reader)
    requires Inv(r) && r.status == Pending
    ensures r.index < RECORDS
  {
  }

  lemma NothingMore(opens: Octets -> bool, r: Reader)
    requires Inv(r) && r.status == Pending
    ensures Matches(opens, r, [], r)
  {
    assert r.partial + [] == r.partial;
    hide Load;
  }

  /** The byte is the last one of an accepted record. */
  predicate EndsRecord(r: Reader, b: byte)
  {
    var p := r.partial + [b];
    |p| >= 5 && !BadHeader(r.index, p) && |p| == 5 + Total(p)
  }

  /** The reader that continues after one byte does what `end` says. */
  ghost predicate Continues(opens: Octets -> bool, r: Reader, data: Octets, end: Reader)
    requires data != []
  {
    var r' := TakeByte(opens, r, data[0]);
    if r'.status == Pending then r'.index <= RECORDS && Matches(opens, r', data[1..], end) else end == r'
  }

  /** A byte inside a record changes nothing for the scan. */
  lemma InsideMatches(opens: Octets -> bool, r: Reader, data: Octets, end: Reader)
    requires Inv(r) && r.status == Pending && data != [] && Continues(opens, r, data, end)
    requires |r.partial| + 1 < 5 || (|r.partial| + 1 > 5 && !EndsRecord(r, data[0]))
    ensures Matches(opens, r, data, end)
  {
    assert r.partial + data == (r.partial + [data[0]]) + data[1..];
    if |r.partial| >= 5 { HeaderFixed(r.partial, [data[0]]); }
    hide Load;
    hide Scan;
    hide Captured;
  }

  /** The fifth byte is refused, or opens the body. */
  lemma HeaderMatches(opens: Octets -> bool, r: Reader, data: Octets, end: Reader)
    requires Inv(r) && r.status == Pending && data != [] && Continues(opens, r, data, end)
    requires |r.partial| == 4 && !EndsRecord(r, data[0])
    ensures Matches(opens, r, data, end)
  {
    var p, s := r.partial + [data[0]], r.partial + data;
    assert s == p + data[1..];
    HeaderFixed(p, data[1..]);
    CapturedMore(p, data[1..]);
    hide Load;
    if !BadHeader(r.index, p) { hide Scan; }
  }

  /** The last byte of a record starts the next one, or settles the verdict. */
  lemma EndMatches(opens: Octets -> bool, r: Reader, data: Octets, end: Reader)
    requires Inv(r) && r.status == Pending && data != [] && Continues(opens, r, data, end)
    requires EndsRecord(r, data[0])
    ensures Matches(opens, r, data, end)
  {
    hide Load;
    hide Captured;
    hide TakeByte;
    var b, rest := data[0], data[1..];
    var p, s := r.partial + [b], r.partial + data;
    assert s == p + rest;
    HeaderFixed(p, rest);
    assert s[5 + Total(s)..] == rest;
    CapturedMore(p, rest);
    RecordCaptured(opens, r, b);
    hide Inv;
    assert [] + rest == rest;
    if r.index == 0 { assert s[5..5 + PREFIX] == p[5..5 + PREFIX]; }
    assert r.index + 1 == RECORDS ==> Scan(opens, r.index + 1, rest) == Verdict(Done, 0);
  }

  /** At the end of the first record, the captured prefix is the record's. */
  lemma RecordCaptured(opens: Octets -> bool, r: Reader, b: byte)
    requires Inv(r) && r.status == Pending && EndsRecord(r, b)
    ensures TakeByte(opens, r, b)
         == RecordComplete(opens, Reader(Pending, r.index, r.partial + [b], if r.index == 0 then Captured(r.partial + [b]) else r.sh, r.taken + 1))
    ensures r.index == 0 ==> Captured(r.partial + [b]) == (r.partial + [b])[5..5 + PREFIX]
  {
    hide Load;
    if |r.partial| >= 5 { HeaderFixed(r.partial, [b]); }
    var p := r.partial + [b];
    CapturedMore(r.partial, [b]);
    if r.index == 0 && |r.sh| < PREFIX { assert Captured(p) == Captured(r.partial) + [b]; }
  }

  lemma CapturedMore(p: Octets, rest: Octets)
    ensures |p| >= 5 && BadHeader(0, p) ==> Captured(p + rest) == []
    ensures |p| >= 5 + PREFIX ==> Captured(p + rest) == Captured(p)
  {
    if |p| >= 5 {
      HeaderFixed(p, rest);
      if |p| >= 5 + PREFIX { assert (p + rest)[5..5 + PREFIX] == p[5..5 + PREFIX]; }
    }
  }

  /** REPLY READER. For every reply stream and every way of cutting it, the verdict, the number of bytes consumed
      and the captured ServerHello prefix are those of the one-pass scan; and the total-size ceiling holds. */
  lemma CutsDoNotMatter(opens: Octets -> bool, chunks: seq<Octets>)
    ensures var end := FeedAll(opens, START, chunks); var s := Flatten(chunks);
      && end.status == Scan(opens, 0, s).status && end.taken == Scan(opens, 0, s).consumed <= |s|
      && end.sh == Captured(s)
  {
    var s := Flatten(chunks);
    FeedAllIsFeed(opens, START, chunks);
    FeedMatchesScan(opens, START, s);
    assert START.partial + s == s;
  }

  /** A read of at most what is wanted is consumed to its last byte, so nothing behind the reply is ever taken. */
  lemma {:induction false} NoOverread(opens: Octets -> bool, r: Reader, data: Octets)
    requires Inv(r) && r.status == Pending && |data| <= Wanted(r)
    ensures Feed(opens, r, data).taken == r.taken + |data| && Inv(Feed(opens, r, data))
    decreases |data|
  {
    hide Load;
    if data != [] {
      var r' := TakeByte(opens, r, data[0]);
      TakeByteKeeps(opens, r, data[0]);
      if |r.partial| >= 5 { HeaderFixed(r.partial, [data[0]]); }
      if |data| > 1 {
        assert r'.status == Pending && |data[1..]| <= Wanted(r');
        NoOverread(opens, r', data[1..]);
      }
    }
  }

  // ---------- whole pieces at a time ----------

  /** What the reader does with a piece of one header or one body. */
  function Bulk(opens: Octets -> bool, r: Reader, piece: Octets): (r': Reader)
  {
    var p := r.partial + piece;
    var r1 := r.(partial := p, taken := r.taken + |piece|, sh := if r.index == 0 then Captured(p) else r.sh);
    if |p| < 5 then r1
    else if |r.partial| < 5 && BadHeader(r.index, p) then r1.(status := Protocol)
    else if |p| == 5 + Total(p) then RecordComplete(opens, r1)
    else r1
  }

  lemma BulkOne(opens: Octets -> bool, r: Reader, b: byte)
    requires Inv(r) && r.status == Pending
    ensures Bulk(opens, r, [b]) == TakeByte(opens, r, b)
  {
    hide Load;
    if |r.partial| >= 5 { HeaderFixed(r.partial, [b]); }
    var p := r.partial + [b];
    CapturedMore(r.partial, [b]);
    if r.index == 0 && |p| > 5 && |r.sh| < PREFIX { assert Captured(p) == Captured(r.partial) + [b]; }
  }

  lemma BulkMore(opens: Octets -> bool, r: Reader, b: byte, rest: Octets)
    requires Inv(r) && r.status == Pending && rest != [] && 1 + |rest| <= Wanted(r)
    ensures var r' := Bulk(opens, r, [b]);
      r'.status == Pending && r'.partial == r.partial + [b] && Bulk(opens, r', rest) == Bulk(opens, r, [b] + rest)
  {
    hide Load;
    assert (r.partial + [b]) + rest == r.partial + ([b] + rest);
    if |r.partial| >= 5 { HeaderFixed(r.partial, [b]); }
    hide Captured;
  }

  /** Byte at a time or piece at a time, the reader ends up the same. */
  lemma {:induction false} BulkIsFeed(opens: Octets -> bool, r: Reader, piece: Octets)
    requires Inv(r) && r.status == Pending && 0 < |piece| <= Wanted(r)
    ensures Feed(opens, r, piece) == Bulk(opens, r, piece)
    decreases |piece|
  {
    var b, rest := piece[0], piece[1..];
    assert piece == [b] + rest;
    BulkOne(opens, r, b);
    TakeByteKeeps(opens, r, b);
    var r' := TakeByte(opens, r, b);
    if rest != [] {
      BulkMore(opens, r, b, rest);
      WantedLess(r, r', b);
      hide Bulk;
      hide TakeByte;
      hide Inv;
      BulkIsFeed(opens, r', rest);
    } else {
      hide Bulk;
      hide TakeByte;
      assert piece == [b] && Feed(opens, r', rest) == r';
    }
  }

  lemma WantedLess(r: Reader, r': Reader, b: byte)
    requires Inv(r) && r.status == Pending && Inv(r') && r'.status == Pending && Wanted(r) > 1
    requires r'.partial == r.partial + [b]
    ensures Wanted(r') == Wanted(r) - 1
  {
    hide Load;
    if |r.partial| >= 5 { HeaderFixed(r.partial, [b]); }
  }

  // ---------- the reader in place ----------

  class HandshakeReader {
    const opens: Octets -> bool
    var status: Status
    var header: Octets
    var bodyTotal: nat
    var bodyLen: nat
    var sh: Octets
    var index: nat
    var replyBytes: nat
    ghost var partial: Octets

    ghost function Abs(): (r: Reader)
      reads this
    {
      Reader(status, index, partial, sh, replyBytes)
    }

    /** The counters describe the record in flight. */
    ghost predicate Valid()
      reads this
    {
      && Inv(Abs())
      && (status == Pending ==>
            && header == partial[..if |partial| < 5 then |partial| else 5]
            && (|partial| >= 5 ==> bodyTotal == Total(partial) && bodyLen == |partial| - 5))
    }

    constructor (opensKey: Octets -> bool)
      ensures Valid() && Abs() == START && opens == opensKey
    {
      opens := opensKey;
      status, header, bodyTotal, bodyLen, sh, index, replyBytes := Pending, [], 0, 0, [], 0, 0;
      partial := [];
    }

    method BytesWanted() returns (n: nat)
      requires Valid() && status == Pending
      ensures n == Wanted(Abs()) && n > 0
    {
      if |header| < 5 {
        return 5 - |header|;
      }
      return bodyTotal - bodyLen;
    }

    /** One record has been consumed. */
    method RecordDone()
      requires status == Pending && index < RECORDS
      modifies this`status, this`index, this`header, this`bodyLen, this`bodyTotal, this`partial
      ensures Abs() == RecordComplete(opens, old(Abs()))
      ensures status == Pending ==> header == [] && partial == []
    {
      index := index + 1;
      if index == 1 && !opens(sh) {
        status := AuthFailed;
        return;
      }
      if index == RECORDS {
        status := Done;
        return;
      }
      header, bodyLen, bodyTotal, partial := [], 0, 0, [];
    }

    method TakeHeader(piece: Octets)
      requires Valid() && status == Pending && |partial| < 5 && 0 < |piece| <= 5 - |partial|
      modifies this
      ensures Abs() == Bulk(opens, old(Abs()), piece)
      ensures status == Pending ==> header == partial[..if |partial| < 5 then |partial| else 5]
      ensures status == Pending && |partial| >= 5 ==> bodyTotal == Total(partial) && bodyLen == |partial| - 5
    {
      hide Load;
      header := header + piece;
      replyBytes := replyBytes + |piece|;
      partial := partial + piece;
      assert header == partial;
      if |header| < 5 {
        return;
      }
      bodyTotal := Load(header[3..5]);
      if bodyTotal > MAX_BODY {
        status := Protocol;
        return;
      }
      if index == 0 && (header[0] != 0x16 || bodyTotal < PREFIX) {
        status := Protocol;
        return;
      }
      assert replyBytes + bodyTotal <= MAX_REPLY;
      bodyLen := 0;
      if bodyTotal == 0 {
        RecordDone();
      }
    }

    method TakeBody(piece: Octets)
      requires Valid() && status == Pending && |partial| >= 5 && 0 < |piece| <= Wanted(Abs())
      modifies this
      ensures Abs() == Bulk(opens, old(Abs()), piece)
      ensures status == Pending ==> header == partial[..if |partial| < 5 then |partial| else 5]
      ensures status == Pending && |partial| >= 5 ==> bodyTotal == Total(partial) && bodyLen == |partial| - 5
    {
      hide Load;
      HeaderFixed(partial, piece);
      ghost var p := partial + piece;
      if index == 0 && |sh| < PREFIX {
        var copy := if |piece| < PREFIX - |sh| then |piece| else PREFIX - |sh|;
        assert Captured(p) == Captured(partial) + piece[..copy];
        sh := sh + piece[..copy];
      }
      if index == 0 { CapturedMore(partial, piece); }
      bodyLen := bodyLen + |piece|;
      replyBytes := replyBytes + |piece|;
      partial := p;
      if bodyLen == bodyTotal {
        RecordDone();
      }
    }

    /** Advances by any number of bytes, stopping at the verdict. */
    method FeedBytes(data: Octets)
      requires Valid()
      modifies this
      ensures Valid() && Abs() == Feed(opens, old(Abs()), data)
    {
      var i := 0;
      assert data[0..] == data;
      while i < |data| && status == Pending
        invariant i <= |data| && Valid()
        invariant Feed(opens, Abs(), data[i..]) == Feed(opens, old(Abs()), data)
      {
        var want := BytesWanted();
        var take := if want < |data| - i then want else |data| - i;
        var piece := data[i..i + take];
        assert data[i..] == piece + data[i + take..];
        FeedAppend(opens, Abs(), piece, data[i + take..]);
        BulkIsFeed(opens, Abs(), piece);
        NoOverread(opens, Abs(), piece);
        hide Bulk;
        hide Feed;
        hide Wanted;
        if |header| < 5 {
          TakeHeader(piece);
        } else {
          TakeBody(piece);
        }
        i := i + take;
      }
    }

    /** Drains a socket holding `avail`: each read asks for at most what is wanted, the kernel gives any part of it
        or nothing. Whatever was read was consumed. */
    method DoRead(avail: Octets) returns (used: nat)
      requires Valid()
      modifies this
      ensures Valid() && used <= |avail| && Abs() == Feed(opens, old(Abs()), avail[..used])
      ensures replyBytes == old(replyBytes) + used
    {
      used := 0;
      while status == Pending && used < |avail|
        invariant Valid() && used <= |avail| && Abs() == Feed(opens, old(Abs()), avail[..used])
        invariant replyBytes == old(replyBytes) + used
        decreases |avail| - used
      {
        var want := BytesWanted();
        if want > 1024 {
          want := 1024;
        }
        var n: int := *;
        if n <= 0 {
          return;
        }
        n := if n > want then want else n;
        n := if n > |avail| - used then |avail| - used else n;
        var piece := avail[used..used + n];
        NoOverread(opens, Abs(), piece);
        FeedAppend(opens, old(Abs()), avail[..used], piece);
        assert avail[..used] + piece == avail[..used + n];
        hide Feed;
        FeedBytes(piece);
        used := used + n;
      }
    }
  }
}

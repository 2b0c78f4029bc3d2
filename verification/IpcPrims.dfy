/**
 The send and accept primitives as the library performs them: canonical copies in working
 buffers, moved by the transfer loops. Each is tied to the wire form or to the reader of it.
 */
module IpcPrims {
  import opened Basics
  import opened IpcCodec
  import opened IpcTransport
  import opened IpcChannel

  // ---- Sending ----

  // Sending wire appends a prefix of it to the stream, all of it when the send succeeds, as it
  // does on a connection that stays up.
  ghost predicate Sent(stream: seq<byte>, sched: seq<Status>, wire: seq<byte>, result: int,
                       stream': seq<byte>, sched': seq<Status>) {
    |stream| <= |stream'| <= |stream| + |wire|
    && stream' == stream + wire[..|stream'| - |stream|]
    && (result == 0 || result == -1)
    && (result == 0 ==> stream' == stream + wire)
    && (Up(sched) && |wire| <= Moves(sched) ==> result == 0 && Up(sched') && Moves(sched') + |wire| >= Moves(sched))
  }

  lemma SentThen(a: seq<byte>, p: seq<Status>, v: seq<byte>, b: seq<byte>, q: seq<Status>,
                 w: seq<byte>, result: int, c: seq<byte>, r: seq<Status>)
    requires Sent(a, p, v, 0, b, q) && Sent(b, q, w, result, c, r)
    ensures Sent(a, p, v + w, result, c, r)
  {
    assert a + v + w[..|c| - |b|] == a + (v + w)[..|c| - |a|];
    assert result == 0 ==> w[..|c| - |b|] == w;
  }

  lemma SentShort(a: seq<byte>, p: seq<Status>, v: seq<byte>, b: seq<byte>, q: seq<Status>, w: seq<byte>)
    requires Sent(a, p, v, -1, b, q)
    ensures Sent(a, p, v + w, -1, b, q)
  {
    assert v[..|b| - |a|] == (v + w)[..|b| - |a|];
  }

  method SendWire(data: seq<byte>, ch: WSocketChan) returns (result: int)
    modifies ch
    ensures Sent(old(ch.stream), old(ch.sched), data, result, ch.stream, ch.sched)
  {
    TransferExactly(ch.sched, |data|, |data|);
    if Up(ch.sched) && |data| <= Moves(ch.sched) {
      UpTransfers(ch.sched, |data|, |data|);
    }
    hide Transfer, Up, Moves;
    result := ch.SendBytes(data);
    assert data[..|data|] == data;
  }

  method SendScalar(h: Host, k: Kind, v: nat, ch: WSocketChan) returns (result: int)
    requires ValidHost(h) && v < Power(NativeSize(h, k))
    modifies ch
    ensures Sent(old(ch.stream), old(ch.sched), Wire(Scalar(k, v)), result, ch.stream, ch.sched)
  {
    var temp := new byte[8];
    var ok := Canonize(h, Native(h, v, NativeSize(h, k)), temp, 0, CanonicalSize(k));
    CanonicalForm(h, v, NativeSize(h, k), CanonicalSize(k));
    hide Canonized, Native, BigEndian, CanonicalSize;
    assert temp[..CanonicalSize(k)] == Wire(Scalar(k, v));
    hide Spliced, Wire;
    result := SendWire(temp[..CanonicalSize(k)], ch);
  }

  lemma {:induction false} DigitsAppend(k: Kind, vs: seq<nat>, v: nat)
    ensures Digits(k, vs + [v]) == Digits(k, vs) + BigEndian(v, CanonicalSize(k))
    decreases |vs|
  {
    if vs == [] {
      assert Digits(k, []) == [];
      assert vs + [v] == [v];
    } else {
      assert (vs + [v])[1..] == vs[1..] + [v];
      DigitsAppend(k, vs[1..], v);
    }
  }

  method SendArray(h: Host, k: Kind, vs: seq<nat>, ch: WSocketChan) returns (result: int)
    requires ValidHost(h) && forall j | 0 <= j < |vs| :: vs[j] < Power(NativeSize(h, k))
    modifies ch
    ensures Sent(old(ch.stream), old(ch.sched), Wire(Array(k, vs)), result, ch.stream, ch.sched)
  {
    var out := CanonicalCopy(h, k, vs);
    result := SendWire(out[..], ch);
  }

  method CanonicalCopy(h: Host, k: Kind, vs: seq<nat>) returns (out: array<byte>)
    requires ValidHost(h) && forall j | 0 <= j < |vs| :: vs[j] < Power(NativeSize(h, k))
    ensures out[..] == Digits(k, vs)
  {
    var c := CanonicalSize(k);
    out := new byte[|vs| * c];
    var i := 0;
    assert Offset(i, c) == 0 && out.Length == Offset(|vs|, c);
    hide Offset, BigEndian, Digits, CanonicalSize, NativeSize, Power;
    while i < |vs|
      invariant 0 <= i <= |vs|
      invariant Offset(i, c) <= out.Length && out[..Offset(i, c)] == Digits(k, vs[..i])
    {
      OffsetNext(i, c, |vs|);
      DigitsNext(k, vs, i);
      CopyItem(h, k, vs[i], out, Offset(i, c));
      i := i + 1;
    }
    assert vs[..i] == vs && out[..out.Length] == out[..];
  }

  method CopyItem(h: Host, k: Kind, v: nat, out: array<byte>, at: nat)
    requires ValidHost(h) && v < Power(NativeSize(h, k)) && at + CanonicalSize(k) <= out.Length
    modifies out
    ensures out[..at + CanonicalSize(k)] == old(out[..at]) + BigEndian(v, CanonicalSize(k))
  {
    hide Canonized, Native, BigEndian, CanonicalSize, NativeSize, Power, Spliced;
    var c := CanonicalSize(k);
    ghost var before := out[..];
    assert before[..at] == out[..at];
    var ok := Canonize(h, Native(h, v, NativeSize(h, k)), out, at, c);
    CanonicalForm(h, v, NativeSize(h, k), c);
    SplicedPrefix(before, at, BigEndian(v, c), out[..]);
  }

  lemma DigitsNext(k: Kind, vs: seq<nat>, i: nat)
    requires i < |vs|
    ensures Digits(k, vs[..i + 1]) == Digits(k, vs[..i]) + BigEndian(vs[i], CanonicalSize(k))
  {
    DigitsAppend(k, vs[..i], vs[i]);
    assert vs[..i + 1] == vs[..i] + [vs[i]];
  }

  // Where item i of c bytes starts.
  function Offset(i: nat, c: nat): nat {
    i * c
  }

  lemma OffsetNext(i: nat, c: nat, n: nat)
    requires i < n
    ensures Offset(0, c) == 0 && Offset(i, c) + c == Offset(i + 1, c) <= Offset(n, c)
  {
    assert (n - i - 1) * c >= 0;
  }

  lemma SplicedPrefix(before: seq<byte>, lo: nat, mid: seq<byte>, after: seq<byte>)
    requires Spliced(before, lo, mid, after)
    ensures lo + |mid| <= |after| && after[..lo + |mid|] == before[..lo] + mid
  {
  }

  method SendText(h: Host, t: Text, ch: WSocketChan) returns (result: int)
    requires ValidHost(h) && TextFits(t)
    modifies ch
    ensures Sent(old(ch.stream), old(ch.sched), TextWire(t), result, ch.stream, ch.sched)
  {
    assert Power(4) == 0x1_0000_0000;
    ghost var a, p := ch.stream, ch.sched;
    var length := if t.None? then NULL_LENGTH else |t.value|;
    result := SendScalar(h, INT, length, ch);
    ghost var b, q := ch.stream, ch.sched;
    ghost var v := BigEndian(length, CanonicalSize(INT));
    hide Sent, BigEndian;
    if result == -1 {
      if t.Some? {
        SentShort(a, p, v, b, q, t.value);
      }
      return -1;
    }
    if t.None? {
      return 0;
    }
    ResultOf(a, p, v, result, b, q);
    result := SendWire(t.value, ch);
    SentThen(a, p, v, b, q, t.value, result, ch.stream, ch.sched);
  }

  lemma ResultOf(a: seq<byte>, p: seq<Status>, v: seq<byte>, result: int, b: seq<byte>, q: seq<Status>)
    requires Sent(a, p, v, result, b, q)
    ensures result == 0 || result == -1
  {
  }

  method SendStrArray(h: Host, ts: seq<Text>, ch: WSocketChan) returns (result: int)
    requires ValidHost(h) && Fits(h, StrArray(ts))
    modifies ch
    ensures Sent(old(ch.stream), old(ch.sched), Wire(StrArray(ts)), result, ch.stream, ch.sched)
  {
    assert Power(4) == 0x1_0000_0000;
    ghost var length := BigEndian(|ts|, CanonicalSize(INT));
    result := SendScalar(h, INT, |ts|, ch);
    ghost var b, q := ch.stream, ch.sched;
    ResultOf(old(ch.stream), old(ch.sched), length, result, b, q);
    hide Sent, BigEndian, TextsWire;
    if result == -1 {
      SentShort(old(ch.stream), old(ch.sched), length, b, q, TextsWire(ts));
      return -1;
    }
    result := SendTexts(h, ts, ch);
    SentThen(old(ch.stream), old(ch.sched), length, b, q, TextsWire(ts), result, ch.stream, ch.sched);
  }

  method SendTexts(h: Host, ts: seq<Text>, ch: WSocketChan) returns (result: int)
    requires ValidHost(h) && forall j | 0 <= j < |ts| :: TextFits(ts[j])
    modifies ch
    ensures Sent(old(ch.stream), old(ch.sched), TextsWire(ts), result, ch.stream, ch.sched)
  {
    ghost var a, p, done := ch.stream, ch.sched, [];
    assert done + TextsWire(ts[0..]) == TextsWire(ts) by { assert ts[0..] == ts; }
    assert TextsWire([]) == [];
    assert Sent(a, p, [], 0, a, p);
    hide Sent, TextWire;
    var i := 0;
    while i < |ts|
      invariant 0 <= i <= |ts|
      invariant Sent(a, p, done, 0, ch.stream, ch.sched)
      invariant done + TextsWire(ts[i..]) == TextsWire(ts)
    {
      ghost var b, q, t := ch.stream, ch.sched, TextWire(ts[i]);
      NextText(done, ts, i);
      hide TextsWire;
      result := SendText(h, ts[i], ch);
      SentThen(a, p, done, b, q, t, result, ch.stream, ch.sched);
      ResultOf(b, q, t, result, ch.stream, ch.sched);
      done := done + t;
      if result == -1 {
        SentShort(a, p, done, ch.stream, ch.sched, TextsWire(ts[i + 1..]));
        return -1;
      }
      i := i + 1;
    }
    assert ts[i..] == [] && done + [] == done;
    return 0;
  }

  lemma NextText(done: seq<byte>, ts: seq<Text>, i: nat)
    requires i < |ts|
    ensures done + TextsWire(ts[i..]) == done + TextWire(ts[i]) + TextsWire(ts[i + 1..])
  {
    assert ts[i..][1..] == ts[i + 1..];
  }

  // ---- Accepting ----

  ghost function View(ch: RSocketChan): Chan
    reads ch
  {
    Chan(ch.pending, ch.sched)
  }

  method AcceptWire(n: nat, ch: RSocketChan) returns (result: int, bytes: array<byte>)
    modifies ch
    ensures fresh(bytes) && bytes.Length == n
    ensures var (r, next) := Receive(old(View(ch)), n);
      View(ch) == next && result == (if r.Some? then n else -1) && (r.Some? ==> bytes[..] == r.value)
  {
    bytes := new byte[n];
    TransferExactly(ch.sched, n, |ch.pending|);
    ghost var was := ch.pending;
    hide Transfer;
    result := ch.AcceptBytes(bytes, n, true);
    if result == n {
      assert bytes[..n] == bytes[..];
    }
  }

  method AcceptScalar(h: Host, k: Kind, ch: RSocketChan) returns (result: int, v: nat)
    requires ValidHost(h)
    modifies ch
    ensures var (r, next) := ReadScalar(h, k, old(View(ch)));
      View(ch) == next && result == (if r.Some? then 1 else -1) && (r.Some? ==> v == r.value)
  {
    var bytesRead, temp := AcceptWire(CanonicalSize(k), ch);
    if bytesRead <= 0 {
      return -1, 0;
    }
    hide Receive;
    v := Uncanonical(h, k, temp[..]);
    return 1, v;
  }

  // One value out of canonical bytes, through the host's own memory.
  method Uncanonical(h: Host, k: Kind, bytes: seq<byte>) returns (v: nat)
    requires ValidHost(h) && |bytes| == CanonicalSize(k)
    ensures v == Decode(h, k, bytes)
  {
    var s := NativeSize(h, k);
    var native := new byte[s];
    ghost var before := native[..];
    var ok := Uncanonize(h, bytes, native, 0, s);
    UncanonicalValue(h, k, bytes);
    hide Uncanonized, NativeValue, Decode, Spliced;
    SplicedPrefix(before, 0, Uncanonized(h.littleEndian, bytes, s), native[..]);
    assert native[..s] == native[..];
    v := NativeValue(h, native[..]);
  }

  lemma UncanonicalValue(h: Host, k: Kind, bytes: seq<byte>)
    requires ValidHost(h) && |bytes| == CanonicalSize(k)
    ensures NativeValue(h, Uncanonized(h.littleEndian, bytes, NativeSize(h, k))) == Decode(h, k, bytes)
  {
    DigitsOfValue(bytes);
    NativeForm(h, Value(bytes), NativeSize(h, k), |bytes|);
    NativeDigits(h, Value(bytes), NativeSize(h, k));
    hide Uncanonized, NativeValue, Native;
  }

  method AcceptArray(h: Host, k: Kind, n: nat, ch: RSocketChan) returns (itemsRead: int, vs: seq<nat>)
    requires ValidHost(h)
    modifies ch
    ensures var (r, next) := ReadArray(h, k, n, old(View(ch)));
      View(ch) == next && itemsRead == (if r.Some? then n else -1) && (r.Some? ==> vs == r.value)
  {
    if n == 1 {
      OneItem(h, k, View(ch));
      hide ReadArray, ReadScalar;
      var v;
      itemsRead, v := AcceptScalar(h, k, ch);
      return itemsRead, [v];
    }
    var c := CanonicalSize(k);
    var bytesRead, buffer := AcceptWire(n * c, ch);
    hide Receive, CanonicalSize;
    if bytesRead <= 0 {
      return -1, [];
    }
    WholeItems(n, c);
    itemsRead := bytesRead / c;
    vs := UncanonicalAll(h, k, itemsRead, buffer[..]);
  }

  lemma WholeItems(n: nat, c: nat)
    requires c > 0
    ensures n * c / c == n
    ensures n > 0 <==> n * c > 0
  {
    if n > 0 {
      DividesInto(n * c, c, n, 0);
      MulAtLeast(c, n);
    }
  }

  lemma OneItem(h: Host, k: Kind, c: Chan)
    ensures var (a, p) := ReadArray(h, k, 1, c); var (s, q) := ReadScalar(h, k, c);
      p == q && (a.Some? <==> s.Some?) && (s.Some? ==> a.value == [s.value])
  {
    var (bytes, next) := Receive(c, CanonicalSize(k));
    if bytes.Some? {
      var b := bytes.value;
      assert b[..CanonicalSize(k)] == b && b[CanonicalSize(k)..] == [];
      assert DecodeAll(h, k, []) == [];
    }
  }

  method UncanonicalAll(h: Host, k: Kind, n: nat, bytes: seq<byte>) returns (vs: seq<nat>)
    requires ValidHost(h) && |bytes| == n * CanonicalSize(k)
    ensures vs == DecodeAll(h, k, bytes)
  {
    var c := CanonicalSize(k);
    vs := [];
    var i := 0;
    assert Offset(0, c) == 0 && Offset(n, c) == |bytes| && bytes[0..] == bytes;
    ghost var all := DecodeAll(h, k, bytes);
    assert DecodeAll(h, k, []) == [];
    hide Offset, CanonicalSize, Decode, DecodeAll;
    while i < n
      invariant 0 <= i <= n && Offset(i, c) <= |bytes|
      invariant vs + DecodeAll(h, k, bytes[Offset(i, c)..]) == all
    {
      OffsetNext(i, c, n);
      var at := Offset(i, c);
      DecodeStep(h, k, bytes, at, vs);
      var v := Uncanonical(h, k, bytes[at..at + c]);
      vs := vs + [v];
      i := i + 1;
    }
    assert bytes[Offset(i, c)..] == [];
  }

  lemma DecodeStep(h: Host, k: Kind, bytes: seq<byte>, at: nat, vs: seq<nat>)
    requires at + CanonicalSize(k) <= |bytes|
    ensures var c := CanonicalSize(k);
      vs + DecodeAll(h, k, bytes[at..]) == vs + [Decode(h, k, bytes[at..at + c])] + DecodeAll(h, k, bytes[at + c..])
  {
    var c := CanonicalSize(k);
    assert bytes[at..][..c] == bytes[at..at + c] && bytes[at..][c..] == bytes[at + c..];
  }

  method AcceptText(h: Host, ch: RSocketChan) returns (result: int, t: Text)
    requires ValidHost(h)
    modifies ch
    ensures var (r, next) := ReadText(h, old(View(ch)));
      View(ch) == next && result == (if r.Some? then 0 else -1) && (r.Some? ==> t == r.value)
  {
    t := None;
    var ok, length := AcceptScalar(h, INT, ch);
    hide ReadScalar, Receive;
    if ok == -1 {
      return -1, None;
    }
    if length == NULL_LENGTH {
      return 0, None;
    }
    var s;
    ok, s := AcceptWire(length, ch);
    if ok == -1 {
      return -1, None;
    }
    return 0, Some(s[..]);
  }

  method AcceptStrArray(h: Host, ch: RSocketChan) returns (result: int, ts: seq<Text>)
    requires ValidHost(h)
    modifies ch
    ensures var (r, next) := ReadStrArray(h, old(View(ch)));
      View(ch) == next && result == (if r.Some? then 0 else -1) && (r.Some? ==> ts == r.value)
  {
    ts := [];
    var ok, length := AcceptScalar(h, UINT, ch);
    hide ReadScalar;
    if ok == -1 {
      return -1, [];
    }
    ghost var all := ReadTexts(h, length, View(ch));
    var i := 0;
    assert all.0.Some? ==> [] + all.0.value == all.0.value;
    while i < length
      invariant 0 <= i <= length
      invariant all == Prepended(ts, ReadTexts(h, length - i, View(ch)))
    {
      ghost var c := View(ch);
      var t;
      ok, t := AcceptText(h, ch);
      hide ReadText;
      if ok == -1 {
        return -1, [];
      }
      PrependedStep(ts, t, ReadTexts(h, length - i - 1, View(ch)));
      ts := ts + [t];
      i := i + 1;
    }
    return 0, ts;
  }

  ghost function Prepended(ts: seq<Text>, r: (Option<seq<Text>>, Chan)): (Option<seq<Text>>, Chan) {
    (if r.0.Some? then Some(ts + r.0.value) else None, r.1)
  }

  lemma PrependedStep(ts: seq<Text>, t: Text, r: (Option<seq<Text>>, Chan))
    ensures Prepended(ts, Prepended([t], r)) == Prepended(ts + [t], r)
  {
    assert r.0.Some? ==> ts + ([t] + r.0.value) == ts + [t] + r.0.value;
  }
}

/**
 Typed values, arrays, strings and string arrays over an IPC channel, and the round trip between
 any two hosts however the transport splits the bytes.
 */
module IpcChannel {
  import opened Basics
  import opened IpcCodec
  import opened IpcTransport

  // A string is None for the null pointer.
  type Text = Option<seq<byte>>

  datatype Item =
    | Scalar(kind: Kind, v: nat)
    | Array(kind: Kind, vs: seq<nat>)
    | Str(s: Text)
    | StrArray(ss: seq<Text>)

  // The accept that matches an item.
  datatype Shape =
    | ScalarShape(kind: Kind)
    | ArrayShape(kind: Kind, n: nat)
    | StrShape
    | StrArrayShape

  function ShapeOf(i: Item): Shape {
    match i
    case Scalar(k, _) => ScalarShape(k)
    case Array(k, vs) => ArrayShape(k, |vs|)
    case Str(_) => StrShape
    case StrArray(_) => StrArrayShape
  }

  const NULL_LENGTH: nat := 0xffff_ffff
  const MAX_LENGTH: nat := 0x7fff_ffff

  // ---- The wire ----

  function Digits(k: Kind, vs: seq<nat>): (s: seq<byte>)
    ensures |s| == |vs| * CanonicalSize(k)
    decreases |vs|
  {
    if vs == [] then [] else BigEndian(vs[0], CanonicalSize(k)) + Digits(k, vs[1..])
  }

  function TextWire(t: Text): seq<byte> {
    match t
    case None => BigEndian(NULL_LENGTH, CanonicalSize(INT))
    case Some(s) => BigEndian(|s|, CanonicalSize(INT)) + s
  }

  function TextsWire(ts: seq<Text>): seq<byte> {
    if ts == [] then [] else TextWire(ts[0]) + TextsWire(ts[1..])
  }

  function Wire(i: Item): seq<byte> {
    match i
    case Scalar(k, v) => BigEndian(v, CanonicalSize(k))
    case Array(k, vs) => Digits(k, vs)
    case Str(t) => TextWire(t)
    case StrArray(ts) => BigEndian(|ts|, CanonicalSize(INT)) + TextsWire(ts)
  }

  function WireAll(items: seq<Item>): seq<byte> {
    if items == [] then [] else Wire(items[0]) + WireAll(items[1..])
  }

  // ---- The wire, byte by byte ----

  // The bytes of each kind on the wire.
  function WireSize(k: Kind): nat {
    match k
    case CHAR => 1
    case UCHAR => 1
    case SHORT => 2
    case USHORT => 2
    case INT => 4
    case UINT => 4
    case FLOAT => 4
    case ULONGINT => 8
    case DOUBLE => 8
    case PTR => 8
  }

  // Byte i of a number of n bytes, the first the most significant.
  function ByteOf(v: nat, n: nat, i: nat): byte
    requires i < n
    decreases n - i
  {
    if i == n - 1 then v % 0x100 else ByteOf(v / 0x100, n - 1, i)
  }

  // A number of four bytes.
  predicate FourBytes(b: seq<byte>, v: nat) {
    |b| == 4 && v == 0x100_0000 * b[0] as int + 0x1_0000 * b[1] as int + 0x100 * b[2] as int + b[3] as int
  }

  lemma {:induction false} DigitIs(v: nat, k: nat, i: nat)
    requires i < k
    ensures BigEndian(v, k)[i] == ByteOf(v, k, i)
  {
    if i < k - 1 {
      DigitIs(v / 0x100, k - 1, i);
    }
  }

  /** A value of each kind is so many bytes on the wire, the most significant first. */
  lemma ScalarWire(k: Kind, v: nat)
    ensures var w := Wire(Scalar(k, v));
      |w| == WireSize(k) && forall i: nat | i < WireSize(k) :: w[i] == ByteOf(v, WireSize(k), i)
  {
    hide BigEndian, ByteOf;
    forall i: nat | i < WireSize(k) ensures Wire(Scalar(k, v))[i] == ByteOf(v, WireSize(k), i) {
      DigitIs(v, WireSize(k), i);
    }
  }

  lemma FourDigits(v: nat)
    requires v < 0x1_0000_0000
    ensures FourBytes(BigEndian(v, 4), v)
  {
    var b := BigEndian(v, 4);
    DigitIs(v, 4, 0);
    DigitIs(v, 4, 1);
    DigitIs(v, 4, 2);
    DigitIs(v, 4, 3);
    var q1 := v / 0x100;
    var q2 := q1 / 0x100;
    var q3 := q2 / 0x100;
    assert b[3] == v % 0x100 && b[2] == q1 % 0x100 && b[1] == q2 % 0x100 && b[0] == q3 % 0x100 == q3;
    hide BigEndian, ByteOf;
  }

  /** A string is its length in four bytes and then its bytes, the null string four bytes of all ones;
      an array of strings begins with their number in four bytes. */
  lemma TextWireIs(t: Text, ts: seq<Text>)
    requires (t.Some? ==> |t.value| < 0x1_0000_0000) && |ts| < 0x1_0000_0000
    ensures var w := Wire(Str(t));
      if t.None? then w == [0xff, 0xff, 0xff, 0xff]
      else |w| >= 4 && FourBytes(w[..4], |t.value|) && w[4..] == t.value
    ensures var w := Wire(StrArray(ts)); |w| >= 4 && FourBytes(w[..4], |ts|) && w[4..] == TextsWire(ts)
  {
    hide BigEndian, TextsWire;
    FourDigits(|ts|);
    if t.None? {
      FourDigits(0xffff_ffff);
      AllOnes(BigEndian(0xffff_ffff, 4));
    } else {
      FourDigits(|t.value|);
      assert Wire(Str(t))[..4] == BigEndian(|t.value|, 4);
    }
    assert Wire(StrArray(ts))[..4] == BigEndian(|ts|, 4);
  }

  lemma AllOnes(b: seq<byte>)
    requires FourBytes(b, 0xffff_ffff)
    ensures b == [0xff, 0xff, 0xff, 0xff]
  {
  }

  // In a host's memory a long and a pointer have the host's own sizes, everything else those above.
  lemma MemorySizes(h: Host, k: Kind)
    ensures CanonicalSize(k) == WireSize(k)
    ensures NativeSize(h, k) == if k == ULONGINT then h.longSize else if k == PTR then h.pointerSize else WireSize(k)
  {
  }

  // ---- What a reader makes of it ----

  datatype Chan = Chan(pending: seq<byte>, sched: seq<Status>)

  function Receive(c: Chan, n: nat): (r: (Text, Chan))
    ensures r.0.Some? ==> |r.0.value| == n <= |c.pending|
    ensures r.0.Some? && n > 0 ==> |r.1.sched| < |c.sched|
  {
    var p := Transfer(c.sched, n, |c.pending|, true);
    TransferExactly(c.sched, n, |c.pending|);
    (if p.ok then Some(c.pending[..n]) else None, Chan(c.pending[p.moved..], p.rest))
  }

  // The value host h finds in canonical bytes.
  function Decode(h: Host, k: Kind, bytes: seq<byte>): nat {
    Value(bytes) % Power(NativeSize(h, k))
  }

  // The whole items among them.
  function DecodeAll(h: Host, k: Kind, bytes: seq<byte>): seq<nat>
    decreases |bytes|
  {
    var c := CanonicalSize(k);
    if |bytes| < c then [] else [Decode(h, k, bytes[..c])] + DecodeAll(h, k, bytes[c..])
  }

  function ReadScalar(h: Host, k: Kind, c: Chan): (Option<nat>, Chan) {
    var (bytes, next) := Receive(c, CanonicalSize(k));
    (if bytes.Some? then Some(Decode(h, k, bytes.value)) else None, next)
  }

  // Reading no items at all counts as a failure.
  function ReadArray(h: Host, k: Kind, n: nat, c: Chan): (Option<seq<nat>>, Chan) {
    var (bytes, next) := Receive(c, n * CanonicalSize(k));
    (if n > 0 && bytes.Some? then Some(DecodeAll(h, k, bytes.value)) else None, next)
  }

  function ReadText(h: Host, c: Chan): (Option<Text>, Chan) {
    var (length, next) := ReadScalar(h, INT, c);
    if length.None? then (None, next)
    else if length.value == NULL_LENGTH then (Some(None), next)
    else
      var (s, last) := Receive(next, length.value);
      (if s.Some? then Some(s) else None, last)
  }

  function ReadTexts(h: Host, n: nat, c: Chan): (Option<seq<Text>>, Chan) {
    if n == 0 then (Some([]), c) else
      var (t, next) := ReadText(h, c);
      if t.None? then (None, next) else
        var (ts, last) := ReadTexts(h, n - 1, next);
        (if ts.Some? then Some([t.value] + ts.value) else None, last)
  }

  function ReadStrArray(h: Host, c: Chan): (Option<seq<Text>>, Chan) {
    var (length, next) := ReadScalar(h, UINT, c);
    if length.None? then (None, next) else ReadTexts(h, length.value, next)
  }

  function Read(h: Host, shape: Shape, c: Chan): (Option<Item>, Chan) {
    match shape
    case ScalarShape(k) =>
      var (v, next) := ReadScalar(h, k, c);
      (if v.Some? then Some(Scalar(k, v.value)) else None, next)
    case ArrayShape(k, n) =>
      var (vs, next) := ReadArray(h, k, n, c);
      (if vs.Some? then Some(Array(k, vs.value)) else None, next)
    case StrShape =>
      var (t, next) := ReadText(h, c);
      (if t.Some? then Some(Str(t.value)) else None, next)
    case StrArrayShape =>
      var (ts, next) := ReadStrArray(h, c);
      (if ts.Some? then Some(StrArray(ts.value)) else None, next)
  }

  // A run of accepts, given up at the first that fails.
  function ReadAll(h: Host, shapes: seq<Shape>, c: Chan): (Option<seq<Item>>, Chan)
    decreases |shapes|
  {
    if shapes == [] then (Some([]), c) else
      var (i, next) := Read(h, shapes[0], c);
      if i.None? then (None, next) else
        var (rest, last) := ReadAll(h, shapes[1..], next);
        (if rest.Some? then Some([i.value] + rest.value) else None, last)
  }

  // ---- Round trip ----

  // What host h's types and the int-valued lengths can hold.
  predicate TextFits(t: Text) {
    t.Some? ==> |t.value| <= MAX_LENGTH
  }

  predicate Fits(h: Host, i: Item) {
    match i
    case Scalar(k, v) => v < Power(NativeSize(h, k))
    case Array(k, vs) => forall j | 0 <= j < |vs| :: vs[j] < Power(NativeSize(h, k))
    case Str(t) => TextFits(t)
    case StrArray(ts) => |ts| <= MAX_LENGTH && forall j | 0 <= j < |ts| :: TextFits(ts[j])
  }

  // A result is the sent value with the rest still pending, or comes of a broken connection; one
  // that stays up for n more bytes is not broken, and goes on.
  ghost predicate Delivered<T>(r: (Option<T>, Chan), sent: T, rest: seq<byte>, sched: seq<Status>, n: nat) {
    (r.0.Some? ==> r.0.value == sent && r.1.pending == rest)
    && (Up(sched) && n <= Moves(sched) ==> r.0.Some? && Up(r.1.sched) && Moves(r.1.sched) + n >= Moves(sched))
  }

  lemma Received(s: seq<byte>, rest: seq<byte>, sched: seq<Status>)
    ensures Delivered(Receive(Chan(s + rest, sched), |s|), s, rest, sched, |s|)
  {
    TransferExactly(sched, |s|, |s + rest|);
    assert (s + rest)[..|s|] == s && (s + rest)[|s|..] == rest;
    if Up(sched) && |s| <= Moves(sched) {
      UpTransfers(sched, |s|, |s + rest|);
    }
  }

  // A later part of an item is read from where an earlier one left off.
  lemma Then<A, B>(r: (Option<A>, Chan), a: A, mid: seq<byte>, sched: seq<Status>, m: nat,
                   q: (Option<B>, Chan), b: B, rest: seq<byte>, n: nat)
    requires Delivered(r, a, mid, sched, m)
    requires r.0.None? ==> q.0.None?
    requires r.0.Some? ==> Delivered(q, b, rest, r.1.sched, n)
    ensures Delivered(q, b, rest, sched, m + n)
  {
  }

  lemma ScalarDelivered(h: Host, k: Kind, v: nat, rest: seq<byte>, sched: seq<Status>)
    requires ValidHost(h) && v < Power(NativeSize(h, k))
    ensures var c := CanonicalSize(k);
      Delivered(ReadScalar(h, k, Chan(BigEndian(v, c) + rest, sched)), v, rest, sched, c)
  {
    var c := CanonicalSize(k);
    Received(BigEndian(v, c), rest, sched);
    Decoded(h, k, v);
    hide Receive;
  }

  lemma Decoded(h: Host, k: Kind, v: nat)
    requires ValidHost(h) && v < Power(NativeSize(h, k))
    ensures Decode(h, k, BigEndian(v, CanonicalSize(k))) == v
  {
    var c := CanonicalSize(k);
    PowerGrows(NativeSize(h, k), c);
    NativeDigits(h, v, c);
    ValueOfDigits(v, c);
    NativeDigits(h, v, NativeSize(h, k));
  }

  lemma {:induction false} PowerGrows(s: nat, c: nat)
    requires s <= c
    ensures Power(s) <= Power(c)
  {
    if s < c {
      PowerGrows(s, c - 1);
    }
  }

  lemma {:induction false} AllDecoded(h: Host, k: Kind, vs: seq<nat>)
    requires ValidHost(h) && forall j | 0 <= j < |vs| :: vs[j] < Power(NativeSize(h, k))
    ensures DecodeAll(h, k, Digits(k, vs)) == vs
    decreases |vs|
  {
    if vs != [] {
      var c := CanonicalSize(k);
      var d := Digits(k, vs);
      Decoded(h, k, vs[0]);
      AllDecoded(h, k, vs[1..]);
      assert d[..c] == BigEndian(vs[0], c) && d[c..] == Digits(k, vs[1..]);
    }
  }

  lemma ArrayDelivered(h: Host, k: Kind, vs: seq<nat>, rest: seq<byte>, sched: seq<Status>)
    requires ValidHost(h) && vs != [] && forall j | 0 <= j < |vs| :: vs[j] < Power(NativeSize(h, k))
    ensures Delivered(ReadArray(h, k, |vs|, Chan(Digits(k, vs) + rest, sched)), vs, rest, sched, |Digits(k, vs)|)
  {
    Received(Digits(k, vs), rest, sched);
    AllDecoded(h, k, vs);
    hide Receive, DecodeAll, Digits;
  }

  lemma TextDelivered(h: Host, t: Text, rest: seq<byte>, sched: seq<Status>)
    requires ValidHost(h) && TextFits(t)
    ensures Delivered(ReadText(h, Chan(TextWire(t) + rest, sched)), t, rest, sched, |TextWire(t)|)
  {
    assert Power(4) == 0x1_0000_0000;
    var c := Chan(TextWire(t) + rest, sched);
    match t
    case None => ScalarDelivered(h, INT, NULL_LENGTH, rest, sched);
      hide ReadScalar, Up, Moves;
    case Some(s) => StringDelivered(h, s, rest, sched);
  }

  lemma StringDelivered(h: Host, s: seq<byte>, rest: seq<byte>, sched: seq<Status>)
    requires ValidHost(h) && |s| <= MAX_LENGTH < Power(4) && MAX_LENGTH < NULL_LENGTH
    ensures Delivered(ReadText(h, Chan(TextWire(Some(s)) + rest, sched)), Some(s), rest, sched, |TextWire(Some(s))|)
  {
    var l := BigEndian(|s|, CanonicalSize(INT));
    var c := Chan(l + (s + rest), sched);
    assert TextWire(Some(s)) + rest == l + (s + rest);
    ScalarDelivered(h, INT, |s|, s + rest, sched);
    hide ReadScalar, Receive, Up, Moves, BigEndian;
    var r := ReadScalar(h, INT, c);
    var q := ReadText(h, c);
    if r.0.Some? {
      Received(s, rest, r.1.sched);
      assert r.1 == Chan(s + rest, r.1.sched);
    }
    Then(r, |s|, s + rest, sched, |l|, q, Some(s), rest, |s|);
  }

  lemma TextsThen(h: Host, ts: seq<Text>, c: Chan, mid: seq<byte>, m: nat, rest: seq<byte>, n: nat)
    requires ts != [] && Delivered(ReadText(h, c), ts[0], mid, c.sched, m)
    requires var r := ReadText(h, c);
      r.0.Some? ==> Delivered(ReadTexts(h, |ts| - 1, r.1), ts[1..], rest, r.1.sched, n)
    ensures Delivered(ReadTexts(h, |ts|, c), ts, rest, c.sched, m + n)
  {
    assert [ts[0]] + ts[1..] == ts;
    hide ReadText, Up, Moves;
  }

  lemma {:induction false} TextsDelivered(h: Host, ts: seq<Text>, rest: seq<byte>, sched: seq<Status>)
    requires ValidHost(h) && forall j | 0 <= j < |ts| :: TextFits(ts[j])
    ensures Delivered(ReadTexts(h, |ts|, Chan(TextsWire(ts) + rest, sched)), ts, rest, sched, |TextsWire(ts)|)
    decreases |ts|
  {
    if ts == [] {
      assert TextsWire(ts) + rest == rest;
    } else {
      var w := TextsWire(ts[1..]);
      var c := Chan(TextWire(ts[0]) + (w + rest), sched);
      assert TextsWire(ts) + rest == TextWire(ts[0]) + (w + rest);
      hide ReadText, ReadTexts, TextWire, TextsWire, TextFits, Up, Moves;
      TextDelivered(h, ts[0], w + rest, sched);
      var r := ReadText(h, c);
      assert r.0.Some? ==> r.1 == Chan(w + rest, r.1.sched);
      hide Delivered;
      if r.0.Some? {
        TextsDelivered(h, ts[1..], rest, r.1.sched);
      }
      TextsThen(h, ts, c, w + rest, |TextWire(ts[0])|, rest, |w|);
    }
  }

  lemma StrArrayDelivered(h: Host, ts: seq<Text>, rest: seq<byte>, sched: seq<Status>)
    requires ValidHost(h) && Fits(h, StrArray(ts))
    ensures Delivered(ReadStrArray(h, Chan(Wire(StrArray(ts)) + rest, sched)), ts, rest, sched, |Wire(StrArray(ts))|)
  {
    assert Power(4) == 0x1_0000_0000;
    var l, w := BigEndian(|ts|, CanonicalSize(UINT)), TextsWire(ts);
    var c := Chan(l + (w + rest), sched);
    assert Wire(StrArray(ts)) + rest == l + (w + rest);
    ScalarDelivered(h, UINT, |ts|, w + rest, sched);
    var r := ReadScalar(h, UINT, c);
    if r.0.Some? {
      TextsDelivered(h, ts, rest, r.1.sched);
      assert r.1 == Chan(w + rest, r.1.sched);
    }
    hide ReadScalar, ReadTexts, TextsWire, Up, Moves, BigEndian;
    Then(r, |ts|, w + rest, sched, |l|, ReadStrArray(h, c), ts, rest, |w|);
  }

  predicate EmptyArray(i: Item) {
    i.Array? && i.vs == []
  }

  // An array of no values sends nothing, and its accept always fails.
  lemma EmptyArrayFails(h: Host, i: Item, c: Chan)
    requires EmptyArray(i)
    ensures Wire(i) == [] && Read(h, ShapeOf(i), c).0.None?
  {
  }

  predicate NoEmptyArray(items: seq<Item>) {
    items == [] || (!EmptyArray(items[0]) && NoEmptyArray(items[1..]))
  }

  predicate AllFit(h: Host, items: seq<Item>) {
    items == [] || (Fits(h, items[0]) && AllFit(h, items[1..]))
  }

  lemma ItemDelivered(h: Host, i: Item, rest: seq<byte>, sched: seq<Status>)
    requires ValidHost(h) && Fits(h, i) && !EmptyArray(i)
    ensures Delivered(Read(h, ShapeOf(i), Chan(Wire(i) + rest, sched)), i, rest, sched, |Wire(i)|)
  {
    match i
    case Scalar(k, v) => ScalarDelivered(h, k, v, rest, sched);
    case Array(k, vs) => ArrayDelivered(h, k, vs, rest, sched);
    case Str(t) => TextDelivered(h, t, rest, sched);
    case StrArray(ts) => StrArrayDelivered(h, ts, rest, sched);
    hide ReadScalar, ReadArray, ReadText, ReadStrArray, Up, Moves, BigEndian, TextWire, TextsWire, Digits;
  }

  /** Whatever the reader's byte order and word sizes, and however the transport splits the
      bytes: a run of accepts matching what was sent gives the same values and stops exactly
      behind them, or gives nothing because the connection broke. */
  lemma {:induction false} StreamRoundTrip(h: Host, items: seq<Item>, rest: seq<byte>, sched: seq<Status>)
    requires ValidHost(h) && AllFit(h, items) && NoEmptyArray(items)
    ensures var w := WireAll(items);
      Delivered(ReadAll(h, Shapes(items), Chan(w + rest, sched)), items, rest, sched, |w|)
    decreases |items|
  {
    if items == [] {
      assert WireAll(items) + rest == rest;
    } else {
      var w := WireAll(items[1..]);
      var c := Chan(Wire(items[0]) + (w + rest), sched);
      assert WireAll(items) + rest == Wire(items[0]) + (w + rest);
      assert [items[0]] + items[1..] == items;
      assert Shapes(items)[1..] == Shapes(items[1..]);
      hide Read, Wire, WireAll, ShapeOf, Up, Moves;
      ItemDelivered(h, items[0], w + rest, sched);
      var r := Read(h, ShapeOf(items[0]), c);
      if r.0.Some? {
        StreamRoundTrip(h, items[1..], rest, r.1.sched);
        assert r.1 == Chan(w + rest, r.1.sched);
      }
      Then(r, items[0], w + rest, sched, |Wire(items[0])|, ReadAll(h, Shapes(items), c), items, rest, |w|);
    }
  }

  function Shapes(items: seq<Item>): (r: seq<Shape>) {
    if items == [] then [] else [ShapeOf(items[0])] + Shapes(items[1..])
  }

  /** Over a connection that stays up the round trip completes exactly when no array is empty. */
  lemma {:induction false} CompletesExactly(h: Host, items: seq<Item>, rest: seq<byte>, sched: seq<Status>)
    requires ValidHost(h) && AllFit(h, items)
    requires Up(sched) && |WireAll(items)| <= Moves(sched)
    ensures var r := ReadAll(h, Shapes(items), Chan(WireAll(items) + rest, sched));
      if NoEmptyArray(items) then r.0 == Some(items) && r.1.pending == rest else r.0.None?
    decreases |items|
  {
    hide Up, Moves, Fits, Wire, Read;
    if NoEmptyArray(items) {
      StreamRoundTrip(h, items, rest, sched);
    } else if EmptyArray(items[0]) {
      EmptyArrayFails(h, items[0], Chan(WireAll(items) + rest, sched));
    } else {
      var w := WireAll(items[1..]);
      assert WireAll(items) + rest == Wire(items[0]) + (w + rest);
      assert Shapes(items)[1..] == Shapes(items[1..]);
      hide Read, Wire, WireAll, ShapeOf, Up, Moves, Fits, Delivered;
      var last := FirstRead(h, items[0], w + rest, sched, |w|);
      CompletesExactly(h, items[1..], rest, last);
    }
  }

  lemma FirstRead(h: Host, i: Item, rest: seq<byte>, sched: seq<Status>, n: nat) returns (last: seq<Status>)
    requires ValidHost(h) && Fits(h, i) && !EmptyArray(i) && Up(sched) && |Wire(i)| + n <= Moves(sched)
    ensures Read(h, ShapeOf(i), Chan(Wire(i) + rest, sched)) == (Some(i), Chan(rest, last))
    ensures Up(last) && n <= Moves(last)
  {
    ItemDelivered(h, i, rest, sched);
    hide Read, Wire, Up, Moves, Fits;
    last := Read(h, ShapeOf(i), Chan(Wire(i) + rest, sched)).1.sched;
  }
}

/**
 Sender and receiver together: a run of items sent by one host over a connection that may break off
 anywhere, and what the matching run of accepts makes of the bytes that got through.
 */
module IpcExchange {
  import opened Basics
  import opened IpcCodec
  import opened IpcTransport
  import opened IpcChannel
  import opened IpcPrims

  // The items a run of accepts gets before it gives up.
  function Accepted(h: Host, shapes: seq<Shape>, c: Chan): (items: seq<Item>)
    ensures |items| <= |shapes|
    decreases |shapes|
  {
    if shapes == [] then [] else
      var (i, next) := Read(h, shapes[0], c);
      if i.None? then [] else [i.value] + Accepted(h, shapes[1..], next)
  }

  lemma {:induction false} AcceptedAll(h: Host, shapes: seq<Shape>, c: Chan)
    ensures ReadAll(h, shapes, c).0.Some? <==> |Accepted(h, shapes, c)| == |shapes|
    ensures ReadAll(h, shapes, c).0.Some? ==> ReadAll(h, shapes, c).0.value == Accepted(h, shapes, c)
    decreases |shapes|
  {
    hide Read;
    if shapes != [] && Read(h, shapes[0], c).0.Some? {
      AcceptedAll(h, shapes[1..], Read(h, shapes[0], c).1);
    }
  }

  // ---- Reading from a stream that has been cut ----

  // What is read from the cut stream is read from the whole one too, and leaves them alike.
  ghost predicate Agrees<T>(r: (Option<T>, Chan), q: (Option<T>, Chan)) {
    r.0.Some? ==> q.0 == r.0 && r.1.sched == q.1.sched && r.1.pending <= q.1.pending
  }

  predicate CutOf(c: Chan, d: Chan) {
    c.pending <= d.pending && c.sched == d.sched
  }

  lemma {:induction false} TransferCut(sched: seq<Status>, n: nat, a: nat, b: nat)
    requires n <= a && n <= b
    ensures Transfer(sched, n, a, true) == Transfer(sched, n, b, true)
    decreases |sched|
  {
    if n > 0 && sched != [] {
      if sched[0].Interrupted? {
        TransferCut(sched[1..], n, a, b);
      } else if sched[0].Moved? {
        var m := Min(sched[0].count, n);
        TransferCut(sched[1..], n - m, a - m, b - m);
      }
    }
  }

  lemma ReceiveCut(c: Chan, d: Chan, n: nat)
    requires CutOf(c, d)
    ensures Agrees(Receive(c, n), Receive(d, n))
  {
    if Receive(c, n).0.Some? {
      TransferCut(c.sched, n, |c.pending|, |d.pending|);
      TransferExactly(c.sched, n, |c.pending|);
      assert c.pending[..n] == d.pending[..n] && c.pending[n..] <= d.pending[n..];
    }
    hide Transfer;
  }

  lemma ScalarCut(h: Host, k: Kind, c: Chan, d: Chan)
    requires CutOf(c, d)
    ensures Agrees(ReadScalar(h, k, c), ReadScalar(h, k, d))
  {
    ReceiveCut(c, d, CanonicalSize(k));
    hide Receive, Decode;
  }

  lemma ArrayCut(h: Host, k: Kind, n: nat, c: Chan, d: Chan)
    requires CutOf(c, d)
    ensures Agrees(ReadArray(h, k, n, c), ReadArray(h, k, n, d))
  {
    ReceiveCut(c, d, n * CanonicalSize(k));
    hide Receive, DecodeAll;
  }

  lemma TextCut(h: Host, c: Chan, d: Chan)
    requires CutOf(c, d)
    ensures Agrees(ReadText(h, c), ReadText(h, d))
  {
    hide Receive, ReadScalar;
    ScalarCut(h, INT, c, d);
    var (length, next) := ReadScalar(h, INT, c);
    if length.Some? {
      ReceiveCut(next, ReadScalar(h, INT, d).1, length.value);
    }
  }

  lemma {:induction false} TextsCut(h: Host, n: nat, c: Chan, d: Chan)
    requires CutOf(c, d)
    ensures Agrees(ReadTexts(h, n, c), ReadTexts(h, n, d))
    decreases n
  {
    hide ReadText;
    if n > 0 {
      TextCut(h, c, d);
      if ReadText(h, c).0.Some? {
        TextsCut(h, n - 1, ReadText(h, c).1, ReadText(h, d).1);
      }
    }
  }

  lemma ReadCut(h: Host, shape: Shape, c: Chan, d: Chan)
    requires CutOf(c, d)
    ensures Agrees(Read(h, shape, c), Read(h, shape, d))
  {
    hide ReadScalar, ReadArray, ReadText, ReadTexts;
    match shape
    case ScalarShape(k) => ScalarCut(h, k, c, d);
    case ArrayShape(k, n) => ArrayCut(h, k, n, c, d);
    case StrShape => TextCut(h, c, d);
    case StrArrayShape =>
      ScalarCut(h, UINT, c, d);
      var (length, next) := ReadScalar(h, UINT, c);
      if length.Some? {
        TextsCut(h, length.value, next, ReadScalar(h, UINT, d).1);
      }
  }

  // The next item, if it is read at all from what got through.
  lemma FirstOfBroken(h: Host, i: Item, got: seq<byte>, rest: seq<byte>, sched: seq<Status>)
    requires ValidHost(h) && Fits(h, i) && got <= Wire(i) + rest
    ensures var r := Read(h, ShapeOf(i), Chan(got, sched));
      r.0.Some? ==> r.0.value == i && r.1.pending <= rest
  {
    hide Read, Wire, Fits;
    ReadCut(h, ShapeOf(i), Chan(got, sched), Chan(Wire(i) + rest, sched));
    if EmptyArray(i) {
      EmptyArrayFails(h, i, Chan(got, sched));
    } else {
      ItemDelivered(h, i, rest, sched);
    }
  }

  /** Whatever part of the bytes gets through, and however it is split, the items accepted are the
      first of those sent. */
  lemma {:induction false} BrokenOff(h: Host, items: seq<Item>, got: seq<byte>, sched: seq<Status>)
    requires ValidHost(h) && AllFit(h, items) && got <= WireAll(items)
    ensures Accepted(h, Shapes(items), Chan(got, sched)) <= items
    decreases |items|
  {
    hide Read, Wire, Fits, ShapeOf;
    if items != [] {
      FirstOfBroken(h, items[0], got, WireAll(items[1..]), sched);
      var r := Read(h, ShapeOf(items[0]), Chan(got, sched));
      assert Shapes(items)[1..] == Shapes(items[1..]);
      if r.0.Some? {
        BrokenOff(h, items[1..], r.1.pending, r.1.sched);
        assert items == [items[0]] + items[1..];
      }
    }
  }

  // ---- Both ends ----

  method SendItem(h: Host, i: Item, ch: WSocketChan) returns (result: int)
    requires ValidHost(h) && Fits(h, i)
    modifies ch
    ensures Sent(old(ch.stream), old(ch.sched), Wire(i), result, ch.stream, ch.sched)
  {
    hide Sent;
    match i {
      case Scalar(k, v) => result := SendScalar(h, k, v, ch);
      case Array(k, vs) => result := SendArray(h, k, vs, ch);
      case Str(t) => result := SendText(h, t, ch);
      case StrArray(ts) => result := SendStrArray(h, ts, ch);
    }
  }

  // A client's run of sends, given up at the first that fails.
  method SendItems(h: Host, items: seq<Item>, ch: WSocketChan) returns (result: int)
    requires ValidHost(h) && AllFit(h, items)
    modifies ch
    ensures Sent(old(ch.stream), old(ch.sched), WireAll(items), result, ch.stream, ch.sched)
    decreases |items|
  {
    hide Wire, Fits;
    ghost var a, p := ch.stream, ch.sched;
    if items == [] {
      return 0;
    }
    result := SendItem(h, items[0], ch);
    ghost var b, q := ch.stream, ch.sched;
    ResultOf(a, p, Wire(items[0]), result, b, q);
    hide Sent;
    if result == -1 {
      SentShort(a, p, Wire(items[0]), b, q, WireAll(items[1..]));
      return -1;
    }
    result := SendItems(h, items[1..], ch);
    SentThen(a, p, Wire(items[0]), b, q, WireAll(items[1..]), result, ch.stream, ch.sched);
  }

  method AcceptItem(h: Host, shape: Shape, ch: RSocketChan) returns (i: Option<Item>)
    requires ValidHost(h)
    modifies ch
    ensures (i, View(ch)) == Read(h, shape, old(View(ch)))
  {
    hide ReadScalar, ReadArray, ReadText, ReadStrArray;
    var ok;
    match shape {
      case ScalarShape(k) =>
        var v;
        ok, v := AcceptScalar(h, k, ch);
        i := if ok == -1 then None else Some(Scalar(k, v));
      case ArrayShape(k, n) =>
        var vs;
        ok, vs := AcceptArray(h, k, n, ch);
        i := if ok == -1 then None else Some(Array(k, vs));
      case StrShape =>
        var t;
        ok, t := AcceptText(h, ch);
        i := if ok == -1 then None else Some(Str(t));
      case StrArrayShape =>
        var ts;
        ok, ts := AcceptStrArray(h, ch);
        i := if ok == -1 then None else Some(StrArray(ts));
    }
  }

  method AcceptItems(h: Host, shapes: seq<Shape>, ch: RSocketChan) returns (items: seq<Item>)
    requires ValidHost(h)
    modifies ch
    ensures items == Accepted(h, shapes, old(View(ch)))
    decreases |shapes|
  {
    hide Read;
    if shapes == [] {
      return [];
    }
    var i := AcceptItem(h, shapes[0], ch);
    if i.None? {
      return [];
    }
    items := AcceptItems(h, shapes[1..], ch);
    items := [i.value] + items;
  }

  /** Host hs sends the items and host hr accepts what got through: hr has the first of them, and
      all when both connections stay up and no array is empty. */
  method Exchange(hs: Host, hr: Host, items: seq<Item>, sending: seq<Status>, receiving: seq<Status>)
    returns (result: int, got: seq<Item>)
    requires ValidHost(hs) && ValidHost(hr) && AllFit(hs, items) && AllFit(hr, items)
    ensures got <= items
    ensures var n := |WireAll(items)|;
      Up(sending) && n <= Moves(sending) && Up(receiving) && n <= Moves(receiving) ==>
        result == 0 && (NoEmptyArray(items) <==> got == items)
  {
    hide Read, Wire, Fits, Up, Moves, ShapeOf;
    var w := new WSocketChan(sending);
    result := SendItems(hs, items, w);
    ArrivedPart(sending, WireAll(items), result, w.stream, w.sched);
    var r := new RSocketChan(receiving, w.stream);
    got := AcceptItems(hr, Shapes(items), r);
    BrokenOff(hr, items, w.stream, receiving);
    if w.stream == WireAll(items) && Up(receiving) && |WireAll(items)| <= Moves(receiving) {
      AllArrived(hr, items, receiving);
    }
  }

  lemma ArrivedPart(p: seq<Status>, wire: seq<byte>, result: int, stream: seq<byte>, q: seq<Status>)
    requires Sent([], p, wire, result, stream, q)
    ensures stream <= wire
    ensures Up(p) && |wire| <= Moves(p) ==> result == 0 && stream == wire
  {
    hide Up, Moves;
    assert [] + wire == wire && [] + wire[..|stream|] == wire[..|stream|];
  }

  lemma AllArrived(h: Host, items: seq<Item>, sched: seq<Status>)
    requires ValidHost(h) && AllFit(h, items) && Up(sched) && |WireAll(items)| <= Moves(sched)
    ensures NoEmptyArray(items) <==> Accepted(h, Shapes(items), Chan(WireAll(items), sched)) == items
  {
    hide Read, Wire, Fits, Up, Moves, ShapeOf;
    assert WireAll(items) + [] == WireAll(items);
    CompletesExactly(h, items, [], sched);
    AcceptedAll(h, Shapes(items), Chan(WireAll(items), sched));
    ShapesLength(items);
  }

  lemma {:induction false} ShapesLength(items: seq<Item>)
    ensures |Shapes(items)| == |items|
  {
    if items != [] {
      ShapesLength(items[1..]);
    }
  }
}

/**
 Simulator and parser together: the messages the simulator queues are the messages the parser
 hands on, in order, as long as no frame ends just after a message's type word.  From 20 frames a
 second on, or when message 3 is not simulated, no frame ever does; below that, some frame does.
 */
module GpsComposition {
  import opened GpsParser
  import opened GpsStream
  import opened GpsSimulator
  import opened Basics

  lemma StatusWellFormed(mode: Word)
    ensures WellFormed(StatusMsg(mode))
  {
    HeaderSums(TYPE_STATUS);
  }

  lemma NavWellFormed(data: seq<Word>)
    requires |data| == NAV_DATA_WORDS
    ensures WellFormed(NavMsg(data))
  {
    HeaderSums(TYPE_NAV);
  }

  lemma HeaderSums(ty: Word)
    requires MsgType(ty)
    ensures HeaderSum(Header(ty)) % 0x1_0000 == 0
  {
    var h := Header(ty);
    assert h[..4] == [MAGIC, ty, MsgWords(ty) - 6, 0x8000];
    SumPrefix(h, h[..4], 4);
    ChecksumMeansZeroSum(h);
  }

  predicate AllWellFormed(ms: seq<seq<Word>>) {
    forall m <- ms :: WellFormed(m)
  }

  // ---- Runs of the simulator: frame n, n + 1, ... with the given navigation data, each written
  // into an image whose own GPS area is empty, as that of a simulated image is ----

  predicate NavData(datas: seq<seq<Word>>) {
    forall d <- datas :: |d| == NAV_DATA_WORDS
  }

  function Frames(cfg: Config, s: Sim, n: nat, datas: seq<seq<Word>>): (fs: seq<seq<Word>>)
    requires NavData(datas)
    ensures forall f <- fs :: |f| <= CHUNK_WORDS
    decreases |datas|
  {
    if datas == [] then []
    else [Emitted(cfg, s, n, datas[0])] + Frames(cfg, Next(cfg, s, n, datas[0]), n + 1, datas[1..])
  }

  function Queued(cfg: Config, s: Sim, n: nat, datas: seq<seq<Word>>): (ms: seq<seq<Word>>)
    requires NavData(datas)
    decreases |datas|
  {
    if datas == [] then []
    else Added(cfg, s, n, datas[0]) + Queued(cfg, Next(cfg, s, n, datas[0]), n + 1, datas[1..])
  }

  function After(cfg: Config, s: Sim, n: nat, datas: seq<seq<Word>>): (r: Sim)
    requires NavData(datas)
    ensures |s.left| <= QUEUE_WORDS ==> |r.left| <= QUEUE_WORDS
    decreases |datas|
  {
    if datas == [] then s else After(cfg, Next(cfg, s, n, datas[0]), n + 1, datas[1..])
  }

  lemma FlattenOne(m: seq<Word>)
    ensures Flatten([m]) == m
  {
  }

  lemma AddedToQueue(cfg: Config, s: Sim, n: nat, data: seq<Word>)
    requires |data| == NAV_DATA_WORDS
    ensures Queue(cfg, s, n, data).left == s.left + Flatten(Added(cfg, s, n, data))
    ensures AllWellFormed(Added(cfg, s, n, data))
  {
    var t := AddStatus(cfg, s, n);
    var status, nav := StatusMsg(Mode(cfg, n)), NavMsg(Shown(t.mode, data));
    StatusWellFormed(Mode(cfg, n));
    NavWellFormed(Shown(t.mode, data));
    hide StatusMsg, NavMsg, WellFormed, Shown;
    FlattenOne(status);
    FlattenOne(nav);
    FlattenAppend([status], [nav]);
    var ms := Added(cfg, s, n, data);
    if StatusDue(cfg, s, n) && NavDue(cfg, t, n) {
      assert ms == [status] + [nav];
    } else {
      assert ms == [status] || ms == [nav] || ms == [];
    }
  }

  lemma FrameConserved(cfg: Config, s: Sim, n: nat, data: seq<Word>)
    requires |data| == NAV_DATA_WORDS
    ensures s.left + Flatten(Added(cfg, s, n, data)) == Emitted(cfg, s, n, data) + Next(cfg, s, n, data).left
  {
    AddedToQueue(cfg, s, n, data);
  }

  lemma Regroup<T>(a: seq<T>, b: seq<T>, c: seq<T>, e: seq<T>, r: seq<T>, g: seq<T>, h: seq<T>)
    requires a + b == e + r && r + c == g + h
    ensures a + (b + c) == (e + g) + h
  {
    assert a + (b + c) == (a + b) + c;
    assert (e + r) + c == e + (r + c);
    assert e + (g + h) == (e + g) + h;
  }

  /** Nothing queued is lost, repeated or reordered on its way out. */
  lemma {:induction false} WordsConserved(cfg: Config, s: Sim, n: nat, datas: seq<seq<Word>>)
    requires NavData(datas)
    ensures s.left + Flatten(Queued(cfg, s, n, datas)) ==
            Flatten(Frames(cfg, s, n, datas)) + After(cfg, s, n, datas).left
    decreases |datas|
  {
    hide Next, Added, Emitted;
    if datas == [] {
      assert s.left + [] == [] + s.left;
    } else {
      var r, added := Next(cfg, s, n, datas[0]), Added(cfg, s, n, datas[0]);
      var fs, ms := Frames(cfg, r, n + 1, datas[1..]), Queued(cfg, r, n + 1, datas[1..]);
      FrameConserved(cfg, s, n, datas[0]);
      WordsConserved(cfg, r, n + 1, datas[1..]);
      FlattenAppend(added, ms);
      Regroup(s.left, Flatten(added), Flatten(ms), Emitted(cfg, s, n, datas[0]), r.left,
              Flatten(fs), After(cfg, s, n, datas).left);
    }
  }

  // ---- The parser in the middle of a queue of messages ----

  // All words before the first off words of ms[0] have been consumed, and those off words too.
  predicate At(p: Parser, ms: seq<seq<Word>>, off: nat) {
    && Shape(p)
    && AllWellFormed(ms)
    && off <= p.seen
    && if off == 0 then p.state == 0 else ms != [] && off < |ms[0]| && Inside(p, ms[0], off)
  }

  // How many messages the first e words of the queue complete, and how far into the next they reach.
  function Whole(ms: seq<seq<Word>>, e: nat): (k: nat)
    ensures k <= |ms|
  {
    if ms == [] || e < |ms[0]| then 0 else 1 + Whole(ms[1..], e - |ms[0]|)
  }

  function Offset(ms: seq<seq<Word>>, e: nat): (o: nat) {
    if ms == [] || e < |ms[0]| then e else Offset(ms[1..], e - |ms[0]|)
  }

  // The messages ms, the first of which begins at stream position at.
  function Deliveries(at: nat, ms: seq<seq<Word>>): (ds: seq<Delivery>)
    ensures |ds| == |ms|
    decreases |ms|
  {
    if ms == [] then [] else [Delivery(at, ms[0])] + Deliveries(at + |ms[0]|, ms[1..])
  }

  lemma {:induction false} StartRun(p: Parser, prev: Word, m: seq<Word>, c: nat)
    requires Shape(p) && p.state == 0 && WellFormed(m) && c <= |m|
    ensures var r := Run(p, prev, m[..c]);
      if c == 0 then r == p
      else if c < |m| then Inside(r, m, c) && r.out == p.out
      else r.state == 0 && r.out == p.out + [Delivery(p.seen, m)]
  {
    if c > 0 {
      var q := Step(p, prev, m[0]);
      assert m[..1] == [MAGIC] && Inside(q, m, 1);
      assert m[..c][0] == m[0] && m[..c][1..] == m[1..c];
      if c > 1 {
        InsideRun(Step(q, MAGIC, m[1]), m[1], m, 2, c);
      }
    }
  }

  // r is what becomes of p when the queue's words off..e have been consumed.
  predicate Heard(p: Parser, r: Parser, ms: seq<seq<Word>>, off: nat, e: nat) {
    var k := Whole(ms, e);
    && off <= p.seen
    && At(r, ms[k..], Offset(ms, e))
    && r.out == p.out + Deliveries(p.seen - off, ms[..k])
  }

  lemma HeardPart(p: Parser, r: Parser, ms: seq<seq<Word>>, off: nat, e: nat)
    requires off <= p.seen && At(r, ms, e) && r.out == p.out && (ms == [] || e < |ms[0]|)
    ensures Heard(p, r, ms, off, e)
  {
    assert ms[..0] == [] && ms[0..] == ms;
  }

  lemma HeardMore(p: Parser, q: Parser, r: Parser, ms: seq<seq<Word>>, off: nat, e: nat)
    requires ms != [] && off <= |ms[0]| <= e && off <= p.seen && q.seen == p.seen - off + |ms[0]|
    requires q.out == p.out + [Delivery(p.seen - off, ms[0])]
    requires Heard(q, r, ms[1..], 0, e - |ms[0]|)
    ensures Heard(p, r, ms, off, e)
  {
    DeliveriesCons(p.out, p.seen - off, ms, Whole(ms[1..], e - |ms[0]|));
  }

  // What is left of the first message.
  lemma ConsumeFirst(p: Parser, prev: Word, ms: seq<seq<Word>>, off: nat)
    requires At(p, ms, off) && ms != [] && (off == 2 ==> prev == ms[0][1])
    ensures off <= |ms[0]| && off <= p.seen && Shape(p)
    ensures var q := Run(p, prev, ms[0][off..|ms[0]|]);
      && At(q, ms[1..], 0) && q.seen == p.seen - off + |ms[0]|
      && q.out == p.out + [Delivery(p.seen - off, ms[0])]
  {
    hide Step, Shape, Inside;
    assert ms[0] in ms;
    MessageLength(ms[0]);
    InsideOrIdle(p, prev, ms[0], off, |ms[0]|);
  }

  // A part of it only.
  lemma ConsumePart(p: Parser, prev: Word, ms: seq<seq<Word>>, off: nat, e: nat)
    requires At(p, ms, off) && ms != [] && off <= e < |ms[0]| && (off == 2 && e > 2 ==> prev == ms[0][1])
    ensures Heard(p, Run(p, prev, ms[0][off..e]), ms, off, e)
  {
    hide Step, Shape, Inside, Heard;
    assert ms[0] in ms;
    InsideOrIdle(p, prev, ms[0], off, e);
    HeardPart(p, Run(p, prev, ms[0][off..e]), ms, off, e);
  }

  lemma {:induction false} Consume(p: Parser, prev: Word, ms: seq<seq<Word>>, off: nat, e: nat)
    requires At(p, ms, off) && off <= e <= |Flatten(ms)|
    requires off == 2 && e > 2 ==> prev == ms[0][1]
    ensures Heard(p, Run(p, prev, Flatten(ms)[off..e]), ms, off, e)
    decreases |ms|
  {
    hide Step, Shape, Inside, Heard, AllWellFormed;
    if ms == [] {
      HeardPart(p, p, ms, off, e);
    } else {
      hide At, Run;
      var m, rest := ms[0], ms[1..];
      if e < |m| {
        ConsumePart(p, prev, ms, off, e);
        assert Flatten(ms)[off..e] == m[off..e];
      } else {
        ConsumeFirst(p, prev, ms, off);
        var a, b := m[off..|m|], Flatten(rest)[0..e - |m|];
        var q := Run(p, prev, a);
        FlattenSplit(ms, off, e);
        RunAppend(p, prev, a, b);
        Consume(q, LastOr(prev, a), rest, 0, e - |m|);
        HeardMore(p, q, Run(q, LastOr(prev, a), b), ms, off, e);
      }
    }
  }

  lemma FlattenSplit(ms: seq<seq<Word>>, off: nat, e: nat)
    requires ms != [] && off <= |ms[0]| <= e <= |Flatten(ms)|
    ensures Flatten(ms)[off..e] == ms[0][off..|ms[0]|] + Flatten(ms[1..])[0..e - |ms[0]|]
  {
  }

  lemma DeliveriesCons(out: seq<Delivery>, at: nat, ms: seq<seq<Word>>, k: nat)
    requires k < |ms|
    ensures out + Deliveries(at, ms[..k + 1]) == out + [Delivery(at, ms[0])] + Deliveries(at + |ms[0]|, ms[1..][..k])
    ensures ms[k + 1..] == ms[1..][k..]
  {
    assert ms[..k + 1][1..] == ms[1..][..k];
    assert Deliveries(at, ms[..k + 1]) == [Delivery(at, ms[0])] + Deliveries(at + |ms[0]|, ms[1..][..k]);
  }

  // Words off..c of the message m, the first off of which have been consumed.
  lemma InsideOrIdle(p: Parser, prev: Word, m: seq<Word>, off: nat, c: nat)
    requires Shape(p) && WellFormed(m) && off <= c <= |m| && off <= p.seen
    requires if off == 0 then p.state == 0 else off < |m| && Inside(p, m, off)
    requires off == 2 && c > 2 ==> prev == m[1]
    ensures var r := Run(p, prev, m[off..c]);
      if c == 0 then r == p
      else if c < |m| then Inside(r, m, c) && r.out == p.out
      else r.state == 0 && r.out == p.out + [Delivery(p.seen - off, m)]
  {
    if off == 0 {
      StartRun(p, prev, m, c);
      assert m[0..c] == m[..c];
    } else {
      InsideRun(p, prev, m, off, c);
    }
  }

  lemma {:induction false} QueuedWellFormed(cfg: Config, s: Sim, n: nat, datas: seq<seq<Word>>)
    requires NavData(datas)
    ensures AllWellFormed(Queued(cfg, s, n, datas))
    decreases |datas|
  {
    if datas != [] {
      AddedToQueue(cfg, s, n, datas[0]);
      QueuedWellFormed(cfg, Next(cfg, s, n, datas[0]), n + 1, datas[1..]);
    }
  }

  /** If no length word is lost at a frame boundary, the parser hands on exactly the simulated
      messages, in order, each as soon as its last word has been emitted. */
  lemma SimulatedMessagesHeard(cfg: Config, n: nat, datas: seq<seq<Word>>)
    requires NavData(datas)
    requires NoLengthLost(START, Frames(cfg, IDLE, n, datas))
    ensures var fs, ms := Frames(cfg, IDLE, n, datas), Queued(cfg, IDLE, n, datas);
      ParseFrames(START, fs).out == Deliveries(0, ms[..Whole(ms, |Flatten(fs)|)])
  {
    hide Frames, Queued, Run, ParseFrames, AllWellFormed, Flatten, Whole, Offset, Deliveries;
    var fs, ms := Frames(cfg, IDLE, n, datas), Queued(cfg, IDLE, n, datas);
    var e := |Flatten(fs)|;
    QueuedWellFormed(cfg, IDLE, n, datas);
    WordsConserved(cfg, IDLE, n, datas);
    FirstWords(Flatten(ms), Flatten(fs), After(cfg, IDLE, n, datas).left);
    FramesPlain(fs);
    ChunkIndependent(START, fs);
    Consume(START, 0, ms, 0, e);
  }

  lemma FirstWords(a: seq<Word>, b: seq<Word>, c: seq<Word>)
    requires [] + a == b + c
    ensures |b| <= |a| && a[0..|b|] == b
  {
    assert [] + a == a;
  }

  lemma FramesPlain(fs: seq<seq<Word>>)
    requires forall f <- fs :: |f| <= CHUNK_WORDS
    ensures CountsPlain(fs)
  {
  }

  // ---- Fast enough frame rates ----

  // The queue before frame n, as the sizes of the waiting messages and how much of the first one is
  // gone: i and j are how long ago the last navigation and status messages fell due.
  predicate Calm(i: nat, j: nat, ms: seq<seq<Word>>, off: nat) {
    || (ms == [] && off == 0)
    || (|ms| == 2 && |ms[0]| == STATUS_WORDS && |ms[1]| == NAV_WORDS && off == 21 && i == 0 && j == 0)
    || (|ms| == 1 && |ms[0]| == NAV_WORDS &&
        ((off == 21 && i == 0) || (off == 20 && i <= 1 && j == 1) || (off == 13 && i == 0 && 1 <= j <= 2)))
    || (|ms| == 1 && |ms[0]| == STATUS_WORDS && j == 0 && ((off == 14 && i == 1) || (off == 21 && i >= 1)))
  }

  predicate Safe(cfg: Config, n: nat, ms: seq<seq<Word>>, off: nat) {
    if cfg.all then
      (ms == [] && off == 0) || (n >= 1 && Calm((n - 1) % NavInterval(cfg), (n - 1) % cfg.pps, ms, off))
    else
      off % 7 == 0 && (forall m <- ms :: |m| == NAV_WORDS) && (if ms == [] then off == 0 else off < NAV_WORDS)
  }

  predicate FastEnough(cfg: Config) {
    cfg.all ==> cfg.pps >= 20
  }

  lemma ModNext(n: nat, m: nat)
    requires n >= 1 && m >= 1
    ensures n % m == if (n - 1) % m == m - 1 then 0 else (n - 1) % m + 1
  {
    var q, r := (n - 1) / m, (n - 1) % m;
    if r == m - 1 {
      DividesInto(n, m, q + 1, 0);
    } else {
      DividesInto(n, m, q, r + 1);
    }
  }

  // One frame on: c words of the queue ms, the first off of which are gone, are emitted.
  lemma CalmStep(i: nat, j: nat, ms: seq<seq<Word>>, off: nat, i': nat, j': nat, added: seq<seq<Word>>, c: nat)
    requires Calm(i, j, ms, off)
    requires i' == i + 1 || (i' == 0 && (i >= 1 || ms == []))
    requires j' == j + 1 || (j' == 0 && (j >= 19 || ms == []))
    requires |added| == (if j' == 0 then 1 else 0) + (if i' == 0 then 1 else 0)
    requires j' == 0 ==> |added[0]| == STATUS_WORDS
    requires i' == 0 ==> |added[|added| - 1]| == NAV_WORDS
    requires var left := |Flatten(ms + added)| - off; c == if left > CHUNK_WORDS then CHUNK_WORDS else left
    ensures var all, e := ms + added, off + c;
      Calm(i', j', all[Whole(all, e)..], Offset(all, e)) && Offset(all, e) != 2
  {
    var all, e := ms + added, off + c;
    if |all| >= 1 {
      assert Flatten(all) == all[0] + Flatten(all[1..]);
      if |all| >= 2 {
        assert Flatten(all[1..]) == all[1] + Flatten(all[2..]) && all[1..][1..] == all[2..];
      }
    }
  }

  lemma FlattenShort(ms: seq<seq<Word>>)
    requires |ms| <= 2
    ensures |Flatten(ms)| == (if |ms| >= 1 then |ms[0]| else 0) + if |ms| == 2 then |ms[1]| else 0
  {
    if |ms| == 2 {
      assert Flatten(ms[1..]) == ms[1] + Flatten(ms[1..][1..]);
    }
  }

  // In a calm queue there is room for every message as it falls due.
  lemma CalmRoom(i: nat, j: nat, ms: seq<seq<Word>>, off: nat, i': nat, j': nat)
    requires Calm(i, j, ms, off)
    requires i' == i + 1 || (i' == 0 && (i >= 1 || ms == []))
    requires j' == j + 1 || (j' == 0 && (j >= 19 || ms == []))
    ensures var left := |Flatten(ms)| - off;
      && (j' == 0 ==> left + STATUS_WORDS <= QUEUE_WORDS)
      && (i' == 0 ==> left + (if j' == 0 then STATUS_WORDS else 0) + NAV_WORDS <= QUEUE_WORDS)
  {
    FlattenShort(ms);
  }

  predicate Backlog(cfg: Config, s: Sim, ms: seq<seq<Word>>, off: nat) {
    off <= |Flatten(ms)| && s.left == Flatten(ms)[off..]
  }

  // How long ago the messages fell due before frame n, made up if nothing is waiting.
  lemma CalmBefore(cfg: Config, n: nat, ms: seq<seq<Word>>, off: nat) returns (i: nat, j: nat)
    requires cfg.all && cfg.pps >= 20 && Safe(cfg, n, ms, off)
    ensures Calm(i, j, ms, off)
    ensures var i', j' := n % NavInterval(cfg), n % cfg.pps;
      && (i' == i + 1 || (i' == 0 && (i >= 1 || ms == [])))
      && (j' == j + 1 || (j' == 0 && (j >= 19 || ms == [])))
  {
    var i', j' := n % NavInterval(cfg), n % cfg.pps;
    if ms == [] {
      i, j := if i' == 0 then 0 else i' - 1, if j' == 0 then 0 else j' - 1;
    } else {
      i, j := (n - 1) % NavInterval(cfg), (n - 1) % cfg.pps;
      ModNext(n, NavInterval(cfg));
      ModNext(n, cfg.pps);
    }
  }

  lemma CalmFrame(cfg: Config, s: Sim, n: nat, data: seq<Word>, ms: seq<seq<Word>>, off: nat)
    requires cfg.all && cfg.pps >= 20 && |data| == NAV_DATA_WORDS
    requires Safe(cfg, n, ms, off) && Backlog(cfg, s, ms, off)
    ensures var all, e := ms + Added(cfg, s, n, data), off + |Emitted(cfg, s, n, data)|;
      Safe(cfg, n + 1, all[Whole(all, e)..], Offset(all, e)) && Offset(all, e) != 2
  {
    hide StatusMsg, NavMsg, WellFormed, Whole, Offset, Calm;
    var i', j' := n % NavInterval(cfg), n % cfg.pps;
    var i, j := CalmBefore(cfg, n, ms, off);
    CalmRoom(i, j, ms, off, i', j');
    var added := Added(cfg, s, n, data);
    AddedToQueue(cfg, s, n, data);
    FlattenAppend(ms, added);
    CalmStep(i, j, ms, off, i', j', added, |Emitted(cfg, s, n, data)|);
  }

  lemma {:induction false} Sevens(ms: seq<seq<Word>>, e: nat)
    requires (forall m <- ms :: |m| == NAV_WORDS) && e % 7 == 0 && e <= |Flatten(ms)|
    ensures |Flatten(ms)| % 7 == 0 && Offset(ms, e) % 7 == 0
    ensures if ms[Whole(ms, e)..] == [] then Offset(ms, e) == 0 else Offset(ms, e) < NAV_WORDS
  {
    if ms != [] {
      if e < |ms[0]| {
        Sevens(ms[1..], 0);
      } else {
        Sevens(ms[1..], e - |ms[0]|);
        assert ms[Whole(ms, e)..] == ms[1..][Whole(ms[1..], e - |ms[0]|)..];
      }
    }
  }

  lemma SevensFrame(cfg: Config, s: Sim, n: nat, data: seq<Word>, ms: seq<seq<Word>>, off: nat)
    requires !cfg.all && |data| == NAV_DATA_WORDS
    requires Safe(cfg, n, ms, off) && Backlog(cfg, s, ms, off)
    ensures var all, e := ms + Added(cfg, s, n, data), off + |Emitted(cfg, s, n, data)|;
      Safe(cfg, n + 1, all[Whole(all, e)..], Offset(all, e)) && Offset(all, e) != 2
  {
    hide StatusMsg, NavMsg, WellFormed, Whole, Offset, Flatten;
    var added := Added(cfg, s, n, data);
    AddedToQueue(cfg, s, n, data);
    FlattenAppend(ms, added);
    SevensStep(ms, off, added, |Emitted(cfg, s, n, data)|);
  }

  lemma SevensStep(ms: seq<seq<Word>>, off: nat, added: seq<seq<Word>>, c: nat)
    requires off % 7 == 0 && (forall m <- ms + added :: |m| == NAV_WORDS) && off <= |Flatten(ms + added)|
    requires var left := |Flatten(ms + added)| - off; c == if left > CHUNK_WORDS then CHUNK_WORDS else left
    ensures var all, e := ms + added, off + c;
      && Offset(all, e) % 7 == 0
      && (if all[Whole(all, e)..] == [] then Offset(all, e) == 0 else Offset(all, e) < NAV_WORDS)
  {
    Sevens(ms + added, 0);
    Sevens(ms + added, off + c);
  }

  lemma SafeFrame(cfg: Config, s: Sim, n: nat, data: seq<Word>, ms: seq<seq<Word>>, off: nat)
    requires FastEnough(cfg) && |data| == NAV_DATA_WORDS
    requires Safe(cfg, n, ms, off) && Backlog(cfg, s, ms, off)
    ensures var all, e := ms + Added(cfg, s, n, data), off + |Emitted(cfg, s, n, data)|;
      Safe(cfg, n + 1, all[Whole(all, e)..], Offset(all, e)) && Offset(all, e) != 2
  {
    if cfg.all {
      CalmFrame(cfg, s, n, data, ms, off);
    } else {
      SevensFrame(cfg, s, n, data, ms, off);
    }
  }

  lemma {:induction false} RestOfQueue(ms: seq<seq<Word>>, e: nat)
    requires e <= |Flatten(ms)|
    ensures var rest, o := Flatten(ms[Whole(ms, e)..]), Offset(ms, e);
      o <= |rest| && Flatten(ms)[e..] == rest[o..]
  {
    if ms != [] && e >= |ms[0]| {
      RestOfQueue(ms[1..], e - |ms[0]|);
      assert Flatten(ms)[e..] == Flatten(ms[1..])[e - |ms[0]|..];
      assert ms[Whole(ms, e)..] == ms[1..][Whole(ms[1..], e - |ms[0]|)..];
    } else {
      assert ms[0..] == ms;
    }
  }

  // One frame of the simulator, seen from the queue.
  lemma QueueFrame(cfg: Config, s: Sim, n: nat, data: seq<Word>, ms: seq<seq<Word>>, off: nat)
    requires |data| == NAV_DATA_WORDS && Backlog(cfg, s, ms, off)
    ensures var f := Emitted(cfg, s, n, data);
      var all, e := ms + Added(cfg, s, n, data), off + |f|;
      && e <= |Flatten(all)| && Flatten(all)[off..e] == f
      && Backlog(cfg, Next(cfg, s, n, data), all[Whole(all, e)..], Offset(all, e))
  {
    hide StatusMsg, NavMsg, Added, WellFormed, Whole, Offset, Flatten;
    var all := ms + Added(cfg, s, n, data);
    AddedToQueue(cfg, s, n, data);
    FlattenAppend(ms, Added(cfg, s, n, data));
    assert Flatten(all)[off..] == Queue(cfg, s, n, data).left;
    RestOfQueue(all, off + |Emitted(cfg, s, n, data)|);
  }

  // One frame of the simulator, seen from the parser.
  lemma FrameHeard(cfg: Config, s: Sim, n: nat, data: seq<Word>, p: Parser, ms: seq<seq<Word>>, off: nat)
    requires |data| == NAV_DATA_WORDS
    requires At(p, ms, off) && Backlog(cfg, s, ms, off) && off != 2
    ensures var f := Emitted(cfg, s, n, data);
      var all, e := ms + Added(cfg, s, n, data), off + |f|;
      At(ParseFrame(p, f), all[Whole(all, e)..], Offset(all, e)) && !LosesLength(p, f)
  {
    hide StatusMsg, NavMsg, Added, Emitted, Backlog, Step, WellFormed;
    var f, added := Emitted(cfg, s, n, data), Added(cfg, s, n, data);
    QueueFrame(cfg, s, n, data, ms, off);
    AddedToQueue(cfg, s, n, data);
    assert AllWellFormed(ms + added);
    Consume(p, |f|, ms + added, off, off + |f|);
  }

  lemma {:induction false} FastNeverLoses(cfg: Config, s: Sim, n: nat, datas: seq<seq<Word>>, p: Parser,
                                          ms: seq<seq<Word>>, off: nat)
    requires FastEnough(cfg) && NavData(datas)
    requires At(p, ms, off) && Backlog(cfg, s, ms, off) && Safe(cfg, n, ms, off) && off != 2
    ensures NoLengthLost(p, Frames(cfg, s, n, datas))
    decreases |datas|
  {
    hide Frames, Whole, Offset, Flatten, FastEnough, Shape;
    hide Added, Emitted, Next, Inside, Safe, Backlog, LosesLength;
    if datas == [] {
      NoFrames(cfg, s, n);
    } else {
      var f := Emitted(cfg, s, n, datas[0]);
      var all, e := ms + Added(cfg, s, n, datas[0]), off + |f|;
      QueueFrame(cfg, s, n, datas[0], ms, off);
      FrameHeard(cfg, s, n, datas[0], p, ms, off);
      SafeFrame(cfg, s, n, datas[0], ms, off);
      FastNeverLoses(cfg, Next(cfg, s, n, datas[0]), n + 1, datas[1..], ParseFrame(p, f),
                     all[Whole(all, e)..], Offset(all, e));
      FirstOfMany(cfg, s, n, datas);
    }
  }

  lemma NoFrames(cfg: Config, s: Sim, n: nat)
    ensures Frames(cfg, s, n, []) == []
  {
  }

  lemma FirstOfMany(cfg: Config, s: Sim, n: nat, datas: seq<seq<Word>>)
    requires NavData(datas) && datas != []
    ensures var fs := Frames(cfg, s, n, datas);
      && fs != [] && fs[0] == Emitted(cfg, s, n, datas[0])
      && fs[1..] == Frames(cfg, Next(cfg, s, n, datas[0]), n + 1, datas[1..])
  {
  }

  /** At 20 frames a second or more, or without message 3, every simulated message is heard. */
  lemma FastSimulationHeard(cfg: Config, n: nat, datas: seq<seq<Word>>)
    requires FastEnough(cfg) && NavData(datas)
    ensures NoLengthLost(START, Frames(cfg, IDLE, n, datas))
    ensures var fs, ms := Frames(cfg, IDLE, n, datas), Queued(cfg, IDLE, n, datas);
      ParseFrames(START, fs).out == Deliveries(0, ms[..Whole(ms, |Flatten(fs)|)])
  {
    FastNeverLoses(cfg, IDLE, n, datas, START, [], 0);
    SimulatedMessagesHeard(cfg, n, datas);
  }
}
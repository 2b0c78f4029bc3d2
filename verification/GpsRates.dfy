/** At which frame rates the simulator's messages are all heard. */
module GpsRates {
  import opened Basics
  import opened GpsParser
  import opened GpsStream
  import opened GpsSimulator
  import opened GpsComposition
  import opened GpsSlowRates

  // The parser hands on exactly the messages completed by the frames so far.
  predicate AllHeard(cfg: Config, n: nat, datas: seq<seq<Word>>)
    requires NavData(datas)
  {
    var fs, ms := Frames(cfg, IDLE, n, datas), Queued(cfg, IDLE, n, datas);
    ParseFrames(START, fs).out == Deliveries(0, ms[..Whole(ms, |Flatten(fs)|)])
  }

  lemma {:induction false} FirstLoss(p: Parser, fs: seq<seq<Word>>) returns (j: nat)
    requires Shape(p) && FramesFit(fs) && !NoLengthLost(p, fs)
    ensures j < |fs| && NoLengthLost(p, fs[..j]) && LosesLength(ParseFrames(p, fs[..j]), fs[j])
    decreases |fs|
  {
    hide LosesLength;
    if LosesLength(p, fs[0]) {
      assert fs[..0] == [];
      return 0;
    }
    j := FirstLoss(ParseFrame(p, fs[0]), fs[1..]);
    assert fs[1..][..j] == fs[..j + 1][1..];
    return j + 1;
  }

  lemma {:induction false} ParseJoin(p: Parser, fs: seq<seq<Word>>, gs: seq<seq<Word>>)
    requires Shape(p) && FramesFit(fs + gs) && FramesFit(fs) && FramesFit(gs)
    ensures ParseFrames(p, fs + gs) == ParseFrames(ParseFrames(p, fs), gs)
    decreases |fs|
  {
    if fs == [] {
      assert fs + gs == gs;
    } else {
      assert (fs + gs)[1..] == fs[1..] + gs;
      ParseJoin(ParseFrame(p, fs[0]), fs[1..], gs);
    }
  }

  lemma NoRun(cfg: Config, s: Sim, n: nat)
    ensures Frames(cfg, s, n, []) == [] && Queued(cfg, s, n, []) == [] && After(cfg, s, n, []) == s
  {
  }

  lemma RunStep(cfg: Config, s: Sim, n: nat, a: seq<seq<Word>>)
    requires NavData(a) && a != []
    ensures var t := Next(cfg, s, n, a[0]);
      Frames(cfg, s, n, a) == [Emitted(cfg, s, n, a[0])] + Frames(cfg, t, n + 1, a[1..])
      && Queued(cfg, s, n, a) == Added(cfg, s, n, a[0]) + Queued(cfg, t, n + 1, a[1..])
      && After(cfg, s, n, a) == After(cfg, t, n + 1, a[1..])
  {
    hide Emitted, Added, Next;
  }

  lemma FramesStep(cfg: Config, s: Sim, n: nat, a: seq<seq<Word>>, b: seq<seq<Word>>)
    requires NavData(a) && NavData(b) && NavData(a + b) && a != []
    requires var t := Next(cfg, s, n, a[0]);
      NavData(a[1..] + b) && Frames(cfg, t, n + 1, a[1..] + b) ==
        Frames(cfg, t, n + 1, a[1..]) + Frames(cfg, After(cfg, t, n + 1, a[1..]), n + |a|, b)
    ensures Frames(cfg, s, n, a + b) == Frames(cfg, s, n, a) + Frames(cfg, After(cfg, s, n, a), n + |a|, b)
    ensures |Frames(cfg, s, n, a)| == 1 + |Frames(cfg, Next(cfg, s, n, a[0]), n + 1, a[1..])|
  {
    hide Emitted, Next, Frames, After;
    assert (a + b)[0] == a[0] && (a + b)[1..] == a[1..] + b;
    RunStep(cfg, s, n, a);
    RunStep(cfg, s, n, a + b);
    Regrouped([Emitted(cfg, s, n, a[0])], Frames(cfg, Next(cfg, s, n, a[0]), n + 1, a[1..]),
              Frames(cfg, After(cfg, s, n, a), n + |a|, b));
  }

  // A run of the simulator in two parts.
  lemma {:induction false} FramesJoin(cfg: Config, s: Sim, n: nat, a: seq<seq<Word>>, b: seq<seq<Word>>)
    requires NavData(a) && NavData(b) && NavData(a + b)
    ensures Frames(cfg, s, n, a + b) == Frames(cfg, s, n, a) + Frames(cfg, After(cfg, s, n, a), n + |a|, b)
    ensures |Frames(cfg, s, n, a)| == |a|
    decreases |a|
  {
    hide Emitted, Next, Frames, After;
    if a == [] {
      assert a + b == b;
      NoRun(cfg, s, n);
    } else {
      assert forall d <- a[1..] + b :: d in a + b;
      FramesJoin(cfg, Next(cfg, s, n, a[0]), n + 1, a[1..], b);
      FramesStep(cfg, s, n, a, b);
    }
  }

  lemma QueuedStep(cfg: Config, s: Sim, n: nat, a: seq<seq<Word>>, b: seq<seq<Word>>)
    requires NavData(a) && NavData(b) && NavData(a + b) && a != []
    requires var t := Next(cfg, s, n, a[0]);
      NavData(a[1..] + b) && Queued(cfg, t, n + 1, a[1..] + b) ==
        Queued(cfg, t, n + 1, a[1..]) + Queued(cfg, After(cfg, t, n + 1, a[1..]), n + |a|, b)
    ensures Queued(cfg, s, n, a + b) == Queued(cfg, s, n, a) + Queued(cfg, After(cfg, s, n, a), n + |a|, b)
  {
    hide Added, Next, Queued, After;
    assert (a + b)[0] == a[0] && (a + b)[1..] == a[1..] + b;
    RunStep(cfg, s, n, a);
    RunStep(cfg, s, n, a + b);
    Regrouped(Added(cfg, s, n, a[0]), Queued(cfg, Next(cfg, s, n, a[0]), n + 1, a[1..]),
              Queued(cfg, After(cfg, s, n, a), n + |a|, b));
  }

  lemma {:induction false} QueuedJoin(cfg: Config, s: Sim, n: nat, a: seq<seq<Word>>, b: seq<seq<Word>>)
    requires NavData(a) && NavData(b) && NavData(a + b)
    ensures Queued(cfg, s, n, a + b) == Queued(cfg, s, n, a) + Queued(cfg, After(cfg, s, n, a), n + |a|, b)
    decreases |a|
  {
    hide Added, Next, Queued, After;
    if a == [] {
      assert a + b == b;
      NoRun(cfg, s, n);
    } else {
      assert forall d <- a[1..] + b :: d in a + b;
      QueuedJoin(cfg, Next(cfg, s, n, a[0]), n + 1, a[1..], b);
      QueuedStep(cfg, s, n, a, b);
    }
  }

  lemma Regrouped<T>(a: seq<T>, b: seq<T>, c: seq<T>)
    ensures a + (b + c) == (a + b) + c
  {
  }

  // Up to a lost length word, parser and queue agree.
  lemma InStep(cfg: Config, n: nat, datas: seq<seq<Word>>) returns (k: nat, o: nat)
    requires NavData(datas) && NoLengthLost(START, Frames(cfg, IDLE, n, datas))
    ensures var fs, ms := Frames(cfg, IDLE, n, datas), Queued(cfg, IDLE, n, datas);
      var q, e := ParseFrames(START, fs), |Flatten(fs)|;
      k <= |ms| && At(q, ms[k..], o) && q.out == Deliveries(0, ms[..k]) && q.seen == e
      && |Flatten(ms[..k])| + o == e && Backlog(cfg, After(cfg, IDLE, n, datas), ms[k..], o)
  {
    hide Frames, Queued, After, Step, Emitted, WellFormed, Inside, Shape, At, NoLengthLost;
    var fs, ms := Frames(cfg, IDLE, n, datas), Queued(cfg, IDLE, n, datas);
    var e := |Flatten(fs)|;
    QueuedWellFormed(cfg, IDLE, n, datas);
    WordsConserved(cfg, IDLE, n, datas);
    assert Flatten(ms) == [] + Flatten(ms);
    assert Flatten(ms)[0..e] == Flatten(fs);
    AtStart(ms);
    ChunkIndependent(START, fs);
    Consume(START, 0, ms, 0, e);
    RunSeen(START, 0, Flatten(fs));
    RestOfQueue(ms, e);
    WholeOffset(ms, e);
    return Whole(ms, e), Offset(ms, e);
  }

  lemma AtStart(ms: seq<seq<Word>>)
    requires AllWellFormed(ms)
    ensures Shape(START) && At(START, ms, 0)
  {
  }

  lemma {:induction false} RunSeen(p: Parser, prev: Word, ws: seq<Word>)
    requires Shape(p)
    ensures Run(p, prev, ws).seen == p.seen + |ws|
    decreases |ws|
  {
    if ws != [] {
      RunSeen(Step(p, prev, ws[0]), ws[0], ws[1..]);
    }
  }

  lemma {:induction false} WholeOffset(ms: seq<seq<Word>>, e: nat)
    requires e <= |Flatten(ms)|
    ensures |Flatten(ms[..Whole(ms, e)])| + Offset(ms, e) == e
  {
    if ms != [] && e >= |ms[0]| {
      WholeOffset(ms[1..], e - |ms[0]|);
      var k := Whole(ms[1..], e - |ms[0]|);
      assert ms[..k + 1][1..] == ms[1..][..k];
    } else {
      assert ms[..0] == [];
    }
  }

  lemma {:induction false} WholeAtLeast(ms: seq<seq<Word>>, k: nat, e: nat)
    requires k <= |ms| && |Flatten(ms[..k])| <= e
    ensures Whole(ms, e) >= k
  {
    if k > 0 {
      assert ms[..k][1..] == ms[1..][..k - 1];
      WholeAtLeast(ms[1..], k - 1, e - |ms[0]|);
    }
  }

  lemma {:induction false} DeliveryAt(at: nat, ms: seq<seq<Word>>, k: nat)
    requires k < |ms|
    ensures Deliveries(at, ms)[k].start == at + |Flatten(ms[..k])|
    decreases |ms|
  {
    if k > 0 {
      DeliveryAt(at + |ms[0]|, ms[1..], k - 1);
      assert ms[..k][1..] == ms[1..][..k - 1];
    } else {
      assert ms[..0] == [];
    }
  }

  // The message whose length word opens the frame f is not handed on, whatever follows.
  lemma MissedFrames(q: Parser, f: seq<Word>, gs: seq<seq<Word>>)
    requires Shape(q) && LosesLength(q, f) && FramesFit([f] + gs) && FramesFit(gs) && q.seen >= 2
    requires |f| < 0x1_0000 && !MsgType(|f|)
    ensures forall d <- ParseFrames(ParseFrame(q, f), gs).out :: d.start != q.seen - 2
  {
    var start: nat := q.seen - 2;
    var r := Step(q, |f|, f[0]);
    assert r.state == 0 && r.out == q.out && Missed(r, start);
    MissedForGood(r, start, f[0], f[1..]);
    MissedAll(ParseFrame(q, f), start, gs);
  }

  lemma {:induction false} MissedAll(p: Parser, start: nat, gs: seq<seq<Word>>)
    requires Missed(p, start) && FramesFit(gs)
    ensures Missed(ParseFrames(p, gs), start)
    decreases |gs|
  {
    hide Shape;
    if gs != [] {
      MissedForGood(p, start, |gs[0]|, gs[0]);
      MissedAll(ParseFrame(p, gs[0]), start, gs[1..]);
    }
  }

  // Two more frames emit whatever one message has left.
  lemma TwoFrames(cfg: Config, s: Sim, n: nat, a: seq<Word>, b: seq<Word>)
    requires NavData([a, b])
    ensures var fs := Frames(cfg, s, n, [a, b]);
      |fs| == 2 && fs[0] == Emitted(cfg, s, n, a)
      && (|Flatten(fs)| >= |s.left| || |Flatten(fs)| >= 2 * CHUNK_WORDS)
  {
    hide StatusMsg, NavMsg;
    assert [a, b][1..] == [b] && [b][1..] == [];
    var t := Next(cfg, s, n, a);
    AddedToQueue(cfg, s, n, a);
    AddedToQueue(cfg, t, n + 1, b);
    var f, g := Emitted(cfg, s, n, a), Emitted(cfg, t, n + 1, b);
    assert Frames(cfg, t, n + 1, [b]) == [g];
    assert Frames(cfg, s, n, [a, b]) == [f] + [g];
    assert Flatten([f, g]) == f + Flatten([g]) && Flatten([g]) == g;
  }

  // A lost length word costs its message: two frames later, at the latest, the parser is one short.
  lemma LossIsMissed(cfg: Config, n: nat, datas: seq<seq<Word>>) returns (more: seq<seq<Word>>)
    requires NavData(datas) && !NoLengthLost(START, Frames(cfg, IDLE, n, datas))
    ensures NavData(more) && !AllHeard(cfg, n, more)
  {
    hide Frames, Queued, After, AllHeard, LosesLength, NoLengthLost, Emitted, Step, WellFormed, Next, ParseFrames;
    var j := FirstLoss(START, Frames(cfg, IDLE, n, datas));
    FramesJoin(cfg, IDLE, n, datas, []);
    assert datas + [] == datas;
    var a, d := datas[..j], datas[j];
    assert datas == a + datas[j..];
    FramesJoin(cfg, IDLE, n, a, datas[j..]);
    var t := After(cfg, IDLE, n, a);
    FirstOfMany(cfg, t, n + j, datas[j..]);
    more := a + [d, d];
    CutAt(cfg, n, a, d);
  }

  lemma CutAt(cfg: Config, n: nat, a: seq<seq<Word>>, d: seq<Word>)
    requires NavData(a) && |d| == NAV_DATA_WORDS
    requires var fs := Frames(cfg, IDLE, n, a);
      NoLengthLost(START, fs) && LosesLength(ParseFrames(START, fs), Emitted(cfg, After(cfg, IDLE, n, a), n + |a|, d))
    ensures NavData(a + [d, d]) && !AllHeard(cfg, n, a + [d, d])
  {
    hide Frames, Queued, After, LosesLength, NoLengthLost, Emitted, Step, WellFormed, Whole, Deliveries, ParseFrames,
      AllHeard, Expected, Backlog, Flatten, Inside;
    var fs, ms, t := Frames(cfg, IDLE, n, a), Queued(cfg, IDLE, n, a), After(cfg, IDLE, n, a);
    var q, b := ParseFrames(START, fs), [d, d];
    var g, more := Frames(cfg, t, n + |a|, b), Queued(cfg, t, n + |a|, b);
    var k, o := InStep(cfg, n, a);
    BehindTypeWord(q, Emitted(cfg, t, n + |a|, d), ms[k..], o);
    TwoFrames(cfg, t, n + |a|, d, d);
    FramesJoin(cfg, IDLE, n, a, b);
    QueuedJoin(cfg, IDLE, n, a, b);
    FlattenAppend(fs, g);
    AllExpected(cfg, n, a, b);
    BacklogHolds(cfg, t, ms[k..], o);
    OneShort(q, g, ms, more, k);
  }

  lemma BacklogHolds(cfg: Config, s: Sim, ms: seq<seq<Word>>, o: nat)
    requires Backlog(cfg, s, ms, o) && ms != []
    ensures |s.left| + o >= |ms[0]|
  {
  }

  lemma AllExpected(cfg: Config, n: nat, a: seq<seq<Word>>, b: seq<seq<Word>>)
    requires NavData(a) && NavData(b) && NavData(a + b)
    ensures var fs, t := Frames(cfg, IDLE, n, a), After(cfg, IDLE, n, a);
      var g, more := Frames(cfg, t, n + |a|, b), Queued(cfg, t, n + |a|, b);
      AllHeard(cfg, n, a + b) ==> Expected(ParseFrames(START, fs), g, Queued(cfg, IDLE, n, a) + more, |Flatten(fs + g)|)
  {
    hide Frames, Queued, After, Whole, Deliveries, ParseFrames, Flatten;
    var fs, t := Frames(cfg, IDLE, n, a), After(cfg, IDLE, n, a);
    FramesJoin(cfg, IDLE, n, a, b);
    QueuedJoin(cfg, IDLE, n, a, b);
    ParseJoin(START, fs, Frames(cfg, t, n + |a|, b));
  }

  // What all the frames are to have handed on.
  predicate Expected(q: Parser, g: seq<seq<Word>>, ms: seq<seq<Word>>, e: nat)
    requires Shape(q) && FramesFit(g)
  {
    ParseFrames(q, g).out == Deliveries(0, ms[..Whole(ms, e)])
  }

  lemma BehindTypeWord(q: Parser, f: seq<Word>, ms: seq<seq<Word>>, o: nat)
    requires At(q, ms, o) && LosesLength(q, f)
    ensures o == 2 && ms != [] && 6 <= |ms[0]| <= NAV_WORDS
  {
    assert WellFormed(ms[0]);
  }

  lemma OneShort(q: Parser, g: seq<seq<Word>>, ms: seq<seq<Word>>, more: seq<seq<Word>>, k: nat)
    requires Shape(q) && g != [] && FramesFit(g) && !MsgType(|g[0]|) && LosesLength(q, g[0]) && q.seen >= 2
    requires k < |ms| && |Flatten(ms[..k])| + 2 == q.seen && |Flatten(g)| + 2 >= |ms[k]|
    ensures !Expected(q, g, ms + more, q.seen + |Flatten(g)|)
  {
    hide LosesLength, Shape, MsgType, Whole, Deliveries, Flatten, ParseFrames;
    var all, e := ms + more, q.seen + |Flatten(g)|;
    Completed(ms, more, k, e);
    assert [g[0]] + g[1..] == g;
    MissedFrames(q, g[0], g[1..]);
    FirstOfFrames(q, g);
  }

  lemma FirstOfFrames(q: Parser, g: seq<seq<Word>>)
    requires Shape(q) && g != [] && FramesFit(g)
    ensures ParseFrames(q, g) == ParseFrames(ParseFrame(q, g[0]), g[1..])
  {
  }

  lemma Completed(ms: seq<seq<Word>>, more: seq<seq<Word>>, k: nat, e: nat)
    requires k < |ms| && |Flatten(ms[..k])| + |ms[k]| <= e
    ensures var all := ms + more;
      exists d <- Deliveries(0, all[..Whole(all, e)]) :: d.start == |Flatten(ms[..k])|
  {
    hide Whole, Deliveries;
    var all := ms + more;
    assert all[..k] == ms[..k] && all[..k + 1] == ms[..k] + [ms[k]];
    FlattenAppend(ms[..k], [ms[k]]);
    FlattenOne(ms[k]);
    WholeAtLeast(all, k + 1, e);
    var done := all[..Whole(all, e)];
    assert done[..k] == ms[..k];
    DeliveryAt(0, done, k);
    assert Deliveries(0, done)[k] in Deliveries(0, done);
  }

  // Fast enough, or slow with a start frame that happens to do.
  predicate FitToHear(cfg: Config, n: nat) {
    FastEnough(cfg) || Lucky(cfg.pps, n)
  }

  /** From frame n on with an idle queue the simulator's messages are all heard, in every run, exactly
      when message 3 is not simulated, or there are at least 20 frames a second, or n is one of the
      start frames at two frames a second, or at a multiple of four, that happen to do. */
  lemma HeardFromExactly(cfg: Config, n: nat)
    ensures FitToHear(cfg, n) <==> forall datas: seq<seq<Word>> | NavData(datas) :: AllHeard(cfg, n, datas)
  {
    hide AllHeard;
    if FitToHear(cfg, n) {
      forall datas: seq<seq<Word>> | NavData(datas) ensures AllHeard(cfg, n, datas) {
        FitAllHeard(cfg, n, datas);
      }
    } else {
      var datas := SlowRunLoses(cfg, n);
      var more := LossIsMissed(cfg, n, datas);
    }
  }

  lemma FitAllHeard(cfg: Config, n: nat, datas: seq<seq<Word>>)
    requires FitToHear(cfg, n) && NavData(datas)
    ensures AllHeard(cfg, n, datas)
  {
    hide Frames, Queued, Whole, Deliveries, NoLengthLost;
    if FastEnough(cfg) {
      FastSimulationHeard(cfg, n, datas);
    } else {
      LuckyNeverLoses(cfg, n, datas);
      SimulatedMessagesHeard(cfg, n, datas);
    }
  }

  /** From frame 1, the program's first, exactly when message 3 is not simulated or there are at
      least 20 frames a second. */
  lemma HeardExactly(cfg: Config)
    ensures FastEnough(cfg) <==> forall datas: seq<seq<Word>> | NavData(datas) :: AllHeard(cfg, 1, datas)
  {
    hide AllHeard;
    HeardFromExactly(cfg, 1);
  }
}

/**
 Below 20 frames a second, with message 3 simulated, some run of the simulator ends a frame just
 after a type word, and the parser misses that message.
 */
module GpsSlowRates {
  import opened Basics
  import opened GpsParser
  import opened GpsStream
  import opened GpsSimulator
  import opened GpsComposition

  // ---- How full the queue is ----

  predicate Slow(cfg: Config) {
    cfg.all && 1 <= cfg.pps < 20
  }

  // The words left after frame n, at P frames a second: a navigation message falls due in every
  // frame, a status message in every P-th.
  function LevelNext(P: nat, n: nat, L: nat): nat
    requires P >= 1
  {
    var a := if n % P == 0 && L + STATUS_WORDS <= QUEUE_WORDS then L + STATUS_WORDS else L;
    var b := if a + NAV_WORDS <= QUEUE_WORDS then a + NAV_WORDS else a;
    b - CHUNK_WORDS
  }

  function LevelAfter(P: nat, n: nat, L: nat, k: nat): nat
    requires P >= 1
    decreases k
  {
    if k == 0 then L else LevelAfter(P, n + 1, LevelNext(P, n, L), k - 1)
  }

  lemma {:induction false} LevelJoin(P: nat, n: nat, L: nat, a: nat, b: nat)
    requires P >= 1
    ensures LevelAfter(P, n, L, a + b) == LevelAfter(P, n + a, LevelAfter(P, n, L, a), b)
    decreases a
  {
    if a > 0 {
      LevelJoin(P, n + 1, LevelNext(P, n, L), a - 1, b);
    }
  }

  // Frames in which only a navigation message can be added.
  function Hop(L: nat): nat {
    if L <= 22 then L + 7 else L - 21
  }

  function Spin(L: nat, k: nat): nat
    decreases k
  {
    if k == 0 then L else Spin(Hop(L), k - 1)
  }

  lemma {:induction false} SpinStays(L: nat, k: nat)
    requires 2 <= L <= 29
    ensures 2 <= Spin(L, k) <= 29 && Spin(L, k) % 7 == L % 7
    decreases k
  {
    if k > 0 {
      HopStays(L);
      SpinStays(Hop(L), k - 1);
    }
  }

  lemma HopStays(L: nat)
    requires 2 <= L <= 29
    ensures 2 <= Hop(L) <= 29 && Hop(L) % 7 == L % 7
  {
    DividesInto(Hop(L), 7, if L <= 22 then L / 7 + 1 else L / 7 - 3, L % 7);
  }

  lemma SpinFour(L: nat, k: nat)
    requires 2 <= L <= 29 && k >= 4
    ensures Spin(L, k) == Spin(L, k - 4)
  {
    var a := Hop(L);
    var b := Hop(a);
    var c := Hop(b);
    assert Hop(c) == L;
    hide Hop;
    assert Spin(L, k) == Spin(a, k - 1) == Spin(b, k - 2) == Spin(c, k - 3) == Spin(L, k - 4);
  }

  lemma Reaches19(L: nat) returns (i: nat)
    requires 2 <= L <= 29 && L % 7 == 5
    ensures i < 4 && Spin(L, i) == 19
  {
    i := if L == 19 then 0 else if L == 12 then 1 else if L == 5 then 2 else 3;
    assert Spin(L, i) == 19 by {
      assert Spin(19, 0) == 19;
      assert Spin(12, 1) == Spin(19, 0);
      assert Spin(5, 2) == Spin(12, 1);
      assert Spin(26, 3) == Spin(5, 2);
    }
  }

  lemma {:induction false} SpinMod(L: nat, k: nat)
    requires 2 <= L <= 29
    ensures Spin(L, k) == Spin(L, k % 4)
    decreases k
  {
    if k >= 4 {
      SpinFour(L, k);
      SpinMod(L, k - 4);
    }
  }

  lemma {:induction false} NavOnly(P: nat, n: nat, j: nat, L: nat, k: nat)
    requires P >= 1 && n % P == 0 && 1 <= j && j + k <= P && 2 <= L <= 29
    ensures LevelAfter(P, n + j, L, k) == Spin(L, k)
    decreases k
  {
    if k > 0 {
      DividesInto(n + j, P, n / P, j);
      SpinStays(L, 1);
      NavOnly(P, n, j + 1, LevelNext(P, n + j, L), k - 1);
    }
  }

  // From one status frame to the next.
  lemma Block(P: nat, n: nat, L: nat)
    requires P >= 1 && n % P == 0 && 1 <= L <= 29
    ensures LevelAfter(P, n, L, P) == Spin(if L == 29 then 8 else L + 1, P - 1)
    ensures (n + P) % P == 0
  {
    NavOnly(P, n, 1, LevelNext(P, n, L), P - 1);
    DividesInto(n + P, P, n / P + 1, 0);
  }

  lemma NotFullAgain(P: nat)
    requires P >= 4
    ensures P % 4 != 0 ==> Spin(8, P - 1) != 29
  {
    SpinMod(8, P - 1);
    assert Spin(8, 0) == 8;
    assert Spin(8, 1) == Spin(15, 0);
    assert Spin(8, 2) == Spin(15, 1) == Spin(22, 0);
  }

  lemma FirstThen(P: nat, n: nat, L: nat, i: nat)
    requires 1 <= i + 1 <= P && n % P == 0 && 1 <= L <= 28
    ensures LevelAfter(P, n, L, 1 + i) == Spin(L + 1, i)
  {
    NavOnly(P, n, 1, L + 1, i);
  }

  // Each status message taken moves the level on by one modulo 7, up to the class of 19.
  lemma Climb(P: nat, n: nat, L: nat) returns (k: nat)
    requires P >= 4 && n % P == 0 && 2 <= L <= 29 && 1 <= L % 7 <= 4 && (L == 29 ==> P % 4 != 0)
    ensures LevelAfter(P, n, L, k) == 19
    decreases 5 - L % 7, L == 29
  {
    hide Spin, LevelAfter, LevelNext;
    Block(P, n, L);
    var M := if L == 29 then 8 else L + 1;
    if L % 7 == 4 {
      var i := Reaches19(M);
      FirstThen(P, n, L, i);
      return 1 + i;
    }
    SpinStays(M, P - 1);
    NotFullAgain(P);
    var rest := Climb(P, n + P, Spin(M, P - 1));
    LevelJoin(P, n, L, P, rest);
    return P + rest;
  }

  // ---- From an empty queue at frame n ----

  // The start frames from which the levels run into a cycle without 19.
  predicate Lucky(P: nat, n: nat) {
    (P == 2 && n % 2 == 0) || (P % 4 == 0 && n % 4 == 3)
  }

  // The frames from frame n up to a status frame after it.
  function ToStatus(P: nat, n: nat): (t: nat)
    requires P >= 1
    ensures 1 <= t <= P
  {
    P - n % P
  }

  lemma StatusAfter(P: nat, n: nat)
    requires P >= 1
    ensures (n + ToStatus(P, n)) % P == 0
  {
    DividesInto(n + ToStatus(P, n), P, n / P + 1, 0);
  }

  // At a status frame both messages are queued at once, otherwise only the navigation message.
  lemma FirstStatus(P: nat, n: nat)
    requires P >= 1
    ensures LevelAfter(P, n, 0, ToStatus(P, n)) == Spin(if n % P == 0 then 29 else 7, ToStatus(P, n) - 1)
  {
    var j := n % P;
    var m: nat := n - j;
    assert m % P == 0 by {
      DividesInto(m, P, n / P, 0);
    }
    assert LevelNext(P, n, 0) == if j == 0 then 29 else 7;
    NavOnly(P, m, j + 1, if j == 0 then 29 else 7, P - j - 1);
    hide Spin, LevelNext;
  }

  lemma SpinShort(L: nat)
    ensures Spin(L, 0) == L && Spin(L, 1) == Hop(L) && Spin(L, 2) == Hop(Hop(L)) && Spin(L, 3) == Hop(Hop(Hop(L)))
  {
    hide Hop;
    assert Spin(Hop(L), 1) == Spin(Hop(Hop(L)), 0);
    assert Spin(Hop(L), 2) == Spin(Hop(Hop(L)), 1) == Spin(Hop(Hop(Hop(L))), 0);
  }

  // At up to three frames a second: how many status frames are still to come at a level there.
  function Rank(P: nat, L: nat): nat {
    if P == 1 then if L == 29 then 12 else if 8 <= L <= 18 then 19 - L else 0
    else if P == 2 then
      if L == 7 then 5 else if L == 15 then 4 else if L == 23 then 3 else if L == 3 then 2 else if L == 11 then 1 else 0
    else if L == 14 then 6 else if L == 29 || L == 7 then 5 else if L == 22 || L == 15 then 4
    else if L == 9 || L == 2 then 3 else if L == 24 || L == 17 then 2 else if L == 11 || L == 4 then 1
    else 0
  }

  lemma EarlyClimb(P: nat, n: nat, L: nat) returns (k: nat)
    requires 1 <= P <= 3 && n % P == 0 && Rank(P, L) > 0
    ensures LevelAfter(P, n, L, k) == 19
    decreases Rank(P, L)
  {
    hide Spin, LevelAfter, LevelNext;
    var M := if L == 29 then 8 else L + 1;
    SpinShort(M);
    if Rank(P, L) == 1 {
      var i := if P == 1 then 0 else if L == 4 then 2 else 1;
      FirstThen(P, n, L, i);
      return 1 + i;
    }
    Block(P, n, L);
    var rest := EarlyClimb(P, n + P, Spin(M, P - 1));
    LevelJoin(P, n, L, P, rest);
    return P + rest;
  }

  // The levels that are multiples of 7, and those one above.
  lemma SpinOfSeven(t: nat)
    ensures Spin(7, t) == 7 * (t % 4 + 1)
  {
    SpinMod(7, t);
    SpinShort(7);
    hide Spin;
  }

  lemma SpinOfEight(L: nat, t: nat)
    requires L == 8 || L == 15 || L == 22 || L == 29
    ensures var M := Spin(L, t);
      && (M == 8 || M == 15 || M == 22 || M == 29)
      && (t % 4 == 3 ==> M == if L == 8 then 29 else L - 7)
  {
    SpinMod(L, t);
    SpinShort(L);
    hide Spin;
  }

  lemma EarlyStart(P: nat, n: nat)
    requires 1 <= P <= 3 && !Lucky(P, n)
    ensures Rank(P, Spin(if n % P == 0 then 29 else 7, ToStatus(P, n) - 1)) > 0
  {
    SpinShort(29);
    SpinShort(7);
    hide Spin;
  }

  // Behind the first status message, if the queue was not empty then, the level is 29 just where it
  // stays so.
  lemma SecondStatus(P: nat, n: nat)
    requires P >= 4 && n % P != 0
    ensures var L := Spin(7, ToStatus(P, n) - 1); var M := Spin(L + 1, P - 1);
      && (L == 7 || L == 14 || L == 21 || L == 28)
      && (M == 8 || M == 15 || M == 22 || M == 29)
      && (P % 4 == 0 && M == 29 ==> Lucky(P, n))
  {
    hide Spin, Hop;
    var t := ToStatus(P, n) - 1;
    SpinOfSeven(t);
    SpinOfEight(Spin(7, t) + 1, P - 1);
    if P % 4 == 0 {
      Quarter(P, n);
      if t % 4 == 0 {
        LastQuarter(P, n % P);
      }
    }
  }

  lemma LastQuarter(P: nat, j: nat)
    requires j < P && P % 4 == 0 && (P - j - 1) % 4 == 0
    ensures j % 4 == 3
  {
  }

  lemma Quarter(P: nat, n: nat)
    requires P >= 1 && P % 4 == 0
    ensures (n % P) % 4 == n % 4 && (P - 1) % 4 == 3
  {
    var q, j := P / 4, n % P;
    assert n == 4 * (q * (n / P)) + j by {
      assert P * (n / P) == 4 * (q * (n / P));
    }
    DividesInto(n, 4, q * (n / P) + j / 4, j % 4);
  }

  // From any other start frame the queue comes to 19 words some time.
  lemma Comes(P: nat, n: nat) returns (k: nat)
    requires 1 <= P < 20 && !Lucky(P, n)
    ensures LevelAfter(P, n, 0, k) == 19
  {
    hide LevelAfter, Spin, LevelNext, Hop, Rank;
    var t := ToStatus(P, n);
    var L := Spin(if n % P == 0 then 29 else 7, t - 1);
    FirstStatus(P, n);
    StatusAfter(P, n);
    if P <= 3 {
      EarlyStart(P, n);
      k := EarlyClimb(P, n + t, L);
    } else if n % P == 0 {
      SpinStays(29, P - 1);
      FullThenNot(P);
      k := Climb(P, n + t, L);
    } else {
      SecondStatus(P, n);
      Block(P, n + t, L);
      var M := Spin(L + 1, P - 1);
      var rest := Climb(P, n + t + P, M);
      LevelJoin(P, n + t, L, P, rest);
      k := P + rest;
    }
    LevelJoin(P, n, 0, t, k);
    k := t + k;
  }

  lemma FullThenNot(P: nat)
    requires P >= 4
    ensures P % 4 == 0 ==> Spin(29, P - 1) != 29
  {
    SpinMod(29, P - 1);
    SpinShort(29);
  }

  // The levels before frame n in the cycles without 19.
  predicate InCycle(P: nat, n: nat, L: nat)
    requires P >= 1
  {
    if P == 2 then L <= 29 && L % 4 == n % 2 && (n % 2 == 1 ==> L >= 5)
    else (n % 4 == 3 && L == 0) || L == 7 * (n % 4 + 1) || L == 8 + 7 * ((n + 3) % 4)
  }

  lemma CycleStarts(P: nat, n: nat)
    requires P >= 1 && Lucky(P, n)
    ensures InCycle(P, n, 0)
  {
  }

  lemma CycleOfTwo(n: nat, L: nat)
    requires InCycle(2, n, L)
    ensures L != 19 && L <= 29 && InCycle(2, n + 1, LevelNext(2, n, L))
  {
  }

  lemma CycleOfFour(P: nat, n: nat, L: nat)
    requires P >= 4 && (n % P == 0 ==> n % 4 == 0) && InCycle(P, n, L)
    ensures L != 19 && L <= 29 && InCycle(P, n + 1, LevelNext(P, n, L))
  {
    var j := n % 4;
    assert (n + 1) % 4 == if j == 3 then 0 else j + 1;
    assert (n + 3) % 4 == if j == 0 then 3 else j - 1;
    assert (n + 1 + 3) % 4 == j;
  }

  lemma CycleStays(P: nat, n: nat, L: nat)
    requires (P == 2 || (P >= 4 && P % 4 == 0)) && InCycle(P, n, L)
    ensures L != 19 && L <= 29 && InCycle(P, n + 1, LevelNext(P, n, L))
  {
    hide InCycle, LevelNext;
    if P == 2 {
      CycleOfTwo(n, L);
    } else {
      Quarter(P, n);
      CycleOfFour(P, n, L);
    }
  }

  // ---- The frame that ends behind a type word ----

  lemma LevelIsNext(cfg: Config, s: Sim, n: nat, data: seq<Word>)
    requires Slow(cfg) && |data| == NAV_DATA_WORDS
    ensures |Next(cfg, s, n, data).left| == LevelNext(cfg.pps, n, |s.left|)
  {
    hide StatusMsg, NavMsg;
    assert NavInterval(cfg) == 1;
  }

  // From 19 words left a frame takes those and the first two of the next message.
  lemma NineteenCut(cfg: Config, s: Sim, n: nat, data: seq<Word>, ms: seq<seq<Word>>, off: nat)
    requires Slow(cfg) && |data| == NAV_DATA_WORDS && Backlog(cfg, s, ms, off) && |s.left| == 19
    ensures Offset(ms + Added(cfg, s, n, data), off + |Emitted(cfg, s, n, data)|) == 2
  {
    hide StatusMsg, NavMsg, Offset;
    assert NavInterval(cfg) == 1;
    var added := Added(cfg, s, n, data);
    assert |added| == 1 && |added[0]| >= STATUS_WORDS;
    OffsetPast(ms, added, off + 21);
    FirstOffset(added, 2);
  }

  lemma {:induction false} TwoInto(ms: seq<seq<Word>>, e: nat)
    requires (forall m <- ms :: |m| >= STATUS_WORDS) && e <= |Flatten(ms)| && Offset(ms, e) == 2
    requires |Flatten(ms)| - e <= 29
    ensures ms != [] && |Flatten(ms)| - e == |ms[|ms| - 1]| - 2
  {
    if ms != [] && e >= |ms[0]| {
      TwoInto(ms[1..], e - |ms[0]|);
    }
  }

  // And no other level ends a frame behind a type word.
  lemma OnlyNineteenCuts(cfg: Config, s: Sim, n: nat, data: seq<Word>, ms: seq<seq<Word>>, off: nat)
    requires Slow(cfg) && |data| == NAV_DATA_WORDS && Backlog(cfg, s, ms, off) && AllWellFormed(ms)
    requires |s.left| <= 29 && |s.left| != 19
    ensures Offset(ms + Added(cfg, s, n, data), off + |Emitted(cfg, s, n, data)|) != 2
  {
    hide StatusMsg, NavMsg, WellFormed, Offset, Flatten;
    assert NavInterval(cfg) == 1;
    var added := Added(cfg, s, n, data);
    var all, e := ms + added, off + |Emitted(cfg, s, n, data)|;
    AddedToQueue(cfg, s, n, data);
    FlattenAppend(ms, added);
    LongMessages(all);
    if Offset(all, e) == 2 {
      TwoInto(all, e);
    }
  }

  lemma LongMessages(ms: seq<seq<Word>>)
    requires AllWellFormed(ms)
    ensures forall m <- ms :: |m| >= STATUS_WORDS
  {
    forall m <- ms ensures |m| >= STATUS_WORDS {
      assert WellFormed(m);
    }
  }

  lemma FirstOffset(ms: seq<seq<Word>>, e: nat)
    requires ms != [] && e < |ms[0]|
    ensures Offset(ms, e) == e
  {
  }

  lemma {:induction false} OffsetPast(ms: seq<seq<Word>>, more: seq<seq<Word>>, e: nat)
    requires |Flatten(ms)| <= e
    ensures Offset(ms + more, e) == Offset(more, e - |Flatten(ms)|)
  {
    if ms == [] {
      assert ms + more == more;
    } else {
      assert (ms + more)[1..] == ms[1..] + more;
      OffsetPast(ms[1..], more, e - |ms[0]|);
    }
  }

  lemma LosesHere(cfg: Config, s: Sim, n: nat, data: seq<Word>, p: Parser, ms: seq<seq<Word>>)
    requires |data| == NAV_DATA_WORDS && At(p, ms, 2) && Backlog(cfg, s, ms, 2)
    ensures LosesLength(p, Emitted(cfg, s, n, data))
  {
    hide StatusMsg, NavMsg;
    assert WellFormed(ms[0]);
    assert Flatten(ms)[2] == ms[0][2] && s.left[0] == ms[0][2];
    AddedToQueue(cfg, s, n, data);
    assert Queue(cfg, s, n, data).left[0] == s.left[0];
  }

  lemma {:induction false} LosesOne(cfg: Config, s: Sim, n: nat, datas: seq<seq<Word>>, p: Parser,
                                    ms: seq<seq<Word>>, off: nat)
    requires Slow(cfg) && NavData(datas) && datas != [] && At(p, ms, off) && Backlog(cfg, s, ms, off)
    requires off == 2 || (|datas| >= 2 && LevelAfter(cfg.pps, n, |s.left|, |datas| - 2) == 19)
    ensures !NoLengthLost(p, Frames(cfg, s, n, datas))
    decreases |datas|
  {
    hide Added, Emitted, Next, Inside, Backlog, LosesLength, LevelNext, Frames, Whole, Offset, Flatten, Shape;
    FirstOfMany(cfg, s, n, datas);
    if off == 2 {
      LosesHere(cfg, s, n, datas[0], p, ms);
    } else {
      var f := Emitted(cfg, s, n, datas[0]);
      var all, e := ms + Added(cfg, s, n, datas[0]), off + |f|;
      QueueFrame(cfg, s, n, datas[0], ms, off);
      FrameHeard(cfg, s, n, datas[0], p, ms, off);
      LevelIsNext(cfg, s, n, datas[0]);
      if |datas| == 2 {
        NineteenCut(cfg, s, n, datas[0], ms, off);
      }
      LosesOne(cfg, Next(cfg, s, n, datas[0]), n + 1, datas[1..], ParseFrame(p, f),
               all[Whole(all, e)..], Offset(all, e));
    }
  }

  lemma SlowRunLoses(cfg: Config, n: nat) returns (datas: seq<seq<Word>>)
    requires Slow(cfg) && !Lucky(cfg.pps, n)
    ensures NavData(datas) && !NoLengthLost(START, Frames(cfg, IDLE, n, datas))
  {
    hide LevelAfter;
    var k := Comes(cfg.pps, n);
    datas := seq(k + 2, _ => Zeros(NAV_DATA_WORDS));
    LosesOne(cfg, IDLE, n, datas, START, [], 0);
  }

  lemma {:induction false} CycleNeverLoses(cfg: Config, s: Sim, n: nat, datas: seq<seq<Word>>, p: Parser,
                                           ms: seq<seq<Word>>, off: nat)
    requires Slow(cfg) && NavData(datas) && At(p, ms, off) && Backlog(cfg, s, ms, off) && off != 2
    requires (cfg.pps == 2 || cfg.pps % 4 == 0) && InCycle(cfg.pps, n, |s.left|)
    ensures NoLengthLost(p, Frames(cfg, s, n, datas))
    decreases |datas|
  {
    hide Added, Emitted, Next, Inside, Backlog, LosesLength, LevelNext, Frames, Whole, Offset, Flatten, Shape, InCycle;
    if datas == [] {
      NoFrames(cfg, s, n);
    } else {
      var f := Emitted(cfg, s, n, datas[0]);
      var all, e := ms + Added(cfg, s, n, datas[0]), off + |f|;
      FirstOfMany(cfg, s, n, datas);
      QueueFrame(cfg, s, n, datas[0], ms, off);
      FrameHeard(cfg, s, n, datas[0], p, ms, off);
      CycleStays(cfg.pps, n, |s.left|);
      OnlyNineteenCuts(cfg, s, n, datas[0], ms, off);
      LevelIsNext(cfg, s, n, datas[0]);
      CycleNeverLoses(cfg, Next(cfg, s, n, datas[0]), n + 1, datas[1..], ParseFrame(p, f),
                      all[Whole(all, e)..], Offset(all, e));
    }
  }

  lemma LuckyNeverLoses(cfg: Config, n: nat, datas: seq<seq<Word>>)
    requires Slow(cfg) && Lucky(cfg.pps, n) && NavData(datas)
    ensures NoLengthLost(START, Frames(cfg, IDLE, n, datas))
  {
    CycleStarts(cfg.pps, n);
    CycleNeverLoses(cfg, IDLE, n, datas, START, [], 0);
  }
}

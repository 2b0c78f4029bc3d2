/**
 What the GPS parser guarantees about the word stream as a whole: which messages it hands on,
 when it locks on again after junk, and how much the cutting into frames matters.
 */
module GpsStream {
  import opened GpsParser
  import opened Basics

  // ---- Runs ----

  function LastOr(prev: Word, ws: seq<Word>): Word {
    if ws == [] then prev else ws[|ws| - 1]
  }

  lemma {:induction false} RunAppend(p: Parser, prev: Word, a: seq<Word>, b: seq<Word>)
    requires Shape(p)
    ensures Run(p, prev, a + b) == Run(Run(p, prev, a), LastOr(prev, a), b)
    decreases |a|
  {
    if a == [] {
      assert a + b == b;
    } else {
      assert (a + b)[0] == a[0] && (a + b)[1..] == a[1..] + b;
      RunAppend(Step(p, prev, a[0]), a[0], a[1..], b);
    }
  }

  // ---- Soundness ----

  // A five-word header passes the 16-bit test exactly when it sums to zero.
  lemma ChecksumMeansZeroSum(b: seq<Word>)
    requires |b| >= 5
    ensures ChecksumOk(b) <==> HeaderSum(b) % 0x1_0000 == 0
  {
    SumOfFour(b);
    hide Sum;
    ComplementIs(b[0] as int + b[1] as int + b[2] as int + b[3] as int, b[4]);
  }

  lemma ComplementIs(s: int, c: Word)
    ensures (0x1_0000 - s % 0x1_0000) % 0x1_0000 == c <==> (s + c as int) % 0x1_0000 == 0
  {
  }

  lemma SumOfFour(b: seq<Word>)
    requires |b| >= 4
    ensures Sum(b, 4) == b[0] as int + b[1] as int + b[2] as int + b[3] as int
  {
    assert Sum(b, 1) == b[0] as int;
    assert Sum(b, 2) == b[0] as int + b[1] as int;
    assert Sum(b, 3) == Sum(b, 2) + b[2] as int;
  }

  lemma {:induction false} SumPrefix(a: seq<Word>, b: seq<Word>, n: nat)
    requires n <= |a| && n <= |b| && a[..n] == b[..n]
    ensures Sum(a, n) == Sum(b, n)
  {
    if n > 0 {
      assert a[n - 1] == a[..n][n - 1] == b[..n][n - 1] == b[n - 1];
      assert a[..n - 1] == a[..n][..n - 1] == b[..n - 1];
      SumPrefix(a, b, n - 1);
    }
  }

  // Every delivery is a well-formed slice of the stream, and the slices come in order and disjoint.
  ghost predicate Faithful(out: seq<Delivery>, hist: seq<Word>) {
    && (forall d <- out ::
          d.start + |d.msg| <= |hist| && hist[d.start..d.start + |d.msg|] == d.msg && WellFormed(d.msg))
    && (forall i, j :: 0 <= i < j < |out| ==> out[i].start + |out[i].msg| <= out[j].start)
  }

  // The parser after consuming exactly hist.
  ghost predicate Sound(p: Parser, hist: seq<Word>) {
    && Shape(p)
    && p.seen == |hist|
    && (p.state >= 1 ==> p.buf == hist[Begin(p)..])
    && (p.state >= 3 ==> p.buf[2] == MessageWords(p.buf[1]) - 6)
    && (p.state >= 4 ==> p.buf[3] != 0x81ff)
    && (p.state == 6 ==> ChecksumOk(p.buf))
    && Faithful(p.out, hist)
  }

  // The one way a word can be taken for a length it is not: the word count standing in front of
  // the frame's first word looks like the other message type.
  predicate WrongLength(p: Parser, prev: Word, w: Word)
    requires Shape(p)
  {
    p.state == 2 && StatusOrNav(prev) && prev != p.buf[1] && w == MessageWords(prev) - 6
  }

  lemma FaithfulGrows(out: seq<Delivery>, hist: seq<Word>, w: Word)
    requires Faithful(out, hist)
    ensures Faithful(out, hist + [w])
  {
    forall d <- out ensures (hist + [w])[d.start..d.start + |d.msg|] == d.msg {
      assert (hist + [w])[d.start..d.start + |d.msg|] == hist[d.start..d.start + |d.msg|];
    }
  }

  lemma FaithfulAdds(out: seq<Delivery>, hist: seq<Word>, d: Delivery)
    requires Faithful(out, hist) && WellFormed(d.msg)
    requires forall e <- out :: e.start + |e.msg| <= d.start
    requires d.start + |d.msg| == |hist| && hist[d.start..] == d.msg
    ensures Faithful(out + [d], hist)
  {
    assert hist[d.start..d.start + |d.msg|] == hist[d.start..];
  }

  // The bytes that complete a message complete a well-formed one.
  lemma PayloadCompletes(b: seq<Word>, w: Word)
    requires |b| >= 6 && b[0] == 0x81ff && StatusOrNav(b[1]) && |b| + 1 == MessageWords(b[1])
    requires b[2] == |b| - 5 && b[3] != 0x81ff && ChecksumOk(b)
    ensures WellFormed(b + [w])
  {
    ChecksumMeansZeroSum(b);
  }

  lemma DeliverySound(p: Parser, hist: seq<Word>, prev: Word, w: Word)
    requires Sound(p, hist) && p.state == 6 && |p.buf| + 1 == MessageWords(p.buf[1])
    ensures Sound(Step(p, prev, w), hist + [w])
  {
    PayloadCompletes(p.buf, w);
    FaithfulGrows(p.out, hist, w);
    assert (hist + [w])[Begin(p)..] == hist[Begin(p)..] + [w];
    FaithfulAdds(p.out, hist + [w], Delivery(Begin(p), p.buf + [w]));
  }

  // The last two words of the stream, for a restart in state 5.
  lemma RestartSound(p: Parser, hist: seq<Word>, w: Word)
    requires Sound(p, hist) && p.state == 5 && p.buf[4] == 0x81ff
    ensures (hist + [w])[|hist| - 1..] == [0x81ff, w]
  {
    assert p.buf[4] == hist[Begin(p)..][4] == hist[|hist| - 1];
  }

  lemma ChecksumStays(b: seq<Word>, w: Word)
    requires |b| >= 5
    ensures ChecksumOk(b + [w]) <==> ChecksumOk(b)
  {
    SumPrefix(b, b + [w], 4);
  }

  lemma StepSoundExactly(p: Parser, hist: seq<Word>, prev: Word, w: Word)
    requires Sound(p, hist)
    ensures Sound(Step(p, prev, w), hist + [w]) <==> !WrongLength(p, prev, w)
  {
    hide WellFormed, Faithful, ChecksumOk;
    var h := hist + [w];
    if p.state == 6 && |p.buf| + 1 == MessageWords(p.buf[1]) {
      DeliverySound(p, hist, prev, w);
    } else if p.state == 5 {
      HeaderSound(p, hist, prev, w);
    } else {
      FaithfulGrows(p.out, hist, w);
      assert h[|hist|..] == [w];
      if p.state >= 1 {
        assert h[Begin(p)..] == hist[Begin(p)..] + [w];
      }
      if p.state == 6 {
        ChecksumStays(p.buf, w);
      }
    }
  }

  lemma HeaderSound(p: Parser, hist: seq<Word>, prev: Word, w: Word)
    requires Sound(p, hist) && p.state == 5
    ensures Sound(Step(p, prev, w), hist + [w])
  {
    hide WellFormed, Faithful, ChecksumOk;
    var h := hist + [w];
    FaithfulGrows(p.out, hist, w);
    assert h[|hist|..] == [w] && h[Begin(p)..] == hist[Begin(p)..] + [w];
    ChecksumStays(p.buf, w);
    if p.buf[4] == 0x81ff {
      RestartSound(p, hist, w);
    }
  }

  lemma {:induction false} RunSound(p: Parser, hist: seq<Word>, prev: Word, ws: seq<Word>)
    requires Sound(p, hist)
    requires p.state == 2 ==> prev == p.buf[1] || !StatusOrNav(prev)
    ensures Sound(Run(p, prev, ws), hist + ws)
    decreases |ws|
  {
    if ws == [] {
      assert hist + ws == hist;
    } else {
      var r := Step(p, prev, ws[0]);
      StepSoundExactly(p, hist, prev, ws[0]);
      RunSound(r, hist + [ws[0]], ws[0], ws[1..]);
      assert hist + [ws[0]] + ws[1..] == hist + ws;
    }
  }

  // No frame's word count is itself a message type; the recorder rejects counts above 300.
  predicate CountsPlain(fs: seq<seq<Word>>) {
    FramesFit(fs) && forall f <- fs :: !StatusOrNav(|f|)
  }

  lemma FrameSound(p: Parser, hist: seq<Word>, f: seq<Word>)
    requires Sound(p, hist) && |f| < 0x1_0000 && !StatusOrNav(|f|)
    ensures Sound(ParseFrame(p, f), hist + f)
  {
    RunSound(p, hist, |f|, f);
  }

  lemma {:induction false} FramesSound(p: Parser, hist: seq<Word>, fs: seq<seq<Word>>)
    requires Sound(p, hist) && CountsPlain(fs)
    ensures Sound(ParseFrames(p, fs), hist + Flatten(fs))
    decreases |fs|
  {
    if fs == [] {
      assert hist + Flatten(fs) == hist;
    } else {
      var h := hist + fs[0];
      assert h + Flatten(fs[1..]) == hist + Flatten(fs);
      FrameSound(p, hist, fs[0]);
      FramesSound(ParseFrame(p, fs[0]), h, fs[1..]);
    }
  }

  /** Whatever frames arrive, what is handed on are well-formed, disjoint slices of the word stream. */
  lemma DeliveriesAreSlices(fs: seq<seq<Word>>)
    requires CountsPlain(fs)
    ensures Sound(ParseFrames(START, fs), Flatten(fs))
    ensures Faithful(ParseFrames(START, fs).out, Flatten(fs))
  {
    assert [] + Flatten(fs) == Flatten(fs);
    FramesSound(START, [], fs);
  }

  // ---- Resynchronisation ----

  // The parser has consumed exactly the first k words of m.
  predicate Inside(p: Parser, m: seq<Word>, k: nat) {
    1 <= k < |m| && Shape(p) && p.state == (if k < 6 then k else 6) && p.buf == m[..k]
  }

  lemma InsideStep(p: Parser, prev: Word, m: seq<Word>, k: nat)
    requires WellFormed(m) && Inside(p, m, k)
    requires k == 2 ==> prev == m[1]
    ensures var r := Step(p, prev, m[k]);
      if k + 1 < |m| then Inside(r, m, k + 1) && r.out == p.out
      else r.state == 0 && r.out == p.out + [Delivery(p.seen - k, m)]
  {
    assert m[..k] + [m[k]] == m[..k + 1];
    if k == 5 {
      ChecksumMeansZeroSum(m);
      SumPrefix(m, m[..5], 4);
    }
    if k + 1 == |m| {
      assert m[..k + 1] == m;
    }
  }

  // r is what the first j words of m make of a parser that had k of them at p.
  predicate Reads(p: Parser, r: Parser, m: seq<Word>, k: nat, j: nat)
    requires Shape(p) && k <= |p.buf| && p.state >= 1
  {
    && r.seen == p.seen + j - k
    && if j < |m| then Inside(r, m, j) && r.out == p.out
       else r.state == 0 && r.out == p.out + [Delivery(p.seen - k, m)]
  }

  lemma ReadsMore(p: Parser, r: Parser, prev: Word, m: seq<Word>, k: nat, j: nat)
    requires WellFormed(m) && Inside(p, m, k) && j < |m| && Reads(p, r, m, k, j)
    requires j == 2 ==> prev == m[1]
    ensures Reads(p, Step(r, prev, m[j]), m, k, j + 1)
  {
    InsideStep(r, prev, m, j);
    hide Step, WellFormed;
  }

  lemma InsideShape(p: Parser, m: seq<Word>, k: nat)
    requires Inside(p, m, k)
    ensures Shape(p) && p.state >= 1 && |p.buf| == k < |m| && Reads(p, p, m, k, k)
  {
  }

  lemma {:induction false} InsideReads(p: Parser, prev: Word, m: seq<Word>, k: nat, j: nat)
    requires WellFormed(m) && Inside(p, m, k) && k <= j <= |m|
    requires k == 2 ==> prev == m[1] || j == 2
    ensures Shape(p) && k <= |p.buf| && p.state >= 1 && Reads(p, Run(p, prev, m[k..j]), m, k, j)
    decreases j
  {
    hide *;
    InsideShape(p, m, k);
    if k < j {
      InsideReads(p, prev, m, k, j - 1);
      var before := if k < j - 1 then m[j - 2] else prev;
      ReadsMore(p, Run(p, prev, m[k..j - 1]), before, m, k, j - 1);
      RunLast(p, prev, m, k, j);
    } else {
      RunNothing(p, prev, m[k..j]);
    }
  }

  lemma InsideRun(p: Parser, prev: Word, m: seq<Word>, k: nat, j: nat)
    requires WellFormed(m) && Inside(p, m, k) && k <= j <= |m|
    requires k == 2 ==> prev == m[1] || j == 2
    ensures var r := Run(p, prev, m[k..j]);
      if j < |m| then Inside(r, m, j) && r.out == p.out
      else r.state == 0 && r.out == p.out + [Delivery(p.seen - k, m)]
  {
    hide Run, WellFormed, Inside, Shape;
    InsideReads(p, prev, m, k, j);
  }

  lemma {:induction false} RunLast(p: Parser, prev: Word, m: seq<Word>, k: nat, j: nat)
    requires Shape(p) && k < j <= |m|
    ensures Run(p, prev, m[k..j]) ==
            Step(Run(p, prev, m[k..j - 1]), if k < j - 1 then m[j - 2] else prev, m[j - 1])
    decreases j - k
  {
    hide *;
    RunFirst(p, prev, m, k, j);
    var q := Step(p, prev, m[k]);
    if k < j - 1 {
      RunFirst(p, prev, m, k, j - 1);
      RunLast(q, m[k], m, k + 1, j);
    } else {
      RunNothing(p, prev, m[k..j - 1]);
      RunNothing(q, m[k], m[k + 1..j]);
    }
  }

  lemma RunNothing(p: Parser, prev: Word, ws: seq<Word>)
    requires Shape(p) && ws == []
    ensures Run(p, prev, ws) == p
  {
  }

  lemma RunFirst(p: Parser, prev: Word, m: seq<Word>, k: nat, j: nat)
    requires Shape(p) && k < j <= |m|
    ensures Run(p, prev, m[k..j]) == Run(Step(p, prev, m[k]), m[k], m[k + 1..j])
  {
    hide Step, Shape;
    SliceHead(m, k, j);
  }

  lemma SliceHead<T>(m: seq<T>, k: nat, j: nat)
    requires k < j <= |m|
    ensures m[k..j][0] == m[k] && m[k..j][1..] == m[k + 1..j]
  {
  }

  // The words already buffered do not swallow the magic word that comes next.
  predicate Ready(p: Parser) {
    && p.state != 6
    && (p.state == 4 ==> !ChecksumOk(p.buf + [0x81ff]))
    && (p.state == 5 ==> !ChecksumOk(p.buf))
  }

  lemma LocksOn(p: Parser, prev: Word, m: seq<Word>)
    requires Shape(p) && Ready(p) && WellFormed(m)
    ensures var r := Run(p, prev, m[..2]); Inside(r, m, 2) && r.out == p.out
  {
    var p1 := Step(p, prev, 0x81ff);
    var p2 := Step(p1, 0x81ff, m[1]);
    assert m[..2][0] == 0x81ff && m[..2][1..] == [m[1]] && m[..2] == [0x81ff, m[1]];
    assert Run(p1, 0x81ff, [m[1]]) == Run(p2, m[1], []);
    if p.state == 4 {
      assert p1.buf == p.buf + [0x81ff] && p1.buf[4] == 0x81ff;
    }
  }

  // A message that began at position start can no longer be delivered.
  predicate Missed(p: Parser, start: nat) {
    && Shape(p)
    && p.seen > start
    && (forall d <- p.out :: d.start != start)
    && (p.state >= 1 ==> Begin(p) != start)
    && (p.state == 5 && p.seen == start + 1 ==> ChecksumOk(p.buf) || p.buf[4] != 0x81ff)
  }

  lemma {:induction false} MissedForGood(p: Parser, start: nat, prev: Word, ws: seq<Word>)
    requires Missed(p, start)
    ensures Missed(Run(p, prev, ws), start)
    decreases |ws|
  {
    if ws != [] {
      MissedForGood(Step(p, prev, ws[0]), start, ws[0], ws[1..]);
    }
  }

  /** A message starting at the next word is delivered whole exactly from the Ready states,
      whatever was buffered before. */
  lemma Resynchronises(p: Parser, prev: Word, m: seq<Word>)
    requires Shape(p) && WellFormed(m)
    ensures var r := Run(p, prev, m);
      && (Delivery(p.seen, m) in r.out <==> Ready(p))
      && (Ready(p) ==> r.state == 0 && r.out == p.out + [Delivery(p.seen, m)])
  {
    hide Step, Inside, Ready;
    if Ready(p) {
      LocksOn(p, prev, m);
      RunAppend(p, prev, m[..2], m[2..]);
      assert m[..2] + m[2..] == m && m[2..] == m[2..|m|];
      InsideRun(Run(p, prev, m[..2]), m[1], m, 2, |m|);
    } else {
      NotReadyMisses(p, prev);
      MissedForGood(Step(p, prev, 0x81ff), p.seen, m[0], m[1..]);
    }
  }

  lemma NotReadyMisses(p: Parser, prev: Word)
    requires Shape(p) && !Ready(p)
    ensures Missed(Step(p, prev, 0x81ff), p.seen)
  {
  }

  // The words until the parser is surely Ready: what a header that may be false can still take.
  function Unready(p: Parser): nat {
    if Ready(p) then 0
    else if p.state == 4 then 24
    else if p.state == 5 then 23
    else if |p.buf| < 28 then 28 - |p.buf| else 0
  }

  lemma UnreadyWords(p: Parser)
    requires Shape(p)
    ensures Unready(p) <= 24 && (Unready(p) == 0 <==> Ready(p))
  {
    hide ChecksumOk;
  }

  lemma UnreadyStep(p: Parser, prev: Word, w: Word)
    requires Shape(p) && !Ready(p)
    ensures Unready(Step(p, prev, w)) < Unready(p)
  {
    hide ChecksumOk;
  }

  /** Whatever was buffered and whatever follows, the parser is Ready again within 24 words. */
  lemma {:induction false} ReadySoon(p: Parser, prev: Word, ws: seq<Word>) returns (k: nat)
    requires Shape(p) && |ws| >= Unready(p)
    ensures k <= Unready(p) <= 24 && Ready(Run(p, prev, ws[..k]))
    decreases |ws|
  {
    hide Step, Shape, Ready, Unready;
    UnreadyWords(p);
    if Ready(p) {
      k := 0;
    } else {
      UnreadyStep(p, prev, ws[0]);
      k := ReadySoon(Step(p, prev, ws[0]), ws[0], ws[1..]);
      k := k + 1;
      assert ws[..k][0] == ws[0] && ws[..k][1..] == ws[1..][..k - 1];
    }
  }

  // No magic word behind the first is followed by a message type.
  predicate NoFalseHeader(m: seq<Word>) {
    forall j | 1 <= j && j + 1 < |m| :: m[j] == 0x81ff ==> !StatusOrNav(m[j + 1])
  }

  // Idle, at a magic word, or still at a header from before start.
  predicate Loose(p: Parser, prev: Word, start: nat) {
    && Shape(p) && p.seen >= start
    && (p.state >= 1 && p.seen > start ==> prev == p.buf[|p.buf| - 1])
    && (p.state <= 1 || Begin(p) < start)
  }

  // The same o words into a message m, or rightly inside it.
  predicate Tracks(p: Parser, prev: Word, m: seq<Word>, o: nat, start: nat) {
    && o < |m| && p.seen >= start + o && (o >= 1 ==> prev == m[o - 1])
    && (Loose(p, prev, start) || (o >= 1 && Inside(p, m, o)))
  }

  lemma TracksStep(p: Parser, prev: Word, m: seq<Word>, o: nat, start: nat)
    requires WellFormed(m) && NoFalseHeader(m) && Tracks(p, prev, m, o, start)
    ensures var q := Step(p, prev, m[o]);
      if o + 1 < |m| then Tracks(q, m[o], m, o + 1, start) else Loose(q, m[o], start)
  {
    if o >= 1 && Inside(p, m, o) {
      InsideStep(p, prev, m, o);
    } else {
      LooseStep(p, prev, m, o, start);
    }
  }

  lemma LooseStep(p: Parser, prev: Word, m: seq<Word>, o: nat, start: nat)
    requires WellFormed(m) && NoFalseHeader(m) && Tracks(p, prev, m, o, start) && Loose(p, prev, start)
    ensures var q := Step(p, prev, m[o]);
      Loose(q, m[o], start) || (o + 1 < |m| && Inside(q, m, o + 1))
  {
    hide ChecksumOk, Sum;
    var q := Step(p, prev, m[o]);
    if StatusOrNav(m[o]) && (p.state == 1 || p.state == 5) && q.state == 2 && q.buf == [0x81ff, m[o]] && o >= 1 {
      assert o == 1;
      assert m[..2] == [m[0], m[1]];
    }
  }

  lemma {:induction false} TracksRun(p: Parser, prev: Word, m: seq<Word>, o: nat, start: nat)
    requires WellFormed(m) && NoFalseHeader(m) && Tracks(p, prev, m, o, start)
    ensures Loose(Run(p, prev, m[o..]), m[|m| - 1], start)
    decreases |m| - o
  {
    assert Shape(p);
    hide Step, Shape, WellFormed, Loose, Inside, NoFalseHeader;
    var q := Step(p, prev, m[o]);
    TracksStep(p, prev, m, o, start);
    assert m[o..][0] == m[o] && m[o..][1..] == m[o + 1..];
    if o + 1 < |m| {
      TracksRun(q, m[o], m, o + 1, start);
    } else {
      assert Run(q, m[o], m[o + 1..]) == q;
    }
  }

  predicate CleanMessages(ms: seq<seq<Word>>) {
    forall m <- ms :: WellFormed(m) && NoFalseHeader(m)
  }

  lemma {:induction false} LooseRun(p: Parser, prev: Word, ms: seq<seq<Word>>, start: nat)
    requires CleanMessages(ms) && Loose(p, prev, start)
    ensures Loose(Run(p, prev, Flatten(ms)), LastOr(prev, Flatten(ms)), start)
    decreases |ms|
  {
    hide Step, Shape, NoFalseHeader, Begin;
    if ms != [] {
      var m := ms[0];
      assert m in ms && m[0..] == m;
      TracksRun(p, prev, m, 0, start);
      RunAppend(p, prev, m, Flatten(ms[1..]));
      LooseRun(Run(p, prev, m), m[|m| - 1], ms[1..], start);
    }
  }

  // Whatever was buffered before, every message behind the first 27 words is delivered.
  lemma DeliveredBehind(p: Parser, prev: Word, ms: seq<seq<Word>>, i: nat)
    requires Shape(p) && CleanMessages(ms) && i < |ms|
    requires |Flatten(ms[..i])| >= 27
    ensures Delivery(p.seen + |Flatten(ms[..i])|, ms[i]) in Run(p, prev, Flatten(ms)).out
  {
    hide Step, NoFalseHeader, WellFormed;
    var a, m, b := Flatten(ms[..i]), ms[i], Flatten(ms[i + 1..]);
    assert ms == ms[..i] + ([m] + ms[i + 1..]);
    FlattenAppend(ms[..i], [m] + ms[i + 1..]);
    assert Flatten([m] + ms[i + 1..]) == m + b;
    LooseRun(p, prev, ms[..i], p.seen);
    var q := Run(p, prev, a);
    assert q.state <= 1;
    assert m in ms;
    Resynchronises(q, LastOr(prev, a), m);
    RunAppend(p, prev, a, m + b);
    RunAppend(q, LastOr(prev, a), m, b);
  }

  /** Whatever was buffered before, in a stream of messages without false headers every message but
      the first two is delivered. */
  lemma OnlyTheFirstLost(p: Parser, prev: Word, ms: seq<seq<Word>>, i: nat)
    requires Shape(p) && CleanMessages(ms) && 2 <= i < |ms|
    ensures Delivery(p.seen + |Flatten(ms[..i])|, ms[i]) in Run(p, prev, Flatten(ms)).out
  {
    hide Run, NoFalseHeader, Shape;
    assert ms[..i] == [ms[0]] + ([ms[1]] + ms[2..i]);
    assert ms[0] in ms && ms[1] in ms;
    FlattenAppend([ms[0]], [ms[1]] + ms[2..i]);
    FlattenAppend([ms[1]], ms[2..i]);
    assert Flatten([ms[0]]) == ms[0] && Flatten([ms[1]]) == ms[1];
    DeliveredBehind(p, prev, ms, i);
  }

  // ---- Frame boundaries ----

  /** A message cut across two frames survives every cut but the one after its type word. */
  lemma CutMessage(p: Parser, prev: Word, m: seq<Word>, k: nat)
    requires Shape(p) && Ready(p) && WellFormed(m) && 0 < k < |m|
    ensures var r := ParseFrame(Run(p, prev, m[..k]), m[k..]);
      Delivery(p.seen, m) in r.out <==> k != 2
  {
    if k == 1 {
      CutAfterMagic(p, prev, m);
    } else {
      LocksOn(p, prev, m);
      assert m[..2] + m[2..k] == m[..k];
      RunAppend(p, prev, m[..2], m[2..k]);
      CutLater(p, Run(p, prev, m[..2]), m, k);
    }
  }

  lemma CutAfterMagic(p: Parser, prev: Word, m: seq<Word>)
    requires Shape(p) && Ready(p) && WellFormed(m)
    ensures Delivery(p.seen, m) in ParseFrame(Run(p, prev, m[..1]), m[1..]).out
  {
    var p1 := Step(p, prev, 0x81ff);
    assert m[..1] == [0x81ff] && Run(p1, 0x81ff, []) == p1;
    Resynchronises(p, prev, m);
    assert m == [0x81ff] + m[1..];
    RunAppend(p, prev, [0x81ff], m[1..]);
    assert p1.state == 1 || p1.state == 5;
    PrevMattersUnlessTwo(p1, 0x81ff, |m[1..]|, m[1..]);
  }

  // p2 is the parser p after the first two words of m.
  lemma CutLater(p: Parser, p2: Parser, m: seq<Word>, k: nat)
    requires Shape(p) && WellFormed(m) && Inside(p2, m, 2) && p2.out == p.out && p2.seen == p.seen + 2
    requires 2 <= k < |m|
    ensures Delivery(p.seen, m) in ParseFrame(Run(p2, m[1], m[2..k]), m[k..]).out <==> k != 2
  {
    hide WellFormed, Step;
    MessageLength(m);
    InsideRun(p2, m[1], m, 2, k);
    var q := Run(p2, m[1], m[2..k]);
    if k == 2 {
      LengthWordDropped(q, p.seen, m);
    } else {
      TailIs(m, k);
      InsideRun(q, |m[k..]|, m, k, |m|);
    }
  }

  lemma TailIs<T>(m: seq<T>, k: nat)
    requires k <= |m|
    ensures m[k..] == m[k..|m|]
  {
  }

  lemma MessageLength(m: seq<Word>)
    requires WellFormed(m)
    ensures 6 < |m| < 0x1_0000
  {
  }

  lemma LengthWordDropped(q: Parser, start: nat, m: seq<Word>)
    requires WellFormed(m) && Inside(q, m, 2) && q.seen == start + 2
    requires forall d <- q.out :: d.start != start
    ensures forall d <- ParseFrame(q, m[2..]).out :: d.start != start
  {
    var r := Step(q, |m[2..]|, m[2]);
    assert r.state == 0 && r.out == q.out;
    MissedForGood(r, start, m[2], m[2..][1..]);
  }

  // One pass over the words as if they had never been cut into frames.
  function RunOnePass(p: Parser, ws: seq<Word>): Parser
    requires Shape(p)
  {
    Run(p, if |p.buf| >= 2 then p.buf[1] else 0, ws)
  }

  // The frame f begins with the length word of a message whose type word ended the last frame.
  predicate LosesLength(p: Parser, f: seq<Word>)
    requires Shape(p)
  {
    p.state == 2 && f != [] && f[0] == MessageWords(p.buf[1]) - 6
  }

  // At such a boundary, and at no other, the very next state differs from the one-pass state.
  lemma BoundaryExact(p: Parser, f: seq<Word>)
    requires Shape(p) && f != [] && |f| < 0x1_0000 && !StatusOrNav(|f|)
    ensures Step(p, |f|, f[0]) == RunOnePass(p, f[..1]) <==> !LosesLength(p, f)
  {
    var prev := if |p.buf| >= 2 then p.buf[1] else 0;
    var q := Step(p, prev, f[0]);
    assert f[..1] == [f[0]];
    assert Run(q, f[0], []) == q;
  }

  predicate NoLengthLost(p: Parser, fs: seq<seq<Word>>)
    requires Shape(p) && FramesFit(fs)
    decreases |fs|
  {
    fs == [] || (!LosesLength(p, fs[0]) && NoLengthLost(ParseFrame(p, fs[0]), fs[1..]))
  }

  lemma {:induction false} TypeWordIsLast(p: Parser, prev: Word, ws: seq<Word>)
    requires Shape(p) && ws != []
    ensures var r := Run(p, prev, ws); r.state == 2 ==> r.buf[1] == ws[|ws| - 1]
    decreases |ws|
  {
    var q := Step(p, prev, ws[0]);
    if |ws| == 1 {
      assert Run(q, ws[0], ws[1..]) == q;
    } else {
      TypeWordIsLast(q, ws[0], ws[1..]);
    }
  }

  lemma FrameIsOnePass(p: Parser, f: seq<Word>, rest: seq<Word>)
    requires Shape(p) && |f| < 0x1_0000 && !StatusOrNav(|f|) && !LosesLength(p, f)
    ensures RunOnePass(p, f + rest) == RunOnePass(ParseFrame(p, f), rest)
  {
    var prev := if |p.buf| >= 2 then p.buf[1] else 0;
    RunAppend(p, prev, f, rest);
    if f == [] {
      assert Run(p, prev, f) == ParseFrame(p, f);
    } else {
      BoundaryExact(p, f);
      assert f[..1] == [f[0]];
      assert Run(Step(p, prev, f[0]), f[0], []) == Step(p, prev, f[0]);
      TypeWordIsLast(p, prev, f);
      var r := ParseFrame(p, f);
      PrevMattersUnlessTwo(r, LastOr(prev, f), if |r.buf| >= 2 then r.buf[1] else 0, rest);
    }
  }

  lemma PrevMattersUnlessTwo(p: Parser, prev: Word, prev': Word, ws: seq<Word>)
    requires Shape(p) && (p.state == 2 ==> prev == prev')
    ensures Run(p, prev, ws) == Run(p, prev', ws)
  {
  }

  /** As long as no length word is lost at a boundary, cutting the stream into frames changes nothing. */
  lemma {:induction false} ChunkIndependent(p: Parser, fs: seq<seq<Word>>)
    requires Shape(p) && CountsPlain(fs) && NoLengthLost(p, fs)
    ensures ParseFrames(p, fs) == RunOnePass(p, Flatten(fs))
    decreases |fs|
  {
    if fs != [] {
      FrameIsOnePass(p, fs[0], Flatten(fs[1..]));
      ChunkIndependent(ParseFrame(p, fs[0]), fs[1..]);
    }
  }
}

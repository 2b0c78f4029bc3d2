/**
 What the simulated messages say, and when: word by word, over whole runs, and on what the parser
 hands on.
 */
module GpsMeaning {
  import opened GpsParser
  import opened GpsStream
  import opened GpsSimulator
  import opened GpsComposition
  import opened Basics

  // ---- What a message says ----

  // The mode of frame f: none before the initialisation, then a thousand frames of alignment, fine
  // on the ground or in the air, then navigation.
  function ModeWord(cfg: Config, f: nat): int {
    if f < cfg.initFrame then 0
    else if f < cfg.initFrame + 1000 then if cfg.ground then 4 else 5
    else 7
  }

  predicate TellsStatus(cfg: Config, m: seq<Word>, f: nat) {
    && |m| == 22 && m[0] == 0x81ff && m[1] == 3500
    && m[9] == ModeWord(cfg, f) && m[10] == 1
    && (forall i | 5 <= i < 22 && i != 9 && i != 10 :: m[i] == 0)
  }

  // Position, altitude, velocity and attitude; of these only the altitude outside navigation.
  predicate TellsNav(m: seq<Word>, mode: int, data: seq<Word>)
    requires |data| == 18
  {
    && |m| == 28 && m[0] == 0x81ff && m[1] == 3501
    && (forall i | 9 <= i < 27 :: m[i] == if mode == 7 || i == 13 || i == 14 then data[i - 9] else 0)
    && (forall i | 5 <= i < 9 :: m[i] == 0) && m[27] == 0
  }

  function Interval(cfg: Config): nat {
    if cfg.pps < 10 then 1 else cfg.pps / 10
  }

  // A message queued in frame f, when mode was the mode last told.
  predicate Tells(cfg: Config, m: seq<Word>, mode: int, f: nat, data: seq<Word>)
    requires |data| == 18
  {
    || (cfg.all && f % cfg.pps == 0 && TellsStatus(cfg, m, f))
    || (f % Interval(cfg) == 0 && TellsNav(m, mode, data))
  }

  // The mode that the last status message told, or was.
  function ModeTold(was: int, ms: seq<seq<Word>>): int
    decreases |ms|
  {
    if ms == [] then was
    else
      var m := ms[|ms| - 1];
      if |m| >= 10 && m[1] == 3500 then m[9] else ModeTold(was, ms[..|ms| - 1])
  }

  lemma {:induction false} ModeToldTwice(was: int, a: seq<seq<Word>>, b: seq<seq<Word>>)
    ensures ModeTold(was, a + b) == ModeTold(ModeTold(was, a), b)
    decreases |b|
  {
    if b == [] {
      assert a + b == a;
    } else {
      assert (a + b)[..|a + b| - 1] == a + b[..|b| - 1];
      ModeToldTwice(was, a, b[..|b| - 1]);
    }
  }

  lemma StatusTells(cfg: Config, f: nat)
    ensures TellsStatus(cfg, StatusMsg(Mode(cfg, f)), f)
  {
  }

  lemma NavTells(mode: Word, data: seq<Word>)
    requires |data| == 18
    ensures TellsNav(NavMsg(Shown(mode, data)), mode, data)
  {
  }

  lemma NavIntervalIs(cfg: Config)
    ensures NavInterval(cfg) == Interval(cfg)
  {
  }

  // The messages of one frame, one by one.
  lemma AddedTells(cfg: Config, s: Sim, n: nat, data: seq<Word>)
    requires |data| == 18
    ensures var ms := Added(cfg, s, n, data);
      && (forall i | 0 <= i < |ms| :: Tells(cfg, ms[i], ModeTold(s.mode, ms[..i]), n, data))
      && ModeTold(s.mode, ms) == Next(cfg, s, n, data).mode
  {
    hide StatusMsg, NavMsg, Shown, Mode, ModeWord, Interval, NavInterval;
    var ms, t := Added(cfg, s, n, data), AddStatus(cfg, s, n);
    StatusTells(cfg, n);
    NavTells(t.mode, data);
    NavIntervalIs(cfg);
    StatusMode(cfg, n);
    var status, nav := StatusMsg(Mode(cfg, n)), NavMsg(Shown(t.mode, data));
    ToldByOne(s.mode, status);
    ToldByOne(s.mode, nav);
    assert ms[..0] == [];
    if StatusDue(cfg, s, n) && NavDue(cfg, t, n) {
      assert ms == [status] + [nav] && ms[..1] == [status];
      ToldByOne(Mode(cfg, n), nav);
      ModeToldTwice(s.mode, [status], [nav]);
    } else {
      assert ms == [status] || ms == [nav] || ms == [];
    }
    hide *;
  }

  lemma StatusMode(cfg: Config, n: nat)
    ensures Mode(cfg, n) == ModeWord(cfg, n)
  {
  }

  lemma ToldByOne(was: int, m: seq<Word>)
    requires |m| >= 10
    ensures ModeTold(was, [m]) == if m[1] == 3500 then m[9] else was
  {
    assert [m][..0] == [];
    assert ModeTold(was, []) == was;
  }

  // ---- Runs ----

  // The frames in which the messages of a run are queued.
  function Stamps(cfg: Config, s: Sim, n: nat, datas: seq<seq<Word>>): (fs: seq<nat>)
    requires NavData(datas)
    decreases |datas|
  {
    if datas == [] then []
    else Repeat(n, |Added(cfg, s, n, datas[0])|) + Stamps(cfg, Next(cfg, s, n, datas[0]), n + 1, datas[1..])
  }

  // The i-th message queued in a run from frame n on.
  ghost predicate TellsAt(cfg: Config, was: int, ms: seq<seq<Word>>, fs: seq<nat>, n: nat,
                          datas: seq<seq<Word>>, i: nat)
    requires NavData(datas)
  {
    && i < |ms| == |fs| && n <= fs[i] < n + |datas|
    && |datas[fs[i] - n]| == 18
    && Tells(cfg, ms[i], ModeTold(was, ms[..i]), fs[i], datas[fs[i] - n])
  }

  lemma TellsFirst(cfg: Config, was: int, added: seq<seq<Word>>, ms: seq<seq<Word>>, fs: seq<nat>, n: nat,
                   datas: seq<seq<Word>>, i: nat)
    requires NavData(datas) && datas != [] && |datas[0]| == 18 && |ms| == |fs|
    requires i < |added| && Tells(cfg, added[i], ModeTold(was, added[..i]), n, datas[0])
    ensures TellsAt(cfg, was, added + ms, Repeat(n, |added|) + fs, n, datas, i)
  {
    hide Tells, ModeTold;
    assert (added + ms)[..i] == added[..i];
  }

  lemma TellsLater(cfg: Config, was: int, added: seq<seq<Word>>, ms: seq<seq<Word>>, fs: seq<nat>, n: nat,
                   datas: seq<seq<Word>>, j: nat)
    requires NavData(datas) && datas != []
    requires TellsAt(cfg, ModeTold(was, added), ms, fs, n + 1, datas[1..], j)
    ensures TellsAt(cfg, was, added + ms, Repeat(n, |added|) + fs, n, datas, |added| + j)
  {
    hide Tells, ModeTold;
    assert (added + ms)[..|added| + j] == added + ms[..j];
    ModeToldTwice(was, added, ms[..j]);
  }

  /** Every message queued in a run says what its frame prescribes: a status message the mode of that
      frame, a navigation message that frame's data, as far as the mode last told allows. */
  lemma {:induction false} QueuedTells(cfg: Config, s: Sim, n: nat, datas: seq<seq<Word>>, i: nat)
    requires NavData(datas) && i < |Queued(cfg, s, n, datas)|
    ensures TellsAt(cfg, s.mode, Queued(cfg, s, n, datas), Stamps(cfg, s, n, datas), n, datas, i)
    decreases |datas|
  {
    hide Added, Next, Tells, ModeTold, TellsAt;
    var r, added := Next(cfg, s, n, datas[0]), Added(cfg, s, n, datas[0]);
    var ms, fs := Queued(cfg, r, n + 1, datas[1..]), Stamps(cfg, r, n + 1, datas[1..]);
    AddedTells(cfg, s, n, datas[0]);
    StampsMatch(cfg, r, n + 1, datas[1..]);
    if i < |added| {
      TellsFirst(cfg, s.mode, added, ms, fs, n, datas, i);
    } else {
      QueuedTells(cfg, r, n + 1, datas[1..], i - |added|);
      TellsLater(cfg, s.mode, added, ms, fs, n, datas, i - |added|);
    }
  }

  lemma {:induction false} StampsMatch(cfg: Config, s: Sim, n: nat, datas: seq<seq<Word>>)
    requires NavData(datas)
    ensures |Stamps(cfg, s, n, datas)| == |Queued(cfg, s, n, datas)|
    decreases |datas|
  {
    hide Added, Next;
    if datas != [] {
      StampsMatch(cfg, Next(cfg, s, n, datas[0]), n + 1, datas[1..]);
    }
  }

  lemma {:induction false} DeliveriesAt(at: nat, ms: seq<seq<Word>>, i: nat)
    requires i < |ms|
    ensures Deliveries(at, ms)[i].msg == ms[i]
    decreases |ms|
  {
    if i > 0 {
      DeliveriesAt(at + |ms[0]|, ms[1..], i - 1);
    }
  }

  /** So does every message that the parser hands on, unless a length word is lost. */
  lemma HeardTells(cfg: Config, n: nat, datas: seq<seq<Word>>, i: nat)
    requires NavData(datas) && NoLengthLost(START, Frames(cfg, IDLE, n, datas))
    requires i < |ParseFrames(START, Frames(cfg, IDLE, n, datas)).out|
    ensures var out, ms := ParseFrames(START, Frames(cfg, IDLE, n, datas)).out, Queued(cfg, IDLE, n, datas);
      && |out| <= |ms| && out[i].msg == ms[i]
      && TellsAt(cfg, 0, ms, Stamps(cfg, IDLE, n, datas), n, datas, i)
  {
    hide Frames, Queued, Stamps, TellsAt, Whole, ParseFrames, Deliveries;
    var fs, ms := Frames(cfg, IDLE, n, datas), Queued(cfg, IDLE, n, datas);
    SimulatedMessagesHeard(cfg, n, datas);
    var heard := ms[..Whole(ms, |Flatten(fs)|)];
    DeliveriesAt(0, heard, i);
    QueuedTells(cfg, IDLE, n, datas, i);
  }

  // ---- When ----

  datatype Due = Status(frame: nat) | Nav(frame: nat)

  // What k frames from n on are to bring.
  function Timetable(cfg: Config, n: nat, k: nat): (t: seq<Due>)
    decreases k
  {
    if k == 0 then [] else DueIn(cfg, n) + Timetable(cfg, n + 1, k - 1)
  }

  function DueIn(cfg: Config, n: nat): (t: seq<Due>) {
    (if cfg.all && n % cfg.pps == 0 then [Status(n)] else []) + (if n % Interval(cfg) == 0 then [Nav(n)] else [])
  }

  // The messages ms, queued in the frames fs, are those of the timetable.
  predicate OnTime(ms: seq<seq<Word>>, fs: seq<nat>, t: seq<Due>) {
    && |ms| == |fs| == |t|
    && forall i | 0 <= i < |t| ::
         && |ms[i]| >= 2 && fs[i] == t[i].frame
         && ms[i][1] == if t[i].Status? then 3500 else 3501
  }

  // Everything due in frame n finds room.
  predicate Roomy(cfg: Config, s: Sim, n: nat) {
    && (StatusDue(cfg, s, n) <==> cfg.all && n % cfg.pps == 0)
    && (NavDue(cfg, AddStatus(cfg, s, n), n) <==> n % Interval(cfg) == 0)
  }

  lemma CalmIsRoomy(cfg: Config, s: Sim, n: nat, ms: seq<seq<Word>>, off: nat)
    requires cfg.all && cfg.pps >= 20 && Safe(cfg, n, ms, off) && Backlog(cfg, s, ms, off)
    ensures Roomy(cfg, s, n)
  {
    hide Flatten, StatusMsg, Mode, Interval, NavInterval, Calm;
    NavIntervalIs(cfg);
    var i, j := CalmBefore(cfg, n, ms, off);
    CalmRoom(i, j, ms, off, n % NavInterval(cfg), n % cfg.pps);
  }

  // Without status messages: what a navigation message leaves for the next frame.
  predicate Light(cfg: Config, s: Sim, n: nat) {
    s.left == [] || (|s.left| == 7 && n >= 1 && (n - 1) % Interval(cfg) == 0)
  }

  lemma LightIsRoomy(cfg: Config, s: Sim, n: nat, data: seq<Word>)
    requires !cfg.all && cfg.pps >= 20 && Light(cfg, s, n) && |data| == 18
    ensures Roomy(cfg, s, n) && Light(cfg, Next(cfg, s, n, data), n + 1)
  {
    hide NavMsg, Shown;
    NavIntervalIs(cfg);
    if s.left != [] {
      ModNext(n, Interval(cfg));
    }
  }

  lemma RoomyFrame(cfg: Config, s: Sim, n: nat, data: seq<Word>)
    requires |data| == 18 && Roomy(cfg, s, n)
    ensures OnTime(Added(cfg, s, n, data), Repeat(n, |Added(cfg, s, n, data)|), DueIn(cfg, n))
  {
    StatusTells(cfg, n);
    NavTells(AddStatus(cfg, s, n).mode, data);
    hide StatusMsg, NavMsg, Shown, Mode, StatusDue, NavDue, Interval, ModeWord;
  }

  lemma OnTimeJoin(a: seq<seq<Word>>, fa: seq<nat>, ta: seq<Due>, b: seq<seq<Word>>, fb: seq<nat>, tb: seq<Due>)
    requires OnTime(a, fa, ta) && OnTime(b, fb, tb)
    ensures OnTime(a + b, fa + fb, ta + tb)
  {
  }

  // All due messages of a run from frame n on.
  ghost predicate Punctual(cfg: Config, s: Sim, n: nat, datas: seq<seq<Word>>)
    requires NavData(datas)
  {
    OnTime(Queued(cfg, s, n, datas), Stamps(cfg, s, n, datas), Timetable(cfg, n, |datas|))
  }

  lemma PunctualStep(cfg: Config, s: Sim, n: nat, datas: seq<seq<Word>>)
    requires NavData(datas) && datas != [] && Roomy(cfg, s, n)
    requires Punctual(cfg, Next(cfg, s, n, datas[0]), n + 1, datas[1..])
    ensures Punctual(cfg, s, n, datas)
  {
    hide Roomy, OnTime, Added, Next, DueIn;
    var r, added := Next(cfg, s, n, datas[0]), Added(cfg, s, n, datas[0]);
    RoomyFrame(cfg, s, n, datas[0]);
    OnTimeJoin(added, Repeat(n, |added|), DueIn(cfg, n), Queued(cfg, r, n + 1, datas[1..]),
               Stamps(cfg, r, n + 1, datas[1..]), Timetable(cfg, n + 1, |datas| - 1));
  }

  // One frame of a calm queue.
  lemma CalmGoesOn(cfg: Config, s: Sim, n: nat, data: seq<Word>, ms: seq<seq<Word>>, off: nat)
    returns (ms': seq<seq<Word>>, off': nat)
    requires cfg.all && cfg.pps >= 20 && |data| == 18 && Safe(cfg, n, ms, off) && Backlog(cfg, s, ms, off)
    ensures Roomy(cfg, s, n) && Safe(cfg, n + 1, ms', off') && Backlog(cfg, Next(cfg, s, n, data), ms', off')
  {
    hide Roomy, Safe, Backlog, Whole, Offset, Flatten, Added, Next, Emitted;
    var all, e := ms + Added(cfg, s, n, data), off + |Emitted(cfg, s, n, data)|;
    CalmIsRoomy(cfg, s, n, ms, off);
    QueueFrame(cfg, s, n, data, ms, off);
    CalmFrame(cfg, s, n, data, ms, off);
    ms', off' := all[Whole(all, e)..], Offset(all, e);
  }

  lemma {:induction false} CalmPunctual(cfg: Config, s: Sim, n: nat, datas: seq<seq<Word>>,
                                        ms: seq<seq<Word>>, off: nat)
    requires cfg.all && cfg.pps >= 20 && NavData(datas) && Safe(cfg, n, ms, off) && Backlog(cfg, s, ms, off)
    ensures Punctual(cfg, s, n, datas)
    decreases |datas|
  {
    if datas != [] {
      hide Punctual, Roomy, Safe, Backlog, Next;
      var ms', off' := CalmGoesOn(cfg, s, n, datas[0], ms, off);
      CalmPunctual(cfg, Next(cfg, s, n, datas[0]), n + 1, datas[1..], ms', off');
      PunctualStep(cfg, s, n, datas);
    }
  }

  lemma {:induction false} LightPunctual(cfg: Config, s: Sim, n: nat, datas: seq<seq<Word>>)
    requires !cfg.all && cfg.pps >= 20 && NavData(datas) && Light(cfg, s, n)
    ensures Punctual(cfg, s, n, datas)
    decreases |datas|
  {
    if datas != [] {
      hide Punctual, Roomy, Light, Next;
      LightIsRoomy(cfg, s, n, datas[0]);
      LightPunctual(cfg, Next(cfg, s, n, datas[0]), n + 1, datas[1..]);
      PunctualStep(cfg, s, n, datas);
    }
  }

  // ---- Below 20 frames a second the queue overflows ----

  // A frame of such a run: at most what is due, and the queue fills up unless something is dropped.
  lemma SlowFrame(cfg: Config, s: Sim, n: nat, data: seq<Word>)
    requires cfg.pps < 20 && |data| == 18
    ensures var added, due := |Added(cfg, s, n, data)|, |DueIn(cfg, n)|;
      && added <= due
      && (|s.left| > 22 ==> added < due)
      && (added == due ==> |Next(cfg, s, n, data).left| >= |s.left| + 7)
  {
    hide StatusMsg, NavMsg, Shown, Mode;
    assert Interval(cfg) == 1;
  }

  lemma {:induction false} SlowDrops(cfg: Config, s: Sim, n: nat, datas: seq<seq<Word>>)
    requires cfg.pps < 20 && NavData(datas)
    ensures var queued, due := |Queued(cfg, s, n, datas)|, |Timetable(cfg, n, |datas|)|;
      queued <= due && (datas != [] && |s.left| + 7 * (|datas| - 1) > 22 ==> queued < due)
    decreases |datas|
  {
    hide Added, Next, DueIn;
    if datas != [] {
      SlowFrame(cfg, s, n, datas[0]);
      SlowDrops(cfg, Next(cfg, s, n, datas[0]), n + 1, datas[1..]);
    }
  }

  /** From 20 frames a second on, the messages queued are exactly those of the timetable, each in its
      frame; below that, some message due in the first five frames is dropped. */
  lemma PunctualExactly(cfg: Config, n: nat, datas: seq<seq<Word>>)
    requires NavData(datas)
    ensures cfg.pps >= 20 ==> Punctual(cfg, IDLE, n, datas)
    ensures |datas| >= 5 ==> (Punctual(cfg, IDLE, n, datas) <==> cfg.pps >= 20)
  {
    hide Timetable, Queued, Stamps;
    if cfg.pps < 20 {
      SlowDrops(cfg, IDLE, n, datas);
    } else if cfg.all {
      CalmPunctual(cfg, IDLE, n, datas, [], 0);
    } else {
      LightPunctual(cfg, IDLE, n, datas);
    }
  }

  /** At such a rate the parser hands on the messages of the timetable in order, the i-th with what
      its own frame prescribes. */
  lemma HeardOnTime(cfg: Config, n: nat, datas: seq<seq<Word>>, i: nat)
    requires cfg.pps >= 20 && NavData(datas)
    requires i < |ParseFrames(START, Frames(cfg, IDLE, n, datas)).out|
    ensures var out, ms := ParseFrames(START, Frames(cfg, IDLE, n, datas)).out, Queued(cfg, IDLE, n, datas);
      var t := Timetable(cfg, n, |datas|);
      && |out| <= |ms| == |t| && n <= t[i].frame < n + |datas|
      && if t[i].Status? then TellsStatus(cfg, out[i].msg, t[i].frame)
         else TellsNav(out[i].msg, ModeTold(0, ms[..i]), datas[t[i].frame - n])
  {
    hide Frames, Queued, Stamps, Timetable, ParseFrames, TellsAt, ModeTold, NoLengthLost, Deliveries, Punctual,
      TellsStatus, TellsNav;
    FastSimulationHeard(cfg, n, datas);
    HeardTells(cfg, n, datas, i);
    PunctualExactly(cfg, n, datas);
    DueTold(cfg, n, datas, i);
  }

  // The i-th message queued is the one due, and says so.
  lemma DueTold(cfg: Config, n: nat, datas: seq<seq<Word>>, i: nat)
    requires NavData(datas) && Punctual(cfg, IDLE, n, datas)
    requires TellsAt(cfg, 0, Queued(cfg, IDLE, n, datas), Stamps(cfg, IDLE, n, datas), n, datas, i)
    ensures var ms, t := Queued(cfg, IDLE, n, datas), Timetable(cfg, n, |datas|);
      && i < |ms| == |t| && n <= t[i].frame < n + |datas|
      && if t[i].Status? then TellsStatus(cfg, ms[i], t[i].frame)
         else TellsNav(ms[i], ModeTold(0, ms[..i]), datas[t[i].frame - n])
  {
    hide Queued, Stamps, Timetable, ModeTold, TellsStatus, TellsNav, Tells;
    var ms, fs := Queued(cfg, IDLE, n, datas), Stamps(cfg, IDLE, n, datas);
    TellsKind(cfg, ms[i], ModeTold(0, ms[..i]), fs[i], datas[fs[i] - n]);
  }

  lemma TellsKind(cfg: Config, m: seq<Word>, mode: int, f: nat, data: seq<Word>)
    requires |data| == 18 && Tells(cfg, m, mode, f, data) && |m| >= 2
    ensures m[1] == 3500 ==> TellsStatus(cfg, m, f)
    ensures m[1] == 3501 ==> TellsNav(m, mode, data)
  {
    hide ModeWord, Interval;
  }
}

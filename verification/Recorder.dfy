/**
 The recording sequencer: an optional dark calibration, the science data, and after a stop the
 calibrations that are switched on, each for a fixed number of data frames.
 */
module Recorder {
  import opened Basics

  datatype State = NotRecording | Dark1 | Science | Dark2 | Medium | Bright | Laser

  type Rate = r: real | r >= 0.0

  /** Calibration periods in seconds, the frame rate in Hz, and whether the OBC is in automatic mode
      with an interface configured; none of them changes while recording. */
  datatype Config = Config(dark1: nat, dark2: nat, medium: nat, bright: nat, laser: nat, rate: Rate, auto: bool)

  function Period(cfg: Config, s: State): nat {
    match s
    case Dark1 => cfg.dark1
    case Dark2 => cfg.dark2
    case Medium => cfg.medium
    case Bright => cfg.bright
    case Laser => cfg.laser
    case _ => 0
  }

  // The data frames of so many seconds: (int)(period * rate + 0.5).
  function WaitFor(period: nat, rate: Rate): (w: nat) {
    assert period as real * rate >= 0.0;
    (period as real * rate + 0.5).Floor
  }

  function Wait(cfg: Config, s: State): (w: nat) {
    WaitFor(Period(cfg, s), cfg.rate)
  }

  predicate Calibration(s: State) {
    s != NotRecording && s != Science
  }

  /** The recorder.  wait, stop, abort and full are the program's counters and flags; frames is the
      open image file and written its frame counter; trace records the state each frame was
      written in, since the recording began. */
  datatype Recorder = Recorder(
    state: State, wait: int, stop: bool, abort: bool, full: bool, open: bool,
    frames: nat, written: nat, lines: nat, trace: seq<State>)

  const IDLE := Recorder(NotRecording, 0, false, false, false, false, 0, 0, 0, [])

  datatype Event = Record(filesOpen: bool) | Stop | Abort | Frame(writeOk: bool) | NoData | Space(full: bool)

  // ---- Entering the states ----

  function EnterCal(cfg: Config, r: Recorder, s: State): Recorder {
    r.(state := s, wait := Wait(cfg, s))
  }

  // Close the files: the header's line count is the frame counter.
  function EnterIdle(r: Recorder): Recorder {
    r.(state := NotRecording, open := false, lines := if r.open then r.written else r.lines)
  }

  // The first calibration from s on that is switched on, or idle.
  function EnterFrom(cfg: Config, r: Recorder, s: State): Recorder
    requires Calibration(s) && s != Dark1
  {
    if s == Dark2 && cfg.dark2 > 0 then EnterCal(cfg, r, Dark2)
    else if (s == Dark2 || s == Medium) && cfg.medium > 0 then EnterCal(cfg, r, Medium)
    else if (s == Dark2 || s == Medium || s == Bright) && cfg.bright > 0 then EnterCal(cfg, r, Bright)
    else if cfg.laser > 0 then EnterCal(cfg, r, Laser)
    else EnterIdle(r)
  }

  function AfterStop(cfg: Config, r: Recorder): Recorder {
    if !cfg.auto then EnterIdle(r) else EnterFrom(cfg, r, Dark2)
  }

  // ---- The events ----

  function StartRecording(cfg: Config, r: Recorder): Recorder {
    var q := r.(stop := false, abort := false, open := true, frames := 0, written := 0, trace := []);
    if cfg.dark1 == 0 || !cfg.auto then q.(state := Science) else EnterCal(cfg, q, Dark1)
  }

  // The state behind a calibration that is over.
  function AfterCal(cfg: Config, r: Recorder): Recorder {
    if r.state == Dark1 then r.(state := Science)
    else if r.state == Dark2 then EnterFrom(cfg, r, Medium)
    else if r.state == Medium then EnterFrom(cfg, r, Bright)
    else if r.state == Bright then EnterFrom(cfg, r, Laser)
    else EnterIdle(r)
  }

  // A data frame that has been written in the current state.
  function Written(cfg: Config, r: Recorder): Recorder {
    if r.stop && r.abort then EnterIdle(r.(stop := false))
    else if r.state == Science then (if r.stop then AfterStop(cfg, r.(stop := false)) else r)
    else if r.wait - 1 == 0 then AfterCal(cfg, r.(wait := 0))
    else r.(wait := r.wait - 1)
  }

  function DataFrame(cfg: Config, r: Recorder, writeOk: bool): Recorder {
    if r.full then (if r.state != NotRecording then EnterIdle(r) else r)
    else if r.state == NotRecording then r
    else if !writeOk then EnterIdle(r).(full := true)
    else
      var file := if r.open then r.frames + 1 else r.frames;
      Written(cfg, r.(frames := file, written := r.written + 1, trace := r.trace + [r.state]))
  }

  function NoDataTick(cfg: Config, r: Recorder): Recorder {
    if !r.stop then r
    else
      var q := r.(stop := false);
      if r.abort then EnterIdle(q) else AfterStop(cfg, q)
  }

  /** The buttons gate the operator: recording starts from idle, a stop is taken in Science only, an
      abort while recording. */
  function Step(cfg: Config, r: Recorder, e: Event): Recorder {
    match e
    case Record(filesOpen) => if r.state == NotRecording && filesOpen then StartRecording(cfg, r) else r
    case Stop => if r.state == Science then r.(stop := true, abort := false) else r
    case Abort => if r.state != NotRecording then r.(stop := true, abort := true) else r
    case Frame(writeOk) => DataFrame(cfg, r, writeOk)
    case NoData => NoDataTick(cfg, r)
    case Space(full) => r.(full := full)
  }

  function Run(cfg: Config, r: Recorder, es: seq<Event>): Recorder
    decreases |es|
  {
    if es == [] then r else Run(cfg, Step(cfg, r, es[0]), es[1..])
  }

  // ---- The files are open exactly while recording ----

  predicate FilesMatch(r: Recorder) {
    && (r.open <==> r.state != NotRecording)
    && r.frames == r.written == |r.trace|
    && (r.state == NotRecording && r.trace != [] ==> r.lines == r.frames)
  }

  // A stop is honoured in idle, and a calibration is on: the sequencer starts it.
  predicate Reopens(cfg: Config, r: Recorder, e: Event) {
    && e.NoData? && PendingInIdle(r) && cfg.auto
    && (cfg.dark2 > 0 || cfg.medium > 0 || cfg.bright > 0 || cfg.laser > 0)
  }

  predicate PendingInIdle(r: Recorder) {
    r.state == NotRecording && r.stop && !r.abort
  }

  // Entering the calibrations leaves the files alone, or closes them and is idle.
  lemma EnterFromFiles(cfg: Config, r: Recorder, s: State)
    requires Ending(s)
    ensures var q := EnterFrom(cfg, r, s);
      || q == EnterIdle(r)
      || (Calibration(q.state) && q == r.(state := q.state, wait := q.wait))
    ensures s == Dark2 ==> (EnterFrom(cfg, r, s).state == NotRecording
                            <==> cfg.dark2 == cfg.medium == cfg.bright == cfg.laser == 0)
  {
    hide Wait;
  }

  lemma WrittenKeepsFiles(cfg: Config, r: Recorder)
    requires FilesMatch(r) && r.state != NotRecording
    ensures FilesMatch(Written(cfg, r))
  {
    hide EnterFrom, Wait;
    var q := r.(wait := 0);
    if r.state == Science {
      EnterFromFiles(cfg, r.(stop := false), Dark2);
    } else if r.state != Dark1 && r.state != Laser {
      EnterFromFiles(cfg, q, Following(r.state));
    }
  }

  lemma FrameKeepsFiles(cfg: Config, r: Recorder, writeOk: bool)
    requires FilesMatch(r)
    ensures FilesMatch(DataFrame(cfg, r, writeOk))
  {
    hide Written;
    if r.state != NotRecording {
      WrittenKeepsFiles(cfg, r.(frames := r.frames + 1, written := r.written + 1, trace := r.trace + [r.state]));
    }
  }

  lemma QuietKeepsFilesExactly(cfg: Config, r: Recorder)
    requires FilesMatch(r)
    ensures FilesMatch(NoDataTick(cfg, r)) <==> !Reopens(cfg, r, NoData)
  {
    hide EnterFrom;
    EnterFromFiles(cfg, r.(stop := false), Dark2);
  }

  /** Files open exactly while recording, frame counters and header lines equal to the frames written:
      kept by a step if and only if it does not honour a stop in idle. */
  lemma StepKeepsFilesExactly(cfg: Config, r: Recorder, e: Event)
    requires FilesMatch(r)
    ensures FilesMatch(Step(cfg, r, e)) <==> !Reopens(cfg, r, e)
  {
    hide DataFrame, NoDataTick, Wait;
    match e {
      case Frame(writeOk) => FrameKeepsFiles(cfg, r, writeOk);
      case NoData => QuietKeepsFilesExactly(cfg, r);
      case _ =>
    }
  }

  predicate FilesMatchThroughout(cfg: Config, r: Recorder, es: seq<Event>)
    decreases |es|
  {
    FilesMatch(r) && (es == [] || FilesMatchThroughout(cfg, Step(cfg, r, es[0]), es[1..]))
  }

  predicate NeverReopens(cfg: Config, r: Recorder, es: seq<Event>)
    decreases |es|
  {
    es == [] || (!Reopens(cfg, r, es[0]) && NeverReopens(cfg, Step(cfg, r, es[0]), es[1..]))
  }

  /** Over a whole run the same holds, at every point, if and only if no stop is honoured in idle. */
  lemma {:induction false} RunKeepsFilesExactly(cfg: Config, r: Recorder, es: seq<Event>)
    requires FilesMatch(r)
    ensures FilesMatchThroughout(cfg, r, es) <==> NeverReopens(cfg, r, es)
    decreases |es|
  {
    hide Step, FilesMatch, Reopens;
    if es != [] {
      StepKeepsFilesExactly(cfg, r, es[0]);
      if FilesMatch(Step(cfg, r, es[0])) {
        RunKeepsFilesExactly(cfg, Step(cfg, r, es[0]), es[1..]);
      }
    }
  }

  // Storage fails while a stop is pending.
  predicate LeavesRequest(r: Recorder, e: Event) {
    e.Frame? && r.state != NotRecording && r.stop && !r.abort && (r.full || !e.writeOk)
  }

  predicate StopsInScience(r: Recorder) {
    r.state != NotRecording && r.stop && !r.abort ==> r.state == Science
  }

  /** A stop comes to be pending in idle exactly when storage fails between the stop and the next
      data frame or quiet moment. */
  lemma PendingArisesExactly(cfg: Config, r: Recorder, e: Event)
    requires StopsInScience(r) && !PendingInIdle(r)
    ensures StopsInScience(Step(cfg, r, e))
    ensures PendingInIdle(Step(cfg, r, e)) <==> LeavesRequest(r, e)
  {
  }

  // What goes wrong then: the next quiet moment enters a calibration with no file open.
  lemma PendingRequestReopensRecording(cfg: Config)
    requires cfg.auto && cfg.dark1 == 0 && cfg.dark2 > 0
    ensures var r := Run(cfg, IDLE, [Record(true), Stop, Frame(false), NoData]);
      r.state == Dark2 && !r.open
  {
    var r1 := Step(cfg, IDLE, Record(true));
    var r2 := Step(cfg, r1, Stop);
    var r3 := Step(cfg, r2, Frame(false));
    var r4 := Step(cfg, r3, NoData);
    assert Run(cfg, r3, [NoData]) == Run(cfg, r4, []);
    assert [Frame(false), NoData][1..] == [NoData];
    assert [Stop, Frame(false), NoData][1..] == [Frame(false), NoData];
    assert [Record(true), Stop, Frame(false), NoData][1..] == [Stop, Frame(false), NoData];
  }

  // No storage failure meets a pending stop.
  predicate Clean(cfg: Config, r: Recorder, es: seq<Event>)
    decreases |es|
  {
    es == [] || (!LeavesRequest(r, es[0]) && Clean(cfg, Step(cfg, r, es[0]), es[1..]))
  }

  lemma {:induction false} CleanNeverReopens(cfg: Config, r: Recorder, es: seq<Event>)
    requires StopsInScience(r) && !PendingInIdle(r) && Clean(cfg, r, es)
    ensures NeverReopens(cfg, r, es)
    decreases |es|
  {
    hide Step, StopsInScience, LeavesRequest, PendingInIdle;
    if es != [] {
      PendingArisesExactly(cfg, r, es[0]);
      CleanNeverReopens(cfg, Step(cfg, r, es[0]), es[1..]);
    }
  }

  /** From the start of the program, the files match the recording as long as no storage failure
      meets a pending stop. */
  lemma CleanRunKeepsFiles(cfg: Config, es: seq<Event>)
    requires Clean(cfg, IDLE, es)
    ensures FilesMatchThroughout(cfg, IDLE, es)
  {
    CleanNeverReopens(cfg, IDLE, es);
    RunKeepsFilesExactly(cfg, IDLE, es);
  }

  // ---- The order of the states and the length of their stays ----

  lemma RepMore(s: State, n: nat)
    ensures Repeat(s, n) + [s] == Repeat(s, n + 1)
    ensures Repeat(s, 0) == []
  {
  }

  // The place of a calibration behind the science data, and the one after it.
  function Rank(s: State): nat {
    if s == Medium then 1 else if s == Bright then 2 else if s == Laser then 3 else if s == NotRecording then 4 else 0
  }

  function Following(s: State): State {
    if s == Dark2 then Medium else if s == Medium then Bright else if s == Bright then Laser else NotRecording
  }

  predicate Ending(s: State) {
    s == Dark2 || s == Medium || s == Bright || s == Laser
  }

  // The calibrations after the science data, as far as they are complete in state s.
  function Behind(cfg: Config, s: State): seq<State>
    decreases Rank(s)
  {
    if !cfg.auto || s == Dark1 || s == Science || s == Dark2 then []
    else if s == Medium then Repeat(Dark2, Wait(cfg, Dark2))
    else if s == Bright then Behind(cfg, Medium) + Repeat(Medium, Wait(cfg, Medium))
    else if s == Laser then Behind(cfg, Bright) + Repeat(Bright, Wait(cfg, Bright))
    else Behind(cfg, Laser) + Repeat(Laser, Wait(cfg, Laser))
  }

  // The whole recording with m science frames: the calibrations that are on, each as long as its wait.
  function Whole(cfg: Config, m: nat): seq<State> {
    Lead(cfg) + Repeat(Science, m) + Behind(cfg, NotRecording)
  }

  function Lead(cfg: Config): seq<State> {
    if cfg.auto then Repeat(Dark1, Wait(cfg, Dark1)) else []
  }

  // The recording so far: complete parts, then the current one.
  ghost predicate Tracks(cfg: Config, r: Recorder, m: nat) {
    if r.state == NotRecording then r.trace == Whole(cfg, m)
    else if r.state == Science then r.trace == Lead(cfg) + Repeat(Science, m)
    else
      && cfg.auto && 1 <= r.wait <= Wait(cfg, r.state)
      && var now := Repeat(r.state, Wait(cfg, r.state) - r.wait);
         if r.state == Dark1 then m == 0 && r.trace == now
         else r.trace == Lead(cfg) + Repeat(Science, m) + Behind(cfg, r.state) + now
  }

  // A frame counts as a whole second's share: below half a hertz a wait could round to nothing.
  lemma WaitPositive(cfg: Config, s: State)
    ensures Period(cfg, s) == 0 ==> Wait(cfg, s) == 0
    ensures Period(cfg, s) > 0 && cfg.rate >= 0.5 ==> Wait(cfg, s) >= 1
  {
    var p := Period(cfg, s);
    if p > 0 && cfg.rate >= 0.5 {
      assert (p - 1) as real * cfg.rate >= 0.0;
      assert p as real * cfg.rate == (p - 1) as real * cfg.rate + cfg.rate;
    }
  }

  lemma BehindGrows(cfg: Config, s: State)
    requires cfg.auto && Ending(s)
    ensures Behind(cfg, Following(s)) == Behind(cfg, s) + Repeat(s, Wait(cfg, s))
  {
    assert Behind(cfg, Dark2) == [];
  }

  // Entering the first calibration from s on, when everything before s is complete.
  lemma EnterTracks(cfg: Config, r: Recorder, s: State, m: nat)
    requires cfg.rate >= 0.5 && cfg.auto && Ending(s)
    requires r.trace == Lead(cfg) + Repeat(Science, m) + Behind(cfg, s)
    ensures Tracks(cfg, EnterFrom(cfg, r, s), m)
    decreases 4 - Rank(s)
  {
    hide Behind, Lead;
    WaitPositive(cfg, s);
    RepMore(s, 0);
    assert r.trace + [] == r.trace;
    if Period(cfg, s) == 0 {
      BehindGrows(cfg, s);
      assert Behind(cfg, s) + [] == Behind(cfg, s);
      if s != Laser {
        EnterTracks(cfg, r, Following(s), m);
      }
    }
  }

  lemma StartTracks(cfg: Config, r: Recorder)
    requires cfg.rate >= 0.5
    ensures Tracks(cfg, StartRecording(cfg, r), 0)
  {
    WaitPositive(cfg, Dark1);
    assert Repeat(Dark1, 0) == [] && Repeat(Science, 0) == [];
  }

  // An event of an undisturbed recording.
  predicate Plain(e: Event) {
    match e
    case Record(_) => false
    case Abort => false
    case Frame(ok) => ok
    case Space(full) => !full
    case _ => true
  }

  predicate Undisturbed(r: Recorder) {
    !r.full && !r.abort && (r.stop ==> r.state == Science)
  }

  // The last frame of a calibration.
  lemma CalEndTracks(cfg: Config, r: Recorder, m: nat)
    requires cfg.rate >= 0.5 && cfg.auto && Calibration(r.state)
    requires var w := Repeat(r.state, Wait(cfg, r.state));
      if r.state == Dark1 then m == 0 && r.trace == w
      else r.trace == Lead(cfg) + Repeat(Science, m) + Behind(cfg, r.state) + w
    ensures Tracks(cfg, AfterCal(cfg, r), m)
  {
    hide Behind;
    var s := r.state;
    if s == Dark1 {
      RepMore(Science, 0);
      assert r.trace == Lead(cfg) + [];
    } else {
      BehindGrows(cfg, s);
      assert r.trace == Lead(cfg) + Repeat(Science, m) + Behind(cfg, Following(s));
      if s != Laser {
        EnterTracks(cfg, r, Following(s), m);
      }
    }
  }

  lemma CalFrameTracks(cfg: Config, r: Recorder, m: nat)
    requires cfg.rate >= 0.5 && Tracks(cfg, r, m) && Undisturbed(r) && Calibration(r.state)
    ensures Tracks(cfg, DataFrame(cfg, r, true), m)
  {
    hide Behind, Lead, Repeat, AfterCal;
    var s, w := r.state, Wait(cfg, r.state);
    RepMore(s, w - r.wait);
    var base := Lead(cfg) + Repeat(Science, m) + Behind(cfg, s);
    assert base + Repeat(s, w - r.wait) + [s] == base + (Repeat(s, w - r.wait) + [s]);
    if r.wait == 1 {
      var file := if r.open then r.frames + 1 else r.frames;
      CalEndTracks(cfg, r.(frames := file, written := r.written + 1, trace := r.trace + [s], wait := 0), m);
    }
  }

  lemma StopTracks(cfg: Config, r: Recorder, m: nat)
    requires cfg.rate >= 0.5 && r.trace == Lead(cfg) + Repeat(Science, m)
    ensures Tracks(cfg, AfterStop(cfg, r), m)
  {
    assert r.trace + [] == r.trace;
    if cfg.auto {
      EnterTracks(cfg, r, Dark2, m);
    }
  }

  lemma StepTracks(cfg: Config, r: Recorder, e: Event, m: nat) returns (m': nat)
    requires cfg.rate >= 0.5 && Tracks(cfg, r, m) && Undisturbed(r) && Plain(e)
    ensures Tracks(cfg, Step(cfg, r, e), m') && Undisturbed(Step(cfg, r, e))
  {
    hide Behind, Lead, Repeat, EnterFrom;
    m' := m;
    match e {
      case Frame(_) =>
        if Calibration(r.state) {
          CalFrameTracks(cfg, r, m);
          QuietAfterCal(cfg, r);
        } else if r.state == Science {
          m' := m + 1;
          RepMore(Science, m);
          assert Lead(cfg) + Repeat(Science, m) + [Science] == Lead(cfg) + Repeat(Science, m + 1);
          if r.stop {
            var file := if r.open then r.frames + 1 else r.frames;
            var q := r.(frames := file, written := r.written + 1, trace := r.trace + [Science], stop := false);
            StopTracks(cfg, q, m');
            QuietAfterStop(cfg, q);
          }
        }
      case NoData =>
        if r.stop {
          StopTracks(cfg, r.(stop := false), m);
          QuietAfterStop(cfg, r.(stop := false));
        }
      case _ =>
    }
  }

  lemma QuietAfterStop(cfg: Config, r: Recorder)
    requires !r.stop
    ensures var q := AfterStop(cfg, r); !q.stop && q.abort == r.abort && q.full == r.full && q.state != Science
  {
  }

  lemma QuietAfterCal(cfg: Config, r: Recorder)
    requires Undisturbed(r) && Calibration(r.state)
    ensures Undisturbed(DataFrame(cfg, r, true))
  {
  }

  /** An undisturbed recording is, frame by frame: the first dark calibration, m science frames, then
      the second dark, medium, bright and laser calibrations, each for exactly its wait, if on. */
  lemma {:induction false} RunTracks(cfg: Config, r: Recorder, es: seq<Event>, m: nat) returns (m': nat)
    requires cfg.rate >= 0.5 && Tracks(cfg, r, m) && Undisturbed(r)
    requires forall e <- es :: Plain(e)
    ensures Tracks(cfg, Run(cfg, r, es), m') && Undisturbed(Run(cfg, r, es))
    decreases |es|
  {
    hide Tracks, Step, Plain, Undisturbed;
    if es == [] {
      m' := m;
    } else {
      m' := StepTracks(cfg, r, es[0], m);
      m' := RunTracks(cfg, Step(cfg, r, es[0]), es[1..], m');
    }
  }

  // ---- How long each calibration lasts ----

  // A calibration of so many seconds takes the number of frames nearest to seconds times rate; none
  // is made unless the lamps and the shutter are under automatic control.
  predicate Lasts(cfg: Config, seconds: nat, frames: nat) {
    if cfg.auto then frames as real - 0.5 <= seconds as real * cfg.rate < frames as real + 0.5 else frames == 0
  }

  // The frames of a complete recording: each calibration by its own setting, m of science, in order.
  ghost predicate Complete(cfg: Config, trace: seq<State>, m: nat) {
    var count := multiset(trace);
    && Lasts(cfg, cfg.dark1, count[Dark1])
    && count[Science] == m
    && Lasts(cfg, cfg.dark2, count[Dark2])
    && Lasts(cfg, cfg.medium, count[Medium])
    && Lasts(cfg, cfg.bright, count[Bright])
    && Lasts(cfg, cfg.laser, count[Laser])
    && count[NotRecording] == 0
    && Sorted(trace)
  }

  function Place(s: State): nat {
    match s
    case Dark1 => 0
    case Science => 1
    case Dark2 => 2
    case Medium => 3
    case Bright => 4
    case Laser => 5
    case NotRecording => 6
  }

  predicate Sorted(trace: seq<State>) {
    forall i, j :: 0 <= i < j < |trace| ==> Place(trace[i]) <= Place(trace[j])
  }

  lemma WaitIsNearest(period: nat, rate: Rate)
    ensures var w := WaitFor(period, rate); w as real - 0.5 <= period as real * rate < w as real + 0.5
  {
    var x := period as real * rate + 0.5;
    assert x.Floor as real <= x < x.Floor as real + 1.0;
  }

  lemma {:induction false} RepeatCount(s: State, n: nat, t: State)
    ensures multiset(Repeat(s, n))[t] == if s == t then n else 0
  {
    if n > 0 {
      RepMore(s, n - 1);
      RepeatCount(s, n - 1, t);
    } else {
      RepMore(s, 0);
    }
  }

  // Six stays one after another.
  function Stays(a: nat, m: nat, b: nat, c: nat, d: nat, e: nat): seq<State> {
    Repeat(Dark1, a) + Repeat(Science, m) + Repeat(Dark2, b) + Repeat(Medium, c) + Repeat(Bright, d) + Repeat(Laser, e)
  }

  lemma StaysCount(a: nat, m: nat, b: nat, c: nat, d: nat, e: nat, t: State)
    ensures multiset(Stays(a, m, b, c, d, e))[t] ==
      match t
      case Dark1 => a
      case Science => m
      case Dark2 => b
      case Medium => c
      case Bright => d
      case Laser => e
      case NotRecording => 0
  {
    hide Repeat;
    RepeatCount(Dark1, a, t);
    RepeatCount(Science, m, t);
    RepeatCount(Dark2, b, t);
    RepeatCount(Medium, c, t);
    RepeatCount(Bright, d, t);
    RepeatCount(Laser, e, t);
  }

  // A sorted run whose states come no later than s, and a stay in s.
  lemma SortedThen(trace: seq<State>, s: State, n: nat)
    requires Sorted(trace) && forall i :: 0 <= i < |trace| ==> Place(trace[i]) <= Place(s)
    ensures var r := trace + Repeat(s, n);
      Sorted(r) && forall i :: 0 <= i < |r| ==> Place(r[i]) <= Place(s)
  {
  }

  lemma StaysSorted(a: nat, m: nat, b: nat, c: nat, d: nat, e: nat)
    ensures Sorted(Stays(a, m, b, c, d, e))
  {
    hide Repeat, Sorted;
    NoneSorted();
    assert [] + Repeat(Dark1, a) == Repeat(Dark1, a);
    SortedThen([], Dark1, a);
    var t1 := Repeat(Dark1, a);
    SortedThen(t1, Science, m);
    var t2 := t1 + Repeat(Science, m);
    SortedThen(t2, Dark2, b);
    var t3 := t2 + Repeat(Dark2, b);
    SortedThen(t3, Medium, c);
    var t4 := t3 + Repeat(Medium, c);
    SortedThen(t4, Bright, d);
    SortedThen(t4 + Repeat(Bright, d), Laser, e);
  }

  lemma NoneSorted()
    ensures Sorted([])
  {
  }

  lemma WholeIsStays(cfg: Config, m: nat)
    ensures Whole(cfg, m) ==
            if cfg.auto then
              Stays(Wait(cfg, Dark1), m, Wait(cfg, Dark2), Wait(cfg, Medium), Wait(cfg, Bright), Wait(cfg, Laser))
            else Stays(0, m, 0, 0, 0, 0)
  {
    hide Wait;
    var dark2, medium, bright, laser := Repeat(Dark2, Wait(cfg, Dark2)), Repeat(Medium, Wait(cfg, Medium)),
      Repeat(Bright, Wait(cfg, Bright)), Repeat(Laser, Wait(cfg, Laser));
    if cfg.auto {
      BehindGrows(cfg, Medium);
      BehindGrows(cfg, Bright);
      BehindGrows(cfg, Laser);
      assert Behind(cfg, NotRecording) == dark2 + medium + bright + laser;
      assert Lead(cfg) + Repeat(Science, m) + (dark2 + medium + bright + laser)
          == Lead(cfg) + Repeat(Science, m) + dark2 + medium + bright + laser;
    } else {
      assert Behind(cfg, NotRecording) == [];
      assert Whole(cfg, m) == Stays(0, m, 0, 0, 0, 0);
    }
  }

  lemma StaysComplete(cfg: Config, a: nat, m: nat, b: nat, c: nat, d: nat, e: nat)
    requires Lasts(cfg, cfg.dark1, a) && Lasts(cfg, cfg.dark2, b) && Lasts(cfg, cfg.medium, c)
    requires Lasts(cfg, cfg.bright, d) && Lasts(cfg, cfg.laser, e)
    ensures Complete(cfg, Stays(a, m, b, c, d, e), m)
  {
    hide Stays, Sorted, Lasts;
    StaysSorted(a, m, b, c, d, e);
    StaysCount(a, m, b, c, d, e, Dark1);
    StaysCount(a, m, b, c, d, e, Science);
    StaysCount(a, m, b, c, d, e, Dark2);
    StaysCount(a, m, b, c, d, e, Medium);
    StaysCount(a, m, b, c, d, e, Bright);
    StaysCount(a, m, b, c, d, e, Laser);
    StaysCount(a, m, b, c, d, e, NotRecording);
  }

  lemma WholeIsComplete(cfg: Config, m: nat)
    ensures Complete(cfg, Whole(cfg, m), m)
  {
    hide Whole, Stays, Complete, WaitFor;
    WholeIsStays(cfg, m);
    if cfg.auto {
      WaitIsNearest(cfg.dark1, cfg.rate);
      WaitIsNearest(cfg.dark2, cfg.rate);
      WaitIsNearest(cfg.medium, cfg.rate);
      WaitIsNearest(cfg.bright, cfg.rate);
      WaitIsNearest(cfg.laser, cfg.rate);
      StaysComplete(cfg, Wait(cfg, Dark1), m, Wait(cfg, Dark2), Wait(cfg, Medium), Wait(cfg, Bright), Wait(cfg, Laser));
    } else {
      StaysComplete(cfg, 0, m, 0, 0, 0, 0);
    }
  }

  /** Whatever plain events follow its start, a recording has visited its states in order for exactly
      their waits, and once idle again it is complete: every calibration has lasted for its own
      setting to within half a frame, for some number m of science frames. */
  lemma RecordingSequence(cfg: Config, r: Recorder, es: seq<Event>) returns (m: nat)
    requires cfg.rate >= 0.5 && !r.full && (forall e <- es :: Plain(e))
    ensures var q := Run(cfg, StartRecording(cfg, r), es);
      && Tracks(cfg, q, m)
      && (q.state == NotRecording ==> q.trace == Whole(cfg, m) && Complete(cfg, q.trace, m))
  {
    hide Complete, Whole, Run;
    StartTracks(cfg, r);
    m := RunTracks(cfg, StartRecording(cfg, r), es, 0);
    WholeIsComplete(cfg, m);
  }

  // ---- Every frame is written, and science goes on until the stop ----

  function FramesIn(es: seq<Event>): nat {
    if es == [] then 0 else (if es[0].Frame? then 1 else 0) + FramesIn(es[1..])
  }

  // As long as no stop is pressed, frame number i is of the dark calibration or of science by i alone.
  ghost predicate StillOpen(cfg: Config, r: Recorder, frames: nat) {
    var w := if cfg.auto then Wait(cfg, Dark1) else 0;
    && Undisturbed(r) && !r.stop && |r.trace| == frames
    && (forall i :: 0 <= i < frames ==> r.trace[i] == if i < w then Dark1 else Science)
    && r.state == (if frames < w then Dark1 else Science)
    && (frames < w ==> r.wait == w - frames)
  }

  lemma StillOpenStep(cfg: Config, r: Recorder, frames: nat, e: Event)
    requires StillOpen(cfg, r, frames) && Plain(e) && !e.Stop?
    ensures StillOpen(cfg, Step(cfg, r, e), frames + if e.Frame? then 1 else 0)
  {
    hide Wait;
  }

  lemma StartOpens(cfg: Config, r: Recorder)
    requires cfg.rate >= 0.5 && !r.full
    ensures StillOpen(cfg, StartRecording(cfg, r), 0)
  {
    WaitPositive(cfg, Dark1);
    hide Wait;
  }

  lemma {:induction false} OpenRun(cfg: Config, r: Recorder, frames: nat, es: seq<Event>)
    requires StillOpen(cfg, r, frames) && (forall e <- es :: Plain(e) && !e.Stop?)
    ensures StillOpen(cfg, Run(cfg, r, es), frames + FramesIn(es))
    decreases |es|
  {
    hide StillOpen, Step, Plain;
    if es != [] {
      StillOpenStep(cfg, r, frames, es[0]);
      OpenRun(cfg, Step(cfg, r, es[0]), frames + if es[0].Frame? then 1 else 0, es[1..]);
    }
  }

  /** Without a stop the recording never ends: every frame is written, the first ones as the dark
      calibration, to within half a frame of its setting, and all others as science. */
  lemma ScienceUntilStop(cfg: Config, r: Recorder, es: seq<Event>) returns (w: nat)
    requires cfg.rate >= 0.5 && !r.full && (forall e <- es :: Plain(e) && !e.Stop?)
    ensures Lasts(cfg, cfg.dark1, w)
    ensures var q := Run(cfg, StartRecording(cfg, r), es);
      && |q.trace| == FramesIn(es)
      && (forall i :: 0 <= i < |q.trace| ==> q.trace[i] == if i < w then Dark1 else Science)
      && q.state == (if FramesIn(es) < w then Dark1 else Science)
  {
    hide Run;
    w := if cfg.auto then Wait(cfg, Dark1) else 0;
    WaitIsNearest(cfg.dark1, cfg.rate);
    StartOpens(cfg, r);
    OpenRun(cfg, StartRecording(cfg, r), 0, es);
  }

  // ---- A stop ends the recording ----

  // The data frames until idle, once the stop has been pressed.
  function Remaining(cfg: Config, r: Recorder): nat {
    if r.state == Science then 1 + Ahead(cfg, Science)
    else if r.state == NotRecording then 0
    else (if r.wait >= 0 then r.wait else 0) + Ahead(cfg, r.state)
  }

  // The waits of all calibrations behind s.
  function Ahead(cfg: Config, s: State): nat {
    if !cfg.auto then 0
    else
      (if s == Science then Wait(cfg, Dark2) else 0)
      + (if s == Science || s == Dark2 then Wait(cfg, Medium) else 0)
      + (if s == Science || s == Dark2 || s == Medium then Wait(cfg, Bright) else 0)
      + (if s != Laser && s != NotRecording then Wait(cfg, Laser) else 0)
  }

  predicate Stopping(cfg: Config, r: Recorder) {
    && Undisturbed(r)
    && (r.state == Science ==> r.stop)
    && (Calibration(r.state) ==> r.state != Dark1 && cfg.auto && r.wait >= 1)
  }

  // Entering the first calibration from s on leaves exactly the waits from s on.
  lemma EnterRemaining(cfg: Config, r: Recorder, s: State)
    requires cfg.rate >= 0.5 && cfg.auto && Ending(s) && !r.full && !r.abort && !r.stop
    ensures var q := EnterFrom(cfg, r, s);
      Stopping(cfg, q) && Remaining(cfg, q) == Wait(cfg, s) + Ahead(cfg, s)
    decreases 4 - Rank(s)
  {
    hide Wait;
    WaitPositive(cfg, s);
    if Period(cfg, s) == 0 && s != Laser {
      EnterRemaining(cfg, r, Following(s));
    }
  }

  lemma StoppingStep(cfg: Config, r: Recorder, e: Event)
    requires cfg.rate >= 0.5 && Stopping(cfg, r) && Plain(e)
    ensures var q := Step(cfg, r, e);
      && Stopping(cfg, q)
      && Remaining(cfg, q) <= Remaining(cfg, r)
      && (e.Frame? && r.state != NotRecording ==> Remaining(cfg, q) == Remaining(cfg, r) - 1)
  {
    hide Wait, EnterFrom;
    var file := if r.open then r.frames + 1 else r.frames;
    var q := r.(frames := file, written := r.written + 1, trace := r.trace + [r.state]);
    if cfg.auto && r.state == Science {
      EnterRemaining(cfg, q.(stop := false), Dark2);
      EnterRemaining(cfg, r.(stop := false), Dark2);
    } else if Calibration(r.state) && r.state != Laser {
      EnterRemaining(cfg, q.(wait := 0), Following(r.state));
    }
  }

  /** From the stop on, idle is reached within one frame plus the waits that are still due. */
  lemma {:induction false} StopReachesIdle(cfg: Config, r: Recorder, es: seq<Event>)
    requires cfg.rate >= 0.5 && Stopping(cfg, r) && (forall e <- es :: Plain(e))
    requires FramesIn(es) >= Remaining(cfg, r)
    ensures Run(cfg, r, es).state == NotRecording
    decreases |es|
  {
    hide Wait, Step, Ahead;
    if es != [] {
      StoppingStep(cfg, r, es[0]);
      if Step(cfg, r, es[0]).state == NotRecording {
        IdleStays(cfg, Step(cfg, r, es[0]), es[1..]);
      } else {
        StopReachesIdle(cfg, Step(cfg, r, es[0]), es[1..]);
      }
    }
  }

  lemma {:induction false} IdleStays(cfg: Config, r: Recorder, es: seq<Event>)
    requires r.state == NotRecording && !r.stop && (forall e <- es :: Plain(e))
    ensures Run(cfg, r, es).state == NotRecording
    decreases |es|
  {
    if es != [] {
      assert Plain(es[0]);
      IdleStays(cfg, Step(cfg, r, es[0]), es[1..]);
    }
  }

  // ---- Everything else ----

  /** Only data, or the quiet moment without any, move a recording on; only the record button begins
      one.  The other events leave its state, its files and what was written alone. */
  lemma OnlyDataMoves(cfg: Config, r: Recorder, e: Event)
    requires e.Stop? || e.Abort? || e.Space? || (e.Record? && (r.state != NotRecording || !e.filesOpen))
    ensures var q := Step(cfg, r, e);
      q == r.(stop := q.stop, abort := q.abort, full := q.full)
    ensures var q := Step(cfg, r, e);
      && (q.stop != r.stop || q.abort != r.abort ==>
            && q.stop
            && if e.Abort? then q.abort && r.state != NotRecording else e.Stop? && !q.abort && r.state == Science)
      && (q.full != r.full ==> e.Space?)
  {
  }

  predicate LeavesAlone(e: Event) {
    e.Record? || e.Abort?
  }

  lemma {:induction false} AbortStays(cfg: Config, r: Recorder, es: seq<Event>)
    requires r.state != NotRecording && r.stop && r.abort && (forall e <- es :: LeavesAlone(e))
    ensures Run(cfg, r, es) == r
    decreases |es|
  {
    if es != [] {
      assert LeavesAlone(es[0]);
      assert Step(cfg, r, es[0]) == r;
      AbortStays(cfg, r, es[1..]);
    }
  }

  lemma {:induction false} RunAppend(cfg: Config, r: Recorder, a: seq<Event>, b: seq<Event>)
    ensures Run(cfg, r, a + b) == Run(cfg, Run(cfg, r, a), b)
    decreases |a|
  {
    hide Step;
    if a == [] {
      assert a + b == b;
    } else {
      assert (a + b)[0] == a[0] && (a + b)[1..] == a[1..] + b;
      RunAppend(cfg, Step(cfg, r, a[0]), a[1..], b);
    }
  }

  /** After an abort in any state of a recording, the next data frame or quiet moment ends it with the
      files closed and without a calibration; that frame alone may still be written. */
  lemma AbortEnds(cfg: Config, r: Recorder, es: seq<Event>, e: Event)
    requires r.state != NotRecording && (forall x <- es :: LeavesAlone(x)) && (e.Frame? || e.NoData?)
    ensures var q := Run(cfg, r, [Abort] + es + [e]);
      && q.state == NotRecording && !q.open
      && q.trace == r.trace + (if e.Frame? && e.writeOk && !r.full then [r.state] else [])
      && (q.stop <==> e.Frame? && (r.full || !e.writeOk))
  {
    var q := Step(cfg, r, Abort);
    assert [Abort] + es + [e] == [Abort] + (es + [e]);
    RunAppend(cfg, r, [Abort], es + [e]);
    assert [Abort][1..] == [] && Run(cfg, r, [Abort]) == Run(cfg, q, []);
    RunAppend(cfg, q, es, [e]);
    AbortStays(cfg, q, es);
    assert [e][1..] == [] && Run(cfg, q, [e]) == Run(cfg, Step(cfg, q, e), []);
    hide EnterFrom;
  }

  /** A frame that cannot be stored, or finds storage full, ends the recording with its files closed;
      no frame is written from then on until space is found again. */
  lemma StorageFailureEnds(cfg: Config, r: Recorder, e: Event, es: seq<Event>)
    requires r.state != NotRecording && e.Frame? && (r.full || !e.writeOk)
    requires forall x <- es :: x.Frame?
    ensures var q := Run(cfg, Step(cfg, r, e), es);
      q.state == NotRecording && !q.open && q.full && q.trace == r.trace
  {
    IdleWrites(cfg, Step(cfg, r, e), es);
  }

  lemma {:induction false} IdleWrites(cfg: Config, r: Recorder, es: seq<Event>)
    requires r.state == NotRecording && (forall x <- es :: x.Frame?)
    ensures Run(cfg, r, es) == r
    decreases |es|
  {
    if es != [] {
      assert es[0].Frame?;
      assert Step(cfg, r, es[0]) == r;
      IdleWrites(cfg, r, es[1..]);
    }
  }

  /** A wait that rounds to zero never ends: the counter is decremented before it is compared. */
  lemma {:induction false} ZeroWaitNeverEnds(cfg: Config, r: Recorder, es: seq<Event>)
    requires Calibration(r.state) && r.wait <= 0 && Undisturbed(r)
    requires forall e <- es :: Plain(e)
    ensures Run(cfg, r, es).state == r.state
    decreases |es|
  {
    if es != [] {
      assert Plain(es[0]);
      ZeroWaitNeverEnds(cfg, Step(cfg, r, es[0]), es[1..]);
    }
  }

  // ---- The recorder as the program keeps it ----

  /** The recording fields of the display tab; each method is one event. */
  class DisplayTab {
    const cfg: Config
    var recordState: State
    var wait: int
    var stopRequested: bool
    var stopIsAbort: bool
    var outOfSpace: bool
    var imageOpen: bool
    var imageFrames: nat
    var framesWritten: nat
    var headerLines: nat
    ghost var trace: seq<State>

    ghost function View(): Recorder
      reads this
    {
      Recorder(recordState, wait, stopRequested, stopIsAbort, outOfSpace, imageOpen, imageFrames,
               framesWritten, headerLines, trace)
    }

    constructor (cfg: Config)
      ensures this.cfg == cfg && View() == IDLE
    {
      this.cfg := cfg;
      recordState, wait := NotRecording, 0;
      stopRequested, stopIsAbort, outOfSpace, imageOpen := false, false, false, false;
      imageFrames, framesWritten, headerLines, trace := 0, 0, 0, [];
    }

    method EnterCalState(s: State)
      modifies `wait, `recordState
      ensures View() == EnterCal(cfg, old(View()), s)
    {
      wait := (Period(cfg, s) as real * cfg.rate + 0.5).Floor;
      recordState := s;
    }

    method EnterIdleState()
      modifies `imageOpen, `headerLines, `recordState
      ensures View() == EnterIdle(old(View()))
    {
      if imageOpen {
        headerLines := framesWritten;
        imageOpen := false;
      }
      recordState := NotRecording;
    }

    // What follows when a stop is honoured or a calibration is over.
    method EnterCalFrom(s: State)
      requires Ending(s)
      modifies `wait, `recordState, `imageOpen, `headerLines
      ensures View() == EnterFrom(cfg, old(View()), s)
    {
      if s == Dark2 && cfg.dark2 > 0 {
        EnterCalState(Dark2);
      } else if (s == Dark2 || s == Medium) && cfg.medium > 0 {
        EnterCalState(Medium);
      } else if s != Laser && cfg.bright > 0 {
        EnterCalState(Bright);
      } else if cfg.laser > 0 {
        EnterCalState(Laser);
      } else {
        EnterIdleState();
      }
    }

    method RecordButtonWork(filesOpen: bool)
      requires recordState == NotRecording
      modifies this
      ensures View() == Step(cfg, old(View()), Record(filesOpen))
    {
      if filesOpen {
        imageOpen, imageFrames, trace := true, 0, [];
        stopRequested, stopIsAbort := false, false;
        framesWritten := 0;
        if cfg.dark1 == 0 || !cfg.auto {
          recordState := Science;
        } else {
          EnterCalState(Dark1);
        }
      }
    }

    method StopButtonWork()
      requires recordState == Science
      modifies `stopRequested, `stopIsAbort
      ensures View() == Step(cfg, old(View()), Stop)
    {
      stopRequested, stopIsAbort := true, false;
    }

    method AbortButtonWork()
      requires recordState != NotRecording
      modifies `stopRequested, `stopIsAbort
      ensures View() == Step(cfg, old(View()), Abort)
    {
      stopRequested, stopIsAbort := true, true;
    }

    method LookForImageData(dataAvailable: bool, writeOk: bool)
      modifies this
      ensures View() == Step(cfg, old(View()), if dataAvailable then Frame(writeOk) else NoData)
    {
      hide Written, EnterFrom;
      if !dataAvailable {
        NoImage();
      } else if outOfSpace {
        if recordState != NotRecording {
          EnterIdleState();
        }
      } else if recordState != NotRecording {
        if !writeOk {
          EnterIdleState();
          outOfSpace := true;
        } else {
          trace := trace + [recordState];
          imageFrames := if imageOpen then imageFrames + 1 else imageFrames;
          framesWritten := framesWritten + 1;
          AfterWrite();
        }
      }
    }

    method NoImage()
      modifies this
      ensures View() == Step(cfg, old(View()), NoData)
    {
      if stopRequested {
        stopRequested := false;
        if !cfg.auto || stopIsAbort {
          EnterIdleState();
        } else {
          EnterCalFrom(Dark2);
        }
      }
    }

    method AfterWrite()
      requires recordState != NotRecording
      modifies this
      ensures View() == Written(cfg, old(View()))
    {
      if stopRequested && stopIsAbort {
        stopRequested := false;
        EnterIdleState();
        return;
      }
      if recordState == Science {
        if stopRequested {
          stopRequested := false;
          if !cfg.auto {
            EnterIdleState();
          } else {
            EnterCalFrom(Dark2);
          }
        }
        return;
      }
      wait := wait - 1;
      if wait == 0 {
        if recordState == Dark1 {
          recordState := Science;
        } else if recordState == Laser {
          EnterIdleState();
        } else {
          EnterCalFrom(Following(recordState));
        }
      }
    }
  }
}

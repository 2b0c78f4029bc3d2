/**
 Dark-frame accumulation: after a settling time, the frames of a dark calibration are summed pixel
 by pixel, and the sum is turned into the dark frame that is later subtracted from the image.
 */
module DarkFrame {
  import opened Basics
  import Recorder

  const UINT_LIMIT := 0x1_0000_0000

  // OBC_SETTLING_TIME_SECS and DARK_ACCUM_TIME_SECS
  const SETTLING: real := 0.2
  const ACCUMULATION: real := 0.7

  type Rate = r: real | r > 0.0 witness 1.0

  function Settle(rate: Rate): nat {
    (rate * SETTLING).Floor
  }

  function Wanted(rate: Rate): real {
    rate * ACCUMULATION
  }

  predicate StillWanted(count: nat, rate: Rate) {
    count as real < Wanted(rate)
  }

  // A pixel's share: the sum divided by the wanted number of frames, truncated to 16 bits.
  function Share(sum: nat, rate: Rate): (s: nat) {
    assert sum as real / Wanted(rate) >= 0.0;
    (sum as real / Wanted(rate)).Floor % 0x1_0000
  }

  /** One pixel's view: until counts the frames to wait (negative when there is nothing to do),
      count the frames accumulated, sum their total, dark the stored value. */
  datatype Pixel = Pixel(until: int, count: nat, sum: nat, dark: nat, buffered: bool)

  function Enter(p: Pixel, rate: Rate): Pixel {
    p.(until := Settle(rate), count := 0, sum := 0)
  }

  function Step(p: Pixel, rate: Rate, dn: nat): Pixel {
    var u := if p.until > 0 then p.until - 1 else p.until;
    if u != 0 then p.(until := u)
    else if StillWanted(p.count, rate) then
      p.(until := u, count := p.count + 1, sum := (p.sum + dn) % UINT_LIMIT)
    else
      p.(until := -1, dark := Share(p.sum, rate), buffered := true)
  }

  // The frames after the dark calibration was entered.
  function Run(p: Pixel, rate: Rate, dns: seq<nat>): Pixel {
    if dns == [] then p else Step(Run(p, rate, dns[..|dns| - 1]), rate, dns[|dns| - 1])
  }

  // How many frames are accumulated: those of 0.7 seconds, rounded up.
  function Count(rate: Rate): (a: nat)
    ensures a >= 1 && rate * 0.7 <= a as real < rate * 0.7 + 1.0
  {
    var f := (rate * 0.7).Floor;
    if f as real == rate * 0.7 then f else f + 1
  }

  // The frames of 0.2 seconds.
  function Settled(rate: Rate): nat {
    (rate * 0.2).Floor
  }

  // The first frame that is accumulated, counted from 1.
  function First(rate: Rate): (f: nat)
    ensures f >= 1
  {
    if Settled(rate) >= 1 then Settled(rate) else 1
  }

  function Sum(dns: seq<nat>): nat {
    if dns == [] then 0 else Sum(dns[..|dns| - 1]) + dns[|dns| - 1]
  }

  // The state after all frames dns.
  ghost predicate At(p: Pixel, q: Pixel, rate: Rate, dns: seq<nat>) {
    var j, first, a := |dns|, First(rate), Count(rate);
    if j < first then q == p.(until := Settled(rate) - j, count := 0, sum := 0)
    else if j < first + a then
      q == p.(until := 0, count := j - first + 1, sum := Sum(dns[first - 1..]) % 0x1_0000_0000)
    else
      var sum := Sum(dns[first - 1..first - 1 + a]) % 0x1_0000_0000;
      q == p.(until := -1, count := a, sum := sum, dark := Share(sum, rate), buffered := true)
  }

  lemma CountExact(rate: Rate, c: nat)
    ensures c < Count(rate) <==> StillWanted(c, rate)
  {
  }

  lemma SumOfSlice(dns: seq<nat>, x: nat, i: nat)
    requires i <= |dns|
    ensures Sum((dns + [x])[i..]) == Sum(dns[i..]) + x
  {
    assert (dns + [x])[i..] == dns[i..] + [x];
    assert (dns[i..] + [x])[..|dns| - i] == dns[i..];
  }

  // A frame that is waited for or accumulated.
  lemma EarlyStepAt(p: Pixel, q: Pixel, rate: Rate, dns: seq<nat>, x: nat)
    requires At(p, q, rate, dns) && |dns| + 1 < First(rate) + Count(rate)
    ensures At(p, Step(q, rate, x), rate, dns + [x])
  {
    hide StillWanted, Share, Sum, Settle, Settled, Count, Wanted;
    var j, first := |dns| + 1, First(rate);
    CountExact(rate, q.count);
    if j >= first {
      SumOfSlice(dns, x, first - 1);
      if j == first {
        assert dns[first - 1..] == [];
        SumNothing();
      }
    }
  }

  // The frame that finishes the dark frame.
  lemma LastStepAt(p: Pixel, q: Pixel, rate: Rate, dns: seq<nat>, x: nat)
    requires At(p, q, rate, dns) && |dns| + 1 == First(rate) + Count(rate)
    ensures At(p, Step(q, rate, x), rate, dns + [x])
  {
    hide StillWanted, Share, Sum, Settle, Settled, Count, Wanted;
    var first, a := First(rate), Count(rate);
    CountExact(rate, q.count);
    assert (dns + [x])[first - 1..first - 1 + a] == dns[first - 1..];
  }

  // A frame after that.
  lemma LateStepAt(p: Pixel, q: Pixel, rate: Rate, dns: seq<nat>, x: nat)
    requires At(p, q, rate, dns) && |dns| >= First(rate) + Count(rate)
    ensures At(p, Step(q, rate, x), rate, dns + [x])
  {
    hide StillWanted, Share, Sum, Settle, Settled, Count, Wanted, First;
    var first, a := First(rate), Count(rate);
    assert (dns + [x])[first - 1..first - 1 + a] == dns[first - 1..first - 1 + a];
  }

  lemma SumNothing()
    ensures Sum([]) == 0
  {
  }

  // Where the accumulation stands after any number of frames.
  lemma {:induction false} Timeline(p: Pixel, rate: Rate, dns: seq<nat>)
    ensures At(p, Run(Enter(p, rate), rate, dns), rate, dns)
  {
    hide Step, At, Count, First;
    if dns == [] {
      assert Run(Enter(p, rate), rate, dns) == Enter(p, rate);
      StartAt(p, rate);
    } else {
      var d, x := dns[..|dns| - 1], dns[|dns| - 1];
      Timeline(p, rate, d);
      if |dns| < First(rate) + Count(rate) {
        EarlyStepAt(p, Run(Enter(p, rate), rate, d), rate, d, x);
      } else if |dns| == First(rate) + Count(rate) {
        LastStepAt(p, Run(Enter(p, rate), rate, d), rate, d, x);
      } else {
        LateStepAt(p, Run(Enter(p, rate), rate, d), rate, d, x);
      }
      assert d + [x] == dns;
    }
  }

  lemma StartAt(p: Pixel, rate: Rate)
    ensures At(p, Enter(p, rate), rate, [])
  {
  }

  // ---- What the accumulation amounts to ----

  // The accumulation and the computation of the dark frame both happen within the calibration's own
  // frames.
  predicate Fits(period: nat, rate: Rate) {
    First(rate) + Count(rate) <= Recorder.WaitFor(period, rate)
  }

  // From 5 Hz on they do.
  lemma FitsInCalibration(period: nat, rate: Rate)
    requires period >= 1 && rate >= 5.0
    ensures First(rate) == Settled(rate)
    ensures Fits(period, rate)
  {
    assert (period - 1) as real * rate >= 0.0;
    assert period as real * rate == (period - 1) as real * rate + rate;
    assert Settled(rate) as real <= rate * 0.2;
    var n, x := First(rate) + Count(rate), period as real * rate + 0.5;
    assert n as real < rate + 0.5 <= x;
    assert x < x.Floor as real + 1.0;
    assert n as real < x.Floor as real + 1.0;
    assert n < x.Floor + 1;
  }

  lemma FloorIs(x: real, n: int)
    requires n as real <= x < n as real + 1.0
    ensures x.Floor == n
  {
    assert x.Floor as real <= x < x.Floor as real + 1.0;
    assert x.Floor as real < n as real + 1.0;
    assert x.Floor < n + 1 && n < x.Floor + 1;
  }

  // ---- The frame rates of the program ----

  const HEIGHTS: seq<nat> := [285, 481, 1024]
  const WIDTHS: seq<nat> := [640, 1024]
  const MULTIPLIERS: seq<real> := [0.20, 0.25, 1.0 / 3.0, 0.4, 0.5, 2.0 / 3.0, 1.0]

  function Clock(h: nat): real
    requires h < |HEIGHTS|
  {
    if HEIGHTS[h] != 1024 then 34.0e6 else 25.0e6
  }

  // The rate of an image height, an image width and a multiplier, each by its index.
  function FrameRate(h: nat, w: nat, m: nat): (r: Rate)
    requires h < |HEIGHTS| && w < |WIDTHS| && m < |MULTIPLIERS|
  {
    Clock(h) / ((WIDTHS[w] + 64) * (HEIGHTS[h] + 4)) as real * MULTIPLIERS[m]
  }

  /** The six full rates: the clock's 34 or, at the largest height, 25 million ticks a second over the
      ticks of a frame. */
  lemma FullRates()
    ensures FrameRate(0, 0, 6) * 203456.0 == FrameRate(0, 1, 6) * 314432.0 == 34000000.0
    ensures FrameRate(1, 0, 6) * 341440.0 == FrameRate(1, 1, 6) * 527680.0 == 34000000.0
    ensures FrameRate(2, 0, 6) * 723712.0 == FrameRate(2, 1, 6) * 1118464.0 == 25000000.0
  {
  }

  // The other rates are a fifth, a quarter, a third, two fifths, a half and two thirds of them.
  lemma Fractions(h: nat, w: nat, m: nat)
    requires h < |HEIGHTS| && w < |WIDTHS| && m < |MULTIPLIERS|
    ensures m == 0 ==> 5.0 * FrameRate(h, w, m) == FrameRate(h, w, 6)
    ensures m == 1 ==> 4.0 * FrameRate(h, w, m) == FrameRate(h, w, 6)
    ensures m == 2 ==> 3.0 * FrameRate(h, w, m) == FrameRate(h, w, 6)
    ensures m == 3 ==> 5.0 * FrameRate(h, w, m) == 2.0 * FrameRate(h, w, 6)
    ensures m == 4 ==> 2.0 * FrameRate(h, w, m) == FrameRate(h, w, 6)
    ensures m == 5 ==> 3.0 * FrameRate(h, w, m) == 2.0 * FrameRate(h, w, 6)
  {
  }

  lemma RateBounds(h: nat, w: nat, m: nat)
    requires h < |HEIGHTS| && w < |WIDTHS| && m < |MULTIPLIERS|
    ensures if h == 2 && w == 1 && m == 0 then 4.47 < FrameRate(h, w, m) < 4.48 else 5.0 <= FrameRate(h, w, m) <= 168.0
  {
  }

  lemma SlowestFits(period: nat, rate: Rate)
    requires period >= 1 && 4.47 < rate < 4.48
    ensures Fits(period, rate) <==> period != 1
  {
    FloorIs(rate * SETTLING, 0);
    FloorIs(Wanted(rate), 3);
    assert First(rate) + Count(rate) == 5;
    if period == 1 {
      FloorIs(period as real * rate + 0.5, 4);
    } else {
      var x := period as real * rate + 0.5;
      assert (period - 2) as real * rate >= 0.0;
      assert period as real * rate == (period - 2) as real * rate + 2.0 * rate;
      assert x.Floor as real <= x < x.Floor as real + 1.0;
      assert 5.0 < x.Floor as real + 1.0;
    }
  }

  /** At the program's own rates, the dark frame is computed within the calibration's own frames if
      and only if it is not the one-second calibration of the largest image at the lowest rate. */
  lemma FitsExactly(period: nat, h: nat, w: nat, m: nat)
    requires period >= 1 && h < |HEIGHTS| && w < |WIDTHS| && m < |MULTIPLIERS|
    ensures Fits(period, FrameRate(h, w, m)) <==> !(h == 2 && w == 1 && m == 0 && period == 1)
  {
    hide FrameRate, Fits;
    RateBounds(h, w, m);
    if h == 2 && w == 1 && m == 0 {
      SlowestFits(period, FrameRate(h, w, m));
    } else {
      FitsInCalibration(period, FrameRate(h, w, m));
    }
  }

  predicate Below(dns: seq<nat>, limit: nat) {
    forall i :: 0 <= i < |dns| ==> dns[i] <= limit
  }

  lemma {:induction false} SumBounded(dns: seq<nat>, limit: nat)
    requires Below(dns, limit)
    ensures Sum(dns) <= limit * |dns|
  {
    if dns != [] {
      SumBounded(dns[..|dns| - 1], limit);
      assert limit * (|dns| - 1) + limit == limit * |dns|;
    }
  }

  // The frames that enter the sum.
  function Accumulated(rate: Rate, dns: seq<nat>): (r: seq<nat>)
    requires |dns| >= First(rate) - 1 + Count(rate)
    ensures |r| == Count(rate)
  {
    dns[First(rate) - 1..First(rate) - 1 + Count(rate)]
  }

  /** As soon as the calibration has had that many frames: exactly ceil(0.7 R) of them were summed
      without overflow, the stored value is at least the floored mean, and above the mean by less
      than one part in 0.7 R. */
  lemma DarkFrameIsMean(p: Pixel, rate: Rate, dns: seq<nat>)
    requires 4.47 < rate <= 93000.0 && |dns| >= First(rate) + Count(rate) && Below(dns, MAX_DN)
    ensures IsMean(Run(Enter(p, rate), rate, dns), rate, Accumulated(rate, dns))
  {
    hide NearMean, Wanted, Share, Sum, Count, First, At, Run, Enter;
    Timeline(p, rate, dns);
    var x := Accumulated(rate, dns);
    SumBounded(x, MAX_DN);
    CountBounded(rate);
    Finished(p, Run(Enter(p, rate), rate, dns), rate, dns);
    ShareOfMean(Sum(x), Count(rate), rate);
  }

  ghost predicate IsMean(q: Pixel, rate: Rate, summed: seq<nat>)
    requires |summed| == Count(rate)
  {
    var a, sum := Count(rate), Sum(summed);
    && q.until == -1 && q.buffered && q.count == a
    && q.sum == sum < 0x1_0000_0000
    && q.dark < 0x1_0000
    && NearMean(q.dark, sum, a, rate * 0.7)
  }

  // At least the floored mean of the a frames, and above it by less than one part in w.
  predicate NearMean(dark: nat, sum: nat, a: nat, w: real)
    requires a >= 1 && w > 0.0
  {
    var mean := sum as real / a as real;
    && dark >= sum / a
    && dark as real <= mean * (1.0 + 1.0 / w)
    && (sum > 0 ==> dark as real < mean * (1.0 + 1.0 / w))
  }

  /** In an undisturbed recording with a dark calibration at its start, at any rate of the program and
      outside that one case: whenever science data are being recorded, every pixel has a dark value,
      the mean of frames of the calibration alone, and the science frames have not changed it. */
  lemma DarkFrameOfRecording(
      cfg: Recorder.Config, h: nat, w: nat, m: nat, r: Recorder.Recorder, science: nat, p: Pixel, dns: seq<nat>)
    requires h < |HEIGHTS| && w < |WIDTHS| && m < |MULTIPLIERS| && cfg.rate == FrameRate(h, w, m) >= 0.5
    requires cfg.auto && cfg.dark1 >= 1 && !(h == 2 && w == 1 && m == 0 && cfg.dark1 == 1)
    requires Recorder.Tracks(cfg, r, science) && r.state == Recorder.Science
    requires |dns| == |r.trace| && Below(dns, MAX_DN)
    ensures var n := Recorder.Wait(cfg, Recorder.Dark1);
      && First(cfg.rate) + Count(cfg.rate) <= n <= |dns|
      && r.trace[..n] == Repeat(Recorder.Dark1, n)
      && IsMean(Run(Enter(p, cfg.rate), cfg.rate, dns[..n]), cfg.rate, Accumulated(cfg.rate, dns[..n]))
      && Run(Enter(p, cfg.rate), cfg.rate, dns) == Run(Enter(p, cfg.rate), cfg.rate, dns[..n])
  {
    hide FrameRate, First, Count, IsMean, Run, Enter, Accumulated;
    var n := Recorder.Wait(cfg, Recorder.Dark1);
    RateBounds(h, w, m);
    FitsExactly(cfg.dark1, h, w, m);
    LeadFirst(cfg, r, science);
    DarkFrameIsMean(p, cfg.rate, dns[..n]);
    DarkFrameStays(p, cfg.rate, dns, n);
  }

  lemma LeadFirst(cfg: Recorder.Config, r: Recorder.Recorder, science: nat)
    requires cfg.auto && Recorder.Tracks(cfg, r, science) && r.state == Recorder.Science
    ensures var n := Recorder.Wait(cfg, Recorder.Dark1);
      n <= |r.trace| && r.trace[..n] == Repeat(Recorder.Dark1, n)
  {
    hide Recorder.Behind, Recorder.Wait, Repeat;
    assert Recorder.Lead(cfg) <= r.trace;
  }

  // What the frames behind a finished dark frame add: nothing.
  lemma DarkFrameStays(p: Pixel, rate: Rate, dns: seq<nat>, n: nat)
    requires First(rate) + Count(rate) <= n <= |dns|
    ensures Run(Enter(p, rate), rate, dns) == Run(Enter(p, rate), rate, dns[..n])
  {
    hide Wanted, Share, Sum, Settled, Count, First, Run, Enter;
    Timeline(p, rate, dns);
    Timeline(p, rate, dns[..n]);
    var first, a := First(rate), Count(rate);
    assert dns[..n][first - 1..first - 1 + a] == dns[first - 1..first - 1 + a];
  }

  lemma Finished(p: Pixel, q: Pixel, rate: Rate, dns: seq<nat>)
    requires At(p, q, rate, dns) && |dns| >= First(rate) + Count(rate)
    requires Sum(Accumulated(rate, dns)) < UINT_LIMIT
    ensures var sum := Sum(Accumulated(rate, dns));
      q.until == -1 && q.buffered && q.count == Count(rate) && q.sum == sum && q.dark == Share(sum, rate)
  {
    hide Wanted, Share, Sum, Settled, Count, First;
    var sum := Sum(Accumulated(rate, dns));
    assert sum % UINT_LIMIT == sum;
  }

  lemma CountBounded(rate: Rate)
    requires 4.47 < rate <= 93000.0
    ensures Count(rate) <= 65101 && Wanted(rate) >= 3.0
    ensures MAX_DN * Count(rate) < UINT_LIMIT
  {
  }

  lemma DivideByLess(s: real, w: real, a: real)
    requires s >= 0.0 && 0.0 < w <= a
    ensures s / a <= s / w && s / w == (s / a) * (a / w)
  {
    assert s / a >= 0.0 && a / w >= 1.0;
    MulMono(s / a, 1.0, a / w);
  }

  lemma MulMono(m: real, x: real, y: real)
    requires m >= 0.0 && x <= y
    ensures m * x <= m * y
    ensures m > 0.0 && x < y ==> m * x < m * y
  {
  }

  lemma QuotientBelow(sum: nat, a: nat)
    requires a >= 1
    ensures (sum / a) as real <= sum as real / a as real
  {
    var q := sum / a;
    assert q * a <= sum;
    assert (q * a) as real == q as real * a as real;
    assert q as real * a as real / a as real == q as real;
  }

  // With w wanted and a = w rounded up accumulated, s / w is close to the mean s / a.
  lemma CloseToMean(s: real, w: real, a: real)
    requires s >= 0.0 && 0.0 < w <= a < w + 1.0
    ensures s / w <= s / a * (1.0 + 1.0 / w)
    ensures s > 0.0 ==> s / w < s / a * (1.0 + 1.0 / w)
  {
    DivideByLess(s, w, a);
    assert (w + 1.0) / w == 1.0 + 1.0 / w;
    assert a / w < (w + 1.0) / w;
    assert s > 0.0 ==> s / a > 0.0;
    MulMono(s / a, a / w, 1.0 + 1.0 / w);
  }

  lemma ShareFits(sum: nat, a: nat, w: real)
    requires w >= 3.0 && w <= a as real < w + 1.0 && sum <= MAX_DN * a
    ensures sum as real / w < 65536.0
  {
    assert sum as real <= MAX_DN as real * a as real;
    assert sum as real <= MAX_DN as real * (w + 1.0);
    assert sum as real / w <= MAX_DN as real * (w + 1.0) / w;
    assert MAX_DN as real * (w + 1.0) / w == MAX_DN as real + MAX_DN as real / w;
    assert MAX_DN as real / w <= MAX_DN as real / 3.0;
  }

  lemma FloorNearMean(sum: nat, a: nat, w: real, dark: nat)
    requires a >= 1 && 0.0 < w <= a as real < w + 1.0
    requires dark as real <= sum as real / w < dark as real + 1.0
    ensures NearMean(dark, sum, a, w)
  {
    QuotientBelow(sum, a);
    DivideByLess(sum as real, w, a as real);
    CloseToMean(sum as real, w, a as real);
    WholeBelow(sum / a, dark, sum as real / w);
  }

  lemma WholeBelow(q: int, d: int, x: real)
    requires q as real <= x < d as real + 1.0
    ensures q <= d
  {
    assert q as real < (d + 1) as real;
  }

  lemma ShareOfMean(sum: nat, a: nat, rate: Rate)
    requires rate > 4.47 && a == Count(rate) && sum <= MAX_DN * a
    ensures Share(sum, rate) == (sum as real / Wanted(rate)).Floor < 0x1_0000
    ensures NearMean(Share(sum, rate), sum, a, rate * 0.7)
  {
    hide NearMean;
    var w := Wanted(rate);
    assert w >= 3.0;
    ShareFits(sum, a, w);
    var x := sum as real / w;
    assert x.Floor as real <= x < x.Floor as real + 1.0;
    FloorNearMean(sum, a, w, x.Floor);
  }

  // ---- The arrays as the program keeps them ----

  type u_int = x: nat | x < UINT_LIMIT

  /** The accumulation and dark-frame arrays of an image of height lines of width samples; the first
      line holds other data and is left out of both. */
  class DarkImage {
    const width: nat
    const height: nat
    const accumulation: array<u_int>
    const darkFrame: array<Word>
    var framesUntilDark: int
    var darkFramesAccumulated: nat
    var darkFrameBuffered: bool

    ghost predicate Valid()
      reads this
    {
      height >= 1 && accumulation.Length == darkFrame.Length == width * height && accumulation as object != darkFrame
    }

    ghost function View(k: nat): Pixel
      requires Valid() && k < width * height
      reads this, accumulation, darkFrame
    {
      Pixel(framesUntilDark, darkFramesAccumulated, accumulation[k], darkFrame[k], darkFrameBuffered)
    }

    constructor (w: nat, h: nat)
      requires h >= 1
      ensures Valid() && width == w && height == h && fresh(accumulation) && fresh(darkFrame)
    {
      width, height := w, h;
      accumulation := new u_int[w * h](_ => 0);
      darkFrame := new Word[w * h](_ => 0);
      framesUntilDark, darkFramesAccumulated, darkFrameBuffered := -1, 0, false;
      new;
      assert accumulation as object != darkFrame;
    }

    method EnterDarkCal(rate: Rate)
      requires Valid()
      modifies this, accumulation
      ensures Valid()
      ensures forall k: nat :: k < width * height ==> View(k) == Enter(old(View(k)), rate)
    {
      framesUntilDark := Settle(rate);
      forall k | 0 <= k < accumulation.Length {
        accumulation[k] := 0;
      }
      darkFramesAccumulated := 0;
    }

    method ProcessFrame(image: array<Word>, rate: Rate)
      requires Valid() && image.Length == width * height && image != darkFrame
      requires image as object != accumulation
      modifies this, accumulation, darkFrame
      ensures Valid()
      ensures forall k: nat :: width <= k < width * height ==> View(k) == Step(old(View(k)), rate, image[k])
      ensures forall k: nat :: k < width && k < width * height ==>
                accumulation[k] == old(accumulation[k]) && darkFrame[k] == old(darkFrame[k])
    {
      if framesUntilDark > 0 {
        framesUntilDark := framesUntilDark - 1;
      }
      if framesUntilDark == 0 {
        if darkFramesAccumulated as real < Wanted(rate) {
          AddFrame(image);
          darkFramesAccumulated := darkFramesAccumulated + 1;
        } else {
          Divide(rate);
          framesUntilDark := -1;
          darkFrameBuffered := true;
        }
      }
    }

    method AddFrame(image: array<Word>)
      requires Valid() && image.Length == width * height && image as object != accumulation
      modifies accumulation
      ensures forall k :: width <= k < width * height ==>
                accumulation[k] == (old(accumulation[k]) + image[k]) % UINT_LIMIT
      ensures forall k :: 0 <= k < width && k < width * height ==> accumulation[k] == old(accumulation[k])
    {
      var k := width;
      while k < accumulation.Length
        invariant width <= k
        invariant forall j :: width <= j < k && j < accumulation.Length ==>
                    accumulation[j] == (old(accumulation[j]) + image[j]) % UINT_LIMIT
        invariant forall j :: 0 <= j < accumulation.Length && (j < width || k <= j) ==>
                    accumulation[j] == old(accumulation[j])
      {
        var sum: int := accumulation[k] + image[k];
        accumulation[k] := sum % UINT_LIMIT;
        k := k + 1;
      }
    }

    method Divide(rate: Rate)
      requires Valid()
      modifies darkFrame
      ensures forall k :: width <= k < width * height ==> darkFrame[k] == Share(accumulation[k], rate)
      ensures forall k :: 0 <= k < width && k < width * height ==> darkFrame[k] == old(darkFrame[k])
    {
      var k := width;
      while k < darkFrame.Length
        invariant width <= k
        invariant forall j :: width <= j < k && j < darkFrame.Length ==> darkFrame[j] == Share(accumulation[j], rate)
        invariant forall j :: 0 <= j < darkFrame.Length && (j < width || k <= j) ==> darkFrame[j] == old(darkFrame[j])
      {
        darkFrame[k] := Share(accumulation[k], rate);
        k := k + 1;
      }
    }
  }
}

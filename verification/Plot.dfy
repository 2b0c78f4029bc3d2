/**
 The scrolling plot: a window of fixed width over the values of several curves that share one
 point counter.
 */
module Plot {

  const POINTS_MAX: nat := 300
  const MARGIN_TOP: int := 20
  const HEIGHT: int := 200
  const MARGIN_LEFT: int := 50

  // Conversion to int drops the fraction.
  function Truncated(x: real): int {
    if x >= 0.0 then x.Floor else -(-x).Floor
  }

  // Where a value is plotted: up from the bottom, kept within the plot.
  function Height(v: real, min: real, max: real): (y: int)
    requires min != max
  {
    var y := Truncated((MARGIN_TOP + HEIGHT) as real - (v - min) / (max - min) * HEIGHT as real);
    if y < MARGIN_TOP then MARGIN_TOP else if y > MARGIN_TOP + HEIGHT then MARGIN_TOP + HEIGHT else y
  }

  // The height a value has in proportion: 20 at the top for max, 220 at the bottom for min.
  function Exact(v: real, min: real, max: real): real
    requires min != max
  {
    220.0 - 200.0 * ((v - min) / (max - min))
  }

  /** A value is plotted at its height in proportion, without the fraction, or at the edge of the plot
      that it lies beyond. */
  lemma HeightIs(v: real, min: real, max: real)
    requires min != max
    ensures var y, e := Height(v, min, max), Exact(v, min, max);
      if e <= 20.0 then y == 20 else if e >= 220.0 then y == 220 else y as real <= e < y as real + 1.0
  {
    var e := Exact(v, min, max);
    assert (v - min) / (max - min) * 200.0 == 200.0 * ((v - min) / (max - min));
    Drops(e);
  }

  lemma Drops(x: real)
    ensures x >= 0.0 ==> Truncated(x) as real <= x < Truncated(x) as real + 1.0
    ensures x <= 20.0 ==> Truncated(x) <= 20
  {
    if x >= 0.0 {
      assert x.Floor as real <= x < x.Floor as real + 1.0;
      assert x < 20.0 ==> x.Floor < 20;
    } else {
      assert (-x).Floor as real <= -x < (-x).Floor as real + 1.0;
      assert (-x).Floor + 1 > 0;
    }
  }

  lemma DivideKeepsOrder(x: real, y: real, d: real)
    requires d > 0.0 && x <= y
    ensures x / d <= y / d
  {
  }

  /** A larger value is plotted no lower; min and all below it stand at the bottom, max and all above
      it at the top. */
  lemma HigherIsLarger(v: real, w: real, min: real, max: real)
    requires min < max && v <= w
    ensures 20 <= Height(w, min, max) <= Height(v, min, max) <= 220
    ensures w <= min ==> Height(w, min, max) == 220
    ensures v >= max ==> Height(v, min, max) == 20
  {
    hide Height;
    var d := max - min;
    HeightIs(v, min, max);
    HeightIs(w, min, max);
    DivideKeepsOrder(v - min, w - min, d);
    if w <= min {
      DivideKeepsOrder(w - min, 0.0, d);
    }
    if v >= max {
      DivideKeepsOrder(d, v - min, d);
    }
  }

  function Window(s: seq<int>): (r: seq<int>)
    ensures |r| == if |s| < POINTS_MAX then |s| else POINTS_MAX
  {
    if |s| <= POINTS_MAX then s else s[|s| - POINTS_MAX..]
  }

  datatype Op = Add(v: seq<real>) | Reset

  // What a curve shows after a run of operations.
  function Shown(ops: seq<Op>, p: nat, min: real, max: real): seq<int>
    requires min != max && forall i | 0 <= i < |ops| :: ops[i].Add? ==> p < |ops[i].v|
  {
    if ops == [] then [] else
      var last := ops[|ops| - 1];
      if last.Reset? then [] else Window(Shown(ops[..|ops| - 1], p, min, max) + [Height(last.v[p], min, max)])
  }

  // All the curve's heights since the last reset.
  function Since(ops: seq<Op>, p: nat, min: real, max: real): seq<int>
    requires min != max && forall i | 0 <= i < |ops| :: ops[i].Add? ==> p < |ops[i].v|
  {
    if ops == [] then [] else
      var last := ops[|ops| - 1];
      if last.Reset? then [] else Since(ops[..|ops| - 1], p, min, max) + [Height(last.v[p], min, max)]
  }

  lemma WindowAgain(s: seq<int>, y: int)
    ensures Window(Window(s) + [y]) == Window(s + [y])
  {
    if |s| > POINTS_MAX {
      assert s + [y] == s[..|s| - POINTS_MAX] + (s[|s| - POINTS_MAX..] + [y]);
    }
  }

  /** A curve always shows the last of its values since the reset, as many as fit, in order. */
  lemma {:induction false} ShowsTheLast(ops: seq<Op>, p: nat, min: real, max: real)
    requires min != max && forall i | 0 <= i < |ops| :: ops[i].Add? ==> p < |ops[i].v|
    ensures var shown, all := Shown(ops, p, min, max), Since(ops, p, min, max);
      && |shown| == (if |all| < 300 then |all| else 300) && shown == all[|all| - |shown|..]
      && shown == Window(all)
  {
    if ops != [] {
      var last := ops[|ops| - 1];
      if last.Add? {
        ShowsTheLast(ops[..|ops| - 1], p, min, max);
        WindowAgain(Since(ops[..|ops| - 1], p, min, max), Height(last.v[p], min, max));
      }
    }
  }

  class PlotDisplay {
    const numPlots: nat
    const min: real
    const max: real
    const xs: array2<int>
    const ys: array2<int>
    var pointsPlotted: nat

    // Curve p shows the heights s, one column each.
    ghost predicate Shows(p: nat, s: seq<int>)
      reads xs, ys
    {
      p < xs.Length0 == ys.Length0 && |s| <= 300 == xs.Length1 == ys.Length1
      && forall i | 0 <= i < |s| :: ys[p, i] == s[i] && xs[p, i] == 51 + i
    }

    ghost predicate Valid(curves: seq<seq<int>>)
      reads this, xs, ys
    {
      xs != ys && min != max && |curves| == numPlots == xs.Length0 == ys.Length0
      && xs.Length1 == ys.Length1 == POINTS_MAX && pointsPlotted <= POINTS_MAX
      && forall p | 0 <= p < numPlots :: |curves[p]| == pointsPlotted && Shows(p, curves[p])
    }

    constructor (numPlots: nat, min: real, max: real)
      requires min != max
      ensures this.numPlots == numPlots && this.min == min && this.max == max
      ensures Valid(seq(numPlots, _ => [])) && fresh(xs) && fresh(ys)
    {
      this.numPlots, this.min, this.max := numPlots, min, max;
      xs := new int[numPlots, POINTS_MAX];
      ys := new int[numPlots, POINTS_MAX];
      pointsPlotted := 0;
    }

    method AddPoint(v: seq<real>, ghost curves: seq<seq<int>>)
      requires Valid(curves) && |v| >= numPlots
      modifies this, xs, ys
      ensures Valid(seq(numPlots, p requires 0 <= p < numPlots => Window(curves[p] + [Height(v[p], min, max)])))
    {
      var p := 0;
      ghost var n := pointsPlotted;
      while p < numPlots
        invariant 0 <= p <= numPlots
        invariant pointsPlotted == if p == numPlots && numPlots > 0 && n < POINTS_MAX then n + 1 else n
        invariant forall q | 0 <= q < p :: Shows(q, Window(curves[q] + [Height(v[q], min, max)]))
        invariant forall q | p <= q < numPlots :: Shows(q, curves[q])
      {
        var y := Truncated((MARGIN_TOP + HEIGHT) as real - (v[p] - min) / (max - min) * HEIGHT as real);
        if y < MARGIN_TOP {
          y := MARGIN_TOP;
        } else if y > MARGIN_TOP + HEIGHT {
          y := MARGIN_TOP + HEIGHT;
        }
        AddTo(p, y, curves[p]);
        if pointsPlotted < POINTS_MAX && p == numPlots - 1 {
          pointsPlotted := pointsPlotted + 1;
        }
        p := p + 1;
      }
    }

    // One curve's part: write behind its points, or shift them left to make room.
    method AddTo(p: nat, y: int, ghost s: seq<int>)
      requires xs != ys && Shows(p, s) && |s| == pointsPlotted
      modifies xs, ys
      ensures Shows(p, Window(s + [y]))
      ensures forall q, i | 0 <= q < xs.Length0 && q != p && 0 <= i < POINTS_MAX ::
                xs[q, i] == old(xs[q, i]) && ys[q, i] == old(ys[q, i])
    {
      if pointsPlotted < POINTS_MAX {
        xs[p, pointsPlotted] := MARGIN_LEFT + 1 + pointsPlotted;
        ys[p, pointsPlotted] := y;
      } else {
        assert Window(s + [y]) == s[1..] + [y];
        ShiftLeft(p, s);
        xs[p, POINTS_MAX - 1] := MARGIN_LEFT + 1 + POINTS_MAX - 1;
        ys[p, POINTS_MAX - 1] := y;
      }
    }

    method ShiftLeft(p: nat, ghost s: seq<int>)
      requires xs != ys && Shows(p, s) && |s| == POINTS_MAX
      modifies xs, ys
      ensures Shows(p, s[1..])
      ensures forall q, i | 0 <= q < xs.Length0 && q != p && 0 <= i < POINTS_MAX ::
                xs[q, i] == old(xs[q, i]) && ys[q, i] == old(ys[q, i])
    {
      var i := 1;
      while i < POINTS_MAX
        invariant 1 <= i <= POINTS_MAX
        invariant forall q, j | 0 <= q < xs.Length0 && q != p && 0 <= j < POINTS_MAX ::
                    xs[q, j] == old(xs[q, j]) && ys[q, j] == old(ys[q, j])
        invariant forall j | 0 <= j < POINTS_MAX :: xs[p, j] == MARGIN_LEFT + 1 + j
        invariant forall j | 0 <= j < POINTS_MAX :: ys[p, j] == s[if j < i - 1 then j + 1 else j]
      {
        xs[p, i - 1] := xs[p, i] - 1;
        ys[p, i - 1] := ys[p, i];
        i := i + 1;
      }
    }

    method Reset(ghost curves: seq<seq<int>>)
      requires Valid(curves)
      modifies `pointsPlotted
      ensures Valid(seq(numPlots, _ => []))
    {
      pointsPlotted := 0;
    }
  }
}

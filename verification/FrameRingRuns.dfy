/**
 The frame ring over whole runs: any interleaving of the fetch thread's steps and the consumer's.
 */
module FrameRingRuns {
  import opened Basics
  import opened FrameRing

  // ---- Runs ----

  datatype Event<F> = Fetched(frame: F, released: bool) | Published | Polled | Got | HasRead

  function Step<F>(s: Ring<F>, e: Event<F>, n: nat, k: nat): (r: Ring<F>)
    requires Inv(s, n, k)
    ensures Inv(r, n, k)
  {
    match e
    case Fetched(f, released) => Fetch(s, f, released, n, k)
    case Published => Publish(s, n, k)
    case Polled => Poll(s, n, k)
    case Got => Get(s, n, k)
    case HasRead => Read(s, n, k)
  }

  function Run<F>(s: Ring<F>, es: seq<Event<F>>, n: nat, k: nat): (r: Ring<F>)
    requires Inv(s, n, k)
    ensures Inv(r, n, k)
    decreases |es|
  {
    if es == [] then s else Run(Step(s, es[0], n, k), es[1..], n, k)
  }

  /** In every interleaving the free slot is the first one behind the full ones, and the fetch thread
      never writes into a full slot. */
  lemma FetchNeverTouchesReady<F>(s: Ring<F>, es: seq<Event<F>>, n: nat, k: nat)
    requires Initial(s, n, k)
    ensures var r := Run(s, es, n, k);
      && r.free == (r.pop + Full(r)) % n
      && (r.pc.Copying? ==> forall i: nat :: i < r.ready ==> r.free != At(r.pop, i, n))
  {
    var r := Run(s, es, n, k);
    AtIsMod(r.pop, Full(r), n);
  }

  lemma AtIsMod(start: nat, i: nat, n: nat)
    requires start < n && i <= n
    ensures At(start, i, n) == (start + i) % n
  {
    var m := start + i;
    assert m / n == if m < n then 0 else 1;
  }

  // No step of the run copies a frame onto a different unread one.
  predicate NeverClobbers<F(==)>(s: Ring<F>, es: seq<Event<F>>, n: nat, k: nat)
    requires Inv(s, n, k)
    decreases |es|
  {
    es == [] ||
    (&& !(es[0].Fetched? && Clobbers(s, n, k) && s.slots[s.free][s.fill] != es[0].frame)
     && NeverClobbers(Step(s, es[0], n, k), es[1..], n, k))
  }

  // The order is kept up to every point of the run.
  predicate FifoThroughout<F(==)>(s: Ring<F>, es: seq<Event<F>>, n: nat, k: nat)
    requires Inv(s, n, k)
    decreases |es|
  {
    Fifo(s, n, k) && (es == [] || FifoThroughout(Step(s, es[0], n, k), es[1..], n, k))
  }

  lemma StepKeepsOrderExactly<F>(s: Ring<F>, e: Event<F>, n: nat, k: nat)
    requires Inv(s, n, k) && Fifo(s, n, k)
    ensures Fifo(Step(s, e, n, k), n, k)
      <==> !(e.Fetched? && Clobbers(s, n, k) && s.slots[s.free][s.fill] != e.frame)
  {
    hide Inv, Fifo;
    match e {
      case Fetched(f, released) =>
        if s.pc.Copying? {
          FetchKeepsOrderExactly(s, f, released, n, k);
        }
      case Published => CountingKeepsOrder(s, n, k);
      case Polled => CountingKeepsOrder(s, n, k);
      case Got => GetKeepsOrder(s, n, k);
      case HasRead => ReadKeepsOrder(s, n, k);
    }
  }

  /** The order is kept all along a run if and only if no frame is copied onto a different one that
      is still unread. */
  lemma {:induction false} RunKeepsOrderExactly<F>(s: Ring<F>, es: seq<Event<F>>, n: nat, k: nat)
    requires Inv(s, n, k) && Fifo(s, n, k)
    ensures FifoThroughout(s, es, n, k) <==> NeverClobbers(s, es, n, k)
    decreases |es|
  {
    hide Inv, Fifo, Clobbers, Step;
    if es != [] {
      StepKeepsOrderExactly(s, es[0], n, k);
      if Fifo(Step(s, es[0], n, k), n, k) {
        RunKeepsOrderExactly(Step(s, es[0], n, k), es[1..], n, k);
      }
    }
  }

  lemma {:induction false} OrderAtTheEnd<F>(s: Ring<F>, es: seq<Event<F>>, n: nat, k: nat)
    requires Inv(s, n, k) && FifoThroughout(s, es, n, k)
    ensures Fifo(Run(s, es, n, k), n, k)
    decreases |es|
  {
    hide Inv, Fifo, Step;
    if es != [] {
      OrderAtTheEnd(Step(s, es[0], n, k), es[1..], n, k);
    }
  }

  /** First in, first out: without such a step the frames read are the first frames fetched. */
  lemma FirstInFirstOut<F>(s: Ring<F>, es: seq<Event<F>>, n: nat, k: nat)
    requires Initial(s, n, k)
    requires NeverClobbers(s, es, n, k)
    ensures var r := Run(s, es, n, k);
      r.delivered <= r.fetched && r.delivered + Pending(r, n, k) == r.fetched
  {
    RunKeepsOrderExactly(s, es, n, k);
    OrderAtTheEnd(s, es, n, k);
  }

  // Every frame is copied with two buffers still to fill, or with nothing unread in the current one.
  predicate KeepsRoom<F>(s: Ring<F>, es: seq<Event<F>>, n: nat, k: nat)
    requires Inv(s, n, k)
    decreases |es|
  {
    es == [] ||
    (&& (es[0].Fetched? && s.pc.Copying? ==> s.ready + 2 <= n || Unread(s) == 0)
     && KeepsRoom(Step(s, es[0], n, k), es[1..], n, k))
  }

  /** A consumer that keeps the backlog below all but one of the buffers keeps the order. */
  lemma {:induction false} RoomNeverClobbers<F>(s: Ring<F>, es: seq<Event<F>>, n: nat, k: nat)
    requires Inv(s, n, k) && KeepsRoom(s, es, n, k)
    ensures NeverClobbers(s, es, n, k)
    decreases |es|
  {
    hide Inv, Step;
    if es != [] {
      RoomNeverClobbers(Step(s, es[0], n, k), es[1..], n, k);
    }
  }

  // ---- Progress, told from the histories alone ----

  // taken buffers have been taken off the ring: what they held has been read or is still to be, and
  // what else was fetched lies in the full buffers and the one being filled.
  predicate Counts<F>(s: Ring<F>, taken: nat, k: nat) {
    |s.delivered| + Unread(s) == k * taken && |s.fetched| == k * (Full(s) + taken) + s.fill
  }

  lemma StepCounts<F>(s: Ring<F>, e: Event<F>, taken: nat, n: nat, k: nat) returns (taken': nat)
    requires Inv(s, n, k) && Counts(s, taken, k)
    ensures Counts(Step(s, e, n, k), taken', k)
  {
    hide At;
    var took := e.Got? && !s.reading && s.left == 0 && s.ready > 0;
    taken' := if took then taken + 1 else taken;
    assert k * (taken + 1) == k * taken + k;
    assert k * (Full(s) + taken + 1) == k * (Full(s) + taken) + k;
  }

  lemma {:induction false} RunCounts<F>(s: Ring<F>, es: seq<Event<F>>, taken: nat, n: nat, k: nat)
    returns (taken': nat)
    requires Inv(s, n, k) && Counts(s, taken, k)
    ensures Counts(Run(s, es, n, k), taken', k)
    decreases |es|
  {
    hide Inv, Step, Counts;
    if es == [] {
      taken' := taken;
    } else {
      var next := StepCounts(s, es[0], taken, n, k);
      taken' := RunCounts(Step(s, es[0], n, k), es[1..], next, n, k);
    }
  }

  // Frames the consumer has been given the address of.
  function Handed<F>(s: Ring<F>): nat {
    |s.delivered| + if s.reading then 1 else 0
  }

  lemma CountsMean<F>(s: Ring<F>, taken: nat, n: nat, k: nat)
    requires Inv(s, n, k) && Counts(s, taken, k)
    ensures |s.fetched| / k == Full(s) + taken && |s.fetched| % k == s.fill
    ensures (Handed(s) + k - 1) / k == taken
  {
    hide At;
    assert s.fill < k && s.left < k;
    DividesInto(|s.fetched|, k, Full(s) + taken, s.fill);
    DividesInto(Handed(s) + k - 1, k, taken, k - 1 - s.left);
  }

  lemma CountsFromStart<F>(s: Ring<F>, es: seq<Event<F>>, n: nat, k: nat) returns (taken: nat)
    requires Initial(s, n, k)
    ensures var r := Run(s, es, n, k);
      && Counts(r, taken, k) && |r.fetched| / k == Full(r) + taken
      && |r.fetched| % k == r.fill && (Handed(r) + k - 1) / k == taken
  {
    taken := RunCounts(s, es, 0, n, k);
    hide Run, Inv, Counts;
    CountsMean(Run(s, es, n, k), taken, n, k);
  }

  /** After any run the full buffers are the whole buffers fetched less those the consumer has begun. */
  lemma FullBuffers<F>(s: Ring<F>, es: seq<Event<F>>, n: nat, k: nat)
    requires Initial(s, n, k)
    ensures var r := Run(s, es, n, k);
      Full(r) == |r.fetched| / k - (Handed(r) + k - 1) / k && r.fill == |r.fetched| % k
  {
    hide Inv, Run, Counts;
    var taken := CountsFromStart(s, es, n, k);
  }

  lemma FetchesExactly<F>(s: Ring<F>, f: F, n: nat, k: nat)
    requires Inv(s, n, k)
    ensures var r := Step(Step(Step(s, Published, n, k), Polled, n, k), Fetched(f, true), n, k);
      r.fetched == if Full(s) < n then s.fetched + [f] else s.fetched
  {
    hide At;
  }

  /** The fetch thread never hangs: after any run, once it has counted what is full and polled, it
      takes the next frame if and only if the buffers still full are fewer than all.  Those are the
      whole buffers fetched less the ones begun by the consumer. */
  lemma GoesOnExactly<F>(s: Ring<F>, es: seq<Event<F>>, f: F, n: nat, k: nat)
    requires Initial(s, n, k)
    ensures var r := Run(s, es, n, k);
      var more := Run(s, es + [Published, Polled, Fetched(f, true)], n, k);
      && (more.fetched == r.fetched + [f] <==> |r.fetched| / k - (Handed(r) + k - 1) / k < n)
      && (more.fetched == r.fetched + [f] || more.fetched == r.fetched)
  {
    hide Inv, Step, Full;
    FullBuffers(s, es, n, k);
    var r := Run(s, es, n, k);
    RunAppend(s, es, [Published, Polled, Fetched(f, true)], n, k);
    ThreeSteps(r, Published, Polled, Fetched(f, true), n, k);
    FetchesExactly(r, f, n, k);
  }

  lemma ReadsExactly<F>(s: Ring<F>, taken: nat, n: nat, k: nat)
    requires Inv(s, n, k) && Counts(s, taken, k)
    ensures var r := Step(Step(Step(s, Published, n, k), Got, n, k), HasRead, n, k);
      |r.delivered| == |s.delivered| + if |s.delivered| < k * (Full(s) + taken) then 1 else 0
  {
    hide At;
    var full, m := Full(s), k * taken;
    assert k * (full + taken) == k * full + m;
    MulAtLeast(k, full);
    assert |s.delivered| < k * (full + taken) <==> full > 0 || Unread(s) > 0;
  }

  /** Nor does the consumer: once what is full has been counted it gets one more frame if and only if
      it has read fewer than the whole buffers fetched held. */
  lemma DeliversExactly<F>(s: Ring<F>, es: seq<Event<F>>, n: nat, k: nat)
    requires Initial(s, n, k)
    ensures var r := Run(s, es, n, k);
      |Run(s, es + [Published, Got, HasRead], n, k).delivered| ==
        |r.delivered| + if |r.delivered| < k * (|r.fetched| / k) then 1 else 0
  {
    hide Step, Full, Inv, Counts, Run;
    var r := Run(s, es, n, k);
    var taken := CountsFromStart(s, es, n, k);
    RunAppend(s, es, [Published, Got, HasRead], n, k);
    ThreeSteps(r, Published, Got, HasRead, n, k);
    ReadsExactly(r, taken, n, k);
  }

  lemma ThreeSteps<F>(s: Ring<F>, a: Event<F>, b: Event<F>, c: Event<F>, n: nat, k: nat)
    requires Inv(s, n, k)
    ensures Run(s, [a, b, c], n, k) == Step(Step(Step(s, a, n, k), b, n, k), c, n, k)
  {
    hide Step, Inv;
    var s1 := Step(s, a, n, k);
    var s2 := Step(s1, b, n, k);
    assert [c][1..] == [] && Run(s2, [c], n, k) == Step(s2, c, n, k);
    assert [b, c][1..] == [c] && Run(s1, [b, c], n, k) == Run(s2, [c], n, k);
    assert [a, b, c][1..] == [b, c];
  }

  // ---- The order can be lost ----

  lemma {:induction false} RunAppend<F>(s: Ring<F>, a: seq<Event<F>>, b: seq<Event<F>>, n: nat, k: nat)
    requires Inv(s, n, k)
    ensures Run(s, a + b, n, k) == Run(Run(s, a, n, k), b, n, k)
    decreases |a|
  {
    hide Inv, Step;
    if a == [] {
      assert a + b == b;
    } else {
      assert (a + b)[0] == a[0] && (a + b)[1..] == a[1..] + b;
      RunAppend(Step(s, a[0], n, k), a[1..], b, n, k);
    }
  }

  // Nothing read or being read, and every frame so far, if any, after one equal to f.
  predicate Untouched<F(==)>(s: Ring<F>, f: F) {
    s.left == 0 && !s.reading && s.delivered == [] && (s.fetched != [] ==> s.fetched[0] == f)
  }

  lemma FillOne<F>(s: Ring<F>, f: F, n: nat, k: nat)
    requires Inv(s, n, k) && Untouched(s, f) && s.pc.Copying?
    ensures var r := Step(s, Fetched(f, true), n, k);
      && Untouched(r, f) && r.fetched != [] && r.ready == s.ready
      && if s.fill + 1 == k then r.pc.Publishing? else r.pc.Copying? && r.fill == s.fill + 1
  {
  }

  // Fill the rest of the current buffer.
  lemma {:induction false} FillSlot<F>(s: Ring<F>, f: F, n: nat, k: nat) returns (es: seq<Event<F>>)
    requires Inv(s, n, k) && Untouched(s, f) && s.pc.Copying?
    ensures var r := Run(s, es, n, k);
      r.pc.Publishing? && r.ready == s.ready && Untouched(r, f) && r.fetched != []
    decreases k - s.fill
  {
    assert s.fill < k;
    hide Inv, Untouched, Step;
    var e := Fetched(f, true);
    var t := Step(s, e, n, k);
    FillOne(s, f, n, k);
    if s.fill + 1 == k {
      es := [e];
      assert Run(s, es, n, k) == Run(t, [], n, k);
    } else {
      var rest := FillSlot(t, f, n, k);
      es := [e] + rest;
      assert es[0] == e && es[1..] == rest;
    }
  }

  lemma PublishOne<F>(s: Ring<F>, f: F, n: nat, k: nat)
    requires Inv(s, n, k) && Untouched(s, f) && s.pc.Publishing?
    ensures var r := Step(s, Published, n, k);
      && Untouched(r, f) && r.fetched == s.fetched && r.ready == s.ready + 1 <= n
      && if r.ready == n then r.pc.Waiting? else r.pc.Copying?
  {
  }

  // Fill and publish buffers until all of them are ready.
  lemma {:induction false} FillRing<F>(s: Ring<F>, f: F, n: nat, k: nat) returns (es: seq<Event<F>>)
    requires Inv(s, n, k) && Untouched(s, f) && s.pc.Copying?
    ensures var r := Run(s, es, n, k);
      r.pc.Waiting? && r.ready == n && Untouched(r, f) && r.fetched != []
    decreases n - s.ready
  {
    assert s.ready < n;
    hide Inv, Untouched, Step;
    var fill := FillSlot(s, f, n, k);
    var full := Run(s, fill, n, k);
    var t := Step(full, Published, n, k);
    PublishOne(full, f, n, k);
    var rest := [];
    if t.ready < n {
      rest := FillRing(t, f, n, k);
    }
    var end := [Published] + rest;
    es := fill + end;
    RunAppend(s, fill, end, n, k);
    assert end[0] == Published && end[1..] == rest;
  }

  // The consumer is given the first frame of a full ring, and another is fetched before it reads it.
  lemma LastSteps<F>(s: Ring<F>, f: F, g: F, n: nat, k: nat)
    requires Inv(s, n, k) && s.pc.Waiting? && s.ready == n && Untouched(s, f) && s.fetched != []
    ensures var r := Step(Step(Step(Step(s, Got, n, k), Polled, n, k), Fetched(g, true), n, k), HasRead, n, k);
      r.delivered == [g] && r.fetched != [] && r.fetched[0] == f
  {
    var s1 := Get(s, n, k);
    var s2 := Poll(s1, n, k);
    var s3 := Fetch(s2, g, true, n, k);
    assert s2.pc.Copying? && s2.free == s2.current && s2.fill == 0;
    assert s3.slots[s3.current][k - s3.left - 1] == g;
  }

  lemma FourSteps<F>(s: Ring<F>, a: Event<F>, b: Event<F>, c: Event<F>, d: Event<F>, n: nat, k: nat)
    requires Inv(s, n, k)
    ensures Run(s, [a, b, c, d], n, k) == Step(Step(Step(Step(s, a, n, k), b, n, k), c, n, k), d, n, k)
  {
    hide Step, Inv;
    ThreeSteps(Step(s, a, n, k), b, c, d, n, k);
    assert [a, b, c, d][1..] == [b, c, d];
  }

  /** However many buffers there are and however many frames they hold, in some interleaving the
      first frame read is not the first frame fetched. */
  lemma OrderCanBeLost<F>(s: Ring<F>, f: F, g: F, n: nat, k: nat) returns (es: seq<Event<F>>)
    requires Initial(s, n, k) && f != g
    ensures var r := Run(s, es, n, k);
      r.delivered == [g] && r.fetched != [] && r.fetched[0] == f && !NeverClobbers(s, es, n, k)
  {
    var fill := FillRing(s, f, n, k);
    var full := Run(s, fill, n, k);
    var last := [Got, Polled, Fetched(g, true), HasRead];
    es := fill + last;
    RunAppend(s, fill, last, n, k);
    FourSteps(full, Got, Polled, Fetched(g, true), HasRead, n, k);
    LastSteps(full, f, g, n, k);
    if NeverClobbers(s, es, n, k) {
      FirstInFirstOut(s, es, n, k);
    }
  }
}

/**
 Scanning an SL_List while it changes.  One scan, at any of the four nesting levels, is followed
 through an arbitrary run of insertions, removals, other scans and its own steps.
 */
module SlListScans {
  import opened SlList

  // The operations that change the list or a cursor; an index stands for every way to choose one.
  // Taking the last item is an operation of its own, since it moves the cursors differently.
  datatype Op<T> =
    Put(p: T, at: nat) | Replace(p: T, at: nat) | Take(at: nat) | TakeLast | Begin | Advance | End

  // The operation puts no cursor outside the list.
  predicate StaysInside<T>(l: List<T>, op: Op<T>) {
    op.TakeLast? && l.items != [] ==> Valid(RemovedLast(l))
  }

  // A list with a cursor outside it is not followed any further.
  function Apply<T>(l: List<T>, op: Op<T>): (r: List<T>)
    requires Valid(l)
    ensures Valid(r)
  {
    match op
    case Put(p, i) => if i <= |l.items| then Insert(l, p, i) else l
    case Replace(p, i) => if i < |l.items| then l.(items := l.items[i := p]) else l
    case Take(i) => if i < |l.items| then Remove(l, i) else l
    case TakeLast => if l.items != [] && StaysInside(l, op) then RemovedLast(l) else l
    case Begin => if |l.scans| < 4 then l.(scans := l.scans + [0]) else l
    case Advance => if l.scans == [] then l else if Top(l) == |l.items| then Pop(l) else WithTop(l, Top(l) + 1)
    case End => if l.scans == [] then l else Pop(l)
  }

  // Appending is insertion behind the last item: no cursor moves.
  lemma AddIsInsertAtEnd<T>(l: List<T>, p: T)
    requires Valid(l)
    ensures Insert(l, p, |l.items|) == l.(items := l.items + [p])
  {
    assert MoveAll(l.scans, |l.items|) == l.scans;
    assert l.items[..|l.items|] + [p] + l.items[|l.items|..] == l.items + [p];
  }

  function Run<T>(l: List<T>, ops: seq<Op<T>>): (r: List<T>)
    requires Valid(l)
    ensures Valid(r)
    decreases |ops|
  {
    if ops == [] then l else Run(Apply(l, ops[0]), ops[1..])
  }

  // The scan at level k stays under way throughout, and no cursor leaves the list.
  predicate Active<T>(l: List<T>, ops: seq<Op<T>>, k: nat)
    requires Valid(l)
    decreases |ops|
  {
    k < |l.scans| && (ops == [] || (StaysInside(l, ops[0]) && Active(Apply(l, ops[0]), ops[1..], k)))
  }

  // What one operation returns to the scan at level k: its item if it advances that scan.
  function Returned1<T>(l: List<T>, op: Op<T>, k: nat): (r: seq<T>)
    requires Valid(l)
  {
    if op.Advance? && |l.scans| == k + 1 && Top(l) < |l.items| then [l.items[Top(l)]] else []
  }

  function Returned<T>(l: List<T>, ops: seq<Op<T>>, k: nat): (r: seq<T>)
    requires Valid(l)
    decreases |ops|
  {
    if ops == [] then [] else Returned1(l, ops[0], k) + Returned(Apply(l, ops[0]), ops[1..], k)
  }

  // What the scan at level k has in front of it.
  function Ahead<T>(l: List<T>, k: nat): (r: seq<T>)
    requires Valid(l) && k < |l.scans|
  {
    l.items[l.scans[k]..]
  }

  // No item of keep is put in, replaced or taken out.
  predicate Spares1<T(==)>(l: List<T>, op: Op<T>, keep: set<T>) {
    match op
    case Put(p, i) => p !in keep
    case Replace(p, i) => p !in keep && (i < |l.items| ==> l.items[i] !in keep)
    case Take(i) => i < |l.items| ==> l.items[i] !in keep
    case TakeLast => l.items != [] ==> l.items[|l.items| - 1] !in keep
    case _ => true
  }

  predicate Spares<T(==)>(l: List<T>, ops: seq<Op<T>>, keep: set<T>)
    requires Valid(l)
    decreases |ops|
  {
    ops == [] || (Spares1(l, ops[0], keep) && Spares(Apply(l, ops[0]), ops[1..], keep))
  }

  // The items of s that are in keep, in order.
  function Only<T(==)>(s: seq<T>, keep: set<T>): (r: seq<T>) {
    if s == [] then [] else (if s[0] in keep then [s[0]] else []) + Only(s[1..], keep)
  }

  lemma {:induction false} OnlyAppend<T>(a: seq<T>, b: seq<T>, keep: set<T>)
    ensures Only(a + b, keep) == Only(a, keep) + Only(b, keep)
  {
    if a == [] {
      assert a + b == b;
    } else {
      OnlyAppend(a[1..], b, keep);
      var first, rest := if a[0] in keep then [a[0]] else [], Only(a[1..], keep);
      assert Only(a + b, keep) == first + Only(a[1..] + b, keep) by {
        assert (a + b)[0] == a[0] && (a + b)[1..] == a[1..] + b;
      }
      hide Only;
      assert first + (rest + Only(b, keep)) == first + rest + Only(b, keep);
    }
  }

  lemma OnlySkips<T>(a: seq<T>, p: T, b: seq<T>, keep: set<T>)
    requires p !in keep
    ensures Only(a + [p] + b, keep) == Only(a + b, keep)
  {
    OnlyAppend(a + [p], b, keep);
    OnlyAppend(a, [p], keep);
    OnlyAppend(a, b, keep);
  }

  // How one operation changes what lies ahead of the scan at level k.
  lemma PutAhead<T>(l: List<T>, p: T, i: nat, k: nat)
    requires Valid(l) && k < |l.scans| && i <= |l.items|
    ensures var c, a := l.scans[k], Ahead(l, k);
      Ahead(Insert(l, p, i), k) == if i < c then a else a[..i - c] + [p] + a[i - c..]
  {
    var c, items := l.scans[k], l.items;
    assert Insert(l, p, i).scans[k] == Moved(c, i);
    assert Insert(l, p, i).items == items[..i] + [p] + items[i..];
    hide Insert, MoveAll, Valid;
    if i < c {
      assert items[i..][c - i..] == items[c..];
      DropPast(items[..i] + [p], items[i..], c - i);
    } else {
      assert items == items[..i] + items[i..];
      assert items[..i][c..] == items[c..][..i - c] && items[i..] == items[c..][i - c..];
      DropWithin(items[..i], [p] + items[i..], c);
      assert items[..i] + ([p] + items[i..]) == items[..i] + [p] + items[i..];
    }
  }

  lemma DropPast<T>(a: seq<T>, b: seq<T>, j: nat)
    requires j <= |b|
    ensures (a + b)[|a| + j..] == b[j..]
  {
  }

  lemma DropWithin<T>(a: seq<T>, b: seq<T>, j: nat)
    requires j <= |a|
    ensures (a + b)[j..] == a[j..] + b
  {
  }

  lemma TakeAhead<T>(l: List<T>, i: nat, k: nat)
    requires Valid(l) && k < |l.scans| && i < |l.items|
    ensures var c, a := l.scans[k], Ahead(l, k);
      Ahead(Remove(l, i), k) == if i < c then a else a[..i - c] + a[i - c + 1..]
  {
    var c, items := l.scans[k], l.items;
    assert Remove(l, i).scans[k] == Closed(c, i) && Remove(l, i).items == items[..i] + items[i + 1..];
    hide Remove, CloseAll;
    if i < c {
      DropPast(items[..i], items[i + 1..], c - 1 - i);
      assert items[i + 1..][c - 1 - i..] == items[c..];
    } else {
      DropWithin(items[..i], items[i + 1..], c);
      assert items[..i][c..] == items[c..][..i - c] && items[i + 1..] == items[c..][i - c + 1..];
    }
  }

  lemma PutKeeps<T>(l: List<T>, p: T, i: nat, k: nat, keep: set<T>)
    requires Valid(l) && k < |l.scans| && i <= |l.items| && p !in keep
    ensures Only(Ahead(Insert(l, p, i), k), keep) == Only(Ahead(l, k), keep)
  {
    hide Only, Insert;
    var c, a := l.scans[k], Ahead(l, k);
    PutAhead(l, p, i, k);
    if i >= c {
      OnlySkips(a[..i - c], p, a[i - c..], keep);
      assert a[..i - c] + a[i - c..] == a;
    }
  }

  lemma TakeKeeps<T>(l: List<T>, i: nat, k: nat, keep: set<T>)
    requires Valid(l) && k < |l.scans| && i < |l.items| && l.items[i] !in keep
    ensures Only(Ahead(Remove(l, i), k), keep) == Only(Ahead(l, k), keep)
  {
    hide Only, Remove;
    var c, a := l.scans[k], Ahead(l, k);
    TakeAhead(l, i, k);
    assert i >= c ==> l.items[i] == a[i - c];
    if i >= c {
      OnlySkips(a[..i - c], a[i - c], a[i - c + 1..], keep);
      assert a[..i - c] + [a[i - c]] + a[i - c + 1..] == a;
    }
  }

  lemma ReplaceKeeps<T>(a: seq<T>, p: T, j: nat, keep: set<T>)
    requires j < |a| && p !in keep && a[j] !in keep
    ensures Only(a[j := p], keep) == Only(a, keep)
  {
    OnlySkips(a[..j], p, a[j + 1..], keep);
    OnlySkips(a[..j], a[j], a[j + 1..], keep);
    assert a[j := p] == a[..j] + [p] + a[j + 1..] && a == a[..j] + [a[j]] + a[j + 1..];
  }

  lemma ReplaceAhead<T>(l: List<T>, p: T, i: nat, k: nat)
    requires Valid(l) && k < |l.scans| && i < |l.items|
    ensures var c, a := l.scans[k], Ahead(l, k);
      Ahead(l.(items := l.items[i := p]), k) == if i < c then a else a[i - c := p]
  {
  }

  // The scan stands right in front of the last item when that is taken out, behind one of keep.
  predicate StepsBack<T(==)>(l: List<T>, op: Op<T>, k: nat, keep: set<T>)
    requires Valid(l) && k < |l.scans|
  {
    var n := |l.items|;
    op.TakeLast? && n > 1 && l.scans[k] == n - 1 && l.items[n - 2] in keep
  }

  predicate NeverStepsBack<T(==)>(l: List<T>, ops: seq<Op<T>>, k: nat, keep: set<T>)
    requires Valid(l) && Active(l, ops, k)
    decreases |ops|
  {
    ops == [] || (!StepsBack(l, ops[0], k, keep) && NeverStepsBack(Apply(l, ops[0]), ops[1..], k, keep))
  }

  // Then that item is ahead of the scan once more.
  lemma TakeLastAhead<T>(l: List<T>, k: nat)
    requires Valid(l) && k < |l.scans| && l.items != [] && Valid(RemovedLast(l))
    ensures var n := |l.items|; var r := RemovedLast(l);
      if l.scans[k] == n - 1 then n > 1 && Ahead(r, k) == [l.items[n - 2]] && Ahead(l, k) == [l.items[n - 1]]
      else Ahead(r, k) == Ahead(Remove(l, n - 1), k)
  {
    var r := RemovedLast(l);
    assert 0 <= r.scans[k] <= |r.items|;
    assert r.items == Remove(l, |l.items| - 1).items;
  }

  lemma TakeLastKeepsExactly<T>(l: List<T>, k: nat, keep: set<T>)
    requires Valid(l) && k < |l.scans| && l.items != [] && Valid(RemovedLast(l))
    requires l.items[|l.items| - 1] !in keep
    ensures var n := |l.items|; var a, b := Only(Ahead(RemovedLast(l), k), keep), Only(Ahead(l, k), keep);
      if StepsBack(l, TakeLast, k, keep) then a == [l.items[n - 2]] && b == [] else a == b
  {
    var n := |l.items|;
    TakeLastAhead(l, k);
    if l.scans[k] != n - 1 {
      TakeKeeps(l, n - 1, k, keep);
    }
  }

  lemma StepKeeps<T>(l: List<T>, op: Op<T>, k: nat, keep: set<T>)
    requires Valid(l) && StaysInside(l, op) && k < |l.scans| && k < |Apply(l, op).scans| && Spares1(l, op, keep)
    ensures var a, b := Only(Returned1(l, op, k) + Ahead(Apply(l, op), k), keep), Only(Ahead(l, k), keep);
      if StepsBack(l, op, k, keep) then |a| > |b| else a == b
  {
    hide Only, Insert, Remove, RemovedLast, WithTop;
    var c, a := l.scans[k], Ahead(l, k);
    assert [] + Ahead(Apply(l, op), k) == Ahead(Apply(l, op), k);
    match op {
      case Put(p, i) =>
        if i <= |l.items| {
          PutKeeps(l, p, i, k, keep);
        }
      case Take(i) =>
        if i < |l.items| {
          TakeKeeps(l, i, k, keep);
        }
      case TakeLast =>
        if l.items != [] {
          TakeLastKeepsExactly(l, k, keep);
        }
      case Replace(p, i) =>
        if i < |l.items| {
          ReplaceAhead(l, p, i, k);
          if i >= c {
            ReplaceKeeps(a, p, i - c, keep);
          }
        }
      case Advance =>
        AdvanceAhead(l, k);
      case _ =>
    }
  }

  lemma AdvanceAhead<T>(l: List<T>, k: nat)
    requires Valid(l) && k < |l.scans| && k < |Apply(l, Advance).scans|
    ensures Returned1(l, Advance, k) + Ahead(Apply(l, Advance), k) == Ahead(l, k)
  {
    var c := l.scans[k];
    if |l.scans| == k + 1 && Top(l) < |l.items| {
      assert Ahead(l, k) == [l.items[c]] + l.items[c + 1..];
    }
  }

  /** Along any run, what the scan has returned and what it has ahead of it contain the kept items
      exactly as they were ahead of it at the start, if and only if it is never set back by a
      removal of the last item; set back, it has more of them. */
  lemma {:induction false} ScanKeeps<T>(l: List<T>, ops: seq<Op<T>>, k: nat, keep: set<T>)
    requires Valid(l) && Active(l, ops, k) && Spares(l, ops, keep)
    ensures k < |Run(l, ops).scans|
    ensures var a, b := Only(Returned(l, ops, k) + Ahead(Run(l, ops), k), keep), Only(Ahead(l, k), keep);
      if NeverStepsBack(l, ops, k, keep) then a == b else |a| > |b|
    decreases |ops|
  {
    hide Apply, Returned1, Spares1, Ahead, StepsBack, StaysInside;
    ActiveToTheEnd(l, ops, k);
    if ops == [] {
      assert [] + Ahead(l, k) == Ahead(l, k);
    } else {
      var m, x := Apply(l, ops[0]), Returned1(l, ops[0], k);
      var y, z := Returned(m, ops[1..], k), Ahead(Run(l, ops), k);
      StepKeeps(l, ops[0], k, keep);
      ScanKeeps(m, ops[1..], k, keep);
      OnlyAppend(x, y + z, keep);
      OnlyAppend(x, Ahead(m, k), keep);
      assert x + y + z == x + (y + z);
    }
  }

  lemma {:induction false} ActiveToTheEnd<T>(l: List<T>, ops: seq<Op<T>>, k: nat)
    requires Valid(l) && Active(l, ops, k)
    ensures k < |Run(l, ops).scans|
    ensures ops != [] ==> k < |Apply(l, ops[0]).scans|
    decreases |ops|
  {
    if ops != [] {
      ActiveToTheEnd(Apply(l, ops[0]), ops[1..], k);
    }
  }

  // The scan at level k, under way in m, runs to its end.
  ghost predicate RunsToEnd<T>(m: List<T>, ops: seq<Op<T>>, k: nat) {
    Valid(m) && Active(m, ops, k) && k < |Run(m, ops).scans| && Ahead(Run(m, ops), k) == []
  }

  lemma EndSeesSurvivors<T>(m: List<T>, ops: seq<Op<T>>, k: nat, keep: set<T>)
    requires RunsToEnd(m, ops, k) && Spares(m, ops, keep) && k < |m.scans|
    ensures NeverStepsBack(m, ops, k, keep) <==> Only(Returned(m, ops, k), keep) == Only(Ahead(m, k), keep)
  {
    hide Active, Run, Returned, Only, Ahead, Spares, NeverStepsBack;
    ScanKeeps(m, ops, k, keep);
    assert Returned(m, ops, k) + [] == Returned(m, ops, k);
  }

  /** A scan that runs to the end returns the items present at its start and never removed, each as
      often as it was there, in order, if and only if it is never set back.  m is l with the new scan. */
  lemma ScanSeesSurvivors<T>(l: List<T>, m: List<T>, ops: seq<Op<T>>, keep: set<T>)
    requires m == List(l.items, l.scans + [0])
    requires RunsToEnd(m, ops, |l.scans|) && Spares(m, ops, keep)
    ensures NeverStepsBack(m, ops, |l.scans|, keep)
      <==> Only(Returned(m, ops, |l.scans|), keep) == Only(l.items, keep)
  {
    hide Active, Run, Returned, Only, Spares, NeverStepsBack, Apply;
    EndSeesSurvivors(m, ops, |l.scans|, keep);
    assert Ahead(m, |l.scans|) == l.items;
  }

  lemma {:induction false} OnlyAbsent<T>(s: seq<T>, p: T)
    requires p !in s
    ensures Only(s, {p}) == []
  {
    if s != [] {
      OnlyAbsent(s[1..], p);
    }
  }

  /** An item put in behind the cursor is never returned; put in at or after it, it is returned or
      still ahead, exactly once; both if and only if the scan is not set back to it. */
  lemma InsertedItem<T>(l: List<T>, p: T, i: nat, ops: seq<Op<T>>, k: nat)
    requires Valid(l) && k < |l.scans| && i <= |l.items| && p !in l.items
    requires Active(Insert(l, p, i), ops, k) && Spares(Insert(l, p, i), ops, {p})
    ensures var m := Insert(l, p, i);
      && k < |Run(m, ops).scans|
      && (NeverStepsBack(m, ops, k, {p})
          <==> Only(Returned(m, ops, k) + Ahead(Run(m, ops), k), {p}) == if i < l.scans[k] then [] else [p])
  {
    hide Insert, Active, Spares, NeverStepsBack, Returned, Run;
    var m, c, a := Insert(l, p, i), l.scans[k], Ahead(l, k);
    ScanKeeps(m, ops, k, {p});
    PutAhead(l, p, i, k);
    if i < c {
      OnlyAbsent(a, p);
    } else {
      OnlyAbsent(a[..i - c], p);
      OnlyAbsent(a[i - c..], p);
      OnlyAppend(a[..i - c] + [p], a[i - c..], {p});
      OnlyAppend(a[..i - c], [p], {p});
    }
  }

  /** Ending a scan, or asking it for more at its end, closes it and nothing else: the scans around it
      stand where they stood, so that there is room for another one. */
  lemma EndCloses<T>(l: List<T>, op: Op<T>)
    requires Valid(l) && l.scans != [] && (op.End? || (op.Advance? && Top(l) == |l.items|))
    ensures var r := Apply(l, op);
      && r.items == l.items && |r.scans| == |l.scans| - 1
      && (forall j :: 0 <= j < |r.scans| ==> r.scans[j] == l.scans[j])
      && Apply(r, Begin).scans == r.scans + [0]
  {
  }

  /** A new scan stands in front of the first item, inside those under way; a fifth is not opened. */
  lemma FourScans<T>(l: List<T>)
    requires Valid(l)
    ensures |l.scans| <= 4 && Apply(l, Begin) == if |l.scans| == 4 then l else List(l.items, l.scans + [0])
  {
  }

  // ---- The removal of the last item ----

  /** A scan that has returned the first of two items returns it again after the second is removed. */
  lemma ReturnedTwice<T>(x: T, y: T)
    ensures var ops := [Advance, TakeLast, Advance];
      && Active(List([x, y], [0]), ops, 0) && Returned(List([x, y], [0]), ops, 0) == [x, x]
  {
    var l := List([x, y], [0]);
    var ops: seq<Op<T>> := [Advance, TakeLast, Advance];
    var l1, l2 := List([x, y], [1]), List([x], [0]);
    assert Apply(l, Advance).scans == [1];
    assert RemovedLast(l1).items == [x] && RemovedLast(l1).scans == [0];
    assert Apply(l1, TakeLast) == l2 && Apply(l2, Advance).scans == [1];
    assert ops[1..] == [TakeLast, Advance] && ops[1..][1..] == [Advance] && ops[1..][1..][1..] == [];
    assert Returned(l2, [Advance], 0) == [x] + Returned(Apply(l2, Advance), [], 0);
  }

  /** In general, the item returned last is returned next. */
  lemma ReturnedAgain<T>(l: List<T>, k: nat)
    requires Valid(l) && |l.scans| == k + 1 && |l.items| > 1 && Top(l) == |l.items| - 1
    ensures var r := Apply(l, TakeLast);
      StaysInside(l, TakeLast) && |r.scans| == k + 1 && Returned1(r, Advance, k) == [l.items[Top(l) - 1]]
  {
    RemoveLastValidExactly(l);
    TakeLastAhead(l, k);
    assert RemovedLast(l).scans[k] == |l.items| - 2;
  }

  /** A scan of one item that has returned nothing is left in front of the list. */
  lemma CursorLeavesList<T>(x: T)
    ensures Valid(List([x], [0])) && RemovedLast(List([x], [0])) == List([], [-1])
    ensures !StaysInside(List([x], [0]), TakeLast)
  {
    var r := RemovedLast(List([x], [0]));
    assert r.scans == [-1] && r.scans[0] < 0;
  }
}

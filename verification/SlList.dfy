/**
 SL_List: a list in a growable array, scanned by up to four nested cursors that insertions and
 removals repair, the removal of the last item not always rightly.  Values are compared and copied
 only; "no item" is None.
 */
module SlList {

  const MAX_SCAN_PTS := 4
  const INITIAL_ITEMS := 8

  import opened Basics

  // The items, and the scan points of the scans under way, innermost last.
  datatype List<T> = List(items: seq<T>, scans: seq<int>)

  predicate Valid<T>(l: List<T>) {
    |l.scans| <= 4 && forall j :: 0 <= j < |l.scans| ==> 0 <= l.scans[j] <= |l.items|
  }

  // A scan point counts the items in front of it; an item put in among them moves it along.
  function Moved(c: int, i: int): int {
    if c > i then c + 1 else c
  }

  function Closed(c: int, i: int): int {
    if c > i then c - 1 else c
  }

  function MoveAll(scans: seq<int>, i: int): (r: seq<int>)
    ensures |r| == |scans| && forall j :: 0 <= j < |r| ==> r[j] == Moved(scans[j], i)
  {
    seq(|scans|, j requires 0 <= j < |scans| => Moved(scans[j], i))
  }

  function CloseAll(scans: seq<int>, i: int): (r: seq<int>)
    ensures |r| == |scans| && forall j :: 0 <= j < |r| ==> r[j] == Closed(scans[j], i)
  {
    seq(|scans|, j requires 0 <= j < |scans| => Closed(scans[j], i))
  }

  function Insert<T>(l: List<T>, p: T, i: nat): (r: List<T>)
    requires Valid(l) && i <= |l.items|
    ensures Valid(r)
  {
    List(l.items[..i] + [p] + l.items[i..], MoveAll(l.scans, i))
  }

  function Remove<T>(l: List<T>, i: nat): (r: List<T>)
    requires Valid(l) && i < |l.items|
    ensures Valid(r)
  {
    List(l.items[..i] + l.items[i + 1..], CloseAll(l.scans, i))
  }

  // What removing the last item really does: the index is computed again from the count that has
  // already dropped, so the cursors are compared with one place too few.
  function RemovedLast<T>(l: List<T>): (r: List<T>)
    requires l.items != []
  {
    List(l.items[..|l.items| - 1], CloseAll(l.scans, |l.items| - 2))
  }

  // No open cursor stands right in front of the last item.
  predicate NoneAtLast<T>(l: List<T>) {
    forall j :: 0 <= j < |l.scans| ==> l.scans[j] != |l.items| - 1
  }

  /** Removing the last item is a removal like any other exactly when no open cursor stands right in
      front of it. */
  lemma RemoveLastExactly<T>(l: List<T>)
    requires Valid(l) && l.items != []
    ensures RemovedLast(l) == Remove(l, |l.items| - 1) <==> NoneAtLast(l)
  {
    var n := |l.items|;
    var r, q := RemovedLast(l), Remove(l, n - 1);
    assert r.items == q.items;
    if NoneAtLast(l) {
      assert r.scans == q.scans;
    } else {
      var j :| 0 <= j < |l.scans| && l.scans[j] == n - 1;
      assert r.scans[j] == n - 2 && q.scans[j] == n - 1;
    }
  }

  /** It leaves a cursor outside the list exactly when a scan of one item has returned nothing yet. */
  lemma RemoveLastValidExactly<T>(l: List<T>)
    requires Valid(l) && l.items != []
    ensures Valid(RemovedLast(l)) <==> |l.items| > 1 || NoneAtLast(l)
  {
    var r := RemovedLast(l);
    if |l.items| == 1 && !NoneAtLast(l) {
      var j :| 0 <= j < |l.scans| && l.scans[j] == 0;
      assert r.scans[j] == -1;
    }
  }

  function Top<T>(l: List<T>): (c: int)
    requires l.scans != []
  {
    l.scans[|l.scans| - 1]
  }

  function Pop<T>(l: List<T>): (r: List<T>)
    requires l.scans != []
    ensures Valid(l) ==> Valid(r)
  {
    l.(scans := l.scans[..|l.scans| - 1])
  }

  function WithTop<T>(l: List<T>, c: nat): (r: List<T>)
    requires Valid(l) && l.scans != [] && c <= |l.items|
    ensures Valid(r)
  {
    l.(scans := l.scans[|l.scans| - 1 := c])
  }

  // The first index from i on whose item satisfies f, or the length.
  function FirstFrom<T>(s: seq<T>, f: T -> bool, i: nat): (r: nat)
    requires i <= |s|
    ensures i <= r <= |s| && (r < |s| ==> f(s[r])) && forall j :: i <= j < r ==> !f(s[j])
    decreases |s| - i
  {
    if i == |s| || f(s[i]) then i else FirstFrom(s, f, i + 1)
  }

  /** The list object.  Every method states the new value of the list and its failed flag. */
  class SL_List<T(0)> {
    var items: array<T>
    var currentItems: nat
    const scanPts: array<int>
    var currentScan: int
    var failed: bool

    ghost predicate Ok()
      reads this, items, scanPts
    {
      Shaped() && Valid(View())
    }

    ghost predicate Shaped()
      reads this, items, scanPts
    {
      && items.Length >= INITIAL_ITEMS && scanPts.Length == MAX_SCAN_PTS
      && scanPts as object != items as object
      && currentItems <= items.Length && -1 <= currentScan < MAX_SCAN_PTS
    }

    ghost function View(): List<T>
      requires currentItems <= items.Length && -1 <= currentScan < scanPts.Length
      reads this, items, scanPts
    {
      List(items[..currentItems], scanPts[..currentScan + 1])
    }

    constructor ()
      ensures Ok() && View() == List([], []) && !failed && fresh(items) && fresh(scanPts)
    {
      items := new T[INITIAL_ITEMS];
      scanPts := new int[MAX_SCAN_PTS](_ => 0);
      currentItems, currentScan, failed := 0, -1, false;
    }

    // Double the array when it is full.
    method PrepareToExpand()
      requires Ok()
      modifies `items
      ensures Ok() && View() == old(View()) && currentItems < items.Length
      ensures items == old(items) || fresh(items)
    {
      if currentItems == items.Length {
        var newItems := new T[2 * items.Length];
        forall i | 0 <= i < currentItems {
          newItems[i] := items[i];
        }
        assert newItems[..currentItems] == items[..currentItems];
        items := newItems;
      }
    }

    method Add(p: T)
      requires Ok()
      modifies this, items, scanPts
      ensures Ok() && !failed && (items == old(items) || fresh(items))
      ensures View() == old(View()).(items := old(View()).items + [p])
    {
      PrepareToExpand();
      items[currentItems] := p;
      currentItems := currentItems + 1;
      failed := false;
    }

    method InsertAt(p: T, index: nat)
      requires Ok() && index <= currentItems
      modifies this, items, scanPts
      ensures Ok() && !failed && (items == old(items) || fresh(items))
      ensures View() == Insert(old(View()), p, index)
    {
      ghost var l := View();
      PrepareToExpand();
      assert l.items == items[..currentItems];
      PutInArray(items, p, index, currentItems);
      currentItems := currentItems + 1;
      MoveScanPoints(index);
      failed := false;
    }

    // Shift a[index..n] up by one and put p in the gap.
    static method PutInArray(a: array<T>, p: T, index: nat, n: nat)
      requires index <= n < a.Length
      modifies a
      ensures a[..n + 1] == old(a[..n])[..index] + [p] + old(a[..n])[index..]
    {
      var i := n;
      while i > index
        invariant index <= i <= n
        invariant forall j :: 0 <= j < i ==> a[j] == old(a[j])
        invariant forall j :: i < j <= n ==> a[j] == old(a[j - 1])
      {
        a[i] := a[i - 1];
        i := i - 1;
      }
      a[index] := p;
    }

    // Shift a[index + 1..n] down by one.
    static method TakeFromArray(a: array<T>, index: nat, n: nat)
      requires index < n <= a.Length
      modifies a
      ensures a[..n - 1] == old(a[..n])[..index] + old(a[..n])[index + 1..]
    {
      for i := index + 1 to n
        invariant forall j :: 0 <= j < index ==> a[j] == old(a[j])
        invariant forall j :: index <= j < i - 1 ==> a[j] == old(a[j + 1])
        invariant forall j :: i <= j < n ==> a[j] == old(a[j])
      {
        a[i - 1] := a[i];
      }
      ghost var was := old(a[..n]);
      assert was[..index] == a[..index];
      assert forall j | index <= j < n - 1 :: a[j] == was[j + 1];
    }

    method MoveScanPoints(index: int)
      requires scanPts.Length == MAX_SCAN_PTS && -1 <= currentScan < MAX_SCAN_PTS
      modifies scanPts
      ensures scanPts[..currentScan + 1] == MoveAll(old(scanPts[..currentScan + 1]), index)
    {
      for i := 0 to currentScan + 1
        invariant forall j :: 0 <= j < i ==> scanPts[j] == Moved(old(scanPts[j]), index)
        invariant forall j :: i <= j < MAX_SCAN_PTS ==> scanPts[j] == old(scanPts[j])
      {
        if scanPts[i] - 1 >= index {
          scanPts[i] := scanPts[i] + 1;
        }
      }
    }

    method CloseScanPoints(index: int)
      requires scanPts.Length == MAX_SCAN_PTS && -1 <= currentScan < MAX_SCAN_PTS
      modifies scanPts
      ensures scanPts[..currentScan + 1] == CloseAll(old(scanPts[..currentScan + 1]), index)
    {
      for i := 0 to currentScan + 1
        invariant forall j :: 0 <= j < i ==> scanPts[j] == Closed(old(scanPts[j]), index)
        invariant forall j :: i <= j < MAX_SCAN_PTS ==> scanPts[j] == old(scanPts[j])
      {
        if scanPts[i] - 1 >= index {
          scanPts[i] := scanPts[i] - 1;
        }
      }
    }

    // With an index computed anew from the innermost cursor each time, which itself is moved last.
    method MoveScanPointsByTop(back: nat)
      requires scanPts.Length == MAX_SCAN_PTS && 0 <= currentScan < MAX_SCAN_PTS
      modifies scanPts
      ensures scanPts[..currentScan + 1] == MoveAll(old(scanPts[..currentScan + 1]), old(scanPts[currentScan]) - back)
    {
      for i := 0 to currentScan + 1
        invariant forall j :: 0 <= j < i ==> scanPts[j] == Moved(old(scanPts[j]), old(scanPts[currentScan]) - back)
        invariant forall j :: i <= j < MAX_SCAN_PTS ==> scanPts[j] == old(scanPts[j])
      {
        if scanPts[i] - 1 >= scanPts[currentScan] - back {
          scanPts[i] := scanPts[i] + 1;
        }
      }
    }

    method CloseScanPointsByTop(back: nat)
      requires scanPts.Length == MAX_SCAN_PTS && 0 <= currentScan < MAX_SCAN_PTS
      modifies scanPts
      ensures scanPts[..currentScan + 1] == CloseAll(old(scanPts[..currentScan + 1]), old(scanPts[currentScan]) - back)
    {
      for i := 0 to currentScan + 1
        invariant forall j :: 0 <= j < i ==> scanPts[j] == Closed(old(scanPts[j]), old(scanPts[currentScan]) - back)
        invariant forall j :: i <= j < MAX_SCAN_PTS ==> scanPts[j] == old(scanPts[j])
      {
        if scanPts[i] - 1 >= scanPts[currentScan] - back {
          scanPts[i] := scanPts[i] - 1;
        }
      }
    }

    // Fails, leaving the list alone, if there is no such item.
    method RemoveAt(index: int) returns (r: Option<T>)
      requires Ok()
      modifies this, items, scanPts
      ensures Ok() && items == old(items)
      ensures var l := old(View());
        if 0 <= index < |l.items| then r == Some(l.items[index]) && View() == Remove(l, index) && !failed
        else r == None && View() == l && failed
    {
      if currentItems == 0 || index < 0 || index >= currentItems {
        failed := true;
        return None;
      }
      ghost var l := View();
      r := Some(items[index]);
      TakeFromArray(items, index, currentItems);
      currentItems := currentItems - 1;
      CloseScanPoints(index);
      failed := false;
    }

    method InsertFront(p: T)
      requires Ok()
      modifies this, items, scanPts
      ensures Ok() && !failed && (items == old(items) || fresh(items))
      ensures View() == Insert(old(View()), p, 0)
    {
      InsertAt(p, 0);
    }

    // The placement function says 0 to look further, 2 to replace, anything else to insert here.
    method InsertPlaced(p: T, place: (T, T) -> int)
      requires Ok()
      modifies this, items, scanPts
      ensures Ok() && (items == old(items) || fresh(items))
      ensures var l := old(View());
        var i := FirstFrom(l.items, x => place(x, p) != 0, 0);
        if i < |l.items| && place(l.items[i], p) == 2 then View() == l.(items := l.items[i := p])
        else View() == Insert(l, p, i) && !failed
    {
      ghost var l := View();
      var i, status := 0, 0;
      while i < currentItems
        invariant 0 <= i <= currentItems && status == 0
        invariant FirstFrom(l.items, x => place(x, p) != 0, 0) == FirstFrom(l.items, x => place(x, p) != 0, i)
      {
        status := place(items[i], p);
        if status != 0 {
          break;
        }
        i := i + 1;
      }
      if status != 2 {
        InsertAt(p, i);
      } else {
        items[i] := p;
        assert View().items == l.items[i := p];
      }
    }

    method InsertBeforeCurrent(p: T)
      requires Ok()
      modifies this, items, scanPts
      ensures Ok() && (items == old(items) || fresh(items))
      ensures var l := old(View());
        if l.scans == [] || Top(l) == 0 then View() == l && failed
        else View() == Insert(l, p, Top(l) - 1) && !failed
    {
      if currentScan == -1 || scanPts[currentScan] == 0 {
        failed := true;
        return;
      }
      ghost var l := View();
      PrepareToExpand();
      assert l.items == items[..currentItems];
      PutInArray(items, p, scanPts[currentScan] - 1, currentItems);
      currentItems := currentItems + 1;
      MoveScanPointsByTop(1);
      failed := false;
    }

    method RemoveCurrent() returns (r: Option<T>)
      requires Ok()
      modifies this, items, scanPts
      ensures Ok() && items == old(items)
      ensures var l := old(View());
        if l.scans == [] || Top(l) == 0 then r == None && View() == l && failed
        else r == Some(l.items[Top(l) - 1]) && View() == Remove(l, Top(l) - 1) && !failed
    {
      if currentScan == -1 {
        failed := true;
        return None;
      }
      r := RemoveByTop(1);
    }

    // The removal macro with an index that many places behind the innermost cursor.
    method RemoveByTop(back: nat) returns (r: Option<T>)
      requires Ok() && currentScan >= 0
      modifies this, items, scanPts
      ensures Ok() && items == old(items)
      ensures var l := old(View());
        var index := Top(l) - back;
        if 0 <= index < |l.items| then r == Some(l.items[index]) && View() == Remove(l, index) && !failed
        else r == None && View() == l && failed
    {
      var index := scanPts[currentScan] - back;
      if currentItems == 0 || index < 0 || index >= currentItems {
        failed := true;
        return None;
      }
      ghost var l := View();
      r := Some(items[index]);
      assert l.items == items[..currentItems];
      TakeFromArray(items, index, currentItems);
      currentItems := currentItems - 1;
      assert items[..currentItems] == l.items[..index] + l.items[index + 1..];
      CloseScanPointsByTop(back);
      failed := false;
      assert View().items == Remove(l, index).items && View().scans == Remove(l, index).scans;
    }

    method RemovePrevious() returns (r: Option<T>)
      requires Ok()
      modifies this, items, scanPts
      ensures Ok() && items == old(items)
      ensures var l := old(View());
        if l.scans == [] || Top(l) < 2 then r == None && View() == l && failed
        else r == Some(l.items[Top(l) - 2]) && View() == Remove(l, Top(l) - 2) && !failed
    {
      if currentScan == -1 || scanPts[currentScan] < 2 {
        failed := true;
        return None;
      }
      r := RemoveByTop(2);
    }

    // Remove and return the first item that satisfies f.
    method RemoveFirst(f: T -> bool) returns (r: Option<T>)
      requires Ok()
      modifies this, items, scanPts
      ensures Ok() && items == old(items) && !failed
      ensures var l := old(View());
        var i := FirstFrom(l.items, f, 0);
        if i == |l.items| then r == None && View() == l
        else r == Some(l.items[i]) && View() == Remove(l, i)
    {
      failed := false;
      ghost var l := View();
      var sp := 0;
      while sp < currentItems && !f(items[sp])
        invariant 0 <= sp <= currentItems
        invariant FirstFrom(l.items, f, 0) == FirstFrom(l.items, f, sp)
      {
        sp := sp + 1;
      }
      if sp == currentItems {
        return None;
      }
      r := RemoveAt(sp);
    }

    // The list is left with every cursor in it exactly when RemovedLast does so.
    method RemoveLast() returns (r: Option<T>)
      requires Ok()
      modifies this, items, scanPts
      ensures Shaped() && items == old(items) && !failed
      ensures var l := old(View());
        if l.items == [] then r == None && View() == l
        else r == Some(l.items[|l.items| - 1]) && View() == RemovedLast(l)
    {
      failed := false;
      if currentItems == 0 {
        return None;
      }
      ghost var l := View();
      r := Some(items[currentItems - 1]);
      TakeFromArray(items, currentItems - 1, currentItems);
      currentItems := currentItems - 1;
      CloseScanPoints(currentItems - 1);
    }

    method InitScan() returns (r: int)
      requires Ok()
      modifies this, scanPts
      ensures Ok() && items == old(items) && (r == 0 <==> !failed)
      ensures var l := old(View());
        if |l.scans| == 4 then failed && View() == l
        else !failed && View() == l.(scans := l.scans + [0])
    {
      if currentScan + 1 >= MAX_SCAN_PTS {
        failed := true;
        return -1;
      }
      currentScan := currentScan + 1;
      scanPts[currentScan] := 0;
      failed := false;
      assert View().scans == old(View()).scans + [0];
      return 0;
    }

    // The next item that satisfies f; at the end of the list the scan is over and popped.
    method NextMatching(f: T -> bool) returns (r: Option<T>)
      requires Ok() && currentScan >= 0
      modifies `currentScan, scanPts
      ensures Ok()
      ensures var l := old(View());
        var i := FirstFrom(l.items, f, Top(l));
        if i == |l.items| then r == None && View() == Pop(l)
        else r == Some(l.items[i]) && View() == WithTop(l, i + 1)
    {
      ghost var l := View();
      var at := scanPts[currentScan];
      while at < currentItems && !f(items[at])
        invariant 0 <= at <= currentItems
        invariant FirstFrom(l.items, f, Top(l)) == FirstFrom(l.items, f, at)
      {
        at := at + 1;
      }
      scanPts[currentScan] := at;
      r := ReturnScanPoint();
    }

    method Next() returns (r: Option<T>)
      requires Ok() && currentScan >= 0
      modifies `currentScan, scanPts
      ensures Ok()
      ensures var l := old(View());
        if Top(l) == |l.items| then r == None && View() == Pop(l)
        else r == Some(l.items[Top(l)]) && View() == WithTop(l, Top(l) + 1)
    {
      r := ReturnScanPoint();
    }

    method ReturnScanPoint() returns (r: Option<T>)
      requires Ok() && currentScan >= 0
      modifies `currentScan, scanPts
      ensures Ok()
      ensures var l := old(View());
        if Top(l) == |l.items| then r == None && View() == Pop(l)
        else r == Some(l.items[Top(l)]) && View() == WithTop(l, Top(l) + 1)
    {
      ghost var l := View();
      if scanPts[currentScan] == currentItems {
        currentScan := currentScan - 1;
        assert View().scans == Pop(l).scans;
        return None;
      }
      r := Some(items[scanPts[currentScan]]);
      scanPts[currentScan] := scanPts[currentScan] + 1;
      assert View().scans == WithTop(l, Top(l) + 1).scans;
    }

    method Previous() returns (r: Option<T>)
      requires Ok() && currentScan >= 0
      modifies scanPts
      ensures Ok()
      ensures var l := old(View());
        if Top(l) < 2 then r == None && View() == l
        else r == Some(l.items[Top(l) - 2]) && View() == WithTop(l, Top(l) - 1)
    {
      ghost var l := View();
      if scanPts[currentScan] < 2 {
        return None;
      }
      scanPts[currentScan] := scanPts[currentScan] - 1;
      assert View().scans == WithTop(l, Top(l) - 1).scans;
      return Some(items[scanPts[currentScan] - 1]);
    }

    method ScanDone() returns (r: int)
      requires Ok()
      modifies `currentScan, `failed
      ensures Ok() && (r == 0 <==> !failed)
      ensures var l := old(View());
        if l.scans == [] then failed && View() == l else !failed && View() == Pop(l)
    {
      ghost var l := View();
      if currentScan < 0 {
        failed := true;
        return -1;
      }
      currentScan := currentScan - 1;
      failed := false;
      assert View().scans == Pop(l).scans;
      return 0;
    }
  }
}

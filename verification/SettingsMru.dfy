/** The lists of recently used directories: four slots, the unused ones blank. */
module SettingsMru {

  const SLOTS: nat := 4

  function Blanks(k: nat): (r: seq<string>)
    ensures |r| == k
  {
    seq(k, _ => "")
  }

  // The first so many, made up with blanks.
  function Padded(s: seq<string>, size: nat): (r: seq<string>)
    ensures |r| == size
  {
    if |s| >= size then s[..size] else s + Blanks(size - |s|)
  }

  function Others(s: seq<string>, d: string): seq<string> {
    if s == [] then [] else (if s[0] == d then [] else [s[0]]) + Others(s[1..], d)
  }

  // What choosing d makes of a list.
  function Inserted(mru: seq<string>, d: string): seq<string> {
    Padded([d] + Others(mru, d), SLOTS)
  }

  // A history of choices, newest first, with only the newest of each.
  function Newest(h: seq<string>): seq<string> {
    if h == [] then [] else [h[0]] + Others(Newest(h[1..]), h[0])
  }

  predicate NoRepeats(s: seq<string>) {
    forall i, j | 0 <= i < j < |s| :: s[i] != s[j]
  }

  lemma {:induction false} OthersJoin(s: seq<string>, t: seq<string>, d: string)
    ensures Others(s + t, d) == Others(s, d) + Others(t, d)
  {
    if s == [] {
      assert s + t == t;
    } else {
      assert (s + t)[1..] == s[1..] + t;
      OthersJoin(s[1..], t, d);
    }
  }

  lemma {:induction false} OthersAre(s: seq<string>, d: string)
    ensures d !in Others(s, d)
    ensures forall x :: x in Others(s, d) <==> x in s && x != d
    ensures NoRepeats(s) ==> NoRepeats(Others(s, d))
  {
    if s != [] {
      assert s == [s[0]] + s[1..];
      OthersAre(s[1..], d);
      var rest := Others(s[1..], d);
      if NoRepeats(s) && s[0] != d {
        assert Others(s, d) == [s[0]] + rest;
        assert s[0] !in rest;
      }
    }
  }

  // Of distinct entries at most one is taken out.
  lemma {:induction false} OthersCount(s: seq<string>, d: string)
    requires NoRepeats(s)
    ensures d !in s ==> Others(s, d) == s
    ensures |Others(s, d)| >= |s| - 1
  {
    if s != [] {
      OthersCount(s[1..], d);
      assert s == [s[0]] + s[1..];
    }
  }

  lemma {:induction false} OthersOfBlanks(k: nat, d: string)
    requires d != ""
    ensures Others(Blanks(k), d) == Blanks(k)
  {
    if k > 0 {
      assert Blanks(k)[1..] == Blanks(k - 1);
      OthersOfBlanks(k - 1, d);
    }
  }

  lemma {:induction false} NewestDistinct(h: seq<string>)
    ensures NoRepeats(Newest(h))
  {
    if h != [] {
      NewestDistinct(h[1..]);
      OthersAre(Newest(h[1..]), h[0]);
    }
  }

  /** The list is at all times the four most recent different choices, newest first: choosing d
      takes the list of a history to the list of that history with d in front. */
  lemma InsertRemembers(h: seq<string>, d: string)
    requires d != ""
    ensures Inserted(Padded(Newest(h), 4), d) == Padded(Newest([d] + h), 4)
  {
    var x := Newest(h);
    NewestDistinct(h);
    assert ([d] + h)[1..] == h;
    assert Newest([d] + h) == [d] + Others(x, d);
    hide Newest;
    if |x| >= SLOTS {
      FullList(x, d);
    } else {
      ShortList(x, d);
    }
  }

  lemma FullList(x: seq<string>, d: string)
    requires NoRepeats(x) && |x| >= SLOTS
    ensures Inserted(Padded(x, SLOTS), d) == Padded([d] + Others(x, d), SLOTS)
  {
    hide Others, NoRepeats;
    var first, last := Others(x[..SLOTS], d), Others(x[SLOTS..], d);
    assert x == x[..SLOTS] + x[SLOTS..];
    OthersJoin(x[..SLOTS], x[SLOTS..], d);
    DistinctPrefix(x);
    OthersCount(x[..SLOTS], d);
    LongEnough([d] + first, last);
    assert [d] + (first + last) == ([d] + first) + last;
  }

  lemma DistinctPrefix(x: seq<string>)
    requires NoRepeats(x) && |x| >= SLOTS
    ensures NoRepeats(x[..SLOTS])
  {
  }

  lemma LongEnough(s: seq<string>, t: seq<string>)
    requires |s| >= SLOTS
    ensures Padded(s + t, SLOTS) == Padded(s, SLOTS)
  {
  }

  lemma ShortList(x: seq<string>, d: string)
    requires |x| < SLOTS && d != ""
    ensures Inserted(Padded(x, SLOTS), d) == Padded([d] + Others(x, d), SLOTS)
  {
    var k := SLOTS - |x|;
    OthersJoin(x, Blanks(k), d);
    OthersOfBlanks(k, d);
    hide Others;
    assert [d] + (Others(x, d) + Blanks(k)) == [d] + Others(x, d) + Blanks(k);
    BlanksBehind([d] + Others(x, d), k, SLOTS);
  }

  lemma BlanksBehind(s: seq<string>, k: nat, size: nat)
    ensures Padded(s + Blanks(k), size) == Padded(s, size)
  {
  }

  // With done in front, the first n of rest complete the list.
  ghost predicate Filling(goal: seq<string>, done: seq<string>, rest: seq<string>, n: nat) {
    Padded(goal, SLOTS - 1) == done + Padded(rest, n)
  }

  lemma FillNext(goal: seq<string>, done: seq<string>, x: string, rest: seq<string>, n: nat)
    requires n > 0 && Filling(goal, done, [x] + rest, n)
    ensures Filling(goal, done + [x], rest, n - 1)
  {
    PaddedFirst(x, rest, n);
    Regroup(done, x, Padded(rest, n - 1));
    hide Padded;
  }

  lemma FillBlank(goal: seq<string>, done: seq<string>, n: nat)
    requires n > 0 && Filling(goal, done, [], n)
    ensures Filling(goal, done + [""], [], n - 1)
  {
    NothingLeft(n);
    Regroup(done, "", Padded([], n - 1));
    hide Padded;
  }

  method InsertInMRU(mru: array<string>, newbuf: string) returns (newMRU: array<string>)
    requires mru.Length == SLOTS
    ensures fresh(newMRU) && newMRU[..] == Inserted(mru[..], newbuf)
  {
    hide Padded, Others, Filling;
    newMRU := new string[SLOTS](_ => "");
    newMRU[0] := newbuf;
    var old' := mru[..];
    ghost var goal, done := Others(old', newbuf), [];
    var from := 0;
    ghost var list := newMRU[..];
    assert mru[0..] == old' && list[1..1] == done;
    FillStarts(goal);
    var i := 1;
    while i < SLOTS
      invariant 1 <= i <= SLOTS && 0 <= from <= SLOTS
      invariant fresh(newMRU) && newMRU.Length == SLOTS
      invariant mru[..] == old' && newMRU[..] == list && list[0] == newbuf && list[1..i] == done
      invariant Filling(goal, done, Others(old'[from..], newbuf), SLOTS - i)
    {
      while from < SLOTS && mru[from] == newbuf
        modifies {}
        invariant 0 <= from <= SLOTS
        invariant Filling(goal, done, Others(old'[from..], newbuf), SLOTS - i)
      {
        OthersFrom(old', from, newbuf);
        from := from + 1;
      }
      var next := "";
      if from < SLOTS {
        OthersFrom(old', from, newbuf);
        next := mru[from];
        from := from + 1;
        FillNext(goal, done, next, Others(old'[from..], newbuf), SLOTS - i);
      } else {
        NoOthers(old'[from..], newbuf);
        FillBlank(goal, done, SLOTS - i);
      }
      OneMore(list, i, next);
      Store(newMRU, i, next);
      list, done := list[i := next], done + [next];
      i := i + 1;
    }
    assert list == [newbuf] + list[1..SLOTS];
    FillEnds(goal, done, Others(old'[from..], newbuf));
    PaddedFirst(newbuf, goal, SLOTS);
  }

  method Store(a: array<string>, i: nat, x: string)
    requires i < a.Length
    modifies a
    ensures a[..] == old(a[..])[i := x]
  {
    a[i] := x;
  }

  lemma FillStarts(goal: seq<string>)
    ensures Filling(goal, [], goal, SLOTS - 1)
  {
    assert [] + Padded(goal, SLOTS - 1) == Padded(goal, SLOTS - 1);
  }

  lemma FillEnds(goal: seq<string>, done: seq<string>, rest: seq<string>)
    requires Filling(goal, done, rest, 0)
    ensures Padded(goal, SLOTS - 1) == done
  {
    assert Padded(rest, 0) == [];
  }

  lemma NoOthers(s: seq<string>, d: string)
    requires s == []
    ensures Others(s, d) == []
  {
  }

  lemma OneMore(s: seq<string>, i: nat, x: string)
    requires 1 <= i < |s|
    ensures s[i := x][1..i + 1] == s[1..i] + [x]
  {
  }

  lemma Regroup(s: seq<string>, x: string, t: seq<string>)
    ensures s + ([x] + t) == s + [x] + t
  {
  }

  lemma OthersFrom(s: seq<string>, at: nat, d: string)
    requires at < |s|
    ensures Others(s[at..], d) == if s[at] == d then Others(s[at + 1..], d) else [s[at]] + Others(s[at + 1..], d)
  {
    assert s[at..][1..] == s[at + 1..];
  }

  lemma PaddedFirst(x: string, s: seq<string>, size: nat)
    requires size > 0
    ensures Padded([x] + s, size) == [x] + Padded(s, size - 1)
  {
    assert [x] + s + Blanks(0) == [x] + s;
  }

  lemma NothingLeft(size: nat)
    requires size > 0
    ensures Padded([], size) == [""] + Padded([], size - 1)
  {
  }
}

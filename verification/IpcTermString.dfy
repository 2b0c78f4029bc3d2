/**
 Terminator-delimited strings over a stream connection. The reader takes one byte at a time into
 a fixed buffer until the buffer ends in the terminator.
 */
module IpcTermString {
  import opened Basics
  import opened IpcTransport
  import opened IpcChannel
  import opened IpcPrims

  const BUFFER_SIZE: nat := 1024
  const LIMIT: nat := BUFFER_SIZE - 1

  // ---- What the terminator delimits ----

  // An occurrence of term ends at e, behind at least one byte read.
  predicate EndsAt(term: seq<byte>, s: seq<byte>, e: nat) {
    1 <= e <= |s| && |term| <= e && s[e - |term|..e] == term
  }

  predicate FirstEnd(term: seq<byte>, s: seq<byte>, e: nat) {
    EndsAt(term, s, e) && forall d: nat | d < e :: !EndsAt(term, s, d)
  }

  ghost predicate Contains(s: seq<byte>, term: seq<byte>) {
    exists e: nat :: EndsAt(term, s, e)
  }

  predicate NulFree(s: seq<byte>) {
    forall i | 0 <= i < |s| :: s[i] != 0
  }

  // What strcpy makes of a buffer.
  function CString(s: seq<byte>): seq<byte> {
    if s == [] || s[0] == 0 then [] else [s[0]] + CString(s[1..])
  }

  lemma {:induction false} CStringWhole(s: seq<byte>)
    ensures CString(s) == s <==> NulFree(s)
  {
    if s != [] && s[0] != 0 {
      CStringWhole(s[1..]);
      assert s == [s[0]] + s[1..];
      if NulFree(s[1..]) {
        forall i | 0 <= i < |s| ensures s[i] != 0 {
          assert i > 0 ==> s[i] == s[1..][i - 1];
        }
      }
    }
  }

  // No proper prefix of the terminator is also its suffix.
  predicate BorderFree(term: seq<byte>) {
    forall b | 0 < b < |term| :: term[..b] != term[|term| - b..]
  }

  /** A string is delimited by its own terminator, whatever it is as long as it does not contain
      it, exactly when the terminator has no border. */
  lemma DelimitsExactly(term: seq<byte>)
    requires term != []
    ensures BorderFree(term) <==> forall s: seq<byte> :: !Contains(s, term) ==> FirstEnd(term, s + term, |s| + |term|)
  {
    if BorderFree(term) {
      forall s: seq<byte> | !Contains(s, term) ensures FirstEnd(term, s + term, |s| + |term|) {
        Delimits(term, s);
      }
    } else {
      var b :| 0 < b < |term| && term[..b] == term[|term| - b..];
      BorderCuts(term, b);
    }
  }

  lemma Delimits(term: seq<byte>, s: seq<byte>)
    requires term != [] && BorderFree(term) && !Contains(s, term)
    ensures FirstEnd(term, s + term, |s| + |term|)
  {
    assert (s + term)[|s|..] == term;
    forall d: nat | d < |s + term| ensures !EndsAt(term, s + term, d) {
      if EndsAt(term, s + term, d) {
        EarlyEnd(term, s, d);
      }
    }
  }

  // An early occurrence lies within the string, or shows a border of the terminator.
  lemma EarlyEnd(term: seq<byte>, s: seq<byte>, d: nat)
    requires EndsAt(term, s + term, d) && d < |s| + |term|
    ensures if d <= |s| then EndsAt(term, s, d) else term[..d - |s|] == term[|term| - (d - |s|)..]
  {
    var w := s + term;
    if d <= |s| {
      assert s[d - |term|..d] == w[d - |term|..d];
    } else {
      assert term[..d - |s|] == w[|s|..d];
      assert term[|term| - (d - |s|)..] == w[d - |term|..d][|term| - (d - |s|)..];
    }
  }

  // A border of length b makes the first terminator of term[..|term| - b] + term end early.
  lemma BorderCuts(term: seq<byte>, b: nat)
    requires 0 < b < |term| && term[..b] == term[|term| - b..]
    ensures var s := term[..|term| - b];
      !Contains(s, term) && EndsAt(term, s + term, |term|) && !FirstEnd(term, s + term, |s| + |term|)
  {
    var s := term[..|term| - b];
    assert (s + term)[..|term|] == s + term[..b];
    assert s + term[|term| - b..] == term;
    assert (s + term)[|term| - |term|..|term|] == (s + term)[..|term|];
    assert EndsAt(term, s + term, |term|);
  }

  // ---- The reader ----

  function Kept(buffer: seq<byte>, c: seq<byte>): seq<byte> {
    if |buffer| < LIMIT then buffer + c else buffer
  }

  predicate Terminated(term: seq<byte>, buffer: seq<byte>) {
    |term| <= |buffer| && buffer[|buffer| - |term|..] == term
  }

  // Go on from a buffer already filled. Once too long, the buffer no longer changes.
  function Scan(term: seq<byte>, buffer: seq<byte>, tooLong: bool, c: Chan): (Text, Chan)
    decreases |c.sched|
  {
    var (b, next) := Receive(c, 1);
    if b.None? then (None, next) else
      var kept := Kept(buffer, b.value);
      var long := tooLong || |buffer| >= LIMIT;
      if Terminated(term, kept) then
        (if long then None else Some(CString(kept[..|kept| - |term|])), next)
      else Scan(term, kept, long, next)
  }

  function ReadTerm(term: seq<byte>, c: Chan): (Text, Chan) {
    Scan(term, [], false, c)
  }

  // Where a scan of s stands after taking k bytes without finding an end.
  function Buffered(s: seq<byte>, k: nat): seq<byte>
    requires k <= |s|
  {
    s[..Min(k, LIMIT)]
  }

  lemma OneMore(s: seq<byte>, k: nat)
    requires k < |s|
    ensures Kept(Buffered(s, k), [s[k]]) == Buffered(s, k + 1)
  {
    if k < LIMIT {
      assert s[..k] + [s[k]] == s[..k + 1];
    }
  }

  lemma TerminatedIsEnd(term: seq<byte>, s: seq<byte>, k: nat)
    requires 0 < k <= |s|
    ensures Terminated(term, Buffered(s, k)) <==> EndsAt(term, s, Min(k, LIMIT))
  {
    var m := Min(k, LIMIT);
    assert |term| <= m ==> s[..m][m - |term|..] == s[m - |term|..m];
  }

  lemma Next(s: seq<byte>, k: nat, c: Chan)
    requires k <= |s| && c.pending == s[k..]
    ensures var (b, next) := Receive(c, 1);
      b.Some? ==> k < |s| && b.value == [s[k]] && next.pending == s[k + 1..]
    ensures Up(c.sched) && k < |s| && 1 <= Moves(c.sched) ==>
        Receive(c, 1).0.Some? && Up(Receive(c, 1).1.sched) && Moves(Receive(c, 1).1.sched) + 1 >= Moves(c.sched)
  {
    TransferExactly(c.sched, 1, |c.pending|);
    if Up(c.sched) && k < |s| && 1 <= Moves(c.sched) {
      UpTransfers(c.sched, 1, |c.pending|);
    }
  }

  // What a finished scan returned, and where it left the stream.
  predicate Found(term: seq<byte>, s: seq<byte>, e: nat, r: (Text, Chan)) {
    FirstEnd(term, s, e) && e <= LIMIT && r.0 == Some(CString(s[..e - |term|])) && r.1.pending == s[e..]
  }

  // The step that finds the end.
  lemma StopsAt(term: seq<byte>, s: seq<byte>, k: nat, c: Chan)
    requires k < LIMIT && k < |s| && FirstEnd(term, s, k + 1)
    requires var (b, next) := Receive(c, 1);
      b == Some([s[k]]) && next.pending == s[k + 1..]
    ensures Found(term, s, k + 1, Scan(term, Buffered(s, k), false, c))
  {
    OneMore(s, k);
    TerminatedIsEnd(term, s, k + 1);
    assert s[..k + 1][..k + 1 - |term|] == s[..k + 1 - |term|];
    hide Receive, Kept, Terminated, EndsAt;
  }

  // The step that does not.
  lemma GoesOn(term: seq<byte>, s: seq<byte>, k: nat, c: Chan)
    requires k < |s| && !EndsAt(term, s, Min(k + 1, LIMIT))
    requires Receive(c, 1).0 == Some([s[k]])
    ensures Scan(term, Buffered(s, k), k > LIMIT, c) == Scan(term, Buffered(s, k + 1), k + 1 > LIMIT, Receive(c, 1).1)
  {
    OneMore(s, k);
    TerminatedIsEnd(term, s, k + 1);
    assert |Buffered(s, k)| >= LIMIT <==> k >= LIMIT;
    hide Receive, Kept, Terminated, EndsAt, Buffered, CString;
  }

  lemma {:induction false} ScanSound(term: seq<byte>, s: seq<byte>, k: nat, c: Chan) returns (e: nat)
    requires k <= |s| && c.pending == s[k..]
    requires forall d: nat | d <= Min(k, LIMIT) :: !EndsAt(term, s, d)
    ensures var r := Scan(term, Buffered(s, k), k > LIMIT, c);
      r.0.Some? ==> Found(term, s, e, r)
    decreases |c.sched|
  {
    hide Receive, Found, EndsAt, Buffered, Terminated, Kept, CString, Up, Moves;
    e := 0;
    Next(s, k, c);
    if Receive(c, 1).0.Some? {
      if EndsAt(term, s, Min(k + 1, LIMIT)) {
        e := k + 1;
        StopsAt(term, s, k, c);
      } else {
        GoesOn(term, s, k, c);
        e := ScanSound(term, s, k + 1, Receive(c, 1).1);
      }
    }
  }

  lemma {:induction false} ScanComplete(term: seq<byte>, s: seq<byte>, k: nat, c: Chan, e: nat)
    requires k < e <= LIMIT && FirstEnd(term, s, e) && c.pending == s[k..]
    requires Up(c.sched) && Moves(c.sched) >= e - k
    ensures var r := Scan(term, Buffered(s, k), false, c);
      r.0.Some? && Up(r.1.sched) && Moves(r.1.sched) + (e - k) >= Moves(c.sched)
    decreases e - k
  {
    Next(s, k, c);
    var (b, next) := Receive(c, 1);
    OneMore(s, k);
    TerminatedIsEnd(term, s, k + 1);
    hide Receive, Buffered, Terminated, Kept, Up, Moves;
    if k + 1 < e {
      assert !EndsAt(term, s, k + 1);
      ScanComplete(term, s, k + 1, next, e);
    }
  }

  /** On any connection a success means the first terminator ended within the buffer: the string
      is what stands before it, up to a zero byte, and exactly what led up to its end is consumed.
      A connection that stays up succeeds exactly then. */
  lemma ReadTermExactly(term: seq<byte>, c: Chan)
    ensures var r := ReadTerm(term, c);
      r.0.Some? ==> exists e: nat :: Found(term, c.pending, e, r)
    ensures Up(c.sched) && Moves(c.sched) >= |c.pending| ==>
      (ReadTerm(term, c).0.Some? <==> exists e: nat :: FirstEnd(term, c.pending, e) && e <= 1023)
  {
    var s := c.pending;
    assert s[0..] == s && Buffered(s, 0) == [];
    var e := ScanSound(term, s, 0, c);
    forall e: nat | FirstEnd(term, s, e) && e <= 1023 && Up(c.sched) && Moves(c.sched) >= |s|
      ensures ReadTerm(term, c).0.Some?
    {
      ScanComplete(term, s, 0, c, e);
    }
    hide Scan;
  }

  lemma FirstEndOfPrefix(term: seq<byte>, s: seq<byte>, rest: seq<byte>, e: nat)
    requires e <= |s|
    ensures FirstEnd(term, s + rest, e) <==> FirstEnd(term, s, e)
  {
    forall d: nat | d <= e ensures EndsAt(term, s + rest, d) <==> EndsAt(term, s, d) {
      assert |term| <= d ==> (s + rest)[d - |term|..d] == s[d - |term|..d];
    }
  }

  lemma OneEnd(term: seq<byte>, s: seq<byte>, d: nat, e: nat)
    requires FirstEnd(term, s, d)
    ensures FirstEnd(term, s, e) ==> d == e
  {
  }

  /** A string sent with its terminator, whatever follows it, comes back over a connection that
      stays up exactly when its own terminator is the first one, both fit the buffer, and it
      holds no zero byte. */
  lemma TermRoundTripExactly(term: seq<byte>, s: seq<byte>, rest: seq<byte>, sched: seq<Status>)
    requires Up(sched) && Moves(sched) >= |s + term + rest|
    ensures var r := ReadTerm(term, Chan(s + term + rest, sched));
      r.0 == Some(s) && r.1.pending == rest <==>
        FirstEnd(term, s + term, |s| + |term|) && |s| + |term| <= 1023 && NulFree(s)
  {
    hide ReadTerm, CString, NulFree, FirstEnd, EndsAt, Up, Moves;
    var w := s + term + rest;
    var e: nat := |s| + |term|;
    var r := ReadTerm(term, Chan(w, sched));
    ReadTermExactly(term, Chan(w, sched));
    FirstEndOfPrefix(term, s + term, rest, e);
    CStringWhole(s);
    assert w[..e - |term|] == s && w[e..] == rest;
    if r.0.Some? {
      var d: nat :| Found(term, w, d, r);
      assert d <= |w| by { EndIsWithin(term, w, d); }
      OneEnd(term, w, d, e);
      if r.1.pending == rest {
        assert |w[d..]| == |w| - d;
        assert d == e;
      }
      if d == e {
        assert r.0 == Some(CString(s));
      }
    }
  }

  lemma EndIsWithin(term: seq<byte>, s: seq<byte>, e: nat)
    requires FirstEnd(term, s, e)
    ensures e <= |s|
  {
  }

  // ---- Runs ----

  function TermsWire(term: seq<byte>, ss: seq<seq<byte>>): seq<byte> {
    if ss == [] then [] else ss[0] + term + TermsWire(term, ss[1..])
  }

  function ReadTerms(term: seq<byte>, n: nat, c: Chan): (Option<seq<seq<byte>>>, Chan) {
    if n == 0 then (Some([]), c) else
      var (t, next) := ReadTerm(term, c);
      if t.None? then (None, next) else
        var (ts, last) := ReadTerms(term, n - 1, next);
        (if ts.Some? then Some([t.value] + ts.value) else None, last)
  }

  predicate Sendable(term: seq<byte>, ss: seq<seq<byte>>) {
    ss == [] || (FirstEnd(term, ss[0] + term, |ss[0]| + |term|) && |ss[0]| + |term| <= 1023 && NulFree(ss[0])
                 && Sendable(term, ss[1..]))
  }

  lemma ReadTermFinds(term: seq<byte>, c: Chan, e: nat)
    requires FirstEnd(term, c.pending, e) && e <= 1023
    ensures var r := ReadTerm(term, c);
      (r.0.Some? ==> Found(term, c.pending, e, r))
      && (Up(c.sched) && e <= Moves(c.sched) ==> r.0.Some? && Up(r.1.sched) && Moves(r.1.sched) + e >= Moves(c.sched))
  {
    var s := c.pending;
    assert s[0..] == s && Buffered(s, 0) == [];
    assert forall d: nat | d <= 0 :: !EndsAt(term, s, d);
    assert e > 0;
    var d := ScanSound(term, s, 0, c);
    hide EndsAt, FirstEnd, Up, Moves, Buffered, Scan;
    if Up(c.sched) && e <= Moves(c.sched) {
      ScanComplete(term, s, 0, c, e);
    }
    if ReadTerm(term, c).0.Some? {
      OneEnd(term, s, d, e);
    }
  }

  lemma TermDelivered(term: seq<byte>, s: seq<byte>, rest: seq<byte>, sched: seq<Status>)
    requires FirstEnd(term, s + term, |s| + |term|) && |s| + |term| <= 1023 && NulFree(s)
    ensures Delivered(ReadTerm(term, Chan(s + term + rest, sched)), s, rest, sched, |s + term|)
  {
    hide ReadTerm, CString, NulFree, FirstEnd, EndsAt, Up, Moves;
    var w := s + term + rest;
    var e: nat := |s| + |term|;
    FirstEndOfPrefix(term, s + term, rest, e);
    CStringWhole(s);
    assert w[..e - |term|] == s && w[e..] == rest;
    ReadTermFinds(term, Chan(w, sched), e);
  }

  /** A run of delimited strings comes back whole, each accept starting where the last stopped,
      however the transport splits them. */
  lemma {:induction false} TermsRoundTrip(term: seq<byte>, ss: seq<seq<byte>>, rest: seq<byte>, sched: seq<Status>)
    requires Sendable(term, ss)
    ensures var w := TermsWire(term, ss);
      Delivered(ReadTerms(term, |ss|, Chan(w + rest, sched)), ss, rest, sched, |w|)
    decreases |ss|
  {
    if ss == [] {
      assert TermsWire(term, ss) + rest == rest;
    } else {
      var w := TermsWire(term, ss[1..]);
      var c := Chan(ss[0] + term + (w + rest), sched);
      assert TermsWire(term, ss) + rest == ss[0] + term + (w + rest);
      hide FirstEnd, NulFree, ReadTerm, TermsWire, Up, Moves;
      TermDelivered(term, ss[0], w + rest, sched);
      var r := ReadTerm(term, c);
      assert r.0.Some? ==> r.1 == Chan(w + rest, r.1.sched);
      if r.0.Some? {
        TermsRoundTrip(term, ss[1..], rest, r.1.sched);
      }
      var q := ReadTerms(term, |ss|, c);
      assert [ss[0]] + ss[1..] == ss;
      Then(r, ss[0], w + rest, sched, |ss[0] + term|, q, ss, rest, |w|);
    }
  }

  // ---- As the library does it ----

  // strcpy and strcat stop at the first zero byte; nothing is sent for a null string.
  method SendTermString(s: Text, term: seq<byte>, ch: WSocketChan) returns (result: int)
    modifies ch
    ensures s.None? ==> result == -1 && ch.stream == old(ch.stream) && ch.sched == old(ch.sched)
    ensures s.Some? ==>
      Sent(old(ch.stream), old(ch.sched), CString(s.value) + CString(term), result, ch.stream, ch.sched)
    ensures s.Some? && NulFree(s.value) && NulFree(term) ==>
      Sent(old(ch.stream), old(ch.sched), s.value + term, result, ch.stream, ch.sched)
  {
    if s.None? {
      return -1;
    }
    CStringWhole(s.value);
    CStringWhole(term);
    hide CString, NulFree;
    result := SendWire(CString(s.value) + CString(term), ch);
  }

  // A CHAR is one byte in every form.
  method AcceptTermString(term: seq<byte>, ch: RSocketChan) returns (result: int, s: seq<byte>)
    modifies ch
    ensures var (r, next) := ReadTerm(term, old(View(ch)));
      View(ch) == next && result == (if r.Some? then 0 else -1) && (r.Some? ==> s == r.value)
  {
    hide Receive, Scan, Kept, CString;
    var buffer := new byte[BUFFER_SIZE];
    var len, tooLong := 0, false;
    ghost var all := ReadTerm(term, View(ch));
    assert buffer[..len] == [];
    while true
      invariant 0 <= len <= LIMIT && buffer.Length == BUFFER_SIZE
      invariant all == Scan(term, buffer[..len], tooLong, View(ch))
      decreases |ch.sched|
    {
      ScanStep(term, buffer[..len], tooLong, View(ch));
      var ok, c := AcceptWire(1, ch);
      if ok == -1 {
        return -1, [];
      }
      len, tooLong := Keep(buffer, len, c[0], tooLong);
      assert c[..] == [c[0]];
      assert |term| <= len ==> buffer[..len][len - |term|..] == buffer[len - |term|..len];
      if len >= |term| && buffer[len - |term|..len] == term {
        assert buffer[..len][..len - |term|] == buffer[..len - |term|];
        len := len - |term|;
        return if tooLong then -1 else 0, CString(buffer[..len]);
      }
    }
  }

  lemma ScanStep(term: seq<byte>, buffer: seq<byte>, tooLong: bool, c: Chan)
    ensures var (b, next) := Receive(c, 1);
      var r := Scan(term, buffer, tooLong, c);
      if b.None? then r == (None, next) else
        var kept := Kept(buffer, b.value);
        var long := tooLong || |buffer| >= LIMIT;
        if Terminated(term, kept) then r == (if long then None else Some(CString(kept[..|kept| - |term|])), next)
        else r == Scan(term, kept, long, next)
  {
  }

  method Keep(buffer: array<byte>, len: nat, c: byte, tooLong: bool) returns (len': nat, tooLong': bool)
    requires buffer.Length == BUFFER_SIZE && len <= LIMIT
    modifies buffer
    ensures len' <= LIMIT && buffer[..len'] == Kept(old(buffer[..len]), [c])
    ensures tooLong' == (tooLong || len >= LIMIT)
  {
    len', tooLong' := len, tooLong;
    if len < BUFFER_SIZE - 1 {
      buffer[len] := c;
      len' := len + 1;
    } else {
      tooLong' := true;
    }
  }
}

/**
 Which accepted inputs give trees that are not well formed, told from the bytes alone: one flat pass
 over the records, against the nested parser.
 */
module UsbBytes {
  import opened Basics
  import opened UsbDescriptor
  import opened UsbRoundTrip
  import opened UsbTotality

  // A record lies wholly within t.
  predicate Whole(t: seq<byte>) {
    |t| >= 2 && 2 <= t[0] <= |t|
  }

  /** Some record runs past the end with only class- or vendor-specific records between it and an
      interface record that declares endpoints.  n more interfaces and left more endpoints are
      expected, number is that of the current interface; bare says that the records since an
      interface record with endpoints have all been of that kind. */
  predicate Overruns(t: seq<byte>, n: nat, number: int, left: nat, bare: bool)
    decreases |t|
  {
    if !Whole(t) then Truncated(t) && bare
    else
      var rest := t[t[0]..];
      if !StandardType(t[1]) then Overruns(rest, n, number, left, bare)
      else if t[1] == 5 then left > 0 && Overruns(rest, n, number, left - 1, false)
      else
        && t[1] == 4 && |t| >= 9 && (t[2] == number || n > 0)
        && Overruns(rest, if t[2] == number then n else n - 1, t[2], t[4], t[4] > 0)
  }

  // Every record lies wholly within t.
  predicate Complete(t: seq<byte>)
    decreases |t|
  {
    t == [] || (Whole(t) && Complete(t[t[0]..]))
  }

  lemma {:induction false} CompleteNeverOverruns(t: seq<byte>, n: nat, number: int, left: nat, bare: bool)
    requires Complete(t)
    ensures !Overruns(t, n, number, left, bare)
    decreases |t|
  {
    if t != [] {
      var rest := t[t[0]..];
      CompleteNeverOverruns(rest, n, number, left, bare);
      if left > 0 {
        CompleteNeverOverruns(rest, n, number, left - 1, false);
      }
      if |t| >= 9 {
        CompleteNeverOverruns(rest, n, t[2], t[4], t[4] > 0);
        if n > 0 {
          CompleteNeverOverruns(rest, n - 1, t[2], t[4], t[4] > 0);
        }
      }
    }
  }

  // ---- The flat pass along the nested parser ----

  lemma {:induction false} SkipOverruns(t: seq<byte>, n: nat, number: int, left: nat, bare: bool)
    ensures Overruns(t, n, number, left, bare) ==
      match SkipRecords(t)
      case Malformed => false
      case Short(_) => bare
      case Done(u) => Overruns(t[u..], n, number, left, bare)
    decreases |t|
  {
    if Whole(t) && !StandardType(t[1]) {
      var rest := t[t[0]..];
      SkipOverruns(rest, n, number, left, bare);
      if SkipRecords(rest).Done? {
        assert rest[SkipRecords(rest).used..] == t[SkipRecords(t).used..];
      }
    } else {
      assert t[0..] == t;
    }
  }

  // Where bare is off, what is skipped makes no difference.
  lemma QuietSkip(t: seq<byte>, n: nat, number: int, left: nat)
    requires !SkipRecords(t).Malformed?
    ensures Overruns(t, n, number, left, false) == Overruns(t[SkipRecords(t).used..], n, number, left, false)
  {
    SkipOverruns(t, n, number, left, false);
    SkippedAreRecords(t);
    hide SkipRecords;
  }

  lemma EndpointRecord(t: seq<byte>, n: nat, number: int, left: nat, bare: bool)
    requires Whole(t) && t[1] == 5 && left > 0
    ensures Overruns(t, n, number, left, bare) == Overruns(t[t[0]..], n, number, left - 1, false)
  {
  }

  // One endpoint taken.
  lemma EndpointOverruns(t: seq<byte>, n: nat, number: int, left: nat, bare: bool, big: bool)
    requires EndpointAt(t, big).Parsed? && left > 0
    ensures Overruns(t, n, number, left, bare) ==
            Overruns(t[EndpointAt(t, big).used..], n, number, left - 1, false)
  {
    hide SkipRecords, Overruns, EndpointFields;
    var rest, u := t[t[0]..], EndpointAt(t, big).used;
    EndpointRecord(t, n, number, left, bare);
    QuietSkip(rest, n, number, left - 1);
    assert rest[u - t[0]..] == t[u..];
  }

  lemma {:induction false} EndpointsOverrun(t: seq<byte>, n: nat, number: int, k: nat, bare: bool, big: bool)
    requires EndpointsAt(t, k, big).Parsed?
    ensures var r := EndpointsAt(t, k, big);
      Overruns(t, n, number, k, bare) ==
        Overruns(t[r.used..], n, number, k - |r.value|, bare && r.value == [])
    decreases k
  {
    hide Overruns, EndpointAt;
    if k > 0 && EndpointAt(t, big).Parsed? {
      var u := EndpointAt(t, big).used;
      EndpointOverruns(t, n, number, k, bare, big);
      EndpointsOverrun(t[u..], n, number, k - 1, false, big);
      assert t[u..][EndpointsAt(t[u..], k - 1, big).used..] == t[EndpointsAt(t, k, big).used..];
    } else {
      assert t[0..] == t;
    }
  }

  // No complete endpoint record here.
  predicate NoEndpoint(t: seq<byte>) {
    |t| >= 2 && (t[1] == 5 ==> t[0] > |t|)
  }

  lemma NothingThere(t: seq<byte>, big: bool)
    requires EndpointAt(t, big).Nothing?
    ensures NoEndpoint(t) && t[0..] == t
  {
  }

  // What stands behind the endpoints is not one that was still expected.
  lemma {:induction false} EndpointsEnd(t: seq<byte>, k: nat, big: bool)
    requires EndpointsAt(t, k, big).Parsed?
    ensures var r := EndpointsAt(t, k, big);
      |r.value| < k ==> NoEndpoint(t[r.used..])
    decreases k
  {
    hide EndpointAt, NoEndpoint;
    if k > 0 {
      if EndpointAt(t, big).Parsed? {
        var u := EndpointAt(t, big).used;
        EndpointsEnd(t[u..], k - 1, big);
        assert t[u..][EndpointsAt(t[u..], k - 1, big).used..] == t[EndpointsAt(t, k, big).used..];
      } else {
        NothingThere(t, big);
      }
    }
  }

  // In front of anything but such an endpoint their number no longer matters.
  lemma Elsewhere(t: seq<byte>, n: nat, number: int, left: nat, bare: bool)
    requires Settled(t)
    requires left > 0 ==> NoEndpoint(t)
    requires bare ==> !Truncated(t)
    ensures Overruns(t, n, number, left, bare) == Overruns(t, n, number, 0, false)
  {
  }

  // One alternate setting taken: it is cut short, or the pass goes on behind it.
  lemma AltOverruns(b: seq<byte>, n: nat, big: bool)
    requires AltAt(b, big).Parsed?
    ensures var r := AltAt(b, big);
      Overruns(b[b[0]..], n, b[2], b[4], b[4] > 0) == (CutShort(r.value.0) || Overruns(b[r.used..], n, b[2], 0, false))
  {
    hide Overruns, SkipRecords, EndpointsAt, Settled, Truncated;
    var rest, r := b[b[0]..], AltAt(b, big);
    SkipOverruns(rest, n, b[2], b[4], b[4] > 0);
    SkippedAreRecords(rest);
    if SkipRecords(rest).Done? {
      var at: nat := b[0] as nat + SkipRecords(rest).used;
      assert rest[SkipRecords(rest).used..] == b[at..];
      SkipEndsWhole(rest);
      DoneOverruns(b, b[at..], at, n, big);
    } else {
      assert rest[SkipRecords(rest).used..] == b[r.used..];
      TruncatedStops(b[r.used..], n, b[2], 0);
    }
  }

  lemma TruncatedStops(t: seq<byte>, n: nat, number: int, left: nat)
    requires Truncated(t)
    ensures !Overruns(t, n, number, left, false)
  {
  }

  lemma DoneOverruns(b: seq<byte>, tail: seq<byte>, at: nat, n: nat, big: bool)
    requires |b| >= 9 && at <= |b| && tail == b[at..] && Settled(tail) && !Truncated(tail)
    requires EndpointsAt(tail, b[4], big).Parsed?
    ensures var r := EndpointsAt(tail, b[4], big);
      Overruns(tail, n, b[2], b[4], b[4] > 0) == Overruns(b[at + r.used..], n, b[2], 0, false)
  {
    hide Overruns, Settled, Truncated, EndpointAt;
    var r := EndpointsAt(tail, b[4], big);
    EndpointsOverrun(tail, n, b[2], b[4], b[4] > 0, big);
    EndpointsEnd(tail, b[4], big);
    ParsedEndpoints(tail, b[4], big);
    assert b[at + r.used..] == tail[r.used..];
    if r.value == [] {
      NoneTaken(tail, b[4], big);
    }
    Elsewhere(tail[r.used..], n, b[2], b[4] as nat - |r.value|, b[4] > 0 && r.value == []);
  }

  lemma NoneTaken(t: seq<byte>, k: nat, big: bool)
    requires EndpointsAt(t, k, big).Parsed? && EndpointsAt(t, k, big).value == []
    ensures t[EndpointsAt(t, k, big).used..] == t
  {
  }

  // What InterfaceAt takes begins with a complete interface record.
  predicate StartsInterface(t: seq<byte>) {
    |t| >= 9 && t[1] == 4 && 9 <= t[0] <= |t|
  }

  lemma InterfaceStarts(b: seq<byte>, big: bool)
    requires InterfaceAt(b, big).Parsed?
    ensures InterfaceAt(b, big).used > 0 <==> StartsInterface(b)
    ensures InterfaceAt(b, big).used == 0 ==> |b| < 9 || b[1] != 4 || b[0] > |b|
    ensures StartsInterface(b) ==> AltAt(b, big).Parsed?
  {
  }

  lemma InterfaceRecord(t: seq<byte>, n: nat, number: int)
    requires StartsInterface(t) && (t[2] == number || n > 0)
    ensures Overruns(t, n, number, 0, false) ==
            Overruns(t[t[0]..], if t[2] == number then n else n - 1, t[2], t[4], t[4] > 0)
  {
  }

  lemma NoInterfaceRecord(t: seq<byte>, n: nat, number: int)
    requires Settled(t) && (|t| < 9 || t[1] != 4 || t[0] > |t|)
    ensures !Overruns(t, n, number, 0, false)
  {
  }

  lemma SettingThenRest(b: seq<byte>, big: bool)
    requires AltAt(b, big).Parsed? && InterfaceAt(b, big).Parsed?
    ensures var r, u := AltAt(b, big).value, AltAt(b, big).used;
      if r.1 && SameNumber(b[u..], r.0.bInterfaceNumber) then
        var more := InterfaceAt(b[u..], big);
        more.Parsed? && InterfaceAt(b, big) == Parsed([r.0] + more.value, u + more.used)
      else InterfaceAt(b, big) == Parsed([r.0], u)
  {
    hide AltAt;
  }

  // One interface taken: its last setting is cut short, or the pass goes on behind it.
  lemma {:induction false} InterfaceOverruns(b: seq<byte>, n: nat, big: bool)
    requires InterfaceAt(b, big).Parsed? && InterfaceAt(b, big).used > 0 && StartsInterface(b)
    ensures var r := InterfaceAt(b, big);
      Overruns(b[b[0]..], n, b[2], b[4], b[4] > 0) ==
        (CutShort(r.value[|r.value| - 1]) || Overruns(b[r.used..], n, b[2], 0, false))
    decreases |b|
  {
    hide Overruns, AltAt, CutShort, GoodAlt, Settled, Truncated, InterfaceAt;
    InterfaceStarts(b, big);
    SettingThenRest(b, big);
    AltOverruns(b, n, big);
    ParsedAlt(b, big);
    var r, u := AltAt(b, big), AltAt(b, big).used;
    var a, more, t := r.value.0, r.value.1, b[u..];
    if more && SameNumber(t, a.bInterfaceNumber) {
      InterfaceStarts(t, big);
      if InterfaceAt(t, big).used == 0 {
        assert [a] + [] == [a] && t[0..] == t;
      } else {
        InterfaceRecord(t, n, b[2]);
        InterfaceOverruns(t, n, big);
        assert t[InterfaceAt(t, big).used..] == b[InterfaceAt(b, big).used..];
      }
    }
  }

  // The next standard record does not go on with interface number.
  predicate Fresh(t: seq<byte>, number: int) {
    SkipRecords(t).Done? ==>
      var rest := t[SkipRecords(t).used..];
      |rest| >= 9 && rest[1] == 4 && rest[0] <= |rest| ==> rest[2] != number
  }

  predicate LastCut(l: seq<Interface>) {
    l != [] && l[|l| - 1] != [] && CutShort(l[|l| - 1][|l[|l| - 1]| - 1])
  }

  lemma InterfacesEnd(t: seq<byte>, n: nat, number: int, extra: seq<byte>, big: bool)
    requires n == 0 ==> Fresh(t, number) && InterfacesAt(t, n, extra, big).Parsed?
    requires n > 0 ==> NextInterface(t, extra, big).Stop?
    ensures !Overruns(t, n, number, 0, false)
  {
    SkipOverruns(t, n, number, 0, false);
    SkippedAreRecords(t);
    if SkipRecords(t).Done? {
      var rest := t[SkipRecords(t).used..];
      if n > 0 {
        InterfaceStarts(rest, big);
        NoInterfaceRecord(rest, n, number);
      }
    }
  }

  lemma TookAt(t: seq<byte>, extra: seq<byte>, big: bool)
    requires NextInterface(t, extra, big).Took?
    ensures SkipRecords(t).Done?
    ensures var r, u := NextInterface(t, extra, big), SkipRecords(t).used;
      var i := InterfaceAt(t[u..], big);
      StartsInterface(t[u..]) && i == Parsed(r.interface, r.used - u) && r.used > u
  {
    InterfaceStarts(t[SkipRecords(t).used..], big);
    hide InterfaceAt, SkipRecords, StartsInterface;
  }

  // The interface taken next, in the flat pass.
  lemma TookOverruns(t: seq<byte>, n: nat, number: int, extra: seq<byte>, big: bool)
    requires n > 0 && NextInterface(t, extra, big).Took? && Fresh(t, number)
    ensures var r := NextInterface(t, extra, big);
      && Overruns(t, n, number, 0, false) ==
           (LastCut([r.interface]) || Overruns(t[r.used..], n - 1, r.interface[0].bInterfaceNumber, 0, false))
      && Fresh(t[r.used..], r.interface[0].bInterfaceNumber)
      && (LastCut([r.interface]) ==> Truncated(t[r.used..]))
  {
    hide Overruns, InterfaceAt, CutShort, GoodInterface, NextInterface, SkipRecords, Settled, Truncated;
    TookAt(t, extra, big);
    var r, u := NextInterface(t, extra, big), SkipRecords(t).used;
    var b := t[u..];
    SkipOverruns(t, n, number, 0, false);
    InterfaceRecord(b, n, number);
    InterfaceOverruns(b, n - 1, big);
    ParsedInterface(b, big);
    assert b[r.used - u..] == t[r.used..];
    SettledFresh(t[r.used..], b[2]);
    hide Fresh, StartsInterface;
  }

  lemma SettledFresh(t: seq<byte>, number: byte)
    requires Settled(t) && (SameNumber(t, number) ==> Truncated(t))
    ensures Fresh(t, number)
  {
  }

  lemma TruncatedEnds(t: seq<byte>, n: nat, extra: seq<byte>, big: bool)
    requires Truncated(t) && InterfacesAt(t, n, extra, big).Parsed?
    ensures InterfacesAt(t, n, extra, big).value.list == []
  {
  }

  lemma {:induction false} InterfacesOverrun(t: seq<byte>, n: nat, number: int, extra: seq<byte>, big: bool)
    requires InterfacesAt(t, n, extra, big).Parsed? && Fresh(t, number)
    ensures Overruns(t, n, number, 0, false) == LastCut(InterfacesAt(t, n, extra, big).value.list)
    decreases n
  {
    hide Overruns, LastCut, Fresh, NextInterface, CutShort, Truncated;
    if n > 0 && NextInterface(t, extra, big).Took? {
      var r := NextInterface(t, extra, big);
      TookOverruns(t, n, number, extra, big);
      InterfacesOverrun(t[r.used..], n - 1, r.interface[0].bInterfaceNumber, r.extra, big);
      var rest := InterfacesAt(t[r.used..], n - 1, r.extra, big).value.list;
      if LastCut([r.interface]) {
        TruncatedEnds(t[r.used..], n - 1, r.extra, big);
        assert [r.interface] + [] == [r.interface];
      } else {
        LastOfMore(r.interface, rest);
      }
    } else {
      InterfacesEnd(t, n, number, extra, big);
      NoneCut();
    }
  }

  lemma LastOfMore(i: Interface, l: seq<Interface>)
    requires !LastCut([i])
    ensures LastCut([i] + l) == LastCut(l)
  {
    if l != [] {
      assert ([i] + l)[|l|] == l[|l| - 1];
    } else {
      assert [i] + l == [i];
    }
  }

  lemma NoneCut()
    ensures !LastCut([])
  {
  }

  // ---- The two exceptions ----

  /** An accepted configuration is cut short exactly when its records overrun. */
  lemma CutExactly(b: seq<byte>, big: bool)
    requires ConfigAt(b, big).Parsed?
    ensures Cut(ConfigAt(b, big).value) <==> Overruns(b[b[0]..], b[4], -1, 0, false)
  {
    hide Overruns, InterfacesAt, CutShort;
    InterfacesOverrun(b[b[0]..], b[4], -1, [], big);
  }

  // Extra records, all complete, and no interface behind them.
  predicate LoneExtra(t: seq<byte>) {
    SkipRecords(t).Done? && SkipRecords(t).used > 0 && !StartsInterface(t[SkipRecords(t).used..])
  }

  /** It has extra bytes and no interface exactly when interfaces are declared and the header is
      followed by complete extra records that no interface record follows. */
  lemma LoneExtraExactly(b: seq<byte>, big: bool)
    requires ConfigAt(b, big).Parsed?
    ensures var c := ConfigAt(b, big).value;
      c.interfaces == [] && c.extra != [] <==> b[4] > 0 && LoneExtra(b[b[0]..])
  {
    var t := b[b[0]..];
    if b[4] > 0 && SkipRecords(t).Done? {
      InterfaceStarts(t[SkipRecords(t).used..], big);
    }
    hide InterfaceAt, SkipRecords, StartsInterface;
  }

  /** An accepted configuration is well formed if and only if the bytes behind its header neither
      overrun nor are extra records alone. */
  lemma WellFormedExactly(b: seq<byte>, big: bool)
    requires ConfigAt(b, big).Parsed?
    ensures var t := b[b[0]..];
      WellFormedConfig(ConfigAt(b, big).value) <==>
        !Overruns(t, b[4], -1, 0, false) && !(b[4] > 0 && LoneExtra(t))
  {
    hide Overruns, ConfigAt, LoneExtra, Cut, WellFormedConfig, GoodInterfaces;
    ParsedIsWellFormed(b, big);
    CutExactly(b, big);
    LoneExtraExactly(b, big);
  }

  /** So an accepted input of complete records only is never cut short. */
  lemma CompleteNeverCut(b: seq<byte>, big: bool)
    requires ConfigAt(b, big).Parsed? && Complete(b[b[0]..])
    ensures !Cut(ConfigAt(b, big).value)
  {
    hide InterfacesAt, Overruns, Cut, Complete;
    CompleteNeverOverruns(b[b[0]..], b[4], -1, 0, false);
    CutExactly(b, big);
  }

  // ---- An input for each ----

  const CUT_SETTING: seq<byte> := [9, 4, 0, 0, 1, 0, 0, 0, 0, 5, 36]

  const CUT_INPUT: seq<byte> := [9, 2, 20, 0, 1, 1, 0, 0, 0] + CUT_SETTING

  const LONE_INPUT: seq<byte> := [9, 2, 11, 0, 1, 1, 0, 0, 0, 2, 36]

  lemma CutSetting(big: bool)
    ensures SkipRecords(CUT_SETTING) == Done(0) && CUT_SETTING[0..] == CUT_SETTING
    ensures InterfaceAt(CUT_SETTING, big) == Parsed([AltFields(CUT_SETTING)], 9)
  {
    var extra: seq<byte> := [5, 36];
    assert CUT_SETTING[9..] == extra && SkipRecords(extra) == Short(0);
    hide EndpointsAt;
    assert AltAt(CUT_SETTING, big) == Parsed((AltFields(CUT_SETTING), false), 9);
  }

  // A setting that declares one endpoint, then an extra record of five bytes of which two are there.
  lemma CutInput(big: bool)
    ensures ConfigAt(CUT_INPUT, big).Parsed? && Cut(ConfigAt(CUT_INPUT, big).value)
    ensures !WellFormedConfig(ConfigAt(CUT_INPUT, big).value)
  {
    hide InterfaceAt, SkipRecords, WellFormedConfig, GoodInterfaces;
    var t := CUT_SETTING;
    CutSetting(big);
    assert CUT_INPUT[9..] == t;
    assert NextInterface(t, [], big) == Took([], [AltFields(t)], 9);
    assert InterfacesAt(t[9..], 0, [], big) == Parsed(Interfaces([], []), 0);
    assert [[AltFields(t)]] + [] == [[AltFields(t)]];
    assert InterfacesAt(t, 1, [], big) == Parsed(Interfaces([], [[AltFields(t)]]), 9);
    ParsedIsWellFormed(CUT_INPUT, big);
  }

  // An extra record and nothing else behind the header.
  lemma LoneExtraInput(big: bool)
    ensures ConfigAt(LONE_INPUT, big).Parsed?
    ensures var c := ConfigAt(LONE_INPUT, big).value;
      c.interfaces == [] && c.extra == [2, 36] && !WellFormedConfig(c)
  {
    var rest: seq<byte> := [2, 36];
    assert LONE_INPUT[9..] == rest && rest[2..] == [] && rest[..2] == rest;
    assert SkipRecords([]) == Done(0) && SkipRecords(rest) == Done(2);
    assert InterfaceAt([], big) == Parsed([], 0);
    assert NextInterface(rest, [], big) == Stop(rest, 2);
    ParsedIsWellFormed(LONE_INPUT, big);
  }
}

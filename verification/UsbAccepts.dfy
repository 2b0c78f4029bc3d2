/**
 Which inputs the parser refuses, told from the bytes alone: one flat pass over the records decides,
 against the nested parser.  And what it makes of records in front of one that runs past the end.
 */
module UsbAccepts {
  import opened Basics
  import opened UsbDescriptor
  import opened UsbRoundTrip
  import opened UsbTotality
  import opened UsbBytes

  /** The pass comes to a record the parser refuses: one of less than two bytes, an expected endpoint
      of less than seven or missing altogether, an interface of less than nine or with more than 32
      endpoints.  n more interfaces and left more endpoints are expected, number is that of the
      current interface.  The pass ends at a record that runs past the end or is not expected. */
  predicate Refused(t: seq<byte>, n: nat, number: int, left: nat)
    decreases |t|
  {
    if |t| < 2 then left > 0
    else if t[0] < 2 then true
    else if t[0] > |t| then false
    else
      var rest := t[t[0]..];
      if !StandardType(t[1]) then Refused(rest, n, number, left)
      else if t[1] == 5 then left > 0 && (t[0] < 7 || Refused(rest, n, number, left - 1))
      else
        && t[1] == 4 && |t| >= 9 && (t[2] == number || n > 0)
        && (t[0] < 9 || t[4] > 32 || Refused(rest, if t[2] == number then n else n - 1, t[2], t[4]))
  }

  lemma {:induction false} SkipRefused(t: seq<byte>, n: nat, number: int, left: nat)
    ensures Refused(t, n, number, left) ==
      match SkipRecords(t)
      case Malformed => true
      case Short(_) => false
      case Done(u) => Refused(t[u..], n, number, left)
    decreases |t|
  {
    if Whole(t) && !StandardType(t[1]) {
      var rest := t[t[0]..];
      SkipRefused(rest, n, number, left);
      if SkipRecords(rest).Done? {
        assert rest[SkipRecords(rest).used..] == t[SkipRecords(t).used..];
      }
    } else {
      assert t[0..] == t;
    }
  }

  lemma TruncatedAccepted(t: seq<byte>, n: nat, number: int, left: nat)
    requires Truncated(t)
    ensures !Refused(t, n, number, left)
  {
  }

  // What is skipped behind a record of length bytes makes no difference.
  lemma RefusedBehind(b: seq<byte>, length: nat, n: nat, number: int, left: nat)
    requires length <= |b|
    ensures var r := SkipRecords(b[length..]);
      Refused(b[length..], n, number, left) ==
        (r.Malformed? || (r.Done? && Refused(b[length + r.used..], n, number, left)))
    ensures var r := SkipRecords(b[length..]);
      && (r.Short? ==> Truncated(b[length + r.used..]))
      && (r.Done? ==> Settled(b[length + r.used..]))
  {
    hide SkipRecords, Refused, Settled, Truncated;
    var rest := b[length..];
    SkipRefused(rest, n, number, left);
    SkippedAreRecords(rest);
    if !SkipRecords(rest).Malformed? {
      var u := SkipRecords(rest).used;
      assert rest[u..] == b[length + u..];
    }
  }

  // Where the loop over the endpoints stands, there is nothing more to skip.
  lemma EndpointRefused(t: seq<byte>, n: nat, number: int, left: nat, big: bool)
    requires Settled(t) && left > 0
    ensures var r := EndpointAt(t, big);
      && (r.Failed? ==> Refused(t, n, number, left))
      && (r.Nothing? ==> NoEndpoint(t))
      && (r.Parsed? ==> Refused(t, n, number, left) == Refused(t[r.used..], n, number, left - 1))
  {
    hide SkipRecords, EndpointFields;
    if |t| >= 2 && t[1] == 5 && 7 <= t[0] <= |t| {
      ExpectedEndpoint(t, n, number, left);
      hide Refused;
      RefusedBehind(t, t[0], n, number, left - 1);
      var r := EndpointAt(t, big);
      if SkipRecords(t[t[0]..]).Short? {
        TruncatedAccepted(t[r.used..], n, number, left - 1);
      }
    }
  }

  lemma ExpectedEndpoint(t: seq<byte>, n: nat, number: int, left: nat)
    requires |t| >= 2 && t[1] == 5 && 7 <= t[0] <= |t| && left > 0
    ensures Refused(t, n, number, left) == Refused(t[t[0]..], n, number, left - 1)
  {
  }

  // Not at an endpoint that was still expected, their number no longer matters.
  lemma RefusedElsewhere(t: seq<byte>, n: nat, number: int, left: nat)
    requires Settled(t)
    requires left > 0 ==> NoEndpoint(t)
    ensures Refused(t, n, number, left) == Refused(t, n, number, 0)
  {
  }

  lemma {:induction false} EndpointsRefused(t: seq<byte>, n: nat, number: int, k: nat, big: bool)
    requires Settled(t)
    ensures var r := EndpointsAt(t, k, big);
      if r.Parsed? then Settled(t[r.used..]) && Refused(t, n, number, k) == Refused(t[r.used..], n, number, 0)
      else Refused(t, n, number, k)
    decreases k
  {
    hide Settled, EndpointAt, NoEndpoint, Refused;
    if k > 0 {
      EndpointRefused(t, n, number, k, big);
      var first := EndpointAt(t, big);
      if first.Parsed? {
        ParsedEndpoint(t, big);
        EndpointsRefused(t[first.used..], n, number, k - 1, big);
        var r := EndpointsAt(t[first.used..], k - 1, big);
        if r.Parsed? {
          assert t[first.used..][r.used..] == t[first.used + r.used..];
        }
      } else if first.Nothing? {
        assert t[0..] == t;
        RefusedElsewhere(t, n, number, k);
      }
    } else {
      assert t[0..] == t;
    }
  }

  // A complete interface record is refused for its own length or endpoint count, or for what follows.
  predicate SettingRefused(b: seq<byte>, n: nat)
    requires |b| >= 9 && Whole(b)
  {
    b[0] < 9 || b[4] > 32 || Refused(b[b[0]..], n, b[2], b[4])
  }

  lemma AltRefused(b: seq<byte>, n: nat, big: bool)
    requires |b| >= 9 && b[1] == 4 && Whole(b)
    ensures var r := AltAt(b, big);
      if r.Parsed? then SettingRefused(b, n) == Refused(b[r.used..], n, b[2], 0)
      else r.Failed? && SettingRefused(b, n)
  {
    hide SkipRecords, EndpointsAt, Settled, Truncated, Refused;
    if 9 <= b[0] && b[4] <= 32 {
      var at: nat := b[0];
      RefusedBehind(b, at, n, b[2], b[4]);
      var s := SkipRecords(b[at..]);
      if s.Done? {
        assert b[at..][s.used..] == b[at + s.used..];
        EndpointsRefused(b[at + s.used..], n, b[2], b[4], big);
        var r := EndpointsAt(b[at + s.used..], b[4], big);
        if r.Parsed? {
          assert b[at + s.used..][r.used..] == b[at + s.used + r.used..];
        }
      } else if s.Short? {
        TruncatedAccepted(b[at + s.used..], n, b[2], 0);
      }
    }
  }

  lemma SameNumberRefused(t: seq<byte>, n: nat, number: byte)
    requires SameNumber(t, number) && Settled(t)
    ensures Refused(t, n, number, 0) == (Whole(t) && SettingRefused(t, n))
  {
  }

  lemma AltTaken(b: seq<byte>, big: bool)
    ensures var r, i := AltAt(b, big), InterfaceAt(b, big);
      && (r.Failed? ==> i.Failed?)
      && (r.Nothing? ==> i == Parsed([], 0))
      && (r.Parsed? ==>
            var (a, more) := r.value;
            var t := b[r.used..];
            if more && SameNumber(t, a.bInterfaceNumber) then
              && (i.Failed? <==> InterfaceAt(t, big).Failed?)
              && (i.Parsed? ==> i.used == r.used + InterfaceAt(t, big).used)
            else i == Parsed([a], r.used))
  {
    hide AltAt;
  }

  lemma {:induction false} InterfaceRefused(b: seq<byte>, n: nat, big: bool)
    requires |b| >= 9 && b[1] == 4 && Whole(b)
    ensures var r := InterfaceAt(b, big);
      if r.Parsed? then r.used > 0 && SettingRefused(b, n) == Refused(b[r.used..], n, b[2], 0)
      else r.Failed? && SettingRefused(b, n)
    decreases |b|
  {
    hide AltAt, Refused, SettingRefused, Settled, Truncated, InterfaceAt;
    AltTaken(b, big);
    AltRefused(b, n, big);
    if AltAt(b, big).Parsed? {
      ParsedAlt(b, big);
      var u := AltAt(b, big).used;
      var t := b[u..];
      if AltAt(b, big).value.1 && SameNumber(t, b[2]) {
        SameNumberRefused(t, n, b[2]);
        if Whole(t) {
          InterfaceRefused(t, n, big);
          if InterfaceAt(t, big).Parsed? {
            assert t[InterfaceAt(t, big).used..] == b[InterfaceAt(b, big).used..];
          }
        } else {
          RunsPast(t, big);
          assert b[u + 0..] == t;
        }
      }
    }
  }

  lemma RunsPast(t: seq<byte>, big: bool)
    requires |t| >= 9 && t[1] == 4 && Settled(t) && !Whole(t)
    ensures InterfaceAt(t, big) == Parsed([], 0)
  {
  }

  // One turn of the configuration loop, and what it leaves.
  lemma TurnRefused(t: seq<byte>, n: nat, number: int, extra: seq<byte>, big: bool)
    requires n > 0 && Fresh(t, number)
    ensures var r := NextInterface(t, extra, big);
      && (r.Error? ==> Refused(t, n, number, 0))
      && (r.Stop? ==> !Refused(t, n, number, 0))
      && (r.Took? ==>
            var number' := r.interface[0].bInterfaceNumber;
            && Settled(t[r.used..]) && Fresh(t[r.used..], number')
            && Refused(t, n, number, 0) == Refused(t[r.used..], n - 1, number', 0))
  {
    hide Refused, SettingRefused, InterfaceAt, AltAt, Settled, Truncated, GoodInterface, CutShort, SkipRecords;
    SkipRefused(t, n, number, 0);
    SkippedAreRecords(t);
    if SkipRecords(t).Done? {
      var u := SkipRecords(t).used;
      var b := t[u..];
      if |b| >= 9 && b[1] == 4 && Whole(b) {
        OtherNumberRefused(b, n, number);
        InterfaceRefused(b, n - 1, big);
        var i := InterfaceAt(b, big);
        if i.Parsed? {
          ParsedInterface(b, big);
          assert b[i.used..] == t[u + i.used..];
          SettledFresh(t[u + i.used..], b[2]);
        }
      } else {
        NoneHere(b, n, number, big);
      }
    }
    hide Fresh;
  }

  lemma OtherNumberRefused(b: seq<byte>, n: nat, number: int)
    requires |b| >= 9 && b[1] == 4 && Whole(b) && b[2] != number && n > 0
    ensures Refused(b, n, number, 0) == SettingRefused(b, n - 1)
  {
  }

  lemma NoneHere(b: seq<byte>, n: nat, number: int, big: bool)
    requires Settled(b) && !(|b| >= 9 && b[1] == 4 && Whole(b))
    ensures !Refused(b, n, number, 0) && InterfaceAt(b, big) == Parsed([], 0)
  {
  }

  lemma NoMoreExpected(t: seq<byte>, number: int)
    requires Settled(t) && Fresh(t, number)
    ensures !Refused(t, 0, number, 0)
  {
    assert t[0..] == t;
    SettledExactly(t);
  }

  lemma {:induction false} InterfacesRefused(t: seq<byte>, n: nat, number: int, extra: seq<byte>, big: bool)
    requires Fresh(t, number) && (n > 0 || Settled(t))
    ensures InterfacesAt(t, n, extra, big).Failed? <==> Refused(t, n, number, 0)
    decreases n
  {
    hide Refused, Fresh, NextInterface, Settled;
    if n == 0 {
      NoMoreExpected(t, number);
    } else {
      TurnRefused(t, n, number, extra, big);
      var r := NextInterface(t, extra, big);
      if r.Took? {
        InterfacesRefused(t[r.used..], n - 1, r.interface[0].bInterfaceNumber, r.extra, big);
      }
    }
  }

  // The header of a configuration: nine bytes at least, all there, of type 2, at most 32 interfaces.
  predicate GoodHeader(b: seq<byte>) {
    |b| >= 9 && b[1] == 2 && 9 <= b[0] <= |b| && b[4] <= 32
  }

  /** The parser accepts exactly the inputs with a good header and, where interfaces are declared, no
      refused record behind it. */
  lemma AcceptsExactly(b: seq<byte>, big: bool)
    ensures ConfigAt(b, big).Parsed? <==>
              GoodHeader(b) && (b[4] > 0 ==> !Refused(b[b[0]..], b[4], -1, 0))
  {
    hide Refused, InterfacesAt;
    if GoodHeader(b) {
      if b[4] > 0 {
        InterfacesRefused(b[b[0]..], b[4], -1, [], big);
      } else {
        NoInterfaces(b[b[0]..], [], big);
      }
    }
  }

  /** More than 32 interfaces, or endpoints in a setting, are refused whatever follows. */
  lemma TooManyRefused(b: seq<byte>, big: bool)
    requires |b| >= 9 && b[4] > 32
    ensures ConfigAt(b, big).Failed?
    ensures b[1] == 4 && b[0] <= |b| ==> AltAt(b, big).Failed? && InterfaceAt(b, big).Failed?
  {
  }

  // ---- In front of a record that runs past the end ----

  lemma {:induction false} SkipsToOverrun(x: seq<byte>, t: seq<byte>)
    requires Records(x) && Truncated(t)
    ensures SkipRecords(x + t) == Short(|x|)
  {
    if x == [] {
      assert x + t == t;
    } else {
      assert (x + t)[x[0]..] == x[x[0]..] + t;
      SkipsToOverrun(x[x[0]..], t);
    }
  }

  /** The endpoint is read, and its extra bytes are passed over but not kept. */
  lemma EndpointBeforeOverrun(e: Endpoint, t: seq<byte>, big: bool)
    requires WellFormedEndpoint(e) && Truncated(t)
    ensures EndpointAt(PrintEndpoint(e, big) + t, big) == Parsed(e.(extra := []), |PrintEndpoint(e, big)|)
  {
    hide Records, PrintEndpointHead, EndpointFields, SkipRecords, Truncated;
    var head, rest := PrintEndpointHead(e, big), e.extra + t;
    assert PrintEndpoint(e, big) + t == head + rest;
    EndpointHeadParses(e, rest, big);
    SkipsToOverrun(e.extra, t);
  }

  /** The setting is the last of its interface; its extra bytes are passed over but not kept, and it
      stands as declared without any endpoint. */
  lemma AltBeforeOverrun(a: AltSetting, t: seq<byte>, big: bool)
    requires a.bLength >= 9 && a.bDescriptorType == 4 && a.bNumEndpoints <= 32 && Records(a.extra) && Truncated(t)
    ensures AltAt(PrintAltHead(a) + (a.extra + t), big) ==
            Parsed((a.(extra := [], endpoints := []), false), a.bLength as nat + |a.extra|)
  {
    hide Records, PrintAltHead, SkipRecords, Truncated;
    AltHeadParses(a, a.extra + t);
    SkipsToOverrun(a.extra, t);
  }

  /** The list of interfaces ends; extra bytes kept before stay, those in front of the record do not count. */
  lemma ListEndsAtOverrun(x: seq<byte>, t: seq<byte>, n: nat, kept: seq<byte>, big: bool)
    requires Records(x) && Truncated(t)
    ensures InterfacesAt(x + t, n, kept, big) == Parsed(Interfaces(kept, []), if n == 0 then 0 else |x|)
  {
    hide Records, Truncated;
    SkipsToOverrun(x, t);
  }
}

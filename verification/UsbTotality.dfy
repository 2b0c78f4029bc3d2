/**
 The descriptor parser on arbitrary bytes.  Whatever it accepts is a well-formed tree whose extra
 bytes are contiguous runs of complete non-standard records of the input, except that an altsetting
 whose extra bytes run past the end keeps its declared endpoint count without any endpoints.
 */
module UsbTotality {
  import opened Basics
  import opened UsbDescriptor
  import opened UsbRoundTrip

  // A record that claims to be longer than what is left.
  predicate Truncated(t: seq<byte>) {
    |t| >= 2 && t[0] >= 2 && t[0] > |t|
  }

  // Nothing more to skip here.
  predicate Settled(t: seq<byte>) {
    |t| < 2 || Truncated(t) || (t[0] >= 2 && StandardType(t[1]))
  }

  lemma SettledExactly(t: seq<byte>)
    ensures Settled(t) <==> SkipRecords(t) == Done(0) || SkipRecords(t) == Short(0)
    ensures Truncated(t) ==> SkipRecords(t) == Short(0)
  {
  }

  // A complete non-standard record in front.
  lemma RecordInFront(b: seq<byte>, v: nat)
    requires |b| >= 2 && 2 <= b[0] <= |b| && !StandardType(b[1]) && v <= |b| - b[0]
    ensures Records(b[b[0]..][..v]) ==> Records(b[..b[0] as nat + v])
    ensures b[b[0]..][v..] == b[b[0] as nat + v..]
  {
    var x := b[..b[0] as nat + v];
    assert x[x[0]..] == b[b[0]..][..v];
  }

  lemma {:induction false} SkippedAreRecords(b: seq<byte>)
    ensures match SkipRecords(b)
      case Malformed => true
      case Short(u) => Records(b[..u]) && Truncated(b[u..])
      case Done(u) => Records(b[..u]) && Settled(b[u..])
  {
    if |b| >= 2 && 2 <= b[0] <= |b| && !StandardType(b[1]) {
      SkippedAreRecords(b[b[0]..]);
      var r := SkipRecords(b[b[0]..]);
      hide Records, Truncated, Settled;
      if !r.Malformed? {
        RecordInFront(b, r.used);
      }
    } else {
      assert b[..0] == [] && b[0..] == b;
    }
  }

  // x occurs in b.
  predicate SliceAt(x: seq<byte>, b: seq<byte>, i: int) {
    0 <= i <= |b| - |x| && b[i..i + |x|] == x
  }

  ghost predicate Slice(x: seq<byte>, b: seq<byte>) {
    exists i: int :: SliceAt(x, b, i)
  }

  lemma SliceInRest(x: seq<byte>, b: seq<byte>, u: nat)
    requires u <= |b| && Slice(x, b[u..])
    ensures Slice(x, b)
  {
    var i: int :| SliceAt(x, b[u..], i);
    assert SliceAt(x, b, u + i);
  }

  lemma SliceOf(b: seq<byte>, i: nat, n: nat)
    requires i + n <= |b|
    ensures Slice(b[i..][..n], b) && Slice([], b)
  {
    assert b[i..][..n] == b[i..i + n];
    assert SliceAt(b[i..][..n], b, i) && SliceAt([], b, 0);
  }

  ghost predicate GoodEndpoints(es: seq<Endpoint>, b: seq<byte>) {
    forall e <- es :: WellFormedEndpoint(e) && Slice(e.extra, b)
  }

  // A record of length bytes, then skipped records.
  lemma AfterSkip(b: seq<byte>, length: nat)
    requires length <= |b|
    ensures match SkipRecords(b[length..])
      case Malformed => true
      case Short(u) => Truncated(b[length + u..]) && Slice([], b)
      case Done(u) => Settled(b[length + u..]) && Records(b[length..][..u]) && Slice(b[length..][..u], b)
  {
    var rest := b[length..];
    SkippedAreRecords(rest);
    if !SkipRecords(rest).Malformed? {
      var u := SkipRecords(rest).used;
      assert rest[u..] == b[length + u..];
      SliceOf(b, length, u);
    }
  }

  lemma ParsedEndpoint(b: seq<byte>, big: bool)
    requires EndpointAt(b, big).Parsed?
    ensures var r := EndpointAt(b, big);
      WellFormedEndpoint(r.value) && Slice(r.value.extra, b) && Settled(b[r.used..])
  {
    hide SkipRecords, Slice;
    AfterSkip(b, b[0]);
  }

  lemma {:induction false} ParsedEndpoints(b: seq<byte>, n: nat, big: bool)
    requires EndpointsAt(b, n, big).Parsed? && Settled(b)
    ensures var r := EndpointsAt(b, n, big);
      GoodEndpoints(r.value, b) && Settled(b[r.used..])
  {
    hide Settled, WellFormedEndpoint, EndpointAt;
    if n > 0 && EndpointAt(b, big).Parsed? {
      var e, u := EndpointAt(b, big).value, EndpointAt(b, big).used;
      ParsedEndpoint(b, big);
      ParsedEndpoints(b[u..], n - 1, big);
      var r := EndpointsAt(b, n, big);
      assert b[r.used..] == b[u..][r.used - u..];
      forall f <- r.value ensures WellFormedEndpoint(f) && Slice(f.extra, b) {
        if f in EndpointsAt(b[u..], n - 1, big).value {
          SliceInRest(f.extra, b, u);
        }
      }
    } else {
      assert b[0..] == b;
    }
  }

  // The extra bytes of the altsetting ran past the end: neither they nor its endpoints are there.
  predicate CutShort(a: AltSetting) {
    a.extra == [] && a.endpoints == [] && a.bNumEndpoints > 0
  }

  ghost predicate GoodAlt(a: AltSetting, b: seq<byte>) {
    && a.bLength >= 9 && a.bDescriptorType == 4
    && Records(a.extra) && Slice(a.extra, b)
    && GoodEndpoints(a.endpoints, b)
    && a.bNumEndpoints <= 32
    && (a.bNumEndpoints == |a.endpoints| || CutShort(a))
  }

  lemma ParsedAlt(b: seq<byte>, big: bool)
    requires AltAt(b, big).Parsed?
    ensures var r := AltAt(b, big);
      var (a, more) := r.value;
      && GoodAlt(a, b) && a.bInterfaceNumber == b[2]
      && (CutShort(a) ==> !more)
      && (a.bNumEndpoints == |a.endpoints| <==> !(b[4] > 0 && SkipRecords(b[b[0]..]).Short?))
      && (if more then Settled(b[r.used..]) else Truncated(b[r.used..]))
  {
    hide Settled, Truncated, EndpointsAt, SkipRecords, Slice, Records, WellFormedEndpoint;
    AfterSkip(b, b[0]);
    NoRecords();
    var s := SkipRecords(b[b[0]..]);
    if s.Done? {
      AltEndpoints(b, b[0] as nat + s.used, b[4], big);
      assert b[b[0]..][s.used..] == b[b[0] as nat + s.used..];
    }
  }

  lemma AltEndpoints(b: seq<byte>, u: nat, n: nat, big: bool)
    requires u <= |b| && EndpointsAt(b[u..], n, big).Parsed? && Settled(b[u..])
    ensures var r := EndpointsAt(b[u..], n, big);
      GoodEndpoints(r.value, b) && Settled(b[u + r.used..])
  {
    var r := EndpointsAt(b[u..], n, big);
    ParsedEndpoints(b[u..], n, big);
    forall e <- r.value ensures Slice(e.extra, b) {
      SliceInRest(e.extra, b, u);
    }
    assert b[u + r.used..] == b[u..][r.used..];
  }

  // All altsettings are whole except possibly the last, and they share one number.
  ghost predicate GoodInterface(i: Interface, b: seq<byte>) {
    && i != []
    && (forall a <- i :: GoodAlt(a, b) && a.bInterfaceNumber == i[0].bInterfaceNumber)
    && (forall a <- i[..|i| - 1] :: !CutShort(a))
  }

  lemma GoodAltInRest(a: AltSetting, b: seq<byte>, u: nat)
    requires u <= |b| && GoodAlt(a, b[u..])
    ensures GoodAlt(a, b)
  {
    SliceInRest(a.extra, b, u);
    forall e <- a.endpoints ensures Slice(e.extra, b) {
      SliceInRest(e.extra, b, u);
    }
  }

  // An interface i read from b with rest following it: there is nothing skippable in front of rest,
  // and it does not go on with the same interface, except in a truncated record.
  ghost predicate InterfaceRead(i: Interface, b: seq<byte>, rest: seq<byte>) {
    && |b| >= 9
    && GoodInterface(i, b) && i[0].bInterfaceNumber == b[2]
    && Settled(rest)
    && (CutShort(i[|i| - 1]) || SameNumber(rest, b[2]) ==> Truncated(rest))
  }

  lemma LastAlt(a: AltSetting, b: seq<byte>, rest: seq<byte>)
    requires |b| >= 9 && GoodAlt(a, b) && a.bInterfaceNumber == b[2]
    requires Settled(rest) && (CutShort(a) || SameNumber(rest, b[2]) ==> Truncated(rest))
    ensures InterfaceRead([a], b, rest)
  {
  }

  lemma MoreAlts(a: AltSetting, more: Interface, b: seq<byte>, u: nat, rest: seq<byte>)
    requires |b| >= 9 && GoodAlt(a, b) && a.bInterfaceNumber == b[2] && !CutShort(a)
    requires u <= |b| && SameNumber(b[u..], b[2]) && InterfaceRead(more, b[u..], rest)
    ensures InterfaceRead([a] + more, b, rest)
  {
    forall c <- more ensures GoodAlt(c, b) {
      GoodAltInRest(c, b, u);
    }
    assert ([a] + more)[..|more|] == [a] + more[..|more| - 1];
  }

  lemma {:induction false} ParsedInterface(b: seq<byte>, big: bool)
    requires InterfaceAt(b, big).Parsed? && InterfaceAt(b, big).used > 0
    ensures var r := InterfaceAt(b, big); InterfaceRead(r.value, b, b[r.used..])
  {
    hide InterfaceRead, Settled, AltAt, GoodAlt, CutShort;
    var a, more, u := AltAt(b, big).value.0, AltAt(b, big).value.1, AltAt(b, big).used;
    ParsedAlt(b, big);
    TruncatedSettled(b[u..]);
    AltLongEnough(b, big);
    if more && SameNumber(b[u..], a.bInterfaceNumber) {
      var rest := InterfaceAt(b[u..], big);
      if rest.used > 0 {
        ParsedInterface(b[u..], big);
        assert b[u..][rest.used..] == b[u + rest.used..];
        MoreAlts(a, rest.value, b, u, b[u + rest.used..]);
      } else {
        NoInterfaceTruncated(b[u..], big);
        assert b[u + 0..] == b[u..] && [a] + rest.value == [a];
        LastAlt(a, b, b[u..]);
      }
    } else {
      LastAlt(a, b, b[u..]);
    }
  }

  lemma AltLongEnough(b: seq<byte>, big: bool)
    requires AltAt(b, big).Parsed?
    ensures |b| >= 9
  {
  }

  lemma TruncatedSettled(t: seq<byte>)
    ensures Truncated(t) ==> Settled(t)
  {
  }

  lemma NoInterfaceTruncated(b: seq<byte>, big: bool)
    requires |b| >= 9 && b[1] == 4 && InterfaceAt(b, big) == Parsed([], 0)
    ensures Truncated(b)
  {
  }

  ghost predicate GoodInterfaces(l: seq<Interface>, b: seq<byte>) {
    l == [] ||
    (&& GoodInterface(l[0], b)
     && GoodInterfaces(l[1..], b)
     && (|l| >= 2 ==>
           l[1] != [] && l[0][0].bInterfaceNumber != l[1][0].bInterfaceNumber && !CutShort(l[0][|l[0]| - 1])))
  }

  lemma {:induction false} GoodInRest(l: seq<Interface>, b: seq<byte>, u: nat)
    requires u <= |b| && GoodInterfaces(l, b[u..])
    ensures GoodInterfaces(l, b)
  {
    hide GoodAlt, CutShort;
    if l != [] {
      GoodInRest(l[1..], b, u);
      forall a <- l[0] ensures GoodAlt(a, b) {
        GoodAltInRest(a, b, u);
      }
    }
  }

  lemma InterfaceRecordFirst(b: seq<byte>, big: bool)
    requires InterfaceAt(b, big).Parsed? && InterfaceAt(b, big).used > 0
    ensures |b| >= 9 && b[1] == 4
  {
  }

  // A turn of the loop that takes an interface takes no extra bytes unless there are some to skip.
  lemma TurnTook(b: seq<byte>, extra: seq<byte>, big: bool)
    requires NextInterface(b, extra, big).Took?
    ensures var t := NextInterface(b, extra, big);
      && SkipRecords(b).Done? && !Truncated(b[SkipRecords(b).used..])
      && InterfaceRead(t.interface, b[SkipRecords(b).used..], b[t.used..])
      && b[SkipRecords(b).used..][1] == 4
      && t.extra == if SkipRecords(b).used > 0 && extra == [] then b[..SkipRecords(b).used] else extra
  {
    hide InterfaceRead, InterfaceAt, SkipRecords, Truncated;
    var u, t := SkipRecords(b).used, NextInterface(b, extra, big);
    SkipEndsWhole(b);
    InterfaceRecordFirst(b[u..], big);
    ParsedInterface(b[u..], big);
    assert b[u..][t.used - u..] == b[t.used..];
  }

  lemma {:induction false} SkipEndsWhole(b: seq<byte>)
    requires SkipRecords(b).Done?
    ensures !Truncated(b[SkipRecords(b).used..])
  {
    if |b| >= 2 && 2 <= b[0] <= |b| && !StandardType(b[1]) {
      SkipEndsWhole(b[b[0]..]);
      assert b[b[0]..][SkipRecords(b[b[0]..]).used..] == b[SkipRecords(b).used..];
    } else {
      assert b[0..] == b;
    }
  }

  /** Behind an interface the configuration loop never finds extra bytes: the altsettings and
      endpoints have taken them.  So the first run of extra bytes is the only one. */
  lemma NoExtraBehindInterfaces(b: seq<byte>, extra: seq<byte>, big: bool)
    requires Settled(b)
    ensures match NextInterface(b, extra, big)
      case Error => true
      case Stop(extra', u) => extra' == extra
      case Took(extra', alts, u) =>
        extra' == extra && InterfaceRead(alts, b, b[u..]) && !Truncated(b) && b[1] == 4
  {
    hide InterfaceRead, InterfaceAt;
    SettledExactly(b);
    if NextInterface(b, extra, big).Took? {
      TurnTook(b, extra, big);
      assert b[0..] == b;
    }
  }

  // The interface taken, then those behind it.
  lemma TookThenRest(b: seq<byte>, n: nat, extra: seq<byte>, big: bool)
    requires n > 0 && NextInterface(b, extra, big).Took? && InterfacesAt(b, n, extra, big).Parsed?
    ensures var t, v := NextInterface(b, extra, big), InterfacesAt(b, n, extra, big).value;
      v.extra == t.extra && GoodInterfaces(v.list, b) && v.list != [] && v.list[0] == t.interface
    decreases n, 0
  {
    hide Settled, Truncated, NextInterface, GoodAlt, CutShort, SkipRecords;
    TurnTook(b, extra, big);
    var t, u := NextInterface(b, extra, big), SkipRecords(b).used;
    ParsedInterfaces(b[t.used..], n - 1, t.extra, big);
    var rest := InterfacesAt(b[t.used..], n - 1, t.extra, big).value.list;
    GoodInRest(rest, b, t.used);
    forall a <- t.interface ensures GoodAlt(a, b) {
      GoodAltInRest(a, b, u);
    }
    assert ([t.interface] + rest)[1..] == rest;
  }

  lemma {:induction false} ParsedInterfaces(b: seq<byte>, n: nat, extra: seq<byte>, big: bool)
    requires InterfacesAt(b, n, extra, big).Parsed? && Settled(b)
    ensures var v := InterfacesAt(b, n, extra, big).value;
      && v.extra == extra && GoodInterfaces(v.list, b)
      && (v.list != [] ==> |b| >= 9 && b[1] == 4 && !Truncated(b)
                           && v.list[0] != [] && v.list[0][0].bInterfaceNumber == b[2])
    decreases n, 1
  {
    hide Settled, Truncated, NextInterface, GoodAlt, CutShort;
    NoExtraBehindInterfaces(b, extra, big);
    if n > 0 && NextInterface(b, extra, big).Took? {
      TookThenRest(b, n, extra, big);
    }
  }

  // The last altsetting of the last interface was cut short.
  predicate Cut(c: Config) {
    c.interfaces != [] &&
    var i := c.interfaces[|c.interfaces| - 1];
    i != [] && CutShort(i[|i| - 1])
  }

  lemma {:induction false} GoodIsWellFormed(l: seq<Interface>, b: seq<byte>)
    requires GoodInterfaces(l, b)
    ensures l != [] ==> l[|l| - 1] != []
    ensures WellFormedInterfaces(l) <==> l == [] || !CutShort(l[|l| - 1][|l[|l| - 1]| - 1])
  {
    if l != [] {
      GoodIsWellFormed(l[1..], b);
      var i := l[0];
      WellFormedUnlessCut(i, b);
      if |l| >= 2 {
        assert l[|l| - 1] == l[1..][|l| - 2];
      }
    }
  }

  lemma WellFormedUnlessCut(i: Interface, b: seq<byte>)
    requires GoodInterface(i, b)
    ensures WellFormedInterface(i) <==> !CutShort(i[|i| - 1])
  {
    hide Slice, WellFormedEndpoint, Records;
    if !CutShort(i[|i| - 1]) {
      forall a <- i ensures WellFormedAlt(a) {
        assert a in i[..|i| - 1] || a == i[|i| - 1];
      }
    } else {
      assert !WellFormedAlt(i[|i| - 1]);
    }
  }

  /** On arbitrary bytes: an accepted configuration is well formed unless its last altsetting was cut
      short or it has extra bytes but no interface.  All its extra bytes are in the input. */
  lemma ParsedIsWellFormed(b: seq<byte>, big: bool)
    requires ConfigAt(b, big).Parsed?
    ensures var c := ConfigAt(b, big).value;
      && (WellFormedConfig(c) <==> !Cut(c) && (c.interfaces == [] ==> c.extra == []))
      && |c.extra| <= |b| - b[0] && c.extra == b[b[0]..][..|c.extra|] && Records(c.extra)
      && GoodInterfaces(c.interfaces, b)
  {
    hide InterfacesAt, GoodInterfaces, WellFormedInterfaces, Records, CutShort;
    ExtraAndInterfaces(b, b[0], b[4], big);
    GoodIsWellFormed(ConfigAt(b, big).value.interfaces, b);
  }

  lemma ExtraAndInterfaces(b: seq<byte>, start: nat, n: nat, big: bool)
    requires start <= |b| && InterfacesAt(b[start..], n, [], big).Parsed?
    ensures var v := InterfacesAt(b[start..], n, [], big).value;
      && GoodInterfaces(v.list, b) && |v.list| <= n
      && |v.extra| <= |b| - start && v.extra == b[start..][..|v.extra|] && Records(v.extra)
  {
    hide InterfaceRead, GoodAlt, Slice, WellFormedInterfaces, SkipRecords, NextInterface;
    NoRecords();
    if n > 0 {
      SkippedAreRecords(b[start..]);
      FirstInterface(b, start, n, big);
    }
  }

  lemma FirstInterface(b: seq<byte>, start: nat, n: nat, big: bool)
    requires start <= |b| && n > 0 && InterfacesAt(b[start..], n, [], big).Parsed?
    ensures var v := InterfacesAt(b[start..], n, [], big).value;
      && GoodInterfaces(v.list, b)
      && (v.extra == [] || (SkipRecords(b[start..]).Done? && v.extra == b[start..][..SkipRecords(b[start..]).used]))
  {
    hide InterfaceRead, GoodAlt, Slice, Settled;
    var rest := b[start..];
    var t := NextInterface(rest, [], big);
    if t.Took? {
      TurnTook(rest, [], big);
      TookThenRest(rest, n, [], big);
      GoodInRest(InterfacesAt(rest, n, [], big).value.list, b, start);
    }
  }

  /** Printing an accepted well-formed tree and parsing it again changes nothing. */
  lemma ParsePrintParse(b: seq<byte>, big: bool)
    requires ConfigAt(b, big).Parsed?
    requires var c := ConfigAt(b, big).value; !Cut(c) && (c.interfaces == [] ==> c.extra == [])
    ensures var c := ConfigAt(b, big).value;
      WellFormedConfig(c) && ConfigAt(Print(c, big), big) == Parsed(c, |Print(c, big)|)
  {
    ParsedIsWellFormed(b, big);
    RoundTrip(ConfigAt(b, big).value, big);
  }
}

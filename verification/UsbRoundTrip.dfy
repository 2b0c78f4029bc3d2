/**
 Printing and parsing configuration descriptors.  Print writes a configuration tree as the bytes a
 device sends; parsing them gives the tree back.  Conversely, whatever bytes the parser accepts, the
 tree it builds is well formed, with one exception the code makes for extra bytes that run past the end.
 Lengths and descriptor types are written out here as in tables 9-5, 9-10, 9-12 and 9-13 of the USB 2.0
 specification; a configuration has at most 32 interfaces and a setting at most 32 endpoints.
 */
module UsbRoundTrip {
  import opened Basics
  import opened UsbDescriptor

  // Device, configuration, interface and endpoint descriptors.
  predicate StandardType(t: byte) {
    t == 1 || t == 2 || t == 4 || t == 5
  }

  // An interface record of interface number, or what is left of one, stands here.
  predicate SameNumber(t: seq<byte>, number: byte) {
    |t| >= 9 && t[1] == 4 && t[2] == number
  }

  // ---- Printing ----

  function PutWord(w: nat, big: bool): (b: seq<byte>)
    requires w < 0x1_0000
    ensures |b| == 2 && WordOf(b[0], b[1], big) == w
  {
    if big then [w / 0x100, w % 0x100] else [w % 0x100, w / 0x100]
  }

  // A run of complete class- or vendor-specific records.
  predicate Records(x: seq<byte>) {
    x == [] || (|x| >= 2 && 2 <= x[0] <= |x| && !StandardType(x[1]) && Records(x[x[0]..]))
  }

  predicate WellFormedEndpoint(e: Endpoint) {
    && e.bLength >= 7
    && e.bDescriptorType == 5
    && e.wMaxPacketSize < 0x1_0000
    && (e.bLength < 9 ==> e.bRefresh == 0 && e.bSynchAddress == 0)
    && Records(e.extra)
  }

  function PrintEndpointHead(e: Endpoint, big: bool): (b: seq<byte>)
    requires WellFormedEndpoint(e)
    ensures |b| == e.bLength
  {
    var fixed := [e.bLength, e.bDescriptorType, e.bEndpointAddress, e.bmAttributes]
                 + PutWord(e.wMaxPacketSize, big) + [e.bInterval];
    if e.bLength >= 9 then
      fixed + [e.bRefresh, e.bSynchAddress] + Zeros(e.bLength - 9)
    else fixed + Zeros(e.bLength - 7)
  }

  function PrintEndpoint(e: Endpoint, big: bool): (b: seq<byte>)
    requires WellFormedEndpoint(e)
  {
    PrintEndpointHead(e, big) + e.extra
  }

  predicate WellFormedEndpoints(es: seq<Endpoint>) {
    forall e <- es :: WellFormedEndpoint(e)
  }

  function PrintEndpoints(es: seq<Endpoint>, big: bool): (b: seq<byte>)
    requires WellFormedEndpoints(es)
  {
    if es == [] then [] else PrintEndpoint(es[0], big) + PrintEndpoints(es[1..], big)
  }

  predicate WellFormedAlt(a: AltSetting) {
    && a.bLength >= 9
    && a.bDescriptorType == 4
    && a.bNumEndpoints == |a.endpoints| <= 32
    && Records(a.extra)
    && WellFormedEndpoints(a.endpoints)
  }

  function PrintAltHead(a: AltSetting): (b: seq<byte>)
    requires a.bLength >= 9
    ensures |b| == a.bLength
  {
    [a.bLength, a.bDescriptorType, a.bInterfaceNumber, a.bAlternateSetting, a.bNumEndpoints,
     a.bInterfaceClass, a.bInterfaceSubClass, a.bInterfaceProtocol, a.iInterface]
    + Zeros(a.bLength - 9)
  }

  function PrintAlt(a: AltSetting, big: bool): (b: seq<byte>)
    requires WellFormedAlt(a)
    ensures |b| >= 9
  {
    PrintAltHead(a) + (a.extra + PrintEndpoints(a.endpoints, big))
  }

  // All alternate settings of an interface carry the same interface number.
  predicate WellFormedInterface(i: Interface) {
    && i != []
    && (forall a <- i :: WellFormedAlt(a))
    && (forall a <- i :: a.bInterfaceNumber == i[0].bInterfaceNumber)
  }

  function PrintAlts(i: seq<AltSetting>, big: bool): (b: seq<byte>)
    requires forall a <- i :: WellFormedAlt(a)
  {
    if i == [] then [] else PrintAlt(i[0], big) + PrintAlts(i[1..], big)
  }

  // Consecutive interfaces have different numbers.
  predicate WellFormedInterfaces(l: seq<Interface>) {
    l == [] ||
    (&& WellFormedInterface(l[0])
     && WellFormedInterfaces(l[1..])
     && (|l| >= 2 ==> l[0][0].bInterfaceNumber != l[1][0].bInterfaceNumber))
  }

  function PrintInterfaces(l: seq<Interface>, big: bool): (b: seq<byte>)
    requires WellFormedInterfaces(l)
  {
    if l == [] then [] else PrintAlts(l[0], big) + PrintInterfaces(l[1..], big)
  }

  predicate WellFormedConfig(c: Config) {
    && c.bLength >= 9
    && c.bDescriptorType == 2
    && c.wTotalLength < 0x1_0000
    && c.bNumInterfaces == |c.interfaces| <= 32
    && Records(c.extra)
    && (c.interfaces == [] ==> c.extra == [])
    && WellFormedInterfaces(c.interfaces)
  }

  function PrintConfigHead(c: Config, big: bool): (b: seq<byte>)
    requires WellFormedConfig(c)
    ensures |b| == c.bLength
  {
    [c.bLength, c.bDescriptorType] + PutWord(c.wTotalLength, big)
    + [c.bNumInterfaces, c.bConfigurationValue, c.iConfiguration, c.bmAttributes, c.MaxPower]
    + Zeros(c.bLength - 9)
  }

  function Print(c: Config, big: bool): (b: seq<byte>)
    requires WellFormedConfig(c)
  {
    PrintConfigHead(c, big) + (c.extra + PrintInterfaces(c.interfaces, big))
  }

  // ---- Parsing what was printed ----

  // Where skipping stops: at the end, or at a complete standard record.
  predicate Stops(t: seq<byte>) {
    t == [] || (|t| >= 2 && 2 <= t[0] <= |t| && StandardType(t[1]))
  }

  lemma {:induction false} SkipsRecords(x: seq<byte>, t: seq<byte>)
    requires Records(x) && Stops(t)
    ensures SkipRecords(x + t) == Done(|x|)
  {
    if x == [] {
      assert x + t == t;
    } else {
      assert (x + t)[x[0]..] == x[x[0]..] + t;
      SkipsRecords(x[x[0]..], t);
    }
  }

  lemma EndpointHeadParses(e: Endpoint, t: seq<byte>, big: bool)
    requires WellFormedEndpoint(e)
    ensures var b := PrintEndpointHead(e, big) + t;
      && b[0] == e.bLength && b[1] == 5 && b[e.bLength..] == t
      && EndpointFields(b, big) == e.(extra := [])
  {
  }

  lemma EndpointParses(e: Endpoint, t: seq<byte>, big: bool)
    requires WellFormedEndpoint(e) && Stops(t)
    ensures EndpointAt(PrintEndpoint(e, big) + t, big) == Parsed(e, |PrintEndpoint(e, big)|)
    ensures Stops(PrintEndpoint(e, big) + t)
  {
    hide Records, PrintEndpointHead, EndpointFields, SkipRecords;
    var head, rest := PrintEndpointHead(e, big), e.extra + t;
    assert PrintEndpoint(e, big) + t == head + rest;
    EndpointHeadParses(e, rest, big);
    assert rest[..|e.extra|] == e.extra;
    SkipsRecords(e.extra, t);
  }

  lemma FirstEndpoint(es: seq<Endpoint>, t: seq<byte>, big: bool)
    requires WellFormedEndpoints(es) && es != []
    ensures WellFormedEndpoint(es[0]) && WellFormedEndpoints(es[1..])
    ensures var first, rest := PrintEndpoint(es[0], big), PrintEndpoints(es[1..], big) + t;
      && PrintEndpoints(es, big) + t == first + rest && (first + rest)[|first|..] == rest
      && |PrintEndpoints(es, big)| == |first| + |PrintEndpoints(es[1..], big)|
  {
    hide WellFormedEndpoint, PrintEndpoint;
  }

  lemma EndpointThenRest(b: seq<byte>, es: seq<Endpoint>, u: nat, v: nat, big: bool)
    requires es != [] && EndpointAt(b, big) == Parsed(es[0], u) && u <= |b|
    requires EndpointsAt(b[u..], |es| - 1, big) == Parsed(es[1..], v)
    ensures EndpointsAt(b, |es|, big) == Parsed(es, u + v)
  {
    hide EndpointAt;
    assert [es[0]] + es[1..] == es;
  }

  lemma {:induction false} EndpointsParse(es: seq<Endpoint>, t: seq<byte>, big: bool)
    requires WellFormedEndpoints(es) && Stops(t)
    ensures EndpointsAt(PrintEndpoints(es, big) + t, |es|, big) == Parsed(es, |PrintEndpoints(es, big)|)
    ensures Stops(PrintEndpoints(es, big) + t)
  {
    hide Stops, EndpointAt, WellFormedEndpoint, PrintEndpoint;
    if es == [] {
      assert PrintEndpoints(es, big) + t == t;
    } else {
      hide EndpointsAt, PrintEndpoints, WellFormedEndpoints;
      FirstEndpoint(es, t, big);
      var first, rest := PrintEndpoint(es[0], big), PrintEndpoints(es[1..], big) + t;
      EndpointsParse(es[1..], t, big);
      EndpointParses(es[0], rest, big);
      EndpointThenRest(first + rest, es, |first|, |PrintEndpoints(es[1..], big)|, big);
    }
  }

  lemma AltHeadParses(a: AltSetting, t: seq<byte>)
    requires a.bLength >= 9
    ensures var b := PrintAltHead(a) + t;
      b[a.bLength..] == t && AltFields(b) == a.(extra := [], endpoints := [])
  {
  }

  lemma AltParses(a: AltSetting, t: seq<byte>, big: bool)
    requires WellFormedAlt(a) && Stops(t)
    ensures AltAt(PrintAlt(a, big) + t, big) == Parsed((a, true), |PrintAlt(a, big)|)
    ensures Stops(PrintAlt(a, big) + t) && SameNumber(PrintAlt(a, big) + t, a.bInterfaceNumber)
  {
    hide Records, PrintAltHead, PrintEndpoints, SkipRecords, EndpointsAt, WellFormedEndpoints;
    var head, eps := PrintAltHead(a), PrintEndpoints(a.endpoints, big);
    var rest := a.extra + (eps + t);
    assert PrintAlt(a, big) + t == head + rest;
    AltHeadParses(a, rest);
    assert rest[..|a.extra|] == a.extra && rest[|a.extra|..] == eps + t;
    EndpointsParse(a.endpoints, t, big);
    SkipsRecords(a.extra, eps + t);
  }

  // One altsetting read, and what its successor settles.
  lemma FirstAlt(b: seq<byte>, a: AltSetting, u: nat, big: bool)
    requires u <= |b| && AltAt(b, big) == Parsed((a, true), u)
    ensures InterfaceAt(b, big) == if SameNumber(b[u..], a.bInterfaceNumber) then
              Continue([a], u, InterfaceAt(b[u..], big)) else Parsed([a], u)
  {
    hide AltAt;
  }

  lemma {:induction false} InterfaceParses(i: Interface, t: seq<byte>, big: bool)
    requires WellFormedInterface(i) && Stops(t) && !SameNumber(t, i[0].bInterfaceNumber)
    ensures InterfaceAt(PrintAlts(i, big) + t, big) == Parsed(i, |PrintAlts(i, big)|)
    ensures Stops(PrintAlts(i, big) + t) && SameNumber(PrintAlts(i, big) + t, i[0].bInterfaceNumber)
  {
    hide Stops, AltAt, InterfaceAt, SameNumber, WellFormedAlt, PrintAlt;
    var first, rest := PrintAlt(i[0], big), PrintAlts(i[1..], big) + t;
    var b := PrintAlts(i, big) + t;
    assert b == first + rest && b[|first|..] == rest;
    if |i| == 1 {
      assert i == [i[0]] && PrintAlts(i[1..], big) == [] && rest == t;
    } else {
      assert i[1].bInterfaceNumber == i[0].bInterfaceNumber;
      InterfaceParses(i[1..], t, big);
      assert [i[0]] + i[1..] == i;
    }
    AltParses(i[0], rest, big);
    FirstAlt(b, i[0], |first|, big);
  }

  // What follows the last interface is not another alternate setting of it.
  predicate Ends(l: seq<Interface>, t: seq<byte>) {
    Stops(t) && (l == [] || (l[|l| - 1] != [] && !SameNumber(t, l[|l| - 1][0].bInterfaceNumber)))
  }

  lemma {:induction false} InterfacesStop(l: seq<Interface>, t: seq<byte>, big: bool)
    requires WellFormedInterfaces(l) && Ends(l, t)
    ensures Stops(PrintInterfaces(l, big) + t)
    ensures l != [] ==> SameNumber(PrintInterfaces(l, big) + t, l[0][0].bInterfaceNumber)
    ensures l != [] ==> !SameNumber(PrintInterfaces(l[1..], big) + t, l[0][0].bInterfaceNumber)
  {
    hide Stops, SameNumber, WellFormedAlt, PrintAlts;
    if l == [] {
      assert PrintInterfaces(l, big) + t == t;
    } else {
      InterfacesStop(l[1..], t, big);
      var rest := PrintInterfaces(l[1..], big) + t;
      assert PrintInterfaces(l, big) + t == PrintAlts(l[0], big) + rest;
      if |l| == 1 {
        assert PrintInterfaces(l[1..], big) + t == t;
      } else {
        NumbersDiffer(rest, l[1][0].bInterfaceNumber, l[0][0].bInterfaceNumber);
      }
      InterfaceParses(l[0], rest, big);
    }
  }

  lemma NumbersDiffer(b: seq<byte>, m: byte, n: byte)
    requires SameNumber(b, m) && m != n
    ensures !SameNumber(b, n)
  {
  }

  lemma SomethingPrinted(i: Interface, big: bool)
    requires WellFormedInterface(i)
    ensures |PrintAlts(i, big)| > 0
  {
  }

  lemma NextOf(b: seq<byte>, extra: seq<byte>, u: nat, i: Interface, v: nat, big: bool)
    requires SkipRecords(b) == Done(u) && InterfaceAt(b[u..], big) == Parsed(i, v) && v > 0
    ensures NextInterface(b, extra, big) == Took(if u > 0 && extra == [] then b[..u] else extra, i, u + v)
  {
    hide SkipRecords, InterfaceAt;
  }

  lemma NextParses(i: Interface, x: seq<byte>, kept: seq<byte>, rest: seq<byte>, big: bool)
    requires WellFormedInterface(i) && Records(x) && Stops(rest) && !SameNumber(rest, i[0].bInterfaceNumber)
    requires kept == [] || x == []
    ensures NextInterface(x + (PrintAlts(i, big) + rest), kept, big) ==
            Took(kept + x, i, |x| + |PrintAlts(i, big)|)
    ensures (x + (PrintAlts(i, big) + rest))[|x| + |PrintAlts(i, big)|..] == rest
  {
    hide Stops, InterfaceAt, NextInterface, SameNumber, WellFormedAlt, PrintAlts, Records, SkipRecords;
    var printed := PrintAlts(i, big);
    SomethingPrinted(i, big);
    Joined(x, printed, rest);
    InterfaceParses(i, rest, big);
    SkipsRecords(x, printed + rest);
    NextOf(x + (printed + rest), kept, |x|, i, |printed|, big);
    NoneAdded(kept, x);
  }

  lemma Joined(x: seq<byte>, y: seq<byte>, z: seq<byte>)
    ensures var b := x + (y + z);
      b[..|x|] == x && b[|x|..] == y + z && b[|x| + |y|..] == z
  {
  }

  lemma NoneAdded(kept: seq<byte>, x: seq<byte>)
    ensures kept == [] ==> kept + x == x
    ensures x == [] ==> kept + x == kept
    ensures [] + x == x
  {
  }

  lemma InterfacesTook(b: seq<byte>, kept: seq<byte>, l: seq<Interface>, extra: seq<byte>, u: nat, v: nat, big: bool)
    requires l != [] && NextInterface(b, kept, big) == Took(extra, l[0], u)
    requires InterfacesAt(b[u..], |l| - 1, extra, big) == Parsed(Interfaces(extra, l[1..]), v)
    ensures InterfacesAt(b, |l|, kept, big) == Parsed(Interfaces(extra, l), u + v)
  {
    hide NextInterface;
    assert [l[0]] + l[1..] == l;
  }

  // The list l, printed behind the extra bytes x, is read back.
  predicate ReadBack(l: seq<Interface>, x: seq<byte>, kept: seq<byte>, t: seq<byte>, big: bool) {
    WellFormedInterfaces(l)
    && InterfacesAt(x + (PrintInterfaces(l, big) + t), |l|, kept, big) ==
       Parsed(Interfaces(kept + x, l), |x| + |PrintInterfaces(l, big)|)
  }

  lemma FirstRead(l: seq<Interface>, x: seq<byte>, kept: seq<byte>, t: seq<byte>, big: bool)
    requires WellFormedInterfaces(l) && Records(x) && Ends(l, t) && l != [] && (kept == [] || x == [])
    ensures var b, u := x + (PrintInterfaces(l, big) + t), |x| + |PrintAlts(l[0], big)|;
      NextInterface(b, kept, big) == Took(kept + x, l[0], u)
      && b[u..] == PrintInterfaces(l[1..], big) + t
      && |PrintInterfaces(l, big)| == |PrintAlts(l[0], big)| + |PrintInterfaces(l[1..], big)|
  {
    hide NextInterface, Records, WellFormedAlt, PrintAlts, Stops, SameNumber, Ends;
    var rest := PrintInterfaces(l[1..], big) + t;
    RestStops(l, t, big);
    NextParses(l[0], x, kept, rest, big);
    assert PrintInterfaces(l, big) + t == PrintAlts(l[0], big) + rest;
  }

  lemma RestRead(l: seq<Interface>, kept: seq<byte>, t: seq<byte>, big: bool)
    requires ReadBack(l, [], kept, t, big)
    ensures var p := PrintInterfaces(l, big);
      InterfacesAt(p + t, |l|, kept, big) == Parsed(Interfaces(kept, l), |p|)
  {
    hide InterfacesAt, PrintInterfaces, WellFormedInterfaces;
    NoneAdded([], PrintInterfaces(l, big) + t);
    NoneAdded(kept, []);
  }

  lemma ReadBackStep(l: seq<Interface>, x: seq<byte>, kept: seq<byte>, t: seq<byte>, big: bool)
    requires WellFormedInterfaces(l) && Records(x) && Ends(l, t) && l != [] && (kept == [] || x == [])
    requires ReadBack(l[1..], [], kept + x, t, big)
    ensures ReadBack(l, x, kept, t, big)
  {
    hide NextInterface, InterfacesAt, Records, WellFormedAlt, PrintAlts, PrintInterfaces, Ends;
    FirstRead(l, x, kept, t, big);
    RestRead(l[1..], kept + x, t, big);
    InterfacesTook(x + (PrintInterfaces(l, big) + t), kept, l, kept + x, |x| + |PrintAlts(l[0], big)|,
                   |PrintInterfaces(l[1..], big)|, big);
  }

  lemma RestStops(l: seq<Interface>, t: seq<byte>, big: bool)
    requires WellFormedInterfaces(l) && Ends(l, t) && l != []
    ensures var rest := PrintInterfaces(l[1..], big) + t;
      Stops(rest) && !SameNumber(rest, l[0][0].bInterfaceNumber)
  {
    hide Stops, SameNumber;
    InterfacesStop(l, t, big);
    InterfacesStop(l[1..], t, big);
  }

  // The interfaces after the first find no more extra bytes in front of them.
  lemma {:induction false} InterfacesParse(l: seq<Interface>, x: seq<byte>, kept: seq<byte>, t: seq<byte>, big: bool)
    requires WellFormedInterfaces(l) && Records(x) && Ends(l, t)
    requires l == [] ==> x == []
    requires kept == [] || x == []
    ensures ReadBack(l, x, kept, t, big)
  {
    if l == [] {
      NoneAdded(kept, x);
      NoInterfaces(x + (PrintInterfaces(l, big) + t), kept, big);
    } else {
      hide ReadBack, PrintInterfaces, Records, WellFormedAlt, Stops, SameNumber;
      NoRecords();
      InterfacesParse(l[1..], [], kept + x, t, big);
      ReadBackStep(l, x, kept, t, big);
    }
  }

  lemma NoInterfaces(b: seq<byte>, kept: seq<byte>, big: bool)
    ensures InterfacesAt(b, 0, kept, big) == Parsed(Interfaces(kept, []), 0)
  {
  }

  lemma NoRecords()
    ensures Records([])
  {
  }

  lemma ConfigHeadParses(c: Config, t: seq<byte>, big: bool)
    requires WellFormedConfig(c)
    ensures var b := PrintConfigHead(c, big) + t;
      && b[0] == c.bLength && b[1] == 2 && b[4] == c.bNumInterfaces
      && b[c.bLength..] == t && ConfigFields(b, big) == c.(extra := [], interfaces := [])
  {
  }

  /** Parsing a printed configuration gives it back and consumes every byte of it. */
  lemma PrintThenParse(c: Config, t: seq<byte>, big: bool)
    requires WellFormedConfig(c) && Ends(c.interfaces, t)
    ensures ConfigAt(Print(c, big) + t, big) == Parsed(c, |Print(c, big)|)
  {
    hide Ends, WellFormedInterfaces, PrintConfigHead, PrintInterfaces, Records, InterfacesAt, ConfigFields,
      ConfigAt;
    var head, ifs := PrintConfigHead(c, big), PrintInterfaces(c.interfaces, big);
    var rest := c.extra + (ifs + t);
    assert Print(c, big) + t == head + rest;
    ConfigHeadParses(c, rest, big);
    InterfacesParse(c.interfaces, c.extra, [], t, big);
    NoneAdded([], c.extra);
    ConfigOf(head + rest, c, |c.extra| + |ifs|, big);
  }

  lemma ConfigOf(b: seq<byte>, c: Config, u: nat, big: bool)
    requires WellFormedConfig(c) && c.bLength <= |b|
    requires b[0] == c.bLength && b[1] == 2 && b[4] == c.bNumInterfaces
    requires ConfigFields(b, big) == c.(extra := [], interfaces := [])
    requires InterfacesAt(b[c.bLength..], |c.interfaces|, [], big) == Parsed(Interfaces(c.extra, c.interfaces), u)
    ensures ConfigAt(b, big) == Parsed(c, c.bLength + u)
  {
    hide InterfacesAt, ConfigFields, WellFormedInterfaces, Records;
  }

  /** A printed configuration on its own leaves nothing over. */
  lemma RoundTrip(c: Config, big: bool)
    requires WellFormedConfig(c)
    ensures ConfigAt(Print(c, big), big) == Parsed(c, |Print(c, big)|)
  {
    assert Print(c, big) + [] == Print(c, big);
    LastNonempty(c.interfaces);
    PrintThenParse(c, [], big);
  }

  lemma {:induction false} LastNonempty(l: seq<Interface>)
    requires WellFormedInterfaces(l)
    ensures l != [] ==> l[|l| - 1] != []
  {
    if |l| > 1 {
      LastNonempty(l[1..]);
    }
  }
}

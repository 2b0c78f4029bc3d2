/**
 The USB configuration-descriptor parser: nested, length-prefixed records.  A configuration holds
 interfaces, an interface holds alternate settings, an alternate setting holds endpoints, and each
 of them may carry class- or vendor-specific records ("extra") that are kept as opaque bytes.
 The record formats are those of sections 9.6.3, 9.6.5 and 9.6.6 of the USB 2.0 specification.
 */
module UsbDescriptor {

  import opened Basics

  const DT_DEVICE: byte := 1
  const DT_CONFIG: byte := 2
  const DT_INTERFACE: byte := 4
  const DT_ENDPOINT: byte := 5

  const HEADER_LENGTH := 2
  const CONFIG_LENGTH := 9
  const INTERFACE_LENGTH := 9
  const ENDPOINT_LENGTH := 7
  const ENDPOINT_AUDIO_LENGTH := 9
  const MAX_ENDPOINTS := 32
  const MAX_INTERFACES := 32

  const ERROR_IO := -1

  datatype Endpoint = Endpoint(
    bLength: byte, bDescriptorType: byte, bEndpointAddress: byte, bmAttributes: byte,
    wMaxPacketSize: nat, bInterval: byte, bRefresh: byte, bSynchAddress: byte,
    extra: seq<byte>)

  datatype AltSetting = AltSetting(
    bLength: byte, bDescriptorType: byte, bInterfaceNumber: byte, bAlternateSetting: byte,
    bNumEndpoints: byte, bInterfaceClass: byte, bInterfaceSubClass: byte,
    bInterfaceProtocol: byte, iInterface: byte,
    extra: seq<byte>, endpoints: seq<Endpoint>)

  // An interface is the sequence of its alternate settings.
  type Interface = seq<AltSetting>

  datatype Config = Config(
    bLength: byte, bDescriptorType: byte, wTotalLength: nat, bNumInterfaces: byte,
    bConfigurationValue: byte, iConfiguration: byte, bmAttributes: byte, MaxPower: byte,
    extra: seq<byte>, interfaces: seq<Interface>)

  // A 16-bit field: bus order is little-endian; big is set for host-order data on a big-endian host.
  function WordOf(b0: byte, b1: byte, big: bool): (w: nat)
    ensures w < 0x1_0000
  {
    if big then 0x100 * b0 as int + b1 as int else 0x100 * b1 as int + b0 as int
  }

  predicate Standard(t: byte) {
    t == DT_ENDPOINT || t == DT_INTERFACE || t == DT_CONFIG || t == DT_DEVICE
  }

  // ---- What the parser computes, as functions of the bytes still ahead ----

  // Skipping class- and vendor-specific records: a malformed one, one that runs past the end after
  // used bytes, or the end of the run after used bytes.
  datatype Skip = Malformed | Short(used: nat) | Done(used: nat)

  function SkipRecords(b: seq<byte>): (r: Skip)
    ensures r.Short? || r.Done? ==> r.used <= |b|
  {
    if |b| < HEADER_LENGTH then Done(0)
    else if b[0] < HEADER_LENGTH then Malformed
    else if b[0] > |b| then Short(0)
    else if Standard(b[1]) then Done(0)
    else
      match SkipRecords(b[b[0]..])
      case Malformed => Malformed
      case Short(u) => Short(b[0] as nat + u)
      case Done(u) => Done(b[0] as nat + u)
  }

  // An error return, a return of 0 ("no such record here"), or a value and its length in bytes.
  datatype Parse<T> = Failed | Nothing | Parsed(value: T, used: nat)

  // The fields of an endpoint record; the audio extension is zero unless the record has it.
  function EndpointFields(b: seq<byte>, big: bool): (e: Endpoint)
    requires |b| >= 1 && ENDPOINT_LENGTH <= b[0] <= |b|
  {
    var audio := b[0] >= ENDPOINT_AUDIO_LENGTH;
    Endpoint(b[0], b[1], b[2], b[3], WordOf(b[4], b[5], big), b[6],
             if audio then b[7] else 0, if audio then b[8] else 0, [])
  }

  function EndpointAt(b: seq<byte>, big: bool): (r: Parse<Endpoint>)
    ensures r.Parsed? ==> 0 < r.used <= |b|
  {
    if |b| < HEADER_LENGTH then Failed
    else if b[1] != DT_ENDPOINT then Nothing
    else if b[0] > |b| then Nothing
    else if b[0] < ENDPOINT_LENGTH then Failed
    else
      var e, rest := EndpointFields(b, big), b[b[0]..];
      match SkipRecords(rest)
      case Malformed => Failed
      case Short(u) => Parsed(e, b[0] as nat + u)
      case Done(u) => Parsed(e.(extra := rest[..u]), b[0] as nat + u)
  }

  // The list parse r, after the records xs that took the u bytes in front of it.
  function Continue<T>(xs: seq<T>, u: nat, r: Parse<seq<T>>): Parse<seq<T>> {
    match r
    case Parsed(more, v) => Parsed(xs + more, u + v)
    case _ => Failed
  }

  lemma ContinueTwice<T>(xs: seq<T>, u: nat, ys: seq<T>, v: nat, r: Parse<seq<T>>)
    ensures Continue(xs, u, Continue(ys, v, r)) == Continue(xs + ys, u + v, r)
  {
    if r.Parsed? {
      assert xs + (ys + r.value) == (xs + ys) + r.value;
    }
  }

  lemma ContinueStart<T>(r: Parse<seq<T>>)
    requires !r.Nothing?
    ensures Continue([], 0, r) == r
  {
    if r.Parsed? {
      assert [] + r.value == r.value;
    }
  }

  lemma ContinueEnd<T>(xs: seq<T>, u: nat)
    ensures Continue(xs, u, Parsed([], 0)) == Parsed(xs, u)
  {
    assert xs + [] == xs;
  }

  // Up to n endpoints; the first that is not there ends the list.
  function EndpointsAt(b: seq<byte>, n: nat, big: bool): (r: Parse<seq<Endpoint>>)
    ensures !r.Nothing? && (r.Parsed? ==> r.used <= |b| && |r.value| <= n)
  {
    if n == 0 then Parsed([], 0)
    else
      match EndpointAt(b, big)
      case Failed => Failed
      case Nothing => Parsed([], 0)
      case Parsed(e, u) =>
        Continue([e], u, EndpointsAt(b[u..], n - 1, big))
  }

  function AltFields(b: seq<byte>): (a: AltSetting)
    requires |b| >= INTERFACE_LENGTH
  {
    AltSetting(b[0], b[1], b[2], b[3], b[4], b[5], b[6], b[7], b[8], [], [])
  }

  // One alternate setting with its extra bytes and endpoints; more says whether the loop goes on.
  function AltAt(b: seq<byte>, big: bool): (r: Parse<(AltSetting, bool)>)
    ensures r.Parsed? ==> 0 < r.used <= |b|
  {
    if |b| < INTERFACE_LENGTH || b[1] != DT_INTERFACE then Nothing
    else if b[0] < INTERFACE_LENGTH then Failed
    else if b[0] > |b| then Nothing
    else if b[4] > MAX_ENDPOINTS then Failed
    else
      var a, rest := AltFields(b), b[b[0]..];
      match SkipRecords(rest)
      case Malformed => Failed
      case Short(u) => Parsed((a, false), b[0] as nat + u)
      case Done(u) =>
        match EndpointsAt(rest[u..], b[4] as nat, big)
        case Parsed(es, v) =>
          Parsed((a.(extra := rest[..u], endpoints := es, bNumEndpoints := |es|), true), b[0] as nat + u + v)
        case _ => Failed
  }

  // Another alternate setting of interface number follows.
  predicate SameInterface(b: seq<byte>, number: byte) {
    |b| >= INTERFACE_LENGTH && b[1] == DT_INTERFACE && b[2] == number
  }

  function InterfaceAt(b: seq<byte>, big: bool): (r: Parse<Interface>)
    ensures !r.Nothing? && (r.Parsed? ==> r.used <= |b| && (r.used == 0 <==> r.value == []))
  {
    match AltAt(b, big)
    case Failed => Failed
    case Nothing => Parsed([], 0)
    case Parsed((a, more), u) =>
      if !more || !SameInterface(b[u..], a.bInterfaceNumber) then Parsed([a], u)
      else Continue([a], u, InterfaceAt(b[u..], big))
  }

  datatype Interfaces = Interfaces(extra: seq<byte>, list: seq<Interface>)

  function ContinueInterfaces(xs: seq<Interface>, u: nat, r: Parse<Interfaces>): Parse<Interfaces> {
    match r
    case Parsed(more, v) => Parsed(Interfaces(more.extra, xs + more.list), u + v)
    case _ => Failed
  }

  lemma ContinueInterfacesTwice(xs: seq<Interface>, u: nat, ys: seq<Interface>, v: nat, r: Parse<Interfaces>)
    ensures ContinueInterfaces(xs, u, ContinueInterfaces(ys, v, r)) == ContinueInterfaces(xs + ys, u + v, r)
  {
    if r.Parsed? {
      assert xs + (ys + r.value.list) == (xs + ys) + r.value.list;
    }
  }

  lemma ContinueInterfacesEnds(xs: seq<Interface>, u: nat, v: nat, extra: seq<byte>, r: Parse<Interfaces>)
    ensures ContinueInterfaces(xs, u, Parsed(Interfaces(extra, []), v)) == Parsed(Interfaces(extra, xs), u + v)
    ensures !r.Nothing? ==> ContinueInterfaces([], 0, r) == r
  {
    assert xs + [] == xs;
    if r.Parsed? {
      assert [] + r.value.list == r.value.list;
    }
  }

  // One turn of the configuration loop: an error, the end of the list, or one more interface; with
  // the configuration extra bytes kept so far and the bytes taken.
  datatype Turn = Error | Stop(extra: seq<byte>, used: nat) | Took(extra: seq<byte>, interface: Interface, used: nat)

  function NextInterface(b: seq<byte>, extra: seq<byte>, big: bool): (r: Turn)
    ensures !r.Error? ==> r.used <= |b|
    ensures r.Took? ==> r.used > 0 && r.interface != []
  {
    match SkipRecords(b)
    case Malformed => Error
    case Short(u) => Stop(extra, u)
    case Done(u) =>
      var extra' := if u > 0 && extra == [] then b[..u] else extra;
      match InterfaceAt(b[u..], big)
      case Parsed(alts, v) => if v == 0 then Stop(extra', u) else Took(extra', alts, u + v)
      case _ => Error
  }

  // Up to n interfaces.
  function InterfacesAt(b: seq<byte>, n: nat, extra: seq<byte>, big: bool): (r: Parse<Interfaces>)
    ensures !r.Nothing? && (r.Parsed? ==> r.used <= |b| && |r.value.list| <= n)
  {
    if n == 0 then Parsed(Interfaces(extra, []), 0)
    else
      match NextInterface(b, extra, big)
      case Error => Failed
      case Stop(extra', u) => Parsed(Interfaces(extra', []), u)
      case Took(extra', alts, u) => ContinueInterfaces([alts], u, InterfacesAt(b[u..], n - 1, extra', big))
  }

  function ConfigFields(b: seq<byte>, big: bool): (c: Config)
    requires |b| >= CONFIG_LENGTH
  {
    Config(b[0], b[1], WordOf(b[2], b[3], big), b[4], b[5], b[6], b[7], b[8], [], [])
  }

  function ConfigAt(b: seq<byte>, big: bool): (r: Parse<Config>)
    ensures !r.Nothing? && (r.Parsed? ==> r.used <= |b|)
  {
    if |b| < CONFIG_LENGTH || b[1] != DT_CONFIG || b[0] < CONFIG_LENGTH || b[0] > |b| || b[4] > MAX_INTERFACES then
      Failed
    else
      match InterfacesAt(b[b[0]..], b[4] as nat, [], big)
      case Parsed(ifs, u) =>
        Parsed(ConfigFields(b, big).(extra := ifs.extra, interfaces := ifs.list, bNumInterfaces := |ifs.list|),
               b[0] as nat + u)
      case _ => Failed
  }
}

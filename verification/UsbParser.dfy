/**
 The descriptor parser as it runs: cursors advanced in loops over the raw bytes, proved against
 the functions of UsbDescriptor.  Every index below is checked to be inside the buffer.
 */
module UsbParser {
  import opened Basics
  import opened UsbDescriptor

  // ---- Format strings: b is a byte, w a 16-bit word, d a 32-bit word, u a 16-byte UUID ----

  function FieldWidth(c: char): nat {
    if c == 'b' then 1 else if c == 'w' then 2 else if c == 'd' then 4 else if c == 'u' then 16 else 0
  }

  function Width(fmt: string): nat {
    if fmt == "" then 0 else FieldWidth(fmt[0]) + Width(fmt[1..])
  }

  function Number(b: seq<byte>, big: bool): (n: nat) {
    if b == [] then 0
    else if big then 0x100 * Number(b[..|b| - 1], big) + b[|b| - 1] as int
    else b[0] as int + 0x100 * Number(b[1..], big)
  }

  // The value of a field, if it has any width; a UUID is kept as one big-endian number.
  function Field(c: char, b: seq<byte>, big: bool): (f: seq<nat>)
    requires FieldWidth(c) <= |b|
  {
    var w := FieldWidth(c);
    if w == 0 then [] else [Number(b[..w], big || w == 16)]
  }

  function Fields(fmt: string, b: seq<byte>, big: bool): (fs: seq<nat>)
    requires Width(fmt) <= |b|
  {
    if fmt == "" then [] else Field(fmt[0], b, big) + Fields(fmt[1..], b[FieldWidth(fmt[0])..], big)
  }

  lemma {:induction false} FieldsAppend(fmt: string, c: char, b: seq<byte>, big: bool)
    requires Width(fmt) + FieldWidth(c) <= |b| && Width(fmt + [c]) <= |b|
    ensures Fields(fmt + [c], b, big) == Fields(fmt, b, big) + Field(c, b[Width(fmt)..], big)
  {
    hide Field, FieldWidth;
    if fmt == "" {
      assert fmt + [c] == [c] && b[0..] == b;
      assert Fields([c], b, big) == Field(c, b, big) + [];
    } else {
      var w := FieldWidth(fmt[0]);
      assert (fmt + [c])[0] == fmt[0] && (fmt + [c])[1..] == fmt[1..] + [c];
      FieldsAppend(fmt[1..], c, b[w..], big);
      assert b[w..][Width(fmt[1..])..] == b[Width(fmt)..];
    }
  }

  lemma {:induction false} WidthAppend(fmt: string, c: char)
    ensures Width(fmt + [c]) == Width(fmt) + FieldWidth(c)
  {
    if fmt == "" {
      assert fmt + [c] == [c] && [c][1..] == "";
    } else {
      assert (fmt + [c])[0] == fmt[0] && (fmt + [c])[1..] == fmt[1..] + [c];
      WidthAppend(fmt[1..], c);
    }
  }

  method ParseDescriptor(source: seq<byte>, fmt: string, big: bool) returns (fields: seq<nat>, used: nat)
    requires Width(fmt) <= |source|
    ensures fields == Fields(fmt, source, big) && used == Width(fmt)
  {
    hide Number;
    fields, used := [], 0;
    var i := 0;
    while i < |fmt|
      invariant 0 <= i <= |fmt| && used == Width(fmt[..i])
      invariant Width(fmt[..i]) <= |source| && fields == Fields(fmt[..i], source, big)
    {
      assert fmt[..i + 1] == fmt[..i] + [fmt[i]];
      WidthAppend(fmt[..i], fmt[i]);
      WidthPrefix(fmt, i + 1);
      FieldsAppend(fmt[..i], fmt[i], source, big);
      var w := FieldWidth(fmt[i]);
      if w > 0 {
        assert source[used..][..w] == source[used..used + w];
        fields := fields + [Number(source[used..used + w], big || w == 16)];
        used := used + w;
      }
      i := i + 1;
    }
    assert fmt[..|fmt|] == fmt;
  }

  lemma {:induction false} WidthPrefix(fmt: string, i: nat)
    requires i <= |fmt|
    ensures Width(fmt[..i]) <= Width(fmt)
  {
    if i > 0 {
      assert fmt[..i][0] == fmt[0] && fmt[..i][1..] == fmt[1..][..i - 1];
      WidthPrefix(fmt[1..], i - 1);
    }
  }

  lemma ByteField(rest: string, b: seq<byte>, big: bool)
    requires 1 + Width(rest) <= |b|
    ensures Width("b" + rest) == 1 + Width(rest)
    ensures Fields("b" + rest, b, big) == [b[0]] + Fields(rest, b[1..], big)
  {
    var fmt := "b" + rest;
    assert fmt[0] == 'b' && fmt[1..] == rest;
    assert b[..1] == [b[0]];
    NumberOfOne(b[0], big);
  }

  lemma WordField(rest: string, b: seq<byte>, big: bool)
    requires 2 + Width(rest) <= |b|
    ensures Width("w" + rest) == 2 + Width(rest)
    ensures Fields("w" + rest, b, big) == [WordOf(b[0], b[1], big)] + Fields(rest, b[2..], big)
  {
    var fmt := "w" + rest;
    assert fmt[0] == 'w' && fmt[1..] == rest;
    assert b[..2] == [b[0], b[1]];
    NumberOfTwo(b[0], b[1], big);
  }

  // The wider fields: 32 bits in bus order or the host's, and a UUID as 16 bytes in order.
  lemma WideField(c: char, rest: string, b: seq<byte>, big: bool)
    requires c == 'd' || c == 'u'
    requires (if c == 'd' then 4 else 16) + Width(rest) <= |b|
    ensures var w := if c == 'd' then 4 else 16;
      && Width([c] + rest) == w + Width(rest)
      && Fields([c] + rest, b, big) == [Number(b[..w], big || c == 'u')] + Fields(rest, b[w..], big)
  {
    var fmt := [c] + rest;
    assert fmt[0] == c && fmt[1..] == rest;
  }

  // Any other letter takes nothing.
  lemma OtherLetter(c: char, rest: string, b: seq<byte>, big: bool)
    requires c != 'b' && c != 'w' && c != 'd' && c != 'u' && Width(rest) <= |b|
    ensures Width([c] + rest) == Width(rest) && Fields([c] + rest, b, big) == Fields(rest, b, big)
  {
    var fmt := [c] + rest;
    assert fmt[0] == c && fmt[1..] == rest;
    assert b[0..] == b;
  }

  lemma NumberOfFour(w: byte, x: byte, y: byte, z: byte, big: bool)
    ensures Number([w, x, y, z], big) ==
            if big then 0x1000000 * w as int + 0x10000 * x as int + 0x100 * y as int + z as int
            else 0x1000000 * z as int + 0x10000 * y as int + 0x100 * x as int + w as int
  {
    var b: seq<byte> := [w, x, y, z];
    if big {
      assert b[..3] == [w, x, y] && [w, x, y][..2] == [w, x];
      NumberOfTwo(w, x, big);
    } else {
      assert b[1..] == [x, y, z] && [x, y, z][1..] == [y, z];
      NumberOfTwo(y, z, big);
    }
  }

  lemma NumberOfOne(x: byte, big: bool)
    ensures Number([x], big) == x
  {
    assert [x][..0] == [] && [x][1..] == [];
  }

  lemma NumberOfTwo(x: byte, y: byte, big: bool)
    ensures Number([x, y], big) == WordOf(x, y, big)
  {
    assert [x, y][..1] == [x] && [x, y][1..] == [y];
    NumberOfOne(x, big);
    NumberOfOne(y, big);
  }

  lemma OneByte(b: seq<byte>, big: bool)
    requires |b| >= 1
    ensures Width("b") == 1 && Fields("b", b, big) == [b[0]]
  {
    ByteField("", b, big);
    assert "b" + "" == "b";
  }

  // The format strings of the records, decoded.
  lemma HeaderFormat(b: seq<byte>, big: bool)
    requires |b| >= HEADER_LENGTH
    ensures Width("bb") == HEADER_LENGTH && Fields("bb", b, big) == [b[0], b[1]]
  {
    hide Fields, Width;
    OneByte(b[1..], big);
    ByteField("b", b, big);
    assert "b" + "b" == "bb";
  }

  lemma EndpointFormat(b: seq<byte>, big: bool)
    requires |b| >= ENDPOINT_LENGTH
    ensures Width("bbbbwb") == ENDPOINT_LENGTH
    ensures Fields("bbbbwb", b, big) == [b[0], b[1], b[2], b[3], WordOf(b[4], b[5], big), b[6]]
  {
    hide Fields, Width;
    OneByte(b[6..], big);
    FourBytesThenWord("b", b, big);
    assert "bbbbw" + "b" == "bbbbwb";
  }

  lemma AudioEndpointFormat(b: seq<byte>, big: bool)
    requires |b| >= ENDPOINT_AUDIO_LENGTH
    ensures Width("bbbbwbbb") == ENDPOINT_AUDIO_LENGTH
    ensures Fields("bbbbwbbb", b, big) == [b[0], b[1], b[2], b[3], WordOf(b[4], b[5], big), b[6], b[7], b[8]]
  {
    hide Fields, Width;
    HeaderFormat(b[7..], big);
    ByteField("bb", b[6..], big);
    assert "b" + "bb" == "bbb" && b[6..][1..] == b[7..];
    FourBytesThenWord("bbb", b, big);
    assert "bbbbw" + "bbb" == "bbbbwbbb";
  }

  lemma FourBytesThenWord(rest: string, b: seq<byte>, big: bool)
    requires 6 + Width(rest) <= |b|
    ensures Width("bbbbw" + rest) == 6 + Width(rest)
    ensures Fields("bbbbw" + rest, b, big) ==
            [b[0], b[1], b[2], b[3], WordOf(b[4], b[5], big)] + Fields(rest, b[6..], big)
  {
    hide Fields, Width;
    WordField(rest, b[4..], big);
    ByteField("w" + rest, b[3..], big);
    assert "b" + ("w" + rest) == "bw" + rest;
    ByteField("bw" + rest, b[2..], big);
    assert "b" + ("bw" + rest) == "bbw" + rest;
    ByteField("bbw" + rest, b[1..], big);
    assert "b" + ("bbw" + rest) == "bbbw" + rest;
    ByteField("bbbw" + rest, b, big);
    assert "b" + ("bbbw" + rest) == "bbbbw" + rest;
    assert b[4..][2..] == b[6..];
  }

  // ---- The record parsers ----

  method SkipExtra(source: seq<byte>) returns (r: Skip)
    ensures r == SkipRecords(source)
  {
    var buffer, size := source, |source|;
    ghost var parsed := 0;
    while size >= HEADER_LENGTH
      invariant size == |buffer| && parsed + size == |source| && buffer == source[parsed..]
      invariant SkipRecords(source) ==
                match SkipRecords(buffer)
                case Malformed => Malformed
                case Short(u) => Short(parsed + u)
                case Done(u) => Done(parsed + u)
    {
      var length, descriptorType := buffer[0], buffer[1];
      if length < HEADER_LENGTH {
        return Malformed;
      } else if length > size {
        return Short(|source| - size);
      }
      if Standard(descriptorType) {
        break;
      }
      buffer := buffer[length..];
      size := size - length;
      parsed := parsed + length;
    }
    return Done(|source| - size);
  }

  // The endpoint's audio fields stay zero unless set, as in the zeroed array of the caller.
  method ParseEndpoint(source: seq<byte>, big: bool) returns (r: int, endpoint: Endpoint)
    ensures
      match EndpointAt(source, big)
      case Failed => r == -1
      case Nothing => r == 0
      case Parsed(e, u) => r == u && endpoint == e
  {
    hide Fields, Width, SkipRecords;
    endpoint := Endpoint(0, 0, 0, 0, 0, 0, 0, 0, []);
    var size := |source|;
    if size < HEADER_LENGTH {
      return ERROR_IO, endpoint;
    }
    HeaderFormat(source, false);
    var header, _ := ParseDescriptor(source, "bb", false);
    if header[1] != DT_ENDPOINT {
      return 0, endpoint;
    }
    if header[0] > size {
      return 0, endpoint;
    }
    if header[0] < ENDPOINT_LENGTH {
      return ERROR_IO, endpoint;
    }
    if header[0] >= ENDPOINT_AUDIO_LENGTH {
      AudioEndpointFormat(source, big);
      var f, _ := ParseDescriptor(source, "bbbbwbbb", big);
      endpoint := Endpoint(f[0], f[1], f[2], f[3], f[4], f[5], f[6], f[7], []);
    } else {
      EndpointFormat(source, big);
      var f, _ := ParseDescriptor(source, "bbbbwb", big);
      endpoint := Endpoint(f[0], f[1], f[2], f[3], f[4], f[5], 0, 0, []);
    }
    var parsed := header[0];
    var rest := source[source[0]..];
    var skipped := SkipExtra(rest);
    match skipped {
      case Malformed => return ERROR_IO, endpoint;
      case Short(u) => return parsed + u, endpoint;
      case Done(u) =>
        endpoint := endpoint.(extra := rest[..u]);
        return parsed + u, endpoint;
    }
  }

  method ParseEndpoints(source: seq<byte>, n: nat, big: bool) returns (r: int, endpoints: seq<Endpoint>)
    ensures
      match EndpointsAt(source, n, big)
      case Parsed(es, u) => r == u && endpoints == es
      case _ => r == -1
  {
    endpoints := [];
    var buffer: seq<byte>, parsed: nat := source, 0;
    ContinueStart(EndpointsAt(source, n, big));
    for i := 0 to n
      invariant parsed + |buffer| == |source|
      invariant EndpointsAt(source, n, big) == Continue(endpoints, parsed, EndpointsAt(buffer, n - i, big))
    {
      var used, e := ParseEndpoint(buffer, big);
      if used < 0 {
        return ERROR_IO, [];
      }
      if used == 0 {
        ContinueEnd(endpoints, parsed);
        return parsed, endpoints;
      }
      ContinueTwice(endpoints, parsed, [e], used, EndpointsAt(buffer[used..], n - i - 1, big));
      endpoints := endpoints + [e];
      buffer := buffer[used..];
      parsed := parsed + used;
    }
    ContinueEnd(endpoints, parsed);
    return parsed, endpoints;
  }

  // One altsetting; more is false when its extra bytes run past the end.
  method ParseAlt(source: seq<byte>, big: bool) returns (r: int, altsetting: AltSetting, more: bool)
    requires |source| >= INTERFACE_LENGTH
    ensures
      match AltAt(source, big)
      case Failed => r == -1
      case Nothing => r == 0
      case Parsed((a, m), u) => r == u && altsetting == a && more == m && a.bInterfaceNumber == source[2]
  {
    altsetting, more := AltFields(source), true;
    if altsetting.bDescriptorType != DT_INTERFACE {
      return 0, altsetting, more;
    }
    if altsetting.bLength < INTERFACE_LENGTH {
      return ERROR_IO, altsetting, more;
    }
    if altsetting.bLength > |source| {
      return 0, altsetting, more;
    }
    if altsetting.bNumEndpoints > MAX_ENDPOINTS {
      return ERROR_IO, altsetting, more;
    }
    var rest := source[altsetting.bLength..];
    var skipped := SkipExtra(rest);
    if skipped.Malformed? {
      return ERROR_IO, altsetting, more;
    } else if skipped.Short? {
      return source[0] as int + skipped.used, altsetting, false;
    }
    altsetting := altsetting.(extra := rest[..skipped.used]);
    r := source[0] as int + skipped.used;
    if altsetting.bNumEndpoints > 0 {
      var used, es := ParseEndpoints(rest[skipped.used..], altsetting.bNumEndpoints, big);
      if used < 0 {
        return ERROR_IO, altsetting, more;
      }
      altsetting := altsetting.(endpoints := es, bNumEndpoints := |es|);
      r := r + used;
    }
  }

  method ParseInterface(source: seq<byte>, big: bool) returns (r: int, altsettings: Interface)
    ensures
      match InterfaceAt(source, big)
      case Parsed(alts, u) => r == u && altsettings == alts
      case _ => r == -1
  {
    hide AltAt;
    altsettings := [];
    var buffer: seq<byte>, size, parsed: nat := source, |source|, 0;
    var interfaceNumber: int := -1;
    ContinueStart(InterfaceAt(source, big));
    while size >= INTERFACE_LENGTH
      invariant size == |buffer| && parsed + size == |source|
      invariant interfaceNumber == -1 <==> altsettings == []
      invariant altsettings != [] ==> |buffer| >= INTERFACE_LENGTH && buffer[2] == interfaceNumber
      invariant InterfaceAt(source, big) == Continue(altsettings, parsed, InterfaceAt(buffer, big))
    {
      var used, a, more := ParseAlt(buffer, big);
      if used < 0 {
        return ERROR_IO, [];
      }
      if used == 0 {
        ContinueEnd(altsettings, parsed);
        return parsed, altsettings;
      }
      if interfaceNumber == -1 {
        interfaceNumber := a.bInterfaceNumber;
      }
      ContinueTwice(altsettings, parsed, [a], used, InterfaceAt(buffer[used..], big));
      altsettings := altsettings + [a];
      buffer := buffer[used..];
      parsed, size := parsed + used, size - used;
      if !more || size < INTERFACE_LENGTH || buffer[1] != DT_INTERFACE || buffer[2] != interfaceNumber {
        return parsed, altsettings;
      }
    }
    TooShortForInterface(buffer, big);
    ContinueEnd(altsettings, parsed);
    return parsed, altsettings;
  }

  lemma TooShortForInterface(b: seq<byte>, big: bool)
    requires |b| < INTERFACE_LENGTH
    ensures InterfaceAt(b, big) == Parsed([], 0)
  {
  }

  // Returns the number of bytes left over, or an error.
  method ParseConfiguration(source: seq<byte>, big: bool) returns (r: int, config: Config)
    ensures
      match ConfigAt(source, big)
      case Parsed(c, u) => r == |source| - u && config == c
      case _ => r == -1
  {
    config := Config(0, 0, 0, 0, 0, 0, 0, 0, [], []);
    var size := |source|;
    if size < CONFIG_LENGTH {
      return ERROR_IO, config;
    }
    config := ConfigFields(source, big);
    if config.bDescriptorType != DT_CONFIG || config.bLength < CONFIG_LENGTH || config.bLength > size
      || config.bNumInterfaces > MAX_INTERFACES {
      return ERROR_IO, config;
    }
    var rest := source[config.bLength..];
    var left, ifs := ParseInterfaces(rest, config.bNumInterfaces, big);
    if left < 0 {
      return ERROR_IO, config;
    }
    return left, config.(extra := ifs.extra, interfaces := ifs.list, bNumInterfaces := |ifs.list|);
  }

  method ParseNext(source: seq<byte>, extra: seq<byte>, big: bool) returns (r: Turn)
    ensures r == NextInterface(source, extra, big)
  {
    hide SkipRecords, InterfaceAt;
    var skipped := SkipExtra(source);
    if skipped.Malformed? {
      return Error;
    } else if skipped.Short? {
      return Stop(extra, skipped.used);
    }
    var extra' := extra;
    if skipped.used > 0 && |extra| == 0 {
      extra' := source[..skipped.used];
    }
    var used, alts := ParseInterface(source[skipped.used..], big);
    if used < 0 {
      return Error;
    }
    if used == 0 {
      return Stop(extra', skipped.used);
    }
    return Took(extra', alts, skipped.used + used);
  }

  method ParseInterfaces(source: seq<byte>, n: nat, big: bool) returns (r: int, ifs: Interfaces)
    ensures
      match InterfacesAt(source, n, [], big)
      case Parsed(is', u) => r == |source| - u && ifs == is'
      case _ => r == -1
  {
    hide NextInterface;
    ifs := Interfaces([], []);
    var buffer: seq<byte>, size := source, |source|;
    ghost var parsed: nat := 0;
    ContinueInterfacesEnds([], 0, 0, [], InterfacesAt(source, n, [], big));
    for i := 0 to n
      invariant parsed + size == |source| && size == |buffer|
      invariant InterfacesAt(source, n, [], big) ==
                ContinueInterfaces(ifs.list, parsed, InterfacesAt(buffer, n - i, ifs.extra, big))
    {
      var turn := ParseNext(buffer, ifs.extra, big);
      match turn {
        case Error =>
          return ERROR_IO, ifs;
        case Stop(extra, used) =>
          ContinueInterfacesEnds(ifs.list, parsed, used, extra, Failed);
          return size - used, ifs.(extra := extra);
        case Took(extra, alts, used) =>
          ContinueInterfacesTwice(ifs.list, parsed, [alts], used, InterfacesAt(buffer[used..], n - i - 1, extra, big));
          ifs := Interfaces(extra, ifs.list + [alts]);
          buffer := buffer[used..];
          parsed, size := parsed + used, size - used;
      }
    }
    ContinueInterfacesEnds(ifs.list, parsed, 0, ifs.extra, Failed);
    return size, ifs;
  }
}

/**
 The saved-settings file as text: lines "key = value", how one is found, and the C library's
 reading of whole numbers.
 */
module SettingsText {
  import opened Basics
  import opened SettingsKeys

  const MAX_LINE: nat := 256

  // ---- Lines ----

  // How much the next fgets takes: through a newline, but no more than the buffer holds.
  function Taken(s: string, room: nat): (n: nat)
    ensures n <= |s| && n <= room
    ensures s != [] && room > 0 ==> n > 0
    decreases room
  {
    if s == [] || room == 0 then 0
    else if s[0] == '\n' then 1
    else 1 + Taken(s[1..], room - 1)
  }

  const DELIMITER: string := " = "

  predicate StartsWith(s: string, prefix: string) {
    |prefix| <= |s| && s[..|prefix|] == prefix
  }

  predicate Matches(line: string, key: string) {
    StartsWith(line, key) && StartsWith(line[|key|..], DELIMITER)
  }

  // What follows the delimiter, without the newline.
  function UpToNewline(s: string): string {
    if s == [] || s[0] == '\n' then [] else [s[0]] + UpToNewline(s[1..])
  }

  function Lookup(file: string, key: string): Option<string>
    decreases |file|
  {
    if file == [] then None else
      var n := Taken(file, MAX_LINE);
      if Matches(file[..n], key) then Some(UpToNewline(file[..n][|key| + |DELIMITER|..]))
      else Lookup(file[n..], key)
  }

  function Line(key: string, value: string): string {
    key + DELIMITER + value + "\n"
  }

  lemma {:induction false} TakesLine(s: string, rest: string, room: nat)
    requires OneLine(s) && |s| + 1 <= room
    ensures Taken(s + "\n" + rest, room) == |s| + 1
    decreases |s|
  {
    var t := s + "\n" + rest;
    if s == [] {
      assert t[0] == '\n';
    } else {
      assert t[1..] == s[1..] + "\n" + rest;
      TakesLine(s[1..], rest, room - 1);
    }
  }

  lemma {:induction false} NewlineEnds(s: string)
    requires OneLine(s)
    ensures UpToNewline(s + "\n") == s
  {
    if s == [] {
      assert s + "\n" == "\n";
    } else {
      assert (s + "\n")[1..] == s[1..] + "\n";
      NewlineEnds(s[1..]);
      assert [s[0]] + s[1..] == s;
    }
  }

  /** A line matches a key exactly when it is the key's own line, whatever the value. */
  lemma MatchesOwnLine(key: string, own: string, value: string)
    requires Plain(key) && Plain(own)
    ensures Matches(Line(own, value), key) <==> key == own
  {
    var line := Line(own, value);
    if key == own {
      assert line[..|key|] == key && line[|key|..][..3] == DELIMITER;
    } else if Matches(line, key) {
      OtherKey(line, key, own, value);
      assert false;
    }
  }

  lemma OtherKey(line: string, key: string, own: string, value: string)
    requires Plain(key) && Plain(own) && line == Line(own, value) && Matches(line, key)
    ensures key == own
  {
    assert line[|key|..][0] == ' ' && line[|key|] == ' ';
    assert line[|own|] == ' ' && line[..|own|] == own;
  }

  // A whole line in a file is found or passed over.
  lemma LookupLine(key: string, own: string, value: string, rest: string)
    requires Plain(key) && Plain(own) && OneLine(value) && |Line(own, value)| <= MAX_LINE
    ensures Lookup(Line(own, value) + rest, key) == if key == own then Some(value) else Lookup(rest, key)
  {
    hide Matches, Taken, UpToNewline;
    var line := Line(own, value);
    var file := line + rest;
    var s := own + DELIMITER + value;
    assert OneLine(s) by {
      forall i | 0 <= i < |s| ensures s[i] != '\n' {
        assert i < |own| ==> s[i] == own[i];
        assert i >= |own| + 3 ==> s[i] == value[i - |own| - 3];
      }
    }
    assert file == s + "\n" + rest;
    TakesLine(s, rest, MAX_LINE);
    assert file[..|line|] == line && file[|line|..] == rest;
    MatchesOwnLine(key, own, value);
    if key == own {
      assert line[|key| + 3..] == value + "\n";
      NewlineEnds(value);
    }
  }

  // ---- Whole numbers ----

  function Digit(d: nat): char
    requires d < 10
  {
    '0' + d as char
  }

  // How "%d" writes a number.
  function Decimal(n: int): (s: string)
    decreases if n < 0 then 1 - n else n
  {
    if n < 0 then "-" + Decimal(-n)
    else if n < 10 then [Digit(n)]
    else Decimal(n / 10) + [Digit(n % 10)]
  }

  function DigitValue(c: char): nat {
    if '0' <= c <= '9' then (c - '0') as nat
    else if 'a' <= c <= 'z' then (c - 'a') as nat + 10
    else if 'A' <= c <= 'Z' then (c - 'A') as nat + 10
    else 36
  }

  // The digits at the front of s, and what follows them.
  function Digits(s: string, base: nat, sofar: nat): (nat, string)
    decreases |s|
  {
    if s == [] || DigitValue(s[0]) >= base then (sofar, s)
    else Digits(s[1..], base, base * sofar + DigitValue(s[0]))
  }

  function Unsigned(s: string): (nat, string) {
    if |s| >= 3 && s[0] == '0' && (s[1] == 'x' || s[1] == 'X') && DigitValue(s[2]) < 16 then Digits(s[2..], 16, 0)
    else if s != [] && s[0] == '0' then Digits(s, 8, 0)
    else Digits(s, 10, 0)
  }

  function SkipSpace(s: string): string {
    if s != [] && (s[0] == ' ' || '\t' <= s[0] <= '\r') then SkipSpace(s[1..]) else s
  }

  const LONG_MAX: int := 0x7fff_ffff_ffff_ffff

  function Saturated(n: int): int {
    if n > LONG_MAX then LONG_MAX else if n < -LONG_MAX - 1 then -LONG_MAX - 1 else n
  }

  // strtol with base 0: the value, and the text behind it, which is all of it when it does not
  // start with a number.
  function Strtol(s: string): (int, string) {
    var t := SkipSpace(s);
    var signed := t != [] && (t[0] == '-' || t[0] == '+');
    var u := if signed then t[1..] else t;
    var (n, rest) := Unsigned(u);
    if rest == u then (0, s)
    else
      var v: int := n;
      (Saturated(if signed && t[0] == '-' then -v else v), rest)
  }

  // A long stored in a 32-bit int.
  function ToInt(n: int): int {
    (n + 0x8000_0000) % 0x1_0000_0000 - 0x8000_0000
  }

  lemma {:induction false} DecimalDigits(n: nat)
    ensures Decimal(n) != [] && (n > 0 ==> Decimal(n)[0] != '0')
    ensures forall i | 0 <= i < |Decimal(n)| :: '0' <= Decimal(n)[i] <= '9'
    ensures n < 10 ==> |Decimal(n)| == 1
  {
    if n >= 10 {
      DecimalDigits(n / 10);
    }
  }

  // Short enough for any line.
  lemma {:induction false} DecimalShort(n: nat, k: nat)
    requires n < Pow10(k) && k > 0
    ensures |Decimal(n)| <= k
  {
    if n >= 10 {
      assert k > 1;
      DecimalShort(n / 10, k - 1);
    }
  }

  function Pow10(k: nat): nat {
    if k == 0 then 1 else 10 * Pow10(k - 1)
  }

  lemma {:induction false} DigitsJoin(s: string, c: char, base: nat, sofar: nat)
    requires forall i | 0 <= i < |s| :: DigitValue(s[i]) < base
    ensures Digits(s + [c], base, sofar) == Digits([c], base, Digits(s, base, sofar).0)
    decreases |s|
  {
    if s == [] {
      assert s + [c] == [c];
    } else {
      assert (s + [c])[1..] == s[1..] + [c];
      DigitsJoin(s[1..], c, base, base * sofar + DigitValue(s[0]));
    }
  }

  lemma {:induction false} DigitsOfDecimal(n: nat)
    ensures Digits(Decimal(n), 10, 0) == (n, [])
  {
    if n >= 10 {
      DigitsOfDecimal(n / 10);
      DecimalDigits(n / 10);
      DigitsJoin(Decimal(n / 10), Digit(n % 10), 10, 0);
    }
  }

  lemma UnsignedOfDecimal(n: nat)
    ensures Unsigned(Decimal(n)) == (n, [])
  {
    var s := Decimal(n);
    DecimalDigits(n);
    DigitsOfDecimal(n);
    if n == 0 {
      assert Digits(s, 8, 0) == Digits(s[1..], 8, 0);
    }
    hide Decimal;
  }

  lemma NoSignNoSpace(s: string)
    requires s != [] && '0' <= s[0] <= '9' && Unsigned(s).1 == []
    ensures Strtol(s) == (Saturated(Unsigned(s).0), [])
  {
    hide Unsigned, Saturated;
  }

  /** A whole number that an int can hold reads back as it was written. */
  lemma StrtolOfDecimal(n: nat)
    requires n <= 0x7fff_ffff
    ensures Strtol(Decimal(n)) == (n, []) && ToInt(n) == n
  {
    DecimalDigits(n);
    UnsignedOfDecimal(n);
    NoSignNoSpace(Decimal(n));
    hide Decimal, Unsigned, Strtol;
  }
}

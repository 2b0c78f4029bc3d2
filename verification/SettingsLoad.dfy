/**
 What loading a settings file means: the file is lines of text, the first line "key = value" of each
 key gives its setting, and numbers are kept within bounds by moving them as little as possible.
 */
module SettingsLoad {
  import opened Basics
  import opened SettingsKeys
  import opened SettingsText
  import opened SettingsStore

  // ---- The file as lines ----

  function Text(ls: seq<string>): string {
    if ls == [] then [] else ls[0] + "\n" + Text(ls[1..])
  }

  // Lines that fit the buffer of 256 characters with their newlines.
  predicate Lines(ls: seq<string>) {
    forall i | 0 <= i < |ls| :: OneLine(ls[i]) && |ls[i]| < 256
  }

  // Line j is the first that begins with the key and the delimiter.
  predicate FirstOf(ls: seq<string>, key: string, j: nat) {
    j < |ls| && key + " = " <= ls[j] && forall i | 0 <= i < j :: !(key + " = " <= ls[i])
  }

  predicate Missing(ls: seq<string>, key: string) {
    forall i | 0 <= i < |ls| :: !(key + " = " <= ls[i])
  }

  lemma MatchesPrefix(line: string, key: string)
    ensures Matches(line, key) <==> key + " = " <= line
  {
    if key + " = " <= line {
      var p := line[..|key| + 3];
      assert p == key + " = ";
      assert line[..|key|] == p[..|key|] == key && line[|key|..][..3] == p[|key|..] == " = ";
    }
  }

  lemma PrefixOfLine(line: string, key: string)
    ensures key + " = " <= line + "\n" <==> key + " = " <= line
  {
    var p := key + " = ";
    if p <= line + "\n" {
      assert (line + "\n")[..|p|] == p;
      assert p[|p| - 1] == ' ';
      assert |p| <= |line|;
      assert (line + "\n")[..|p|] == line[..|p|];
    }
  }

  // One whole line is the key's, or is passed over.
  lemma LookupWholeLine(line: string, rest: string, key: string)
    requires OneLine(line) && |line| < 256
    ensures Lookup(line + "\n" + rest, key) ==
            if key + " = " <= line then Some(line[|key| + 3..]) else Lookup(rest, key)
  {
    hide Matches, Taken, UpToNewline, OneLine;
    var file, buf := line + "\n" + rest, line + "\n";
    TakesLine(line, rest, MAX_LINE);
    assert file[..|buf|] == buf && file[|buf|..] == rest;
    MatchesPrefix(buf, key);
    PrefixOfLine(line, key);
    if key + " = " <= line {
      ValueEnds(line, |key| + 3);
    }
  }

  lemma ValueEnds(line: string, i: nat)
    requires OneLine(line) && i <= |line|
    ensures UpToNewline((line + "\n")[i..]) == line[i..]
  {
    hide UpToNewline, OneLine;
    assert (line + "\n")[i..] == line[i..] + "\n";
    OneLineRest(line, i);
    NewlineEnds(line[i..]);
  }

  lemma OneLineRest(line: string, i: nat)
    requires OneLine(line) && i <= |line|
    ensures OneLine(line[i..])
  {
  }

  /** The first line of the key gives the value: all that stands behind the delimiter. */
  lemma {:induction false} FoundFirst(ls: seq<string>, key: string, j: nat)
    requires Lines(ls) && FirstOf(ls, key, j)
    ensures Lookup(Text(ls), key) == Some(ls[j][|key| + 3..])
  {
    hide Lookup, OneLine;
    LookupWholeLine(ls[0], Text(ls[1..]), key);
    if j > 0 {
      assert forall i | 0 <= i < |ls| - 1 :: ls[1..][i] == ls[i + 1];
      FoundFirst(ls[1..], key, j - 1);
    }
  }

  lemma {:induction false} NotFound(ls: seq<string>, key: string)
    requires Lines(ls) && Missing(ls, key)
    ensures Lookup(Text(ls), key) == None
  {
    if ls != [] {
      hide Lookup, OneLine;
      LookupWholeLine(ls[0], Text(ls[1..]), key);
      assert forall i | 0 <= i < |ls| - 1 :: ls[1..][i] == ls[i + 1];
      NotFound(ls[1..], key);
    }
  }

  /** A longer line is taken in pieces of 256 characters, each of them compared like a line. */
  lemma LookupPiece(piece: string, rest: string, key: string)
    requires OneLine(piece) && |piece| == 256
    ensures Lookup(piece + rest, key) ==
            if key + " = " <= piece then Some(piece[|key| + 3..]) else Lookup(rest, key)
  {
    hide Matches, Taken, UpToNewline;
    TakesPiece(piece, rest);
    assert (piece + rest)[..256] == piece && (piece + rest)[256..] == rest;
    MatchesPrefix(piece, key);
    if key + " = " <= piece {
      NoNewlineEnds(piece[|key| + 3..]);
    }
  }

  lemma {:induction false} TakesPiece(s: string, rest: string)
    requires OneLine(s)
    ensures Taken(s + rest, |s|) == |s|
  {
    if s == [] {
      assert s + rest == rest;
    } else {
      assert (s + rest)[1..] == s[1..] + rest;
      TakesPiece(s[1..], rest);
    }
  }

  lemma {:induction false} NoNewlineEnds(s: string)
    requires OneLine(s)
    ensures UpToNewline(s) == s
  {
    if s != [] {
      NoNewlineEnds(s[1..]);
      assert [s[0]] + s[1..] == s;
    }
  }

  // ---- Numbers as they may be written ----

  // The figure for a digit, letters in upper or lower case.
  function Figure(d: nat, upper: bool): char
    requires d < 16
  {
    if upper then "0123456789ABCDEF"[d] else "0123456789abcdef"[d]
  }

  function Numeral(n: nat, base: nat, upper: bool): (s: string)
    requires 2 <= base <= 16
    ensures s != []
  {
    if n < base then [Figure(n, upper)] else Numeral(n / base, base, upper) + [Figure(n % base, upper)]
  }

  predicate Blank(s: string) {
    forall c <- s :: c in " \t\n\r" || c as int == 11 || c as int == 12
  }

  predicate Sign(s: string) {
    s == "" || s == "+" || s == "-"
  }

  // Blanks, a sign, and a numeral: octal behind "0", hexadecimal behind "0x", decimal otherwise.
  datatype Number = Number(space: string, sign: string, base: nat, upper: bool, size: nat) {
    predicate Valid() {
      Blank(space) && Sign(sign) && (base == 8 || base == 10 || base == 16)
    }

    function Value(): int {
      var n: int := size;
      if sign == "-" then -n else n
    }

    function Unsigned(): string
      requires Valid()
    {
      (if base != 16 then if base == 8 then "0" else "" else if upper then "0X" else "0x")
      + Numeral(size, base, upper)
    }

    function Written(): string
      requires Valid()
    {
      space + (sign + Unsigned())
    }

    // The tail does not go on with the number: no figure of its base.  A lone zero takes octal figures.
    predicate Ends(tail: string) {
      tail != [] ==>
        if base == 10 && size == 0 then FigureValue(tail[0]) >= 8 && tail[0] != 'x' && tail[0] != 'X'
        else FigureValue(tail[0]) >= base
    }
  }

  // What a character counts as a figure, 16 if it is none.
  function FigureValue(c: char): nat {
    if '0' <= c <= '9' then c as int - '0' as int
    else if 'a' <= c <= 'f' then c as int - 'a' as int + 10
    else if 'A' <= c <= 'F' then c as int - 'A' as int + 10
    else 16
  }

  lemma FigureValueIs(c: char)
    ensures if FigureValue(c) < 16 then DigitValue(c) == FigureValue(c) else DigitValue(c) >= 16
  {
  }

  lemma DigitOf(n: nat, upper: bool)
    requires n < 16
    ensures var c := Figure(n, upper);
      && DigitValue(c) == n && c != '-' && c != '+' && c != ' ' && !('\t' <= c <= '\r') && c != 'x' && c != 'X'
      && (c == '0' <==> n == 0)
  {
    hide *;
    if upper {
      UpperDigit(n);
    } else {
      LowerDigit(n);
    }
  }

  lemma UpperDigit(n: nat)
    requires n < 16
    ensures var c := Figure(n, true);
      && DigitValue(c) == n && c != '-' && c != '+' && c != ' ' && !('\t' <= c <= '\r') && c != 'x' && c != 'X'
      && (c == '0' <==> n == 0)
  {
  }

  lemma LowerDigit(n: nat)
    requires n < 16
    ensures var c := Figure(n, false);
      && DigitValue(c) == n && c != '-' && c != '+' && c != ' ' && !('\t' <= c <= '\r') && c != 'x' && c != 'X'
      && (c == '0' <==> n == 0)
  {
  }

  lemma DigitsOfNumeral(n: nat, base: nat, upper: bool, tail: string)
    requires 2 <= base <= 16 && (tail != [] ==> FigureValue(tail[0]) >= base)
    ensures Digits(Numeral(n, base, upper) + tail, base, 0) == (n, tail)
  {
    hide DigitValue, FigureValue, Numeral;
    DigitsAhead(n, base, upper, tail);
    DigitsStop(tail, base, n);
  }

  lemma QuotientAndRest(n: nat, b: nat)
    requires b >= 2
    ensures b * (n / b) + n % b == n && (n >= b ==> n / b < n)
  {
  }

  lemma LastFigure(n: nat, base: nat, upper: bool, more: string)
    requires 2 <= base <= 16 && n >= base
    ensures Numeral(n, base, upper) + more == Numeral(n / base, base, upper) + ([Figure(n % base, upper)] + more)
  {
    hide Figure;
  }

  // The value so far, digit by digit.
  lemma {:induction false} DigitsAhead(n: nat, base: nat, upper: bool, more: string)
    requires 2 <= base <= 16
    ensures Digits(Numeral(n, base, upper) + more, base, 0) == Digits(more, base, n)
  {
    hide Digits, DigitValue, Figure;
    if n < base {
      DigitOf(n, upper);
      OneDigit(Figure(n, upper), more, base, 0);
    } else {
      hide Numeral;
      var last := Figure(n % base, upper);
      QuotientAndRest(n, base);
      DigitOf(n % base, upper);
      LastFigure(n, base, upper, more);
      DigitsAhead(n / base, base, upper, [last] + more);
      OneDigit(last, more, base, n / base);
    }
  }

  lemma OneDigit(c: char, more: string, base: nat, sofar: nat)
    requires DigitValue(c) < base
    ensures Digits([c] + more, base, sofar) == Digits(more, base, base * sofar + DigitValue(c))
  {
    assert ([c] + more)[1..] == more;
  }

  lemma DigitsStop(tail: string, base: nat, n: nat)
    requires base <= 16 && (tail != [] ==> FigureValue(tail[0]) >= base)
    ensures Digits(tail, base, n) == (n, tail)
  {
    if tail != [] {
      FigureValueIs(tail[0]);
    }
    hide FigureValue, DigitValue;
  }

  lemma {:induction false} FirstDigit(n: nat, base: nat, upper: bool)
    requires 2 <= base <= 16
    ensures var c := Numeral(n, base, upper)[0];
      && DigitValue(c) < base && c != '-' && c != '+' && c != ' ' && !('\t' <= c <= '\r') && c != 'x' && c != 'X'
      && (n > 0 ==> c != '0')
  {
    hide Figure, DigitValue;
    if n < base {
      DigitOf(n, upper);
    } else {
      FirstDigit(n / base, base, upper);
    }
  }

  lemma UnsignedReads(w: Number, tail: string)
    requires w.Valid() && w.Ends(tail)
    ensures Unsigned(w.Unsigned() + tail) == (w.size, tail)
  {
    hide Digits, Numeral, FigureValue;
    var num := Numeral(w.size, w.base, w.upper);
    var s := w.Unsigned() + tail;
    FirstDigit(w.size, w.base, w.upper);
    if w.base == 10 && w.size == 0 {
      ZeroReads(w.upper, tail);
      assert s == num + tail;
    } else {
      DigitsOfNumeral(w.size, w.base, w.upper, tail);
      if w.base == 16 {
        assert s[0] == '0' && (s[1] == 'x' || s[1] == 'X') && s[2] == num[0] && s[2..] == num + tail;
      } else if w.base == 8 {
        assert s == ['0'] + (num + tail) && s[1] == num[0];
        OneDigit('0', num + tail, 8, 0);
      } else {
        assert s == num + tail && s[0] == num[0];
      }
    }
  }

  lemma ZeroReads(upper: bool, tail: string)
    requires tail != [] ==> FigureValue(tail[0]) >= 8 && tail[0] != 'x' && tail[0] != 'X'
    ensures Numeral(0, 10, upper) == "0" && Unsigned("0" + tail) == (0, tail)
  {
    var s := "0" + tail;
    assert s[1..] == tail;
    assert |s| >= 2 ==> s[1] == tail[0];
    OneDigit('0', tail, 8, 0);
    DigitsStop(tail, 8, 0);
    hide Digits, FigureValue;
  }

  lemma {:induction false} SpaceSkipped(space: string, s: string)
    requires Blank(space) && (s != [] ==> s[0] != ' ' && !('\t' <= s[0] <= '\r'))
    ensures SkipSpace(space + s) == s
  {
    if space == [] {
      assert space + s == s;
    } else {
      assert (space + s)[1..] == space[1..] + s;
      assert space[0] in space;
      SpaceSkipped(space[1..], s);
    }
  }

  // What 64 bits hold of a number, and 32 bits of that.
  function Long(n: int): int {
    if n > 0x7fff_ffff_ffff_ffff then 0x7fff_ffff_ffff_ffff
    else if n < -0x8000_0000_0000_0000 then -0x8000_0000_0000_0000
    else n
  }

  function Low(n: int): int {
    var m := n % 0x1_0000_0000;
    if m < 0x8000_0000 then m else m - 0x1_0000_0000
  }

  /** However it is written, a number is read with its value, as far as a long can hold it, up to what
      follows it. */
  lemma StrtolReads(w: Number, tail: string)
    requires w.Valid() && w.Ends(tail)
    ensures Strtol(w.Written() + tail) == (Long(w.Value()), tail)
  {
    hide Numeral, Unsigned, FigureValue;
    var u := w.Unsigned() + tail;
    UnsignedReads(w, tail);
    FirstDigit(w.size, w.base, w.upper);
    var c := w.Unsigned()[0];
    assert u[0] == c && c != '-' && c != '+' && c != ' ' && !('\t' <= c <= '\r');
    var t := w.sign + u;
    assert w.Written() + tail == w.space + t;
    SpaceSkipped(w.space, t);
    assert w.sign != "" ==> t[0] == w.sign[0] && t[1..] == u;
    assert w.sign == "" ==> t == u;
    assert |u| > |tail|;
    SaturatedIs(w.Value());
    hide SkipSpace;
  }

  /** Without a figure behind the blanks and the sign nothing is read. */
  lemma StrtolReadsNothing(space: string, sign: string, tail: string)
    requires Blank(space) && Sign(sign) && (tail != [] ==> FigureValue(tail[0]) >= 10)
    requires sign == "" && tail != [] ==> tail[0] !in " \t\n\r+-" && tail[0] as int != 11 && tail[0] as int != 12
    ensures Strtol(space + (sign + tail)) == (0, space + (sign + tail))
  {
    var t := sign + tail;
    SpaceSkipped(space, t);
    assert sign != "" ==> t[0] == sign[0] && t[1..] == tail;
    assert sign == "" ==> t == tail;
    if tail != [] {
      assert tail[0] != '0';
    }
    DigitsStop(tail, 10, 0);
    hide SkipSpace, Digits;
  }

  lemma SaturatedIs(n: int)
    ensures Saturated(n) == Long(n)
  {
  }

  lemma ToIntIs(n: int)
    ensures ToInt(n) == Low(n)
  {
  }

  // ---- A number within bounds ----

  // No number within the bounds is closer to n than v.
  ghost predicate Nearest(v: int, n: int, min: int, max: int) {
    min <= v <= max && forall x :: min <= x <= max ==> Distance(v, n) <= Distance(x, n)
  }

  function Distance(x: int, y: int): nat {
    if x < y then y - x else x - y
  }

  // A number no int can hold is taken for another, which is as good when it lies beyond the same bound.
  predicate Unharmed(n: int, min: int, max: int) {
    (n > 0x7fff_ffff ==> Low(Long(n)) >= max) && (n < -0x8000_0000 ==> Low(Long(n)) <= min)
  }

  lemma ClampedIsNearest(m: int, n: int, min: int, max: int)
    requires min <= max && (m == n || (n > max && m >= max) || (n < min && m <= min))
    ensures Nearest(Clamped(m, min, max), n, min, max)
  {
  }

  lemma WrittenLoads(w: Number, min: int, max: int, was: Setting)
    requires w.Valid()
    ensures LoadedNumber(w.Written(), min, max, was) == Num(Clamped(Low(Long(w.Value())), min, max))
  {
    hide Strtol, Number.Written, Clamped;
    assert w.Written() + [] == w.Written();
    StrtolReads(w, []);
    ToIntIs(Long(w.Value()));
    hide Low, Long;
  }

  /** The setting is the number in the file if that is within bounds, and otherwise the nearest bound,
      if and only if an int holds the number or its low 32 bits lie beyond the same bound. */
  lemma NearestExactly(w: Number, min: int, max: int, was: Setting)
    requires w.Valid() && -0x8000_0000 <= min < max <= 0x7fff_ffff
    ensures var r := LoadedNumber(w.Written(), min, max, was);
      r.Num? && (Nearest(r.n, w.Value(), min, max) <==> Unharmed(w.Value(), min, max))
  {
    hide LoadedNumber, Nearest, Number.Written;
    WrittenLoads(w, min, max, was);
    var n := w.Value();
    if Unharmed(n, min, max) {
      ClampedIsNearest(Low(Long(n)), n, min, max);
    } else {
      NotNearest(Clamped(Low(Long(n)), min, max), n, min, max, if n > 0 then max else min);
    }
  }

  lemma NotNearest(v: int, n: int, min: int, max: int, x: int)
    requires min <= x <= max && Distance(x, n) < Distance(v, n)
    ensures !Nearest(v, n, min, max)
  {
  }

  // 2^32, for a setting of 1 to 65535, is loaded as 1.
  lemma TooLargeInput(was: Setting)
    ensures var r := LoadedNumber(Number("", "", 10, false, 0x1_0000_0000).Written(), 1, 65535, was);
      r == Num(1) && !Nearest(1, 0x1_0000_0000, 1, 65535)
  {
    hide LoadedNumber, Number.Written;
    WrittenLoads(Number("", "", 10, false, 0x1_0000_0000), 1, 65535, was);
    NotNearest(1, 0x1_0000_0000, 1, 65535, 65535);
  }

  // ---- A whole load ----

  // The frame height each field is loaded under: fields behind the height's own see the new one.
  function LinesFor(h: nat, t: seq<Setting>, u: seq<Setting>, i: nat): int
    requires h < |t| == |u|
  {
    LinesOf(if h < i then u[h] else t[h])
  }

  lemma {:induction false} LoadedFrom(fs: seq<Field>, h: nat, file: string, t: seq<Setting>, k: nat, i: nat)
    requires |t| == |fs| && h < |fs| && k <= |fs| && i < |fs|
    ensures var u := Loaded(fs, h, file, t, k);
      u[i] == if i < k then t[i] else LoadField(fs[i], file, t[i], LinesFor(h, t, u, i))
    decreases |fs| - k
  {
    hide LoadField;
    if k < |fs| {
      var next := t[k := LoadField(fs[k], file, t[k], LinesOf(t[h]))];
      LoadedFrom(fs, h, file, next, k + 1, i);
      LoadedFrom(fs, h, file, next, k + 1, h);
    }
  }

  // The value in the first line of a field's key, if there is one.
  lemma LoadedByLine(fs: seq<Field>, h: nat, ls: seq<string>, t: seq<Setting>, i: nat)
    requires |t| == |fs| && h < |fs| && i < |fs| && Lines(ls)
    ensures var u := Loaded(fs, h, Text(ls), t, 0);
      && (Missing(ls, fs[i].name) ==> u[i] == t[i])
      && forall j: nat | FirstOf(ls, fs[i].name, j) ::
           u[i] == LoadedValue(fs[i].kind, ls[j][|fs[i].name| + 3..], t[i], LinesFor(h, t, u, i))
  {
    hide Lookup, LoadedValue, Lines, Missing, Text, Loaded;
    var key := fs[i].name;
    LoadedFrom(fs, h, Text(ls), t, 0, i);
    if Missing(ls, key) {
      NotFound(ls, key);
    }
    forall j: nat | FirstOf(ls, key, j) ensures Lookup(Text(ls), key) == Some(ls[j][|key| + 3..]) {
      FoundFirst(ls, key, j);
    }
  }

  /** A setting whose key is not in the file stays as it was. */
  lemma MissingStays(fs: seq<Field>, h: nat, ls: seq<string>, t: seq<Setting>, i: nat)
    requires |t| == |fs| && h < |fs| && i < |fs| && Lines(ls) && Missing(ls, fs[i].name)
    ensures Loaded(fs, h, Text(ls), t, 0)[i] == t[i]
  {
    hide *;
    LoadedByLine(fs, h, ls, t, i);
  }

  predicate Numeric(k: Kind) {
    k.Flag? || k.Whole? || k.Band?
  }

  // The bounds of a number, given the lines of the frame.
  function Least(k: Kind): int {
    if k.Whole? then k.min else if k.Flag? then 0 else 1
  }

  function Greatest(k: Kind, lines: int): int {
    if k.Whole? then k.max else if k.Flag? then 1 else lines - 1
  }

  // The j-th line is the first of the i-th field's key and has the text behind the delimiter.
  ghost predicate Gives(fs: seq<Field>, ls: seq<string>, i: nat, j: nat, text: string) {
    i < |fs| && FirstOf(ls, fs[i].name, j) && ls[j] == fs[i].name + " = " + text
  }

  lemma GivenText(fs: seq<Field>, h: nat, ls: seq<string>, t: seq<Setting>, i: nat, j: nat, text: string)
    requires |t| == |fs| && h < |fs| && Lines(ls) && Gives(fs, ls, i, j, text)
    ensures var u := Loaded(fs, h, Text(ls), t, 0);
      u[i] == LoadedValue(fs[i].kind, text, t[i], LinesFor(h, t, u, i))
  {
    hide Lines, Text, Loaded, LoadedValue, LinesFor;
    LoadedByLine(fs, h, ls, t, i);
    assert ls[j][|fs[i].name| + 3..] == text;
  }

  /** A line "key = number" sets the key's number to it if it is within the bounds, and otherwise to
      the bound nearest to it.  The bounds of a display band are those of the frame height loaded. */
  lemma NumberLoads(fs: seq<Field>, h: nat, ls: seq<string>, t: seq<Setting>, i: nat, j: nat, w: Number)
    requires WellFormed(fs, h) && |t| == |fs| && Lines(ls) && i < |fs| && Numeric(fs[i].kind)
    requires w.Valid() && -0x8000_0000 <= w.Value() <= 0x7fff_ffff && Gives(fs, ls, i, j, w.Written())
    ensures var u, k := Loaded(fs, h, Text(ls), t, 0), fs[i].kind;
      u[i].Num? && Nearest(u[i].n, w.Value(), Least(k), Greatest(k, LinesOf(u[h])))
  {
    hide Lines, Text, Loaded, LoadedNumber, Nearest, Gives, LinesAt, NamedApart;
    GivenText(fs, h, ls, t, i, j, w.Written());
    var u, k := Loaded(fs, h, Text(ls), t, 0), fs[i].kind;
    assert Bounded(k);
    NumberNearest(w, Least(k), Greatest(k, LinesOf(u[h])), t[i]);
  }

  lemma NumberNearest(w: Number, min: int, max: int, was: Setting)
    requires w.Valid() && -0x8000_0000 <= w.Value() <= 0x7fff_ffff && min <= max
    ensures var r := LoadedNumber(w.Written(), min, max, was); r.Num? && Nearest(r.n, w.Value(), min, max)
  {
    hide LoadedNumber, Nearest, Number.Written;
    WrittenLoads(w, min, max, was);
    ClampedIsNearest(w.Value(), w.Value(), min, max);
  }

  /** A number with something behind it changes nothing. */
  lemma UnclearStays(fs: seq<Field>, h: nat, ls: seq<string>, t: seq<Setting>, i: nat, j: nat, w: Number, tail: string)
    requires |t| == |fs| && h < |fs| && Lines(ls) && i < |fs| && Numeric(fs[i].kind)
    requires w.Valid() && tail != [] && w.Ends(tail) && Gives(fs, ls, i, j, w.Written() + tail)
    ensures Loaded(fs, h, Text(ls), t, 0)[i] == t[i]
  {
    hide Lines, Text, Loaded, Strtol, LinesFor;
    GivenText(fs, h, ls, t, i, j, w.Written() + tail);
    StrtolReads(w, tail);
  }

  /** Nor does a text without a number, but an empty one counts as 0. */
  lemma NoNumberStays(fs: seq<Field>, h: nat, ls: seq<string>, t: seq<Setting>, i: nat, j: nat, tail: string)
    requires WellFormed(fs, h) && |t| == |fs| && Lines(ls) && i < |fs| && Numeric(fs[i].kind)
    requires Gives(fs, ls, i, j, tail)
    requires tail != [] ==> FigureValue(tail[0]) >= 10 && tail[0] !in " \t\n\r+-" && !(11 <= tail[0] as int <= 12)
    ensures var u, k := Loaded(fs, h, Text(ls), t, 0), fs[i].kind;
      if tail != [] then u[i] == t[i]
      else u[i].Num? && Nearest(u[i].n, 0, Least(k), Greatest(k, LinesOf(u[h])))
  {
    hide Lines, Text, Loaded, Strtol, Nearest, Gives, LinesAt, NamedApart, FigureValue;
    GivenText(fs, h, ls, t, i, j, tail);
    assert [] + ([] + tail) == tail;
    StrtolReadsNothing([], [], tail);
    var u, k := Loaded(fs, h, Text(ls), t, 0), fs[i].kind;
    assert Bounded(k);
    ToIntIs(0);
    ClampedIsNearest(0, 0, Least(k), Greatest(k, LinesOf(u[h])));
  }

  /** A text sets a choice to the table entry equal to it, or to the first of all, and a string to itself. */
  lemma TextLoads(fs: seq<Field>, h: nat, ls: seq<string>, t: seq<Setting>, i: nat, j: nat, text: string)
    requires |t| == |fs| && h < |fs| && Lines(ls) && Gives(fs, ls, i, j, text) && !Numeric(fs[i].kind)
    ensures var u, k := Loaded(fs, h, Text(ls), t, 0)[i], fs[i].kind;
      && (k.Choice? ==>
            && u.Num? && 0 <= u.n < |k.strings|
            && (if text in k.strings then k.strings[u.n] == text else u.n == 0))
      && (k.Free? ==> u == SettingsStore.Text(text))
      && (k.Opaque? ==> u == t[i])
  {
    hide Lines, Loaded, LinesFor, IndexFrom;
    GivenText(fs, h, ls, t, i, j, text);
    if fs[i].kind.Choice? {
      IndexIs(fs[i].kind.strings, text, 0);
    }
  }

  lemma {:induction false} IndexIs(ss: seq<string>, s: string, i: nat)
    requires ss != [] && i <= |ss|
    ensures var n := IndexFrom(ss, s, i);
      n < |ss| && if s in ss[i..] then ss[n] == s else n == 0
    decreases |ss| - i
  {
    if i < |ss| {
      assert ss[i..] == [ss[i]] + ss[i + 1..];
      IndexIs(ss, s, i + 1);
    }
  }

  // Each choice of frame height names its number of lines.
  lemma HeightsNamed(i: nat)
    requires i < |FRAME_HEIGHTS|
    ensures FRAME_HEIGHTS[i] == Decimal(LinesAt(i)) + " lines"
  {
    if i == 0 {
      assert Decimal(2) == "2" && Decimal(28) == "28" && Decimal(285) == "285";
    } else if i == 1 {
      assert Decimal(4) == "4" && Decimal(48) == "48" && Decimal(481) == "481";
    } else {
      assert Decimal(1) == "1" && Decimal(10) == "10" && Decimal(102) == "102" && Decimal(1024) == "1024";
    }
  }
}

/** The program's own settings, kept in fields, and the file they are saved to. */
module SettingsFile {
  import opened Basics
  import opened SettingsKeys
  import opened SettingsText
  import opened SettingsStore

  // ---- The program's table ----

  const HEIGHT: nat := 3

  lemma KindFacts()
    ensures HEIGHT < |FIELDS| && FIELDS[HEIGHT].kind == Choice(FRAME_HEIGHTS)
    ensures forall i | 0 <= i < |FIELDS| :: Bounded(FIELDS[i].kind) && (FIELDS[i].kind.Band? ==> HEIGHT < i)
  {
  }

  /** The program's keys can be kept apart: its settings survive a save and a load. */
  lemma TableWellFormed()
    ensures WellFormed(FIELDS, HEIGHT)
  {
    KindFacts();
    FieldsApart();
    hide Bounded, NamedApart;
  }

  // ---- The settings block ----

  class SettingsBlock {
    var values: seq<Setting>

    ghost predicate Valid()
      reads this
    {
      Typed(FIELDS, values)
    }

    constructor (defaults: seq<Setting>)
      requires Typed(FIELDS, defaults)
      ensures Valid() && values == defaults
    {
      values := defaults;
    }

    method SaveSettings() returns (file: string)
      requires Valid()
      ensures file == Saved(FIELDS, values, 0)
    {
      hide Line, ValueText, TypedAs;
      var fs := FIELDS;
      file := [];
      for i := 0 to |fs|
        invariant file + Saved(fs, values, i) == Saved(fs, values, 0)
      {
        SavedNext(fs, values, i, file);
        hide Saved;
        file := file + LineFor(fs[i], values[i]);
      }
    }

    // A file that cannot be opened changes nothing.
    method LoadSettings(file: Option<string>)
      requires Valid()
      modifies this
      ensures |values| == |FIELDS|
      ensures values == if file.None? then old(values) else Loaded(FIELDS, HEIGHT, file.value, old(values), 0)
    {
      hide LoadedValue, Lookup, LinesAt;
      var fs := FIELDS;
      if file.None? {
        return;
      }
      for i := 0 to |fs|
        invariant |values| == |FIELDS|
        invariant Loaded(fs, HEIGHT, file.value, values, i) == Loaded(fs, HEIGHT, file.value, old(values), 0)
      {
        var text := GetValue(file.value, fs[i].name);
        if text.Some? {
          var v := GetSetting(fs[i].kind, text.value, values[i], LinesOf(values[HEIGHT]));
          values := values[i := v];
        } else {
          assert values[i := values[i]] == values;
        }
      }
    }

    method GetSetting(k: Kind, text: string, was: Setting, lines: int) returns (v: Setting)
      ensures v == LoadedValue(k, text, was, lines)
    {
      match k {
        case Flag => v := GetIntValue(text, was, 0, 1);
        case Whole(min, max) => v := GetIntValue(text, was, min, max);
        case Band => v := GetIntValue(text, was, 1, lines - 1);
        case Choice(ss) =>
          var i := StringToIndex(text, ss);
          v := Num(i);
        case Free => v := Text(text);
        case Opaque => v := was;
      }
    }

    method GetIntValue(text: string, was: Setting, min: int, max: int) returns (v: Setting)
      ensures v == LoadedNumber(text, min, max, was)
    {
      var (n, rest) := Strtol(text);
      if rest != [] {
        return was;
      }
      var i := ToInt(n);
      if i < min {
        i := min;
      } else if i > max {
        i := max;
      }
      return Num(i);
    }

    method StringToIndex(s: string, strings: seq<string>) returns (index: nat)
      ensures index == IndexFrom(strings, s, 0)
    {
      var i := 0;
      while i < |strings|
        invariant i <= |strings| && IndexFrom(strings, s, i) == IndexFrom(strings, s, 0)
      {
        if s == strings[i] {
          return i;
        }
        i := i + 1;
      }
      return 0;
    }

    // Read the file from its start until a line is the key's.
    method GetValue(file: string, key: string) returns (value: Option<string>)
      ensures value == Lookup(file, key)
    {
      hide Lookup, Taken, Matches, UpToNewline;
      var pos := 0;
      assert file[0..] == file;
      while pos < |file|
        invariant pos <= |file| && Lookup(file[pos..], key) == Lookup(file, key)
      {
        LookupFrom(file, pos, key);
        var n := Fgets(file, pos);
        var buf := file[pos..pos + n];
        if Matches(buf, key) {
          MatchLength(buf, key);
          var v := CopyValue(buf, |key| + |DELIMITER|);
          return Some(v);
        }
        pos := pos + n;
      }
      LookupNothing(key);
      assert file[pos..] == [];
      return None;
    }

    method Fgets(file: string, pos: nat) returns (n: nat)
      requires pos < |file|
      ensures n == Taken(file[pos..], MAX_LINE)
    {
      hide Taken;
      n := 0;
      while n < MAX_LINE && pos + n < |file|
        invariant n <= MAX_LINE && pos + n <= |file|
        invariant Taken(file[pos..], MAX_LINE) == n + Taken(file[pos + n..], MAX_LINE - n)
      {
        TakenFrom(file, pos + n, MAX_LINE - n);
        n := n + 1;
        if file[pos + n - 1] == '\n' {
          return;
        }
      }
      TakenNothing(file[pos + n..], MAX_LINE - n);
    }

    method CopyValue(buf: string, from: nat) returns (v: string)
      requires from <= |buf|
      ensures v == UpToNewline(buf[from..])
    {
      v := [];
      var p := from;
      while p < |buf| && buf[p] != '\n'
        invariant from <= p <= |buf|
        invariant v + UpToNewline(buf[p..]) == UpToNewline(buf[from..])
      {
        assert buf[p..][1..] == buf[p + 1..];
        v := v + [buf[p]];
        p := p + 1;
      }
    }
  }

  lemma LookupFrom(file: string, pos: nat, key: string)
    requires pos < |file|
    ensures var n := Taken(file[pos..], MAX_LINE);
      var buf := file[pos..pos + n];
      n > 0 && Lookup(file[pos..], key) ==
               if Matches(buf, key) then Some(CopyOf(buf, |key| + |DELIMITER|)) else Lookup(file[pos + n..], key)
  {
    hide Taken, UpToNewline, Matches;
    var n := Taken(file[pos..], MAX_LINE);
    var buf := file[pos..pos + n];
    assert file[pos..][..n] == buf && file[pos..][n..] == file[pos + n..];
    if Matches(buf, key) {
      MatchLength(buf, key);
    }
  }

  function CopyOf(buf: string, from: nat): string {
    if from <= |buf| then UpToNewline(buf[from..]) else []
  }

  lemma LookupNothing(key: string)
    ensures Lookup([], key) == None
  {
  }

  lemma MatchLength(line: string, key: string)
    requires Matches(line, key)
    ensures |key| + |DELIMITER| <= |line|
  {
  }

  lemma TakenFrom(file: string, at: nat, room: nat)
    requires at < |file| && room > 0
    ensures Taken(file[at..], room) == 1 + if file[at] == '\n' then 0 else Taken(file[at + 1..], room - 1)
  {
    assert file[at..][1..] == file[at + 1..];
  }

  lemma TakenNothing(s: string, room: nat)
    requires s == [] || room == 0
    ensures Taken(s, room) == 0
  {
  }

  lemma SavedNext(fs: seq<Field>, b: seq<Setting>, i: nat, sofar: string)
    requires Typed(fs, b) && i < |fs|
    ensures sofar + Saved(fs, b, i) == sofar + LineFor(fs[i], b[i]) + Saved(fs, b, i + 1)
  {
  }

  /** What one block saved, another loads. */
  lemma ProgramRoundTrip(b: seq<Setting>, t: seq<Setting>, i: nat)
    requires InRange(FIELDS, HEIGHT, b) && |t| == |FIELDS| && i < |FIELDS|
    requires forall j | 0 <= j < |FIELDS| :: FitsLine(FIELDS[j], b[j])
    ensures Typed(FIELDS, b)
    ensures Loaded(FIELDS, HEIGHT, Saved(FIELDS, b, 0), t, 0)[i] == Restored(FIELDS[i].kind, b[i], t[i])
  {
    hide Saved, Loaded, WellFormed, FitsLine;
    TableWellFormed();
    SettingsRoundTrip(FIELDS, HEIGHT, b, t);
  }
}

/**
 Saving the settings to a file and loading them back, for a table of fields in file order. The
 program's own table is an instance, in SettingsFile.
 */
module SettingsStore {
  import opened Basics
  import opened SettingsKeys
  import opened SettingsText

  datatype Setting = Num(n: int) | Text(s: string)

  // The frame heights by their index in the table of choices.
  function LinesAt(i: int): (n: int)
    ensures 285 <= n <= 1024
  {
    if i == 0 then 285 else if i == 1 then 481 else 1024
  }

  // Fields a file can keep apart, with the frame height (field h) ahead of the bands it bounds.
  ghost predicate WellFormed(fs: seq<Field>, h: nat) {
    h < |fs| && fs[h].kind.Choice? && NamedApart(fs)
    && (forall i | 0 <= i < |fs| :: Bounded(fs[i].kind))
    && (forall i | 0 <= i < |fs| :: fs[i].kind.Band? ==> h < i)
  }

  predicate Bounded(k: Kind) {
    k.Whole? ==> k.min <= k.max
  }

  predicate TypedAs(k: Kind, v: Setting) {
    match k
    case Choice(ss) => v.Num? && 0 <= v.n < |ss|
    case Free => v.Text?
    case Opaque => v.Text?
    case _ => v.Num?
  }

  // Within bounds, given the lines of a frame.
  predicate InRangeFor(k: Kind, v: Setting, lines: int) {
    TypedAs(k, v)
    && (k.Flag? ==> 0 <= v.n <= 1)
    && (k.Whole? ==> k.min <= v.n <= k.max)
    && (k.Band? ==> 1 <= v.n <= lines - 1)
  }

  ghost predicate InRange(fs: seq<Field>, h: nat, b: seq<Setting>) {
    |b| == |fs| && h < |fs| && b[h].Num?
    && forall i | 0 <= i < |fs| :: InRangeFor(fs[i].kind, b[i], LinesAt(b[h].n))
  }

  // ---- Saving ----

  function ValueText(k: Kind, v: Setting): string
    requires TypedAs(k, v)
  {
    match k
    case Flag => "0"
    case Whole(_, _) => Decimal(v.n)
    case Band => Decimal(v.n)
    case Choice(ss) => ss[v.n]
    case Free => v.s
    case Opaque => v.s
  }

  ghost predicate Typed(fs: seq<Field>, b: seq<Setting>) {
    |b| == |fs| && forall i | 0 <= i < |fs| :: TypedAs(fs[i].kind, b[i])
  }

  function LineFor(f: Field, v: Setting): string
    requires TypedAs(f.kind, v)
  {
    Line(f.name, ValueText(f.kind, v))
  }

  // The lines from the i-th field on.
  ghost function Saved(fs: seq<Field>, b: seq<Setting>, i: nat): string
    requires Typed(fs, b)
    decreases |fs| - i
  {
    if i >= |fs| then [] else LineFor(fs[i], b[i]) + Saved(fs, b, i + 1)
  }

  // ---- Loading ----

  function Clamped(n: int, min: int, max: int): int {
    if n < min then min else if n > max then max else n
  }

  // A number not followed by the end of the value is not taken.
  function LoadedNumber(text: string, min: int, max: int, was: Setting): Setting {
    var (n, rest) := Strtol(text);
    if rest != [] then was else Num(Clamped(ToInt(n), min, max))
  }

  // The first table entry from i on equal to s, or else the first of all.
  function IndexFrom(ss: seq<string>, s: string, i: nat): (n: nat)
    ensures ss != [] ==> n < |ss|
    decreases |ss| - i
  {
    if i >= |ss| then 0 else if ss[i] == s then i else IndexFrom(ss, s, i + 1)
  }

  function LoadedValue(k: Kind, text: string, was: Setting, lines: int): Setting {
    match k
    case Flag => LoadedNumber(text, 0, 1, was)
    case Whole(min, max) => LoadedNumber(text, min, max, was)
    case Band => LoadedNumber(text, 1, lines - 1, was)
    case Choice(ss) => Num(IndexFrom(ss, text, 0))
    case Free => Text(text)
    case Opaque => was
  }

  // A key the file does not have leaves its setting alone.
  function LoadField(f: Field, file: string, was: Setting, lines: int): Setting {
    var text := Lookup(file, f.name);
    if text.None? then was else LoadedValue(f.kind, text.value, was, lines)
  }

  function LinesOf(v: Setting): int {
    if v.Num? then LinesAt(v.n) else LinesAt(0)
  }

  // The fields from the i-th on, each read from the whole file.
  function Loaded(fs: seq<Field>, h: nat, file: string, t: seq<Setting>, i: nat): (u: seq<Setting>)
    requires |t| == |fs| && h < |fs|
    ensures |u| == |fs|
    decreases |fs| - i
  {
    if i >= |fs| then t else
      Loaded(fs, h, file, t[i := LoadField(fs[i], file, t[i], LinesOf(t[h]))], i + 1)
  }

  // ---- Round trip ----

  predicate FitsLine(f: Field, v: Setting) {
    v.Text? ==> OneLine(v.s) && |f.name| + |v.s| + 4 <= MAX_LINE
  }

  // Settings whose file can be read back.
  ghost predicate Restorable(fs: seq<Field>, h: nat, b: seq<Setting>) {
    WellFormed(fs, h) && InRange(fs, h, b) && Typed(fs, b)
    && forall i | 0 <= i < |fs| :: FitsLine(fs[i], b[i])
  }

  lemma NumberShort(n: int)
    requires 0 <= n <= 65535
    ensures OneLine(Decimal(n)) && |Decimal(n)| <= 5
  {
    DecimalDigits(n);
    assert Pow10(5) == 100000;
    DecimalShort(n, 5);
  }

  lemma ValueFits(f: Field, v: Setting, lines: int)
    requires Bounded(f.kind) && InRangeFor(f.kind, v, lines) && FitsLine(f, v) && lines <= 1024
    ensures OneLine(ValueText(f.kind, v)) && |LineFor(f, v)| <= MAX_LINE
  {
    if v.Num? && !f.kind.Choice? {
      NumberShort(v.n);
    }
    hide Decimal;
  }

  // A lookup among the lines from the i-th on finds the j-th field's own.
  ghost predicate Finds(fs: seq<Field>, b: seq<Setting>, i: nat, j: nat) {
    Typed(fs, b) && j < |fs| && Lookup(Saved(fs, b, i), fs[j].name) == Some(ValueText(fs[j].kind, b[j]))
  }

  lemma {:induction false} LookupSaved(fs: seq<Field>, h: nat, b: seq<Setting>, i: nat, j: nat)
    requires Restorable(fs, h, b) && i <= j < |fs|
    ensures Finds(fs, b, i, j)
    decreases j - i
  {
    hide *;
    if i < j {
      LookupSaved(fs, h, b, i + 1, j);
    }
    LookupPastLine(fs, h, b, i, j);
  }

  lemma LookupPastLine(fs: seq<Field>, h: nat, b: seq<Setting>, i: nat, j: nat)
    requires Restorable(fs, h, b) && i <= j < |fs|
    ensures i == j || Finds(fs, b, i + 1, j) ==> Finds(fs, b, i, j)
  {
    assert Bounded(fs[i].kind) && Bounded(fs[j].kind);
    assert Saved(fs, b, i) == LineFor(fs[i], b[i]) + Saved(fs, b, i + 1);
    ValueFits(fs[i], b[i], LinesAt(b[h].n));
    hide ValueText, Lookup, Saved, LinesAt, OneLine, Plain, InRange, FitsLine;
    LookupLine(fs[j].name, fs[i].name, ValueText(fs[i].kind, b[i]), Saved(fs, b, i + 1));
  }

  // What loading is to leave in a field where t was before and b was saved.
  function Restored(k: Kind, b: Setting, t: Setting): Setting {
    if k.Flag? then Num(0) else if k.Opaque? then t else b
  }

  lemma {:induction false} IndexOfEntry(ss: seq<string>, n: nat, i: nat)
    requires Distinct(ss) && i <= n < |ss|
    ensures IndexFrom(ss, ss[n], i) == n
    decreases n - i
  {
    if i < n {
      IndexOfEntry(ss, n, i + 1);
    }
  }

  lemma NumberLoaded(n: int, min: int, max: int, was: Setting)
    requires 0 <= n <= 0x7fff_ffff && min <= n <= max
    ensures LoadedNumber(Decimal(n), min, max, was) == Num(n)
  {
    StrtolOfDecimal(n);
    hide Strtol, Decimal;
  }

  lemma ValueLoaded(f: Field, v: Setting, was: Setting, lines: int)
    requires Bounded(f.kind) && InRangeFor(f.kind, v, lines) && lines <= 1024
    ensures LoadedValue(f.kind, ValueText(f.kind, v), was, lines) == Restored(f.kind, v, was)
  {
    assert Decimal(0) == "0";
    hide Decimal, LoadedNumber, Plain;
    match f.kind
    case Flag => NumberLoaded(0, 0, 1, was);
    case Whole(min, max) => NumberLoaded(v.n, min, max, was);
    case Band => NumberLoaded(v.n, 1, lines - 1, was);
    case Choice(ss) => IndexOfEntry(ss, v.n, 0);
    case Free =>
    case Opaque =>
  }

  // The first i fields have been loaded.
  ghost predicate Halfway(fs: seq<Field>, b: seq<Setting>, t: seq<Setting>, u: seq<Setting>, i: nat) {
    |b| == |t| == |u| == |fs|
    && forall j | 0 <= j < |fs| :: u[j] == if j < i then Restored(fs[j].kind, b[j], t[j]) else t[j]
  }

  /** Whatever was set before, loading saved settings restores every enumerated, whole-number,
      string and most-recently-used setting; the first-time flag comes back cleared. */
  lemma SettingsRoundTrip(fs: seq<Field>, h: nat, b: seq<Setting>, t: seq<Setting>)
    requires Restorable(fs, h, b) && |t| == |fs|
    ensures var u := Loaded(fs, h, Saved(fs, b, 0), t, 0);
      forall i | 0 <= i < |fs| :: u[i] == Restored(fs[i].kind, b[i], t[i])
  {
    LoadRestores(fs, h, b, t, t, 0);
    hide Saved, Loaded;
  }

  lemma {:induction false} LoadRestores(fs: seq<Field>, h: nat, b: seq<Setting>, t: seq<Setting>,
                                        u: seq<Setting>, i: nat)
    requires Restorable(fs, h, b) && Halfway(fs, b, t, u, i) && i <= |fs|
    ensures Halfway(fs, b, t, Loaded(fs, h, Saved(fs, b, 0), u, i), |fs|)
    decreases |fs| - i
  {
    hide Saved, LoadField, InRange, FitsLine, TypedAs, Restored, Readable, Plain;
    if i < |fs| {
      FieldRestored(fs, h, b, t, u, i);
      LoadRestores(fs, h, b, t, u[i := LoadField(fs[i], Saved(fs, b, 0), u[i], LinesOf(u[h]))], i + 1);
    }
  }

  lemma FieldRestored(fs: seq<Field>, h: nat, b: seq<Setting>, t: seq<Setting>, u: seq<Setting>, i: nat)
    requires Restorable(fs, h, b) && Halfway(fs, b, t, u, i) && i < |fs|
    ensures Halfway(fs, b, t, u[i := LoadField(fs[i], Saved(fs, b, 0), u[i], LinesOf(u[h]))], i + 1)
  {
    hide Saved, Lookup, LoadedValue, ValueText, LinesAt, Bounded, TypedAs, FitsLine;
    LookupSaved(fs, h, b, 0, i);
    assert fs[i].kind.Band? ==> u[h] == b[h];
    LoadedHere(fs[i], b[i], t[i], LinesOf(u[h]), LinesAt(b[h].n));
  }

  lemma LoadedHere(f: Field, v: Setting, was: Setting, lines: int, saved: int)
    requires Bounded(f.kind) && InRangeFor(f.kind, v, saved) && saved <= 1024
    requires f.kind.Band? ==> lines == saved
    ensures LoadedValue(f.kind, ValueText(f.kind, v), was, lines) == Restored(f.kind, v, was)
  {
    ValueLoaded(f, v, was, saved);
    hide ValueText, LoadedNumber;
  }

  // ---- Any file at all ----

  // Bands not yet loaded still have their least value, which no frame is too small for.
  ghost predicate Sound(fs: seq<Field>, h: nat, t: seq<Setting>, i: nat) {
    WellFormed(fs, h) && InRange(fs, h, t) && forall j | i <= j < |fs| :: fs[j].kind.Band? ==> t[j] == Num(1)
  }

  /** Loading any file over the defaults leaves every number within its bounds and every choice
      within its table, the display bands within the frame height that was loaded. */
  lemma {:induction false} AnyFileInRange(fs: seq<Field>, h: nat, file: string, t: seq<Setting>, i: nat)
    requires Sound(fs, h, t, i) && i <= |fs|
    ensures InRange(fs, h, Loaded(fs, h, file, t, i))
    decreases |fs| - i
  {
    if i < |fs| {
      FieldInRange(fs[i], file, t[i], LinesOf(t[h]));
      var u := t[i := LoadField(fs[i], file, t[i], LinesOf(t[h]))];
      hide LoadField, Plain, Readable;
      assert forall j | 0 <= j < |fs| :: InRangeFor(fs[j].kind, u[j], LinesAt(u[h].n));
      AnyFileInRange(fs, h, file, u, i + 1);
    }
  }

  lemma FieldInRange(f: Field, file: string, was: Setting, lines: int)
    requires Bounded(f.kind) && InRangeFor(f.kind, was, lines) && lines >= 285
    ensures InRangeFor(f.kind, LoadField(f, file, was, lines), lines)
  {
    hide Strtol, Lookup, IndexFrom, Plain;
  }
}

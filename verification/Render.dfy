/**
 From image words to screen pixels: the contrast-stretch tables, and the frame display that
 subtracts the dark frame and looks the rest up.
 */
module Render {
  import opened Basics

  const TABLE: nat := 0x1_0000

  type level = n: int | 0 <= n <= 255

  // ---- The stretch ----

  // Black below min, white above max, and in between in proportion. A reversed or empty range is
  // a step at min.
  function Stretch(min: nat, max: nat, i: nat): (r: level) {
    if i > MAX_DN then 255
    else if i < min then 0
    else if min != max && i <= max then
      Proportional(min, max, i);
      var dn := 256 * (i - min) / (max - min);
      if dn == 256 then 255 else dn
    else 255
  }

  lemma Proportional(min: nat, max: nat, i: nat)
    requires min <= i <= max && min < max
    ensures 0 <= 256 * (i - min) / (max - min) <= 256
    ensures 256 * (i - min) / (max - min) == 256 <==> i == max
  {
    Ratio(256 * (i - min), max - min);
  }

  lemma Ratio(n: nat, d: nat)
    requires d > 0 && n <= 256 * d
    ensures n / d <= 256 && (n / d == 256 <==> n == 256 * d)
  {
    if n == 256 * d {
      DividesInto(n, d, 256, 0);
    } else {
      Quotient(n, d);
      if n / d >= 256 {
        Product(d, 256, n / d);
        assert false;
      }
    }
  }

  lemma Quotient(n: nat, d: nat)
    requires d > 0
    ensures d * (n / d) <= n < d * (n / d + 1)
  {
  }

  lemma Product(d: nat, a: nat, b: nat)
    requires a <= b
    ensures d * a <= d * b
  {
    assert d * (b - a) >= 0;
  }

  lemma DivideMonotone(m: nat, n: nat, d: nat)
    requires d > 0 && m <= n
    ensures m / d <= n / d
  {
    Quotient(m, d);
    Quotient(n, d);
    if m / d > n / d {
      Product(d, n / d + 1, m / d);
    }
  }

  /** The table never decreases, whatever the bounds. */
  lemma StretchMonotone(min: nat, max: nat, i: nat, j: nat)
    requires i <= j
    ensures Stretch(min, max, i) <= Stretch(min, max, j)
  {
    if min <= i && j <= max && min < max && j <= MAX_DN {
      Proportional(min, max, i);
      Proportional(min, max, j);
      DivideMonotone(256 * (i - min), 256 * (j - min), max - min);
    }
  }

  /** What the table is: black below min and white above max; in between level v stands for the words
      from v parts in 256 of the range on, up to the next, and white for the whole range. */
  lemma StretchIs(min: nat, max: nat, i: nat)
    requires max <= 0x3fff
    ensures var v := Stretch(min, max, i);
      if i > 0x3fff then v == 255
      else if i < min then v == 0
      else if i >= max then v == 255
      else v as int * (max - min) <= 256 * (i - min) < (v as int + 1) * (max - min)
  {
    if min <= i < max {
      Proportional(min, max, i);
      Quotient(256 * (i - min), max - min);
    }
  }

  // A colour's table: the first, brightened.
  function Brightened(v: level, gain: real): level
    requires gain >= 0.0
  {
    Rounded(v, gain);
    var dn := (v as real * gain + 0.5).Floor;
    if dn > 255 then 255 else dn
  }

  lemma Rounded(v: level, gain: real)
    requires gain >= 0.0
    ensures v as real * gain + 0.5 >= 0.0
    ensures (v as real * gain + 0.5).Floor >= 0
  {
    assert v as real * gain >= 0.0;
  }

  /** The brightened level is the one nearest to gain times the level, and white for all that is more. */
  lemma BrightenedIs(v: level, gain: real)
    requires gain >= 0.0
    ensures var b, x := Brightened(v, gain), v as real * gain;
      if b < 255 then b as real - 0.5 <= x < b as real + 0.5 else x >= 254.5
  {
    var x := v as real * gain + 0.5;
    Rounded(v, gain);
    assert x.Floor as real <= x < x.Floor as real + 1.0;
  }

  lemma BrightenedMonotone(v: level, w: level, gain: real)
    requires gain >= 0.0 && v <= w
    ensures Brightened(v, gain) <= Brightened(w, gain)
  {
    assert (w - v) as real * gain >= 0.0;
    assert v as real * gain <= w as real * gain;
  }

  ghost predicate Monotone(a: seq<level>) {
    forall i, j | 0 <= i <= j < |a| :: a[i] <= a[j]
  }

  // Entries a stretch does not reach stay white, as they were first set.
  ghost predicate WhiteAbove(a: seq<level>) {
    |a| == TABLE && forall i | MAX_DN < i < TABLE :: a[i] == 255
  }

  // ---- The display ----

  function Shade(lut: seq<level>, image: Word, dark: Word, subtract: bool): level
    requires |lut| == TABLE
  {
    lut[if !subtract then image as int else if image < dark then 0 else image - dark]
  }

  /** Subtracting the dark frame takes it back out of an image it was added to, and what is darker than
      the dark frame shows as black as a word of 0. */
  lemma ShadeIs(lut: seq<level>, image: Word, dark: Word)
    requires |lut| == 0x1_0000
    ensures Shade(lut, image, dark, false) == lut[image]
    ensures image as int + dark as int < 0x1_0000 ==>
              Shade(lut, image as int + dark as int, dark, true) == Shade(lut, image, dark, false)
    ensures image <= dark ==> Shade(lut, image, dark, true) == lut[0]
  {
  }

  // How far n steps of incr, 1 or 2, go.
  function Steps(n: nat, incr: nat): nat {
    if incr == 2 then 2 * n else n
  }

  // Lines shown: every incr-th below the first, the last one even if it is alone.
  function Rows(height: nat, incr: nat): nat
    requires height > 0
  {
    if incr == 2 then height / 2 else height - 1
  }

  // Where shown row r starts in the image, and where its pixels start on the screen.
  function LineStart(r: nat, incr: nat, width: nat): nat {
    (1 + Steps(r, incr)) * width
  }

  function PixelStart(r: nat, across: nat): nat {
    3 * (r * across)
  }

  function Dot(at: nat, c: nat): nat {
    at + 3 * c
  }

  lemma NextLine(r: nat, incr: nat, width: nat, height: nat)
    requires (incr == 1 || incr == 2) && height > 0 && r < Rows(height, incr)
    ensures LineStart(r, incr, width) + width <= width * height
    ensures LineStart(r + 1, incr, width) == LineStart(r, incr, width) + width + (incr - 1) * width
  {
    assert 1 + Steps(r, incr) + 1 <= height;
    Product(width, 1 + Steps(r, incr) + 1, height);
  }

  lemma NextPixels(r: nat, across: nat, width: nat, height: nat)
    requires across <= width && r + 1 < height
    ensures PixelStart(r + 1, across) == PixelStart(r, across) + 3 * across <= width * (height - 1) * 3
  {
    Product(across, r + 1, height - 1);
    Product(height - 1, across, width);
  }

  lemma PixelsApart(q: nat, r: nat, across: nat)
    requires q < r
    ensures PixelStart(q, across) + 3 * across <= PixelStart(r, across)
  {
    Product(across, q + 1, r);
  }

  // What is shown: the table, the two images and how they are read.
  datatype Source = Source(lut: seq<level>, image: seq<Word>, dark: seq<Word>, width: nat, incr: nat, subtract: bool)

  function ShadeAt(src: Source, k: nat): level
    requires |src.lut| == TABLE && k < |src.image| == |src.dark|
  {
    Shade(src.lut, src.image[k], src.dark[k], src.subtract)
  }

  ghost predicate PixelShown(out: seq<level>, k: nat, shade: level) {
    k + 2 < |out| && out[k] == shade && out[k + 1] == shade && out[k + 2] == shade
  }

  // n pixels from at on are the shades of every incr-th word from from on.
  ghost predicate RowShown(out: seq<level>, at: nat, n: nat, from: nat, src: Source) {
    |src.lut| == TABLE && |src.image| == |src.dark|
    && forall c | 0 <= c < n ::
      from + Steps(c, src.incr) < |src.image| && PixelShown(out, Dot(at, c), ShadeAt(src, from + Steps(c, src.incr)))
  }

  ghost predicate Shown(out: seq<level>, rows: nat, across: nat, src: Source) {
    forall r | 0 <= r < rows :: RowShown(out, PixelStart(r, across), across, LineStart(r, src.incr, src.width), src)
  }

  /** Pixel c of screen row r shows, in each of its three bytes, word incr * c of line 1 + incr * r. */
  lemma ShownMeans(out: seq<level>, rows: nat, across: nat, src: Source, r: nat, c: nat)
    requires Shown(out, rows, across, src) && (src.incr == 1 || src.incr == 2) && r < rows && c < across
    ensures var at, k := 3 * (r * across + c), (1 + src.incr * r) * src.width + src.incr * c;
      && |src.lut| == 0x1_0000 && k < |src.image| == |src.dark| && at + 2 < |out|
      && out[at] == out[at + 1] == out[at + 2] == Shade(src.lut, src.image[k], src.dark[k], src.subtract)
  {
    var from := LineStart(r, src.incr, src.width);
    assert RowShown(out, PixelStart(r, across), across, from, src);
    assert PixelShown(out, Dot(PixelStart(r, across), c), ShadeAt(src, from + Steps(c, src.incr)));
    assert Dot(PixelStart(r, across), c) == 3 * (r * across + c);
    hide Shade;
  }

  // A row is shown for every line below the first, or every second one, that the image has.
  lemma RowsAre(height: nat, incr: nat, r: nat)
    requires height > 0 && (incr == 1 || incr == 2)
    ensures r < Rows(height, incr) <==> 1 + incr * r < height
  {
  }

  lemma NoPixels(out: seq<level>, at: nat, from: nat, src: Source)
    requires |src.lut| == TABLE && |src.image| == |src.dark|
    ensures RowShown(out, at, 0, from, src)
  {
  }

  lemma NoRows(out: seq<level>, across: nat, src: Source)
    ensures Shown(out, 0, across, src)
    ensures PixelStart(0, across) == 0 && LineStart(0, src.incr, src.width) == src.width
  {
  }

  lemma OneMorePixel(before: seq<level>, after: seq<level>, at: nat, c: nat, from: nat, src: Source)
    requires RowShown(before, at, c, from, src) && |after| == |before| && Dot(at, c + 1) <= |after|
    requires forall k | 0 <= k < Dot(at, c) :: after[k] == before[k]
    requires from + Steps(c, src.incr) < |src.image|
    requires PixelShown(after, Dot(at, c), ShadeAt(src, from + Steps(c, src.incr)))
    ensures RowShown(after, at, c + 1, from, src)
  {
    hide ShadeAt;
  }

  lemma RowKept(before: seq<level>, after: seq<level>, at: nat, n: nat, from: nat, src: Source)
    requires RowShown(before, at, n, from, src) && |after| == |before|
    requires forall k | 0 <= k < Dot(at, n) && k < |after| :: after[k] == before[k]
    ensures RowShown(after, at, n, from, src)
  {
    hide ShadeAt;
  }

  lemma OneMoreRow(before: seq<level>, after: seq<level>, r: nat, across: nat, src: Source)
    requires Shown(before, r, across, src) && |after| == |before|
    requires forall k | 0 <= k < PixelStart(r, across) && k < |after| :: after[k] == before[k]
    requires RowShown(after, PixelStart(r, across), across, LineStart(r, src.incr, src.width), src)
    ensures Shown(after, r + 1, across, src)
  {
    hide RowShown, PixelStart, LineStart;
    forall q | 0 <= q < r
      ensures RowShown(after, PixelStart(q, across), across, LineStart(q, src.incr, src.width), src)
    {
      PixelsApart(q, r, across);
      RowKept(before, after, PixelStart(q, across), across, LineStart(q, src.incr, src.width), src);
    }
  }

  lemma RowsLeft(height: nat, incr: nat, r: nat)
    requires (incr == 1 || incr == 2) && height > 0
    ensures r < Rows(height, incr) <==> height - 1 - Steps(r, incr) > 0
    ensures r < Rows(height, incr) ==> r + 1 < height
  {
  }

  class DisplayTab {
    const width: nat
    const height: nat
    const image: array<Word>
    const darkFrame: array<Word>
    const framePixels: array<level>
    const lut: array<level>
    const lutGreen: array<level>
    const lutBlue: array<level>

    ghost predicate Valid()
      reads this, lut, lutGreen, lutBlue
    {
      width > 0 && height > 1
      && image.Length == darkFrame.Length == width * height
      && framePixels.Length == width * (height - 1) * 3
      && lut != lutGreen && lut != lutBlue && lutGreen != lutBlue
      && framePixels != lut && framePixels != lutGreen && framePixels != lutBlue
      && WhiteAbove(lut[..]) && WhiteAbove(lutGreen[..]) && WhiteAbove(lutBlue[..])
    }

    constructor (width: nat, height: nat)
      requires width > 0 && height > 1
      ensures this.width == width && this.height == height && Valid()
    {
      this.width, this.height := width, height;
      image := new Word[width * height](_ => 0);
      darkFrame := new Word[width * height](_ => 0);
      framePixels := new level[width * (height - 1) * 3](_ => 0);
      lut := new level[TABLE](_ => 255);
      lutGreen := new level[TABLE](_ => 255);
      lutBlue := new level[TABLE](_ => 255);
    }

    method UpdateStretch(min: nat, max: nat, greenGain: real, blueGain: real)
      requires Valid() && min <= MAX_DN && max <= MAX_DN && greenGain >= 0.0 && blueGain >= 0.0
      modifies lut, lutGreen, lutBlue
      ensures Valid()
      ensures forall i | 0 <= i < TABLE :: lut[i] == Stretch(min, max, i)
      ensures forall i | 0 <= i <= MAX_DN :: lutGreen[i] == Brightened(lut[i], greenGain)
      ensures forall i | 0 <= i <= MAX_DN :: lutBlue[i] == Brightened(lut[i], blueGain)
    {
      FillStretch(min, max);
      FillBrightened(lutGreen, greenGain);
      FillBrightened(lutBlue, blueGain);
    }

    method FillStretch(min: nat, max: nat)
      requires WhiteAbove(lut[..]) && min <= MAX_DN && max <= MAX_DN
      modifies lut
      ensures forall i | 0 <= i < TABLE :: lut[i] == Stretch(min, max, i)
      ensures WhiteAbove(lut[..])
    {
      var i := 0;
      while i < min && i <= MAX_DN
        invariant 0 <= i <= min && forall j | 0 <= j < i :: lut[j] == Stretch(min, max, j)
        invariant forall j | MAX_DN < j < TABLE :: lut[j] == 255
      {
        lut[i] := 0;
        i := i + 1;
      }
      if min != max {
        while i <= max && i <= MAX_DN
          invariant min <= i <= MAX_DN + 1 && (min < max ==> i <= max + 1) && (max < min ==> i == min)
          invariant forall j | 0 <= j < i :: lut[j] == Stretch(min, max, j)
          invariant forall j | MAX_DN < j < TABLE :: lut[j] == 255
        {
          Proportional(min, max, i);
          var dn := 256 * (i - min) / (max - min);
          if dn == 256 {
            dn := 255;
          }
          lut[i] := dn;
          i := i + 1;
        }
      }
      while i <= MAX_DN
        invariant i <= MAX_DN + 1 && i >= min && (i <= max ==> min == max)
        invariant forall j | 0 <= j < i :: lut[j] == Stretch(min, max, j)
        invariant forall j | MAX_DN < j < TABLE :: lut[j] == 255
      {
        lut[i] := 255;
        i := i + 1;
      }
    }

    /** Every incr-th pixel of every incr-th line below the first is shown; nothing else of the
        screen buffer changes, and every access is in bounds. */
    method DisplayCurrentFrame(wholeFrame: bool, subtract: bool)
      requires Valid() && (wholeFrame || width % 2 == 0)
      modifies framePixels
      ensures var incr := if wholeFrame then 1 else 2;
        var rows, across := Rows(height, incr), if wholeFrame then width else width / 2;
        Shown(framePixels[..], rows, across, Source(lut[..], image[..], darkFrame[..], width, incr, subtract))
        && PixelStart(rows, across) <= framePixels.Length
        && forall k | PixelStart(rows, across) <= k < framePixels.Length :: framePixels[k] == old(framePixels[k])
    {
      hide RowShown, LineStart, PixelStart, Rows, Shown;
      var incr := if wholeFrame then 1 else 2;
      ghost var across := if wholeFrame then width else width / 2;
      ghost var src := Source(lut[..], image[..], darkFrame[..], width, incr, subtract);
      var nLines := height - 1;
      var ucp, usp := 0, width;
      ghost var r := 0;
      var i: int := nLines;
      NoRows(framePixels[..], across, src);
      RowsLeft(height, incr, 0);
      while i > 0
        invariant i == nLines - Steps(r, incr) && r <= Rows(height, incr) && (i > 0 <==> r < Rows(height, incr))
        invariant ucp == PixelStart(r, across) <= framePixels.Length && usp == LineStart(r, incr, width)
        invariant Shown(framePixels[..], r, across, src)
        invariant forall k | ucp <= k < framePixels.Length :: framePixels[k] == old(framePixels[k])
      {
        NextLine(r, incr, width, height);
        RowsLeft(height, incr, r);
        RowsLeft(height, incr, r + 1);
        NextPixels(r, across, width, height);
        ghost var before := framePixels[..];
        usp, ucp := ShowRow(usp, ucp, incr, across, subtract);
        OneMoreRow(before, framePixels[..], r, across, src);
        usp := usp + (incr - 1) * width;
        i := i - incr;
        r := r + 1;
      }
    }

    method ShowRow(from: nat, at: nat, incr: nat, ghost across: nat, subtract: bool) returns (usp: nat, ucp: nat)
      requires Valid() && (incr == 1 || incr == 2) && Steps(across, incr) == width
      requires from + width <= image.Length && Dot(at, across) <= framePixels.Length
      modifies framePixels
      ensures usp == from + width && ucp == Dot(at, across)
      ensures RowShown(framePixels[..], at, across, from,
                       Source(lut[..], image[..], darkFrame[..], width, incr, subtract))
      ensures forall k | 0 <= k < at || ucp <= k < framePixels.Length :: framePixels[k] == old(framePixels[k])
    {
      hide RowShown, Shade;
      usp, ucp := from, at;
      ghost var c := 0;
      var j: int := width;
      ghost var src := Source(lut[..], image[..], darkFrame[..], width, incr, subtract);
      NoPixels(framePixels[..], at, from, src);
      while j > 0
        invariant j == width - Steps(c, incr) && c <= across
        invariant usp == from + Steps(c, incr) && ucp == Dot(at, c)
        invariant RowShown(framePixels[..], at, c, from, src)
        invariant forall k | 0 <= k < at || ucp <= k < framePixels.Length :: framePixels[k] == old(framePixels[k])
      {
        ghost var before := framePixels[..];
        ShowPixel(usp, ucp, subtract);
        OneMorePixel(before, framePixels[..], at, c, from, src);
        ucp := ucp + 3;
        usp := usp + incr;
        j := j - incr;
        c := c + 1;
      }
    }

    method ShowPixel(usp: nat, ucp: nat, subtract: bool)
      requires Valid() && usp < image.Length && ucp + 3 <= framePixels.Length
      modifies framePixels
      ensures var shade := Shade(lut[..], image[usp], darkFrame[usp], subtract);
        framePixels[ucp] == shade && framePixels[ucp + 1] == shade && framePixels[ucp + 2] == shade
      ensures forall k | 0 <= k < ucp || ucp + 3 <= k < framePixels.Length :: framePixels[k] == old(framePixels[k])
    {
      var pixel: int := image[usp];
      if subtract {
        pixel := pixel - darkFrame[usp];
        if pixel < 0 {
          pixel := 0;
        }
      }
      var value := lut[pixel];
      framePixels[ucp] := value;
      framePixels[ucp + 1] := value;
      framePixels[ucp + 2] := value;
    }

    method FillBrightened(table: array<level>, gain: real)
      requires gain >= 0.0 && table != lut && lut.Length == TABLE && WhiteAbove(table[..])
      modifies table
      ensures forall i | 0 <= i <= MAX_DN :: table[i] == Brightened(lut[i], gain)
      ensures WhiteAbove(table[..])
    {
      var i := 0;
      while i <= MAX_DN
        invariant 0 <= i <= MAX_DN + 1
        invariant forall j | 0 <= j < i :: table[j] == Brightened(lut[j], gain)
        invariant forall j | MAX_DN < j < TABLE :: table[j] == 255
      {
        Rounded(lut[i], gain);
        var dn := (lut[i] as real * gain + 0.5).Floor;
        if dn > 255 {
          dn := 255;
        }
        table[i] := dn;
        i := i + 1;
      }
    }
  }

  /** All three tables are non-decreasing over every word a pixel can hold. */
  lemma TablesMonotone(min: nat, max: nat, gain: real, lut: seq<level>, table: seq<level>)
    requires gain >= 0.0 && WhiteAbove(lut) && WhiteAbove(table)
    requires forall i | 0 <= i < TABLE :: lut[i] == Stretch(min, max, i)
    requires forall i | 0 <= i <= MAX_DN :: table[i] == Brightened(lut[i], gain)
    ensures Monotone(lut) && Monotone(table)
  {
    forall i, j | 0 <= i <= j < TABLE ensures lut[i] <= lut[j] {
      StretchMonotone(min, max, i, j);
    }
    forall i, j | 0 <= i <= j < TABLE ensures table[i] <= table[j] {
      if j <= MAX_DN {
        StretchMonotone(min, max, i, j);
        BrightenedMonotone(lut[i], lut[j], gain);
      }
    }
  }
}

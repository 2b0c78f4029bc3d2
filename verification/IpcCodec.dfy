/**
 The host-independent form of the IPC library's scalars: big-endian, in a size fixed per type.
 Hosts differ in byte order and in the sizes of long and pointer.
 */
module IpcCodec {
  import opened Basics

  datatype Kind = CHAR | UCHAR | SHORT | USHORT | INT | UINT | ULONGINT | FLOAT | DOUBLE | PTR

  datatype Host = Host(littleEndian: bool, longSize: nat, pointerSize: nat)

  predicate ValidHost(h: Host) {
    (h.longSize == 4 || h.longSize == 8) && (h.pointerSize == 4 || h.pointerSize == 8)
  }

  function CanonicalSize(k: Kind): (n: nat)
    ensures 0 < n <= 8
  {
    match k
    case CHAR => 1
    case UCHAR => 1
    case SHORT => 2
    case USHORT => 2
    case INT => 4
    case UINT => 4
    case ULONGINT => 8
    case FLOAT => 4
    case DOUBLE => 8
    case PTR => 8
  }

  function NativeSize(h: Host, k: Kind): (n: nat)
    ensures ValidHost(h) ==> 0 < n <= CanonicalSize(k)
  {
    match k
    case ULONGINT => h.longSize
    case PTR => h.pointerSize
    case _ => CanonicalSize(k)
  }

  // ---- Digits in base 256 ----

  function Power(k: nat): (p: nat)
    ensures p > 0
  {
    if k == 0 then 1 else 256 * Power(k - 1)
  }

  function BigEndian(v: nat, k: nat): (s: seq<byte>)
    ensures |s| == k
  {
    if k == 0 then [] else BigEndian(v / 256, k - 1) + [v % 256]
  }

  function Value(s: seq<byte>): nat {
    if s == [] then 0 else 256 * Value(s[..|s| - 1]) + s[|s| - 1]
  }

  function Reversed(s: seq<byte>): (r: seq<byte>)
    ensures |r| == |s|
  {
    if s == [] then [] else Reversed(s[1..]) + [s[0]]
  }

  lemma {:induction false} ReversedAt(s: seq<byte>, i: nat)
    requires i < |s|
    ensures Reversed(s)[i] == s[|s| - 1 - i]
  {
    if i < |s| - 1 {
      ReversedAt(s[1..], i);
    }
  }

  lemma {:induction false} ReversedConcat(s: seq<byte>, t: seq<byte>)
    ensures Reversed(s + t) == Reversed(t) + Reversed(s)
  {
    if s == [] {
      assert s + t == t;
    } else {
      assert (s + t)[1..] == s[1..] + t;
      ReversedConcat(s[1..], t);
    }
  }

  lemma {:induction false} ReversedTwice(s: seq<byte>)
    ensures Reversed(Reversed(s)) == s
  {
    if s != [] {
      ReversedConcat(Reversed(s[1..]), [s[0]]);
      ReversedTwice(s[1..]);
      assert Reversed([s[0]]) == [s[0]];
      assert [s[0]] + s[1..] == s;
    }
  }

  lemma {:induction false} ReversedZeros(k: nat)
    ensures Reversed(Zeros(k)) == Zeros(k)
  {
    if k > 0 {
      assert Zeros(k)[1..] == Zeros(k - 1);
      ReversedZeros(k - 1);
    }
  }

  // How host h keeps v in memory.
  function Native(h: Host, v: nat, size: nat): (s: seq<byte>)
    ensures |s| == size
  {
    if h.littleEndian then Reversed(BigEndian(v, size)) else BigEndian(v, size)
  }

  lemma ShiftedRemainder(q: nat, p: nat, d: nat)
    requires p > 0 && d < 256
    ensures (256 * q + d) % (256 * p) == 256 * (q % p) + d
  {
    assert 256 * (p * (q / p)) == (256 * p) * (q / p);
    DividesInto(256 * q + d, 256 * p, q / p, 256 * (q % p) + d);
  }

  lemma {:induction false} ValueOfDigits(v: nat, k: nat)
    ensures Value(BigEndian(v, k)) == v % Power(k)
  {
    if k > 0 {
      var q, p := v / 256, Power(k - 1);
      ValueOfDigits(q, k - 1);
      var s := BigEndian(v, k);
      assert s[..|s| - 1] == BigEndian(q, k - 1);
      ShiftedRemainder(q, p, v % 256);
    }
  }

  lemma {:induction false} DigitsOfValue(s: seq<byte>)
    ensures BigEndian(Value(s), |s|) == s && Value(s) < Power(|s|)
  {
    if s != [] {
      var t := s[..|s| - 1];
      DigitsOfValue(t);
      assert t + [s[|s| - 1]] == s;
      assert Value(s) / 256 == Value(t) && Value(s) % 256 == s[|s| - 1];
    }
  }

  lemma {:induction false} Widen(v: nat, s: nat, c: nat)
    requires s <= c && v < Power(s)
    ensures BigEndian(v, c) == Zeros(c - s) + BigEndian(v, s)
    decreases c
  {
    if s > 0 {
      Widen(v / 256, s - 1, c - 1);
      var z, b := Zeros(c - s), BigEndian(v / 256, s - 1);
      assert z + (b + [v % 256]) == z + b + [v % 256];
    } else if c > 0 {
      Widen(0, 0, c - 1);
    }
  }

  lemma {:induction false} Narrow(v: nat, s: nat, c: nat)
    requires s <= c
    ensures BigEndian(v, c)[c - s..] == BigEndian(v, s)
  {
    if s > 0 {
      Narrow(v / 256, s - 1, c - 1);
      var b := BigEndian(v / 256, c - 1);
      assert (b + [v % 256])[c - s..] == b[c - s..] + [v % 256];
    }
  }

  // ---- To and from the canonical form ----

  // Bytes written by canonize, given those of the native variable.
  function Canonized(little: bool, from: seq<byte>, size: nat): (r: seq<byte>)
    requires |from| <= size
    ensures |r| == size
  {
    if little then Reversed(from + Zeros(size - |from|)) else Zeros(size - |from|) + from
  }

  function Uncanonized(little: bool, from: seq<byte>, size: nat): (r: seq<byte>)
    requires size <= |from|
    ensures |r| == size
  {
    if little then Reversed(from[|from| - size..]) else from[|from| - size..]
  }

  /** Whatever the host, a value's canonical form is its big-endian digits, zero-extended. */
  lemma CanonicalForm(h: Host, v: nat, s: nat, c: nat)
    requires s <= c && v < Power(s)
    ensures Canonized(h.littleEndian, Native(h, v, s), c) == BigEndian(v, c)
  {
    Widen(v, s, c);
    if h.littleEndian {
      ReversedConcat(Reversed(BigEndian(v, s)), Zeros(c - s));
      ReversedTwice(BigEndian(v, s));
      ReversedZeros(c - s);
    }
  }

  /** Reading canonical digits leaves the value's low-order bytes in the host's own layout. */
  lemma NativeForm(h: Host, v: nat, s: nat, c: nat)
    requires s <= c
    ensures Uncanonized(h.littleEndian, BigEndian(v, c), s) == Native(h, v, s)
  {
    Narrow(v, s, c);
  }

  function NativeValue(h: Host, s: seq<byte>): nat {
    Value(if h.littleEndian then Reversed(s) else s)
  }

  /** Between any two hosts a scalar survives exactly when it fits the receiver's type. */
  lemma AcrossHosts(a: Host, b: Host, k: Kind, v: nat)
    requires ValidHost(a) && ValidHost(b) && v < Power(NativeSize(a, k))
    ensures var wire := Canonized(a.littleEndian, Native(a, v, NativeSize(a, k)), CanonicalSize(k));
      var got := NativeValue(b, Uncanonized(b.littleEndian, wire, NativeSize(b, k)));
      got == v <==> v < Power(NativeSize(b, k))
  {
    var s := NativeSize(b, k);
    CanonicalForm(a, v, NativeSize(a, k), CanonicalSize(k));
    NativeForm(b, v, s, CanonicalSize(k));
    NativeDigits(b, v, s);
  }

  lemma NativeDigits(h: Host, v: nat, s: nat)
    ensures NativeValue(h, Native(h, v, s)) == v % Power(s)
    ensures v < Power(s) <==> v % Power(s) == v
  {
    ValueOfDigits(v, s);
    ReversedTwice(BigEndian(v, s));
    if v < Power(s) {
      DividesInto(v, Power(s), 0, v);
    }
  }

  // ---- In place ----

  // before with the bytes from lo replaced by mid.
  ghost predicate Spliced(before: seq<byte>, lo: nat, mid: seq<byte>, after: seq<byte>) {
    lo + |mid| <= |before| && after == before[..lo] + mid + before[lo + |mid|..]
  }

  // Where the byte at j came from after i swaps.
  ghost function Source(j: nat, lo: nat, size: nat, i: nat): (k: nat)
    requires i <= size / 2
    ensures lo <= j < lo + size ==> lo <= k < lo + size
    ensures !(lo <= j < lo + size) ==> k == j
  {
    if lo <= j < lo + i || lo + size - i <= j < lo + size then lo + size - 1 - (j - lo) else j
  }

  ghost predicate Swapped(before: seq<byte>, lo: nat, size: nat, i: nat, after: seq<byte>) {
    lo + size <= |before| == |after| && i <= size / 2
    && forall j :: 0 <= j < |after| ==> after[j] == before[Source(j, lo, size, i)]
  }

  lemma NoneSwapped(before: seq<byte>, lo: nat, size: nat)
    requires lo + size <= |before|
    ensures Swapped(before, lo, size, 0, before)
  {
  }

  lemma SwapNext(before: seq<byte>, lo: nat, size: nat, i: nat, now: seq<byte>)
    requires Swapped(before, lo, size, i, now) && i < size / 2
    ensures var a, b := lo + i, lo + size - 1 - i;
      Swapped(before, lo, size, i + 1, now[a := now[b]][b := now[a]])
  {
  }

  lemma AllSwapped(before: seq<byte>, lo: nat, size: nat, after: seq<byte>)
    requires Swapped(before, lo, size, size / 2, after)
    ensures Spliced(before, lo, Reversed(before[lo..lo + size]), after)
  {
    var was := before[lo..lo + size];
    var goal := before[..lo] + Reversed(was) + before[lo + size..];
    forall j | 0 <= j < |after| ensures after[j] == goal[j] {
      if lo <= j < lo + size {
        ReversedAt(was, j - lo);
        assert Source(j, lo, size, size / 2) == lo + size - 1 - (j - lo);
      }
    }
  }

  method FlipWord(size: nat, p: array<byte>, lo: nat)
    requires lo + size <= p.Length
    modifies p
    ensures Spliced(old(p[..]), lo, Reversed(old(p[lo..lo + size])), p[..])
  {
    hide Swapped, Spliced;
    var i := 0;
    NoneSwapped(p[..], lo, size);
    while i < size / 2
      invariant 0 <= i <= size / 2 && Swapped(old(p[..]), lo, size, i, p[..])
    {
      ghost var now := p[..];
      var temp := p[lo + i];
      p[lo + i] := p[lo + size - 1 - i];
      p[lo + size - 1 - i] := temp;
      assert p[..] == now[lo + i := now[lo + size - 1 - i]][lo + size - 1 - i := now[lo + i]];
      SwapNext(old(p[..]), lo, size, i, now);
      i := i + 1;
    }
    AllSwapped(old(p[..]), lo, size, p[..]);
    assert old(p[..])[lo..lo + size] == old(p[lo..lo + size]);
  }

  method CopyBytes(to: array<byte>, lo: nat, bytes: seq<byte>)
    requires lo + |bytes| <= to.Length
    modifies to
    ensures Spliced(old(to[..]), lo, bytes, to[..])
  {
    var i := 0;
    while i < |bytes|
      invariant 0 <= i <= |bytes|
      invariant forall j :: 0 <= j < to.Length && !(lo <= j < lo + i) ==> to[j] == old(to[j])
      invariant forall j :: 0 <= j < i ==> to[lo + j] == bytes[j]
    {
      to[lo + i] := bytes[i];
      i := i + 1;
    }
  }

  lemma SpliceTwice(a: seq<byte>, lo: nat, m: seq<byte>, b: seq<byte>, at: nat, n: seq<byte>,
                    c: seq<byte>, r: seq<byte>)
    requires Spliced(a, lo, m, b) && Spliced(b, at, n, c)
    requires lo <= at && at + |n| <= lo + |m| && |r| == |m|
    requires r == m[..at - lo] + n + m[at - lo + |n|..]
    ensures Spliced(a, lo, r, c)
  {
    assert c == a[..lo] + r + a[lo + |r|..];
  }

  method Canonize(h: Host, from: seq<byte>, to: array<byte>, lo: nat, toSize: nat) returns (ok: bool)
    requires lo + toSize <= to.Length
    modifies to
    ensures ok <==> |from| <= toSize
    ensures ok ==> Spliced(old(to[..]), lo, Canonized(h.littleEndian, from, toSize), to[..])
    ensures !ok ==> to[..] == old(to[..])
  {
    if |from| > toSize {
      return false;
    }
    ghost var a := to[..];
    var spare := toSize - |from|;
    if h.littleEndian {
      Extend(from, to, lo, 0, toSize);
      ghost var r := from + Zeros(spare);
      assert Zeros(0) + from + Zeros(spare) == r;
      ghost var c := to[..];
      assert Spliced(a, lo, r, c);
      assert to[lo..lo + toSize] == r;
      hide Spliced;
      FlipWord(toSize, to, lo);
      SpliceAgain(a, lo, r, c, Reversed(r), to[..]);
    } else {
      Extend(from, to, lo, spare, toSize);
      assert Zeros(spare) + from + Zeros(0) == Zeros(spare) + from;
    }
    return true;
  }

  lemma SpliceAgain(a: seq<byte>, lo: nat, m: seq<byte>, b: seq<byte>, n: seq<byte>, c: seq<byte>)
    requires Spliced(a, lo, m, b) && Spliced(b, lo, n, c) && |m| == |n|
    ensures Spliced(a, lo, n, c)
  {
    assert b[..lo] == a[..lo] && b[lo + |n|..] == a[lo + |n|..];
  }

  lemma ZerosAround(at: nat, s: seq<byte>, size: nat)
    requires at + |s| <= size
    ensures Zeros(at) + s + Zeros(size - at - |s|) == Zeros(size)[..at] + s + Zeros(size)[at + |s|..]
  {
    assert Zeros(size)[..at] == Zeros(at) && Zeros(size)[at + |s|..] == Zeros(size - at - |s|);
  }

  // Clear the destination, then copy the bytes to their place in it.
  method Extend(from: seq<byte>, to: array<byte>, lo: nat, at: nat, toSize: nat)
    requires lo + toSize <= to.Length && at + |from| <= toSize
    modifies to
    ensures Spliced(old(to[..]), lo, Zeros(at) + from + Zeros(toSize - at - |from|), to[..])
  {
    hide Spliced;
    CopyBytes(to, lo, Zeros(toSize));
    ghost var b := to[..];
    CopyBytes(to, lo + at, from);
    ZerosAround(at, from, toSize);
    hide Zeros;
    SpliceTwice(old(to[..]), lo, Zeros(toSize), b, lo + at, from, to[..],
                Zeros(at) + from + Zeros(toSize - at - |from|));
  }

  method Uncanonize(h: Host, from: seq<byte>, to: array<byte>, lo: nat, toSize: nat) returns (ok: bool)
    requires lo + toSize <= to.Length
    modifies to
    ensures ok <==> toSize <= |from|
    ensures ok ==> Spliced(old(to[..]), lo, Uncanonized(h.littleEndian, from, toSize), to[..])
    ensures !ok ==> to[..] == old(to[..])
  {
    if |from| < toSize {
      return false;
    }
    var spareBytes := |from| - toSize;
    CopyBytes(to, lo, from[spareBytes..]);
    if h.littleEndian {
      ghost var c := to[..];
      assert to[lo..lo + toSize] == from[spareBytes..];
      FlipWord(toSize, to, lo);
      SpliceAgain(old(to[..]), lo, from[spareBytes..], c, Reversed(from[spareBytes..]), to[..]);
    }
    return true;
  }
}

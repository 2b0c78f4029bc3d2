/**
 The ring of image buffers between the thread that fetches frames and the consumer.

 Each buffer holds several frames.  The consumer takes a whole buffer off the ring when it asks
 for the buffer's first frame, and gets the rest from there; the buffer counts as free from that
 moment on.  Counting is done under a semaphore.  The copies are not: the consumer is given the
 address of a frame, and reads the frame from there in a step of its own.
 */
module FrameRing {
  import opened Basics

  // Where the fetch thread stands: copying frames, about to count a full buffer, or waiting for room.
  datatype Pc = Copying | Publishing | Waiting

  /** slots: the image buffers; free, fill: the buffer being filled and the frames in it;
      pop, ready: the first full buffer and how many there are; current, left: the buffer being
      handed out and how many of its frames are still to come; reading: the address of a frame has
      been handed out and the frame not read yet; fetched, delivered: the histories. */
  datatype Ring<F> = Ring(
    slots: seq<seq<F>>, free: nat, fill: nat, pc: Pc, pop: nat, ready: nat, current: nat, left: nat, reading: bool,
    fetched: seq<F>, delivered: seq<F>)

  function Next(i: nat, n: nat): nat {
    if i + 1 == n then 0 else i + 1
  }

  // The slot i places after start.
  function At(start: nat, i: nat, n: nat): nat
    requires start < n && i <= n
  {
    if start + i < n then start + i else start + i - n
  }

  // Full buffers, counting one that is full but not yet published.
  function Full<F>(s: Ring<F>): nat {
    s.ready + if s.pc.Publishing? then 1 else 0
  }

  // The frames of the current buffer that the consumer has not read.
  function Unread<F>(s: Ring<F>): nat {
    s.left + if s.reading then 1 else 0
  }

  // What every step keeps, whatever the interleaving: n slots of k frames.
  predicate Inv<F>(s: Ring<F>, n: nat, k: nat) {
    && n >= 1 && k >= 1 && |s.slots| == n && (forall i :: 0 <= i < n ==> |s.slots[i]| == k)
    && s.free < n && s.pop < n && s.current < n && s.fill < k && s.left < k
    && Full(s) <= n
    && (s.pc.Copying? ==> s.ready < n)
    && (!s.pc.Copying? ==> s.fill == 0)
    && s.free == At(s.pop, Full(s), n)
    && (Unread(s) > 0 ==> Next(s.current, n) == s.pop)
  }

  // The contents of count slots from start on.
  function Window<F>(slots: seq<seq<F>>, start: nat, count: nat): (w: seq<F>)
    requires start < |slots| && count <= |slots|
  {
    if count == 0 then [] else Window(slots, start, count - 1) + slots[At(start, count - 1, |slots|)]
  }

  // Everything fetched and not yet read, in the order in which it will be.
  function Pending<F>(s: Ring<F>, n: nat, k: nat): (p: seq<F>)
    requires Inv(s, n, k)
  {
    Rest(s, n, k) + Behind(s, n, k)
  }

  // What is unread of the buffer being handed out.
  function Rest<F>(s: Ring<F>, n: nat, k: nat): (r: seq<F>)
    requires Inv(s, n, k)
  {
    s.slots[s.current][k - Unread(s)..]
  }

  // What comes after that.
  function Behind<F>(s: Ring<F>, n: nat, k: nat): (r: seq<F>)
    requires Inv(s, n, k)
  {
    Window(s.slots, s.pop, Full(s)) + s.slots[s.free][..s.fill]
  }

  predicate Fifo<F(==)>(s: Ring<F>, n: nat, k: nat)
    requires Inv(s, n, k)
  {
    s.delivered + Pending(s, n, k) == s.fetched
  }

  // ---- The steps ----

  // Copy one frame; it counts only if the frame server's buffer was released without error.
  function Fetch<F>(s: Ring<F>, f: F, released: bool, n: nat, k: nat): (r: Ring<F>)
    requires Inv(s, n, k)
    ensures Inv(r, n, k)
  {
    if !s.pc.Copying? then s
    else
      var c := s.(slots := s.slots[s.free := s.slots[s.free][s.fill := f]]);
      if !released then c
      else if s.fill + 1 == k then
        c.(fill := 0, free := Next(s.free, n), pc := Publishing, fetched := s.fetched + [f])
      else c.(fill := s.fill + 1, fetched := s.fetched + [f])
  }

  function Publish<F>(s: Ring<F>, n: nat, k: nat): (r: Ring<F>)
    requires Inv(s, n, k)
    ensures Inv(r, n, k)
  {
    if !s.pc.Publishing? then s
    else s.(ready := s.ready + 1, pc := if s.ready + 1 == n then Waiting else Copying)
  }

  function Poll<F>(s: Ring<F>, n: nat, k: nat): (r: Ring<F>)
    requires Inv(s, n, k)
    ensures Inv(r, n, k)
  {
    if s.pc.Waiting? && s.ready != n then s.(pc := Copying) else s
  }

  predicate Available<F>(s: Ring<F>) {
    s.ready > 0 || s.left != 0
  }

  // Hand out the address of one frame, if there is any, to a consumer done with the one before.
  function Get<F>(s: Ring<F>, n: nat, k: nat): (r: Ring<F>)
    requires Inv(s, n, k)
    ensures Inv(r, n, k)
  {
    if s.reading || !Available(s) then s
    else if s.left != 0 then s.(left := s.left - 1, reading := true)
    else s.(pop := Next(s.pop, n), ready := s.ready - 1, current := s.pop, left := k - 1, reading := true)
  }

  // The consumer reads the frame at that address, whatever is there by now.
  function Read<F>(s: Ring<F>, n: nat, k: nat): (r: Ring<F>)
    requires Inv(s, n, k)
    ensures Inv(r, n, k)
  {
    if !s.reading then s
    else s.(reading := false, delivered := s.delivered + [s.slots[s.current][k - s.left - 1]])
  }

  // ---- Order ----

  // The frame about to be copied lands on one that has not been read yet.
  predicate Clobbers<F>(s: Ring<F>, n: nat, k: nat) {
    s.pc.Copying? && Unread(s) > 0 && s.ready == n - 1 && s.fill >= k - Unread(s)
  }

  lemma {:induction false} WindowSkips<F>(slots: seq<seq<F>>, start: nat, c: nat, count: nat, j: nat, b: seq<F>)
    requires start < |slots| && c <= count < |slots| && j == At(start, count, |slots|)
    ensures Window(slots[j := b], start, c) == Window(slots, start, c)
  {
    if c > 0 {
      WindowSkips(slots, start, c - 1, count, j, b);
    }
  }

  lemma {:induction false} WindowPops<F>(slots: seq<seq<F>>, start: nat, count: nat)
    requires start < |slots| && 1 <= count <= |slots|
    ensures Window(slots, start, count) == slots[start] + Window(slots, Next(start, |slots|), count - 1)
  {
    if count == 1 {
      assert [] + slots[start] == slots[start] + [];
    } else {
      var n := |slots|;
      var next, last := Next(start, n), slots[At(start, count - 1, n)];
      WindowPops(slots, start, count - 1);
      assert Window(slots, start, count) == Window(slots, start, count - 1) + last;
      assert At(next, count - 2, n) == At(start, count - 1, n);
      assert Window(slots, next, count - 1) == Window(slots, next, count - 2) + last;
      hide Window, At;
      var w := Window(slots, next, count - 2);
      assert slots[start] + w + last == slots[start] + (w + last);
    }
  }

  lemma FetchAppends<F>(s: Ring<F>, f: F, released: bool, n: nat, k: nat)
    requires Inv(s, n, k) && s.pc.Copying?
    ensures Behind(Fetch(s, f, released, n, k), n, k) == Behind(s, n, k) + if released then [f] else []
  {
    hide Window, At;
    var r := Fetch(s, f, released, n, k);
    var b := s.slots[s.free][s.fill := f];
    FetchWindow(s, f, released, n, k);
    var w, p := Window(s.slots, s.pop, s.ready), s.slots[s.free][..s.fill];
    assert b[..s.fill] == p && b[..s.fill + 1] == p + [f];
    Together(w, p, f);
    assert w + [] == w;
    if released && s.fill + 1 == k {
      assert b == p + [f] && r.slots[r.free][..0] == [];
    }
  }

  lemma Together<F>(w: seq<F>, p: seq<F>, f: F)
    ensures w + (p + [f]) == w + p + [f] && w + (p + [f]) + [] == w + p + [f]
  {
  }

  lemma FetchWindow<F>(s: Ring<F>, f: F, released: bool, n: nat, k: nat)
    requires Inv(s, n, k) && s.pc.Copying?
    ensures var r, b := Fetch(s, f, released, n, k), s.slots[s.free][s.fill := f];
      && r.slots == s.slots[s.free := b]
      && Window(r.slots, r.pop, Full(r))
           == Window(s.slots, s.pop, Full(s)) + if released && s.fill + 1 == k then b else []
  {
    var b := s.slots[s.free][s.fill := f];
    var slots := s.slots[s.free := b];
    WindowSkips(s.slots, s.pop, s.ready, s.ready, s.free, b);
    var w := Window(s.slots, s.pop, s.ready);
    assert w + [] == w;
    if released && s.fill + 1 == k {
      assert Window(slots, s.pop, s.ready + 1) == Window(slots, s.pop, s.ready) + slots[At(s.pop, s.ready, n)];
    }
  }

  lemma FetchOverwrites<F>(s: Ring<F>, f: F, released: bool, n: nat, k: nat)
    requires Inv(s, n, k) && s.pc.Copying?
    ensures var r := Fetch(s, f, released, n, k);
      && Unread(r) == Unread(s)
      && (Rest(r, n, k) == Rest(s, n, k) <==> !Clobbers(s, n, k) || s.slots[s.free][s.fill] == f)
  {
    var r := Fetch(s, f, released, n, k);
    if Clobbers(s, n, k) {
      assert s.free == s.current;
      var i := s.fill - (k - Unread(s));
      assert Rest(s, n, k)[i] == s.slots[s.free][s.fill] && Rest(r, n, k)[i] == f;
    } else if s.free == s.current {
      assert Unread(s) == 0 || s.fill < k - Unread(s);
    }
  }

  /** Copying a frame keeps the order of all frames exactly when it does not land on an unread
      frame that differs from it. */
  lemma FetchKeepsOrderExactly<F>(s: Ring<F>, f: F, released: bool, n: nat, k: nat)
    requires Inv(s, n, k) && Fifo(s, n, k) && s.pc.Copying?
    ensures Fifo(Fetch(s, f, released, n, k), n, k) <==> !Clobbers(s, n, k) || s.slots[s.free][s.fill] == f
  {
    var r, tail := Fetch(s, f, released, n, k), if released then [f] else [];
    var x, y, t := Rest(r, n, k), Rest(s, n, k), Behind(r, n, k);
    FetchAppends(s, f, released, n, k);
    FetchOverwrites(s, f, released, n, k);
    assert r.fetched == s.fetched + tail && r.delivered == s.delivered;
    assert s.delivered + (y + Behind(s, n, k)) + tail == s.delivered + (y + t);
    SameRest(s.delivered, x, y, t);
  }

  lemma SameRest<F>(d: seq<F>, x: seq<F>, y: seq<F>, t: seq<F>)
    requires |x| == |y|
    ensures d + (x + t) == d + (y + t) <==> x == y
  {
    if d + (x + t) == d + (y + t) {
      assert (d + (x + t))[|d|..][..|x|] == x && (d + (y + t))[|d|..][..|y|] == y;
    }
  }

  // Taking the first full buffer off the ring.
  lemma NextBuffer<F>(s: Ring<F>, n: nat, k: nat)
    requires Inv(s, n, k) && !s.reading && s.left == 0 && s.ready > 0
    ensures var r := Get(s, n, k);
      var b, w, p := s.slots[s.pop], Window(s.slots, r.pop, Full(r)), s.slots[s.free][..s.fill];
      && Rest(s, n, k) == [] && Behind(s, n, k) == b + w + p
      && Rest(r, n, k) == b && Behind(r, n, k) == w + p
  {
    WindowPops(s.slots, s.pop, Full(s));
    assert s.slots[s.pop][0..] == s.slots[s.pop] && s.slots[s.current][k..] == [];
    hide Window, At;
  }

  // Any other handout leaves what is unread as it is.
  lemma SameUnread<F>(s: Ring<F>, n: nat, k: nat)
    requires Inv(s, n, k) && (s.reading || s.left != 0 || s.ready == 0)
    ensures var r := Get(s, n, k); Rest(r, n, k) == Rest(s, n, k) && Behind(r, n, k) == Behind(s, n, k)
  {
    hide Window, At;
  }

  lemma GetKeepsOrder<F>(s: Ring<F>, n: nat, k: nat)
    requires Inv(s, n, k)
    ensures Pending(Get(s, n, k), n, k) == Pending(s, n, k)
    ensures Fifo(s, n, k) ==> Fifo(Get(s, n, k), n, k)
  {
    hide Window, At, Rest, Behind;
    if !s.reading && s.left == 0 && s.ready > 0 {
      NextBuffer(s, n, k);
      var r := Get(s, n, k);
      Regroup(s.slots[s.pop], Window(s.slots, r.pop, Full(r)), s.slots[s.free][..s.fill]);
    } else {
      SameUnread(s, n, k);
    }
  }

  lemma Regroup<F>(b: seq<F>, w: seq<F>, p: seq<F>)
    ensures [] + (b + w + p) == b + (w + p)
  {
  }

  lemma ReadKeepsOrder<F>(s: Ring<F>, n: nat, k: nat)
    requires Inv(s, n, k) && Fifo(s, n, k)
    ensures Fifo(Read(s, n, k), n, k)
  {
    var r := Read(s, n, k);
    if s.reading {
      var x := Rest(s, n, k);
      assert x == [x[0]] + Rest(r, n, k);
      TakeFirst(s.delivered, x[0], Rest(r, n, k), Behind(s, n, k));
    }
  }

  lemma TakeFirst<F>(d: seq<F>, f: F, x: seq<F>, t: seq<F>)
    ensures d + ([f] + x + t) == d + [f] + (x + t)
  {
  }

  lemma CountingKeepsOrder<F>(s: Ring<F>, n: nat, k: nat)
    requires Inv(s, n, k) && Fifo(s, n, k)
    ensures Fifo(Publish(s, n, k), n, k) && Fifo(Poll(s, n, k), n, k)
  {
  }

  // The ring as the constructor leaves it; the contents of the buffers do not matter.
  ghost predicate Initial<F>(s: Ring<F>, n: nat, k: nat): (b: bool)
    ensures b ==> Inv(s, n, k) && Fifo(s, n, k)
  {
    && n >= 1 && k >= 1 && |s.slots| == n && (forall i :: 0 <= i < n ==> |s.slots[i]| == k)
    && s.free == 0 && s.fill == 0 && s.pc == Copying && s.pop == 0 && s.ready == 0
    && s.current == 0 && s.left == 0 && !s.reading && s.fetched == [] && s.delivered == []
  }

  // ---- The buffers as the program keeps them ----

  /** The frame-buffer object: each slot is one image buffer of k frames; the histories are ghost. */
  class FrameBuffer<F> {
    const slots: array<seq<F>>
    const framesPerBuffer: nat
    var nextFreeImageBuffer: nat
    var thisFrame: nat
    var pc: Pc
    var nextPopulatedImageBuffer: nat
    var readyImageBuffers: nat
    var currentImageBuffer: nat
    var framesLeftInBuffer: nat
    ghost var reading: bool
    ghost var fetched: seq<F>
    ghost var delivered: seq<F>

    ghost function View(): Ring<F>
      reads this, slots
    {
      Ring(slots[..], nextFreeImageBuffer, thisFrame, pc, nextPopulatedImageBuffer, readyImageBuffers,
           currentImageBuffer, framesLeftInBuffer, reading, fetched, delivered)
    }

    ghost predicate Valid()
      reads this, slots
    {
      Inv(View(), slots.Length, framesPerBuffer)
    }

    constructor (buffers: nat, frames: nat, blank: F)
      requires buffers >= 1 && frames >= 1
      ensures Valid() && slots.Length == buffers && framesPerBuffer == frames && fresh(slots)
      ensures Initial(View(), buffers, frames)
    {
      slots := new seq<F>[buffers](_ => Repeat(blank, frames));
      framesPerBuffer := frames;
      nextFreeImageBuffer, thisFrame, pc := 0, 0, Copying;
      nextPopulatedImageBuffer, readyImageBuffers, currentImageBuffer, framesLeftInBuffer := 0, 0, 0, 0;
      reading, fetched, delivered := false, [], [];
    }

    method FrameIsAvailable() returns (available: bool)
      requires Valid()
      ensures available <==> Available(View())
      ensures !reading ==> (available <==> Get(View(), slots.Length, framesPerBuffer).reading)
    {
      available := readyImageBuffers > 0 || framesLeftInBuffer != 0;
    }

    // The result is the slot and the frame in it, the address the caller will read the frame from;
    // the one consumer asks again only after reading.
    method GetFrame() returns (found: bool, slot: nat, index: nat)
      requires Valid() && !reading
      modifies this
      ensures Valid() && View() == Get(old(View()), slots.Length, framesPerBuffer)
      ensures found <==> old(Available(View()))
      ensures found ==> slot == currentImageBuffer && index == framesPerBuffer - framesLeftInBuffer - 1
    {
      assert slots.Length > 0 && framesLeftInBuffer < framesPerBuffer;
      hide Inv;
      if readyImageBuffers == 0 && framesLeftInBuffer == 0 {
        return false, 0, 0;
      } else if framesLeftInBuffer != 0 {
        found, slot, index := true, currentImageBuffer, framesPerBuffer - framesLeftInBuffer;
        framesLeftInBuffer := framesLeftInBuffer - 1;
      } else {
        found, slot, index := true, nextPopulatedImageBuffer, 0;
        nextPopulatedImageBuffer := nextPopulatedImageBuffer + 1;
        if nextPopulatedImageBuffer == slots.Length {
          nextPopulatedImageBuffer := 0;
        }
        readyImageBuffers := readyImageBuffers - 1;
        currentImageBuffer, framesLeftInBuffer := slot, framesPerBuffer - 1;
      }
      reading := true;
    }

    // The consumer's copy from that address.
    method ReadFrame(slot: nat, index: nat) returns (frame: F)
      requires Valid() && reading
      requires slot == currentImageBuffer && index == framesPerBuffer - framesLeftInBuffer - 1
      modifies this
      ensures Valid() && View() == Read(old(View()), slots.Length, framesPerBuffer)
      ensures delivered == old(delivered) + [frame]
    {
      frame := slots[slot][index];
      reading := false;
      delivered := delivered + [frame];
    }

    // The fetch thread's copy of one frame from the frame server.
    method FetchFrame(frame: F, released: bool)
      requires Valid() && pc.Copying?
      modifies this, slots
      ensures Valid() && View() == Fetch(old(View()), frame, released, slots.Length, framesPerBuffer)
    {
      assert nextFreeImageBuffer < slots.Length && thisFrame < framesPerBuffer == |slots[nextFreeImageBuffer]|;
      hide Inv;
      ghost var before := slots[..];
      slots[nextFreeImageBuffer] := slots[nextFreeImageBuffer][thisFrame := frame];
      ghost var after := slots[..];
      assert after == before[nextFreeImageBuffer := before[nextFreeImageBuffer][thisFrame := frame]];
      if released {
        fetched := fetched + [frame];
        thisFrame := thisFrame + 1;
        if thisFrame == framesPerBuffer {
          thisFrame := 0;
          nextFreeImageBuffer := nextFreeImageBuffer + 1;
          if nextFreeImageBuffer == slots.Length {
            nextFreeImageBuffer := 0;
          }
          pc := Publishing;
        }
      }
    }

    // Under the semaphore: count the full buffer, and wait if there is no other.
    method PublishBuffer()
      requires Valid() && pc.Publishing?
      modifies this
      ensures Valid() && View() == Publish(old(View()), slots.Length, framesPerBuffer)
    {
      readyImageBuffers := readyImageBuffers + 1;
      pc := if readyImageBuffers == slots.Length then Waiting else Copying;
    }

    method PollForRoom()
      requires Valid() && pc.Waiting?
      modifies this
      ensures Valid() && View() == Poll(old(View()), slots.Length, framesPerBuffer)
    {
      if readyImageBuffers != slots.Length {
        pc := Copying;
      }
    }
  }
}

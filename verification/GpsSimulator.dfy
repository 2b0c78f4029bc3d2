/**
 The GPS message simulator: it queues 3500 and 3501 messages at fixed frame intervals and puts
 at most 21 of the queued words into each frame, from where the parser reads them back.
 */
module GpsSimulator {
  import opened GpsParser
  import opened Basics

  const QUEUE_WORDS := STATUS_WORDS + NAV_WORDS
  const CHUNK_WORDS := 21
  // word index of the PPS area: PPS_IMAGE_OFFSET / sizeof(short)
  const PPS_AREA := 322
  const TIMESTAMP_AREA := 2
  const FILLED: Word := 0xBABE
  const NAV_DATA_WORDS := 18

  // all: message 3 is simulated too; pps: frames per second, rounded.
  datatype Setup = Setup(all: bool, pps: nat, initFrame: nat, ground: bool)

  type Config = c: Setup | c.all ==> c.pps >= 1 witness Setup(false, 0, 0, false)

  function NavInterval(cfg: Config): (m: nat)
    ensures m >= 1
  {
    if cfg.pps / 10 < 1 then 1 else cfg.pps / 10
  }

  function Header(ty: Word): (h: seq<Word>)
    requires MsgType(ty)
    ensures |h| == 9
  {
    var h := [MAGIC, ty, MsgWords(ty) - 6, 0x8000];
    h + [Checksum(h), 0, 0, 0, 0]
  }

  function StatusMsg(mode: Word): (m: seq<Word>)
    ensures |m| == STATUS_WORDS
  {
    Header(TYPE_STATUS) + [mode, 1] + Zeros(11)
  }

  function NavMsg(data: seq<Word>): (m: seq<Word>)
    requires |data| == NAV_DATA_WORDS
    ensures |m| == NAV_WORDS
  {
    Header(TYPE_NAV) + data + [0]
  }

  // Before the simulated flight navigates, its messages give the altitude (words 4 and 5) only.
  function Shown(mode: Word, data: seq<Word>): (d: seq<Word>)
    requires |data| == NAV_DATA_WORDS
    ensures |d| == NAV_DATA_WORDS
  {
    if mode == 7 then data else Zeros(4) + data[4..6] + Zeros(12)
  }

  // Fine or air alignment for the first thousand frames after a GPS initialisation, then navigation.
  function Mode(cfg: Config, frame: nat): Word {
    if frame < cfg.initFrame then 0
    else if frame - cfg.initFrame < 1000 then if cfg.ground then 4 else 5
    else 7
  }

  datatype Sim = Sim(left: seq<Word>, mode: Word)

  const IDLE := Sim([], 0)

  // The messages that frame n adds to the queue; one that does not fit is dropped.
  function StatusDue(cfg: Config, s: Sim, n: nat): bool {
    cfg.all && n % cfg.pps == 0 && |s.left| + STATUS_WORDS <= QUEUE_WORDS
  }

  function AddStatus(cfg: Config, s: Sim, n: nat): (r: Sim) {
    if StatusDue(cfg, s, n) then Sim(s.left + StatusMsg(Mode(cfg, n)), Mode(cfg, n)) else s
  }

  predicate NavDue(cfg: Config, s: Sim, n: nat) {
    n % NavInterval(cfg) == 0 && |s.left| + NAV_WORDS <= QUEUE_WORDS
  }

  function AddNav(cfg: Config, s: Sim, n: nat, data: seq<Word>): (r: Sim)
    requires |data| == NAV_DATA_WORDS
  {
    if NavDue(cfg, s, n) then s.(left := s.left + NavMsg(Shown(s.mode, data))) else s
  }

  function Queue(cfg: Config, s: Sim, n: nat, data: seq<Word>): (r: Sim)
    requires |data| == NAV_DATA_WORDS
  {
    AddNav(cfg, AddStatus(cfg, s, n), n, data)
  }

  function Added(cfg: Config, s: Sim, n: nat, data: seq<Word>): (ms: seq<seq<Word>>)
    requires |data| == NAV_DATA_WORDS
  {
    (if StatusDue(cfg, s, n) then [StatusMsg(Mode(cfg, n))] else []) +
    (if NavDue(cfg, AddStatus(cfg, s, n), n) then [NavMsg(Shown(AddStatus(cfg, s, n).mode, data))] else [])
  }

  function Chunk(left: seq<Word>): (c: nat)
    ensures c <= |left|
  {
    if |left| > CHUNK_WORDS then CHUNK_WORDS else |left|
  }

  // The words frame n carries, and the simulator afterwards.
  function Emitted(cfg: Config, s: Sim, n: nat, data: seq<Word>): (f: seq<Word>)
    requires |data| == NAV_DATA_WORDS
    ensures |f| <= CHUNK_WORDS
  {
    var left := Queue(cfg, s, n, data).left;
    left[..Chunk(left)]
  }

  function Next(cfg: Config, s: Sim, n: nat, data: seq<Word>): (r: Sim)
    requires |data| == NAV_DATA_WORDS
    ensures |s.left| <= QUEUE_WORDS ==> |r.left| <= QUEUE_WORDS
  {
    var q := Queue(cfg, s, n, data);
    q.(left := q.left[Chunk(q.left)..])
  }

  // The second's mark in an image: the frame counter in two words.
  function Marked(px: seq<Word>, cfg: Config, n: nat): (r: seq<Word>)
    requires |px| >= GPS_AREA
    ensures |r| == |px|
  {
    if cfg.all && n % cfg.pps == 0 then
      px[PPS_AREA := FILLED][PPS_AREA + 1 := 2][PPS_AREA + 2 := n % 0x1_0000][PPS_AREA + 3 := n / 0x1_0000 % 0x1_0000]
    else px
  }

  // GPS words in an image, the rest of their room blank.
  function Filled(px: seq<Word>, f: seq<Word>): (r: seq<Word>)
    requires |px| >= GPS_AREA + 2 + CHUNK_WORDS && |f| <= CHUNK_WORDS
    ensures |r| == |px|
  {
    if f == [] then px
    else px[..GPS_AREA] + [FILLED, |f|] + f + Zeros(CHUNK_WORDS - |f|) + px[GPS_AREA + 2 + CHUNK_WORDS..]
  }

  // The image of frame n with the words f.
  function Painted(px: seq<Word>, cfg: Config, n: nat, f: seq<Word>): (r: seq<Word>)
    requires |px| >= GPS_AREA + 2 + CHUNK_WORDS && |f| <= CHUNK_WORDS
    ensures |r| == |px|
  {
    Filled(Marked(px, cfg, n), f)[TIMESTAMP_AREA := n % 0x1_0000]
  }

  /** In a frame that begins a second, words 322 to 325 are a mark, a count of two, and the frame
      counter modulo 2^32 in two words; word 2 is the counter's low half.  The GPS words stand behind
      a mark and their number at word 340, and no other word changes. */
  lemma PaintedMeans(px: seq<Word>, cfg: Config, n: nat, f: seq<Word>)
    requires |px| >= 363 && |f| <= 21
    ensures var r, due := Painted(px, cfg, n, f), cfg.all && n % cfg.pps == 0;
      && (due ==> r[322] == 0xBABE && r[323] == 2 && r[324] as int + 0x1_0000 * r[325] as int == n % 0x1_0000_0000)
      && r[2] == n % 0x1_0000
      && (f != [] ==>
            && r[340] == 0xBABE && r[341] == |f| && r[342..342 + |f|] == f
            && (forall i :: 342 + |f| <= i < 363 ==> r[i] == 0))
      && (forall i :: 0 <= i < |px| && i != 2 && !(due && 322 <= i < 326) && !(f != [] && 340 <= i < 363) ==>
            r[i] == px[i])
  {
    Halves(n);
    var m := Marked(px, cfg, n);
    var r := Filled(m, f);
    assert f != [] ==> r[342..342 + |f|] == f;
  }

  lemma Halves(n: nat)
    ensures n % 0x1_0000 + 0x1_0000 * (n / 0x1_0000 % 0x1_0000) == n % 0x1_0000_0000
  {
    var q := n / 0x1_0000;
    DividesInto(n, 0x1_0000_0000, q / 0x1_0000, n % 0x1_0000 + 0x1_0000 * (q % 0x1_0000));
  }

  // The parser's words: behind the count at word 341, unless word 340 says that there are none.
  lemma AreaMeans(px: seq<Word>)
    ensures AreaFits(px) <==> |px| >= 342 && (px[340] != 0xDEAD ==> 342 + px[341] <= |px|)
    ensures AreaFits(px) ==> AreaWords(px) == if px[340] == 0xDEAD then [] else px[342..342 + px[341]]
  {
  }

  // What the parser finds in it, if there was nothing before.
  lemma PaintedWords(px: seq<Word>, cfg: Config, n: nat, f: seq<Word>)
    requires |px| >= GPS_AREA + 2 + CHUNK_WORDS && |f| <= CHUNK_WORDS
    requires f != [] || (AreaFits(px) && AreaWords(px) == [])
    ensures AreaFits(Painted(px, cfg, n, f)) && AreaWords(Painted(px, cfg, n, f)) == f
  {
    var r := Painted(px, cfg, n, f);
    if f != [] {
      assert r[GPS_AREA + 2..GPS_AREA + 2 + |f|] == f;
    }
  }

  /** The simulator's static buffer, written into the image of each frame. */
  class Simulator {
    const buf: array<Word>
    var wordsLeft: nat
    var gpsMode: Word

    ghost predicate Valid()
      reads this, buf
    {
      buf.Length == QUEUE_WORDS && wordsLeft <= buf.Length
    }

    ghost function View(): Sim
      requires Valid()
      reads this, buf
    {
      Sim(buf[..wordsLeft], gpsMode)
    }

    constructor ()
      ensures Valid() && fresh(buf) && View() == IDLE
    {
      buf := new Word[QUEUE_WORDS];
      wordsLeft, gpsMode := 0, 0;
    }

    method Put(m: seq<Word>)
      requires Valid() && wordsLeft + |m| <= buf.Length
      modifies `wordsLeft, buf
      ensures Valid() && View() == old(View()).(left := old(View()).left + m)
    {
      ghost var before := buf[..wordsLeft];
      for k := 0 to |m|
        modifies `wordsLeft, buf
        invariant wordsLeft == |before| + k
        invariant buf[..wordsLeft] == before + m[..k]
      {
        buf[wordsLeft] := m[k];
        wordsLeft := wordsLeft + 1;
      }
      assert m[..|m|] == m;
    }

    method AddToFrame(cfg: Config, frameCount: nat, data: seq<Word>, image: array<Word>)
      requires Valid() && |data| == NAV_DATA_WORDS
      requires image != buf && image.Length >= GPS_AREA + 2 + CHUNK_WORDS
      modifies this, buf, image
      ensures Valid() && View() == Next(cfg, old(View()), frameCount, data)
      ensures image[..] == Painted(old(image[..]), cfg, frameCount, Emitted(cfg, old(View()), frameCount, data))
    {
      if cfg.all && frameCount % cfg.pps == 0 {
        image[PPS_AREA], image[PPS_AREA + 1] := FILLED, 2;
        image[PPS_AREA + 2] := frameCount % 0x1_0000;
        image[PPS_AREA + 3] := frameCount / 0x1_0000 % 0x1_0000;
      }
      assert image[..] == Marked(old(image[..]), cfg, frameCount);
      Enqueue(cfg, frameCount, data);
      if wordsLeft != 0 {
        Drain(image);
      }
      image[TIMESTAMP_AREA] := frameCount % 0x1_0000;
    }

    method Enqueue(cfg: Config, frameCount: nat, data: seq<Word>)
      requires Valid() && |data| == NAV_DATA_WORDS
      modifies this, buf
      ensures Valid() && View() == Queue(cfg, old(View()), frameCount, data)
    {
      if cfg.all && frameCount % cfg.pps == 0 {
        if wordsLeft + STATUS_WORDS <= QUEUE_WORDS {
          gpsMode := Mode(cfg, frameCount);
          Put(StatusMsg(gpsMode));
        }
      }
      if frameCount % NavInterval(cfg) == 0 && wordsLeft + NAV_WORDS <= QUEUE_WORDS {
        Put(NavMsg(Shown(gpsMode, data)));
      }
    }

    // Move one chunk of the queue into the frame's GPS area.
    method Drain(image: array<Word>)
      requires Valid() && wordsLeft > 0
      requires image != buf && image.Length >= GPS_AREA + 2 + CHUNK_WORDS
      modifies `wordsLeft, buf, image
      ensures Valid() && View().left == old(View().left[Chunk(View().left)..])
      ensures image[..] == Filled(old(image[..]), old(View().left[..Chunk(View().left)]))
    {
      hide Filled;
      ghost var left := View().left;
      var chunk := if wordsLeft > CHUNK_WORDS then CHUNK_WORDS else wordsLeft;
      assert left[..chunk] == buf[..chunk];
      PutWords(image, chunk);
      ShiftDown(chunk);
      assert left[chunk..chunk + wordsLeft] == left[chunk..];
    }

    method PutWords(image: array<Word>, chunk: nat)
      requires Valid() && 0 < chunk <= wordsLeft && chunk <= CHUNK_WORDS
      requires image != buf && image.Length >= GPS_AREA + 2 + CHUNK_WORDS
      modifies image
      ensures image[..] == Filled(old(image[..]), buf[..chunk])
    {
      image[GPS_AREA], image[GPS_AREA + 1] := FILLED, chunk;
      forall k | 0 <= k < CHUNK_WORDS {
        image[GPS_AREA + 2 + k] := if k < chunk then buf[k] else 0;
      }
      assert image[..] == Filled(old(image[..]), buf[..chunk]);
    }

    method ShiftDown(chunk: nat)
      requires Valid() && chunk <= wordsLeft
      modifies `wordsLeft, buf
      ensures wordsLeft == old(wordsLeft) - chunk && buf[..wordsLeft] == old(buf[chunk..wordsLeft])
    {
      for i := 0 to wordsLeft - chunk
        modifies buf
        invariant forall k :: 0 <= k < i ==> buf[k] == old(buf[k + chunk])
        invariant forall k :: i <= k < wordsLeft ==> buf[k] == old(buf[k])
      {
        buf[i] := buf[i + chunk];
      }
      wordsLeft := wordsLeft - chunk;
    }
  }
}

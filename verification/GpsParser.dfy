/**
 The GPS word-stream parser of the flight display.

 Every camera frame carries up to a few hundred GPS words in its first line.  A seven-state
 machine, whose state survives from one frame to the next, picks the 3500 and 3501 messages out
 of that stream.  The magic word may also occur inside a message, so the machine resynchronises
 by hand; this module proves what that buys and what it does not.
 */
module GpsParser {

  import opened Basics

  const MAGIC: Word := 0x81ff
  const NO_DATA: Word := 0xDEAD
  const TYPE_STATUS: Word := 3500
  const TYPE_NAV: Word := 3501
  const STATUS_WORDS := 22
  const NAV_WORDS := 28
  const MAX_WORDS := 123
  // word index of the GPS area in the image: GPS_IMAGE_OFFSET / sizeof(short)
  const GPS_AREA := 340

  predicate MsgType(w: Word) {
    w == TYPE_STATUS || w == TYPE_NAV
  }

  function MsgWords(ty: Word): nat {
    if ty == TYPE_STATUS then STATUS_WORDS else NAV_WORDS
  }

  // Sum of the first n words, without the wrap-around.
  function Sum(b: seq<Word>, n: nat): (s: int)
    requires n <= |b|
  {
    if n == 0 then 0 else Sum(b, n - 1) + b[n - 1] as int
  }

  // The 16-bit two's complement of the sum of the first four header words.
  function Checksum(b: seq<Word>): Word
    requires |b| >= 4
  {
    var s: int := Sum(b, 4) % 0x1_0000;
    (0x1_0000 - s) % 0x1_0000
  }

  predicate ChecksumOk(b: seq<Word>) {
    |b| >= 5 && Checksum(b) == b[4]
  }

  // ---- What the GPS transmits, in numbers ----

  predicate StatusOrNav(w: Word) {
    w == 3500 || w == 3501
  }

  function MessageWords(ty: Word): nat {
    if ty == 3500 then 22 else 28
  }

  // The sum of the header, magic word to checksum.
  function HeaderSum(b: seq<Word>): int
    requires |b| >= 5
  {
    b[0] as int + b[1] as int + b[2] as int + b[3] as int + b[4] as int
  }

  // Magic word, type, length - 6, flags, header checksum, payload.
  predicate WellFormed(m: seq<Word>) {
    && |m| >= 6
    && m[0] == 0x81ff
    && StatusOrNav(m[1])
    && |m| == MessageWords(m[1])
    && m[2] == |m| - 6
    && m[3] != 0x81ff
    && HeaderSum(m) % 0x1_0000 == 0
  }

  // A message handed on, with the stream position of its first word.
  datatype Delivery = Delivery(start: nat, msg: seq<Word>)

  // buf is lastGPSMsg[..gpsMsgWordsBuffered]; seen counts the words consumed so far.
  datatype Parser = Parser(state: nat, buf: seq<Word>, seen: nat, out: seq<Delivery>)

  const START := Parser(0, [], 0, [])

  // Stream position at which the buffered words begin.
  function Begin(p: Parser): int {
    if p.state == 0 then p.seen else p.seen - |p.buf|
  }

  // What every step keeps, whatever the words are: enough for memory safety.
  predicate Shape(p: Parser) {
    && p.state <= 6
    && |p.buf| <= NAV_WORDS
    && Begin(p) >= 0
    && (forall d <- p.out :: |d.msg| >= 1 && d.start + |d.msg| <= Begin(p))
    && (p.state >= 1 ==> |p.buf| >= 1 && p.buf[0] == MAGIC)
    && (1 <= p.state <= 5 ==> |p.buf| == p.state)
    && (p.state >= 2 ==> |p.buf| >= 2 && MsgType(p.buf[1]))
    && (p.state == 6 ==> 6 <= |p.buf| < MsgWords(p.buf[1]))
  }

  // One word of the inner loop; prev is the word in memory just before it.
  function Step(p: Parser, prev: Word, w: Word): (r: Parser)
    requires Shape(p)
    ensures Shape(r) && r.seen == p.seen + 1
    ensures p.out <= r.out && |r.out| <= |p.out| + 1
  {
    var q := p.(seen := p.seen + 1);
    var idle := q.(state := 0);
    var restart := q.(state := 1, buf := [MAGIC]);
    var grown := p.buf + [w];
    match p.state
    case 0 => if w == MAGIC then q.(state := 1, buf := [w]) else q
    case 1 =>
      if MsgType(w) then q.(state := 2, buf := grown)
      else if w == MAGIC then restart
      else idle
    case 2 =>
      if w == MAGIC then restart
      else if (prev == TYPE_STATUS && w == STATUS_WORDS - 6) || (prev == TYPE_NAV && w == NAV_WORDS - 6) then
        q.(state := 3, buf := grown)
      else idle
    case 3 => if w == MAGIC then restart else q.(state := 4, buf := grown)
    case 4 => q.(state := 5, buf := grown)
    case 5 =>
      if ChecksumOk(p.buf) then q.(state := 6, buf := grown)
      else if p.buf[4] == MAGIC then
        if MsgType(w) then q.(state := 2, buf := [MAGIC, w])
        else if w == MAGIC then restart
        else idle
      else if w == MAGIC then restart
      else idle
    case _ =>
      if |grown| == MsgWords(p.buf[1]) then
        q.(state := 0, buf := grown, out := p.out + [Delivery(Begin(p), grown)])
      else q.(buf := grown)
  }

  // The words ws, the first of which follows prev in memory.
  function Run(p: Parser, prev: Word, ws: seq<Word>): (r: Parser)
    requires Shape(p)
    ensures Shape(r) && r.seen == p.seen + |ws| && p.out <= r.out
    decreases |ws|
  {
    if ws == [] then p else Run(Step(p, prev, ws[0]), ws[0], ws[1..])
  }

  // One frame: the word in front of the first data word is the word count.
  function ParseFrame(p: Parser, f: seq<Word>): (r: Parser)
    requires Shape(p) && |f| < 0x1_0000
    ensures Shape(r) && p.out <= r.out
  {
    Run(p, |f|, f)
  }

  predicate FramesFit(fs: seq<seq<Word>>) {
    forall f <- fs :: |f| < 0x1_0000
  }

  function ParseFrames(p: Parser, fs: seq<seq<Word>>): (r: Parser)
    requires Shape(p) && FramesFit(fs)
    ensures Shape(r) && p.out <= r.out
    decreases |fs|
  {
    if fs == [] then p else ParseFrames(ParseFrame(p, fs[0]), fs[1..])
  }

  // The data words of a frame's GPS area, none if the area is marked empty.
  predicate AreaFits(px: seq<Word>) {
    |px| >= GPS_AREA + 2 && (px[GPS_AREA] != NO_DATA ==> GPS_AREA + 2 + px[GPS_AREA + 1] <= |px|)
  }

  function AreaWords(px: seq<Word>): (f: seq<Word>)
    requires AreaFits(px)
    ensures |f| < 0x1_0000
  {
    if px[GPS_AREA] == NO_DATA then [] else px[GPS_AREA + 2..GPS_AREA + 2 + px[GPS_AREA + 1]]
  }

  /** The parser as it stands in the program: static state updated word by word. */
  class Machine {
    var parseState: nat
    var wordsBuffered: nat
    const lastMsg: array<Word>
    ghost var seen: nat
    ghost var delivered: seq<Delivery>

    ghost predicate Valid()
      reads this, lastMsg
    {
      lastMsg.Length == MAX_WORDS && wordsBuffered <= MAX_WORDS && Shape(View())
    }

    ghost function View(): Parser
      requires wordsBuffered <= lastMsg.Length
      reads this, lastMsg
    {
      Parser(parseState, lastMsg[..wordsBuffered], seen, delivered)
    }

    constructor ()
      ensures Valid() && fresh(lastMsg)
      ensures View() == START
    {
      parseState, wordsBuffered := 0, 0;
      lastMsg := new Word[MAX_WORDS];
      seen, delivered := 0, [];
    }

    method Append(w: Word)
      requires wordsBuffered < lastMsg.Length
      modifies `wordsBuffered, lastMsg
      ensures wordsBuffered == old(wordsBuffered) + 1
      ensures lastMsg[..wordsBuffered] == old(lastMsg[..wordsBuffered]) + [w]
    {
      lastMsg[wordsBuffered] := w;
      wordsBuffered := wordsBuffered + 1;
    }

    method Take(prev: Word, w: Word)
      requires Valid()
      modifies this, lastMsg
      ensures Valid() && View() == Step(old(View()), prev, w)
    {
      ghost var p := View();
      if parseState <= 4 {
        TakeHeader(prev, w);
      } else if parseState == 5 {
        TakeAfterChecksum(w);
      } else {
        TakePayload(w);
      }
      seen := seen + 1;
      assert View() == Step(p, prev, w);
    }

    // States 0 to 4: collect the header, going back to the start on an unexpected word.
    method TakeHeader(prev: Word, w: Word)
      requires Valid() && parseState <= 4
      modifies `wordsBuffered, `parseState, lastMsg
      ensures wordsBuffered <= MAX_WORDS && View().(seen := seen + 1) == Step(old(View()), prev, w)
    {
      match parseState {
        case 0 =>
          if w == MAGIC {
            wordsBuffered := 0;
            Append(w);
            parseState := 1;
          }
        case 1 =>
          if MsgType(w) {
            Append(w);
            parseState := 2;
          } else if w != MAGIC {
            parseState := 0;
          }
        case 2 =>
          if w == MAGIC {
            wordsBuffered, parseState := 1, 1;
          } else if (prev == TYPE_STATUS && w == STATUS_WORDS - 6) || (prev == TYPE_NAV && w == NAV_WORDS - 6) {
            Append(w);
            parseState := 3;
          } else {
            parseState := 0;
          }
        case 3 =>
          if w == MAGIC {
            wordsBuffered, parseState := 1, 1;
          } else {
            Append(w);
            parseState := 4;
          }
        case 4 =>
          Append(w);
          parseState := 5;
      }
    }

    // State 6: collect the payload and hand the message on when it is complete.
    method TakePayload(w: Word)
      requires Valid() && parseState == 6
      modifies this, lastMsg
      ensures wordsBuffered <= MAX_WORDS && seen == old(seen)
      ensures View().(seen := seen + 1) == Step(old(View()), 0, w)
    {
      ghost var begin := Begin(View());
      Append(w);
      if (lastMsg[1] == TYPE_STATUS && wordsBuffered == STATUS_WORDS)
      || (lastMsg[1] == TYPE_NAV && wordsBuffered == NAV_WORDS) {
        delivered := delivered + [Delivery(begin, lastMsg[..wordsBuffered])];
        parseState := 0;
      }
    }

    // State 5: the header is complete; accept it, or look for a new start in its last two words.
    method TakeAfterChecksum(w: Word)
      requires lastMsg.Length == MAX_WORDS && wordsBuffered == 5 && lastMsg[0] == MAGIC
      modifies `wordsBuffered, `parseState, lastMsg
      ensures wordsBuffered <= lastMsg.Length
      ensures
        var b := old(lastMsg[..5]);
        var b' := lastMsg[..wordsBuffered];
        if ChecksumOk(b) then parseState == 6 && b' == b + [w]
        else if b[4] == MAGIC && MsgType(w) then parseState == 2 && b' == [MAGIC, w]
        else if w == MAGIC then parseState == 1 && b' == [MAGIC]
        else parseState == 0 && b' == b
    {
      var cs: int := 0;
      for j := 0 to 4
        invariant cs == Sum(lastMsg[..5], j) % 0x1_0000
      {
        cs := (cs + lastMsg[j] as int) % 0x1_0000;
      }
      // ~cs + 1 in 16 bits
      cs := (0xffff - cs + 1) % 0x1_0000;
      assert cs == Checksum(lastMsg[..5]);
      if cs == lastMsg[4] {
        lastMsg[5] := w;
        wordsBuffered, parseState := 6, 6;
      } else if lastMsg[4] == MAGIC {
        if MsgType(w) {
          lastMsg[1] := w;
          wordsBuffered, parseState := 2, 2;
        } else if w == MAGIC {
          wordsBuffered, parseState := 1, 1;
        } else {
          parseState := 0;
        }
      } else if w == MAGIC {
        wordsBuffered, parseState := 1, 1;
      } else {
        parseState := 0;
      }
    }

    method ProcessImage(image: array<Word>)
      requires Valid() && image != lastMsg
      requires AreaFits(image[..])
      modifies this, lastMsg
      ensures Valid() && View() == ParseFrame(old(View()), AreaWords(image[..]))
    {
      if image[GPS_AREA] == NO_DATA {
        return;
      }
      ghost var f := AreaWords(image[..]);
      ghost var p := View();
      var wordCount := image[GPS_AREA + 1];
      for i := 0 to wordCount
        invariant Valid()
        invariant image[GPS_AREA + 2..GPS_AREA + 2 + wordCount] == f
        invariant ParseFrame(p, f) == Run(View(), image[GPS_AREA + 1 + i], f[i..])
      {
        var at := GPS_AREA + 2 + i;
        assert image[at] == f[i] && f[i..][0] == f[i] && f[i..][1..] == f[i + 1..];
        Take(image[at - 1], image[at]);
      }
    }
  }
}

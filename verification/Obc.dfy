/**
 The on-board calibrator's TTL lines, driven through a register shared with the PXI recorder.
 Leaving the bright state abruptly damages the lamp, so the program ramps it down first.
 */
module Obc {

  const OBC_GPIO_BITMASK: bv32 := 0x1f
  const PXI_GPIO_BITMASK: bv32 := 0x300
  const PXI_START_RECORD: bv32 := 0x100
  const PXI_STOP_RECORD: bv32 := 0x200

  const OBC_DARK1 := 1
  const OBC_SCIENCE := 2
  const OBC_DARK2 := 3
  const OBC_MEDIUM := 4
  const OBC_BRIGHT := 5
  const OBC_LASER := 6
  const OBC_IDLE := 7

  // The five lines; true is high.
  datatype Lines = Lines(operA: bool, operB: bool, shutter: bool, target: bool, laser: bool)

  const RAMP := Lines(false, false, true, true, true)

  // The pattern commanded for a state; there is none for an unknown one.
  function Pattern(state: int): seq<Lines> {
    if state == OBC_DARK1 then [Lines(false, false, false, true, false)]
    else if state == OBC_SCIENCE then [Lines(false, false, false, false, false)]
    else if state == OBC_DARK2 then [Lines(false, true, false, true, false)]
    else if state == OBC_MEDIUM then [Lines(false, true, true, true, false)]
    else if state == OBC_BRIGHT then [Lines(true, true, true, true, false)]
    else if state == OBC_LASER then [Lines(false, false, false, true, true)]
    else if state == OBC_IDLE then [Lines(false, false, true, true, false)]
    else []
  }

  // The commands of one setOBC call.
  function Commands(last: int, state: int): seq<Lines> {
    (if last == OBC_BRIGHT && state != OBC_MEDIUM then [RAMP] else []) + Pattern(state)
  }

  // The commands of a run of calls.
  function AllCommands(last: int, states: seq<int>): seq<Lines>
    decreases |states|
  {
    if states == [] then [] else Commands(last, states[0]) + AllCommands(states[0], states[1..])
  }

  // What may follow a bright command: the medium pattern, or lamps low with the shutter high.
  predicate Gentle(c: Lines) {
    c == Lines(false, true, true, true, false) || (!c.operA && !c.operB && c.shutter)
  }

  // A safe continuation when the lines may be in the bright state (hot) or are not.
  predicate Safe(hot: bool, cs: seq<Lines>)
    decreases |cs|
  {
    cs == [] || ((hot ==> Gentle(cs[0])) && (cs[0].operA ==> cs[0].shutter) && Safe(cs[0].operA, cs[1..]))
  }

  lemma {:induction false} RunSafe(last: int, states: seq<int>, hot: bool)
    requires hot ==> last == OBC_BRIGHT
    ensures Safe(hot, AllCommands(last, states))
    decreases |states|
  {
    if states != [] {
      var s, rest := states[0], AllCommands(states[0], states[1..]);
      RunSafe(s, states[1..], s == OBC_BRIGHT);
      RunSafe(s, states[1..], false);
      var p := Pattern(s);
      if p != [] {
        assert (p + rest)[0] == p[0] && (p + rest)[1..] == rest;
        assert Safe(hot && s == OBC_MEDIUM, p + rest);
        assert Safe(false, p + rest);
      } else {
        assert p + rest == rest;
      }
      if last == OBC_BRIGHT && s != OBC_MEDIUM {
        assert ([RAMP] + p + rest)[1..] == p + rest;
      } else {
        assert Commands(last, s) + rest == p + rest;
      }
    }
  }

  lemma {:induction false} SafeEverywhere(hot: bool, cs: seq<Lines>)
    requires Safe(hot, cs)
    ensures forall i :: 0 <= i < |cs| && cs[i].operA ==> cs[i].shutter
    ensures forall i :: 0 <= i < |cs| - 1 && cs[i].operA ==> Gentle(cs[i + 1])
    ensures hot && cs != [] ==> Gentle(cs[0])
    decreases |cs|
  {
    if cs != [] {
      SafeEverywhere(cs[0].operA, cs[1..]);
      forall i | 0 <= i < |cs| && cs[i].operA ensures cs[i].shutter {
        assert i > 0 ==> cs[i] == cs[1..][i - 1];
      }
      forall i | 0 <= i < |cs| - 1 && cs[i].operA ensures Gentle(cs[i + 1]) {
        assert i > 0 ==> cs[i] == cs[1..][i - 1] && cs[i + 1] == cs[1..][i];
      }
    }
  }

  /** Over every run of setOBC calls from the assumed-bright start: lamp A is never high with the
      shutter low, and whatever follows a bright command, or comes first, is gentle. */
  lemma CommandSafety(states: seq<int>)
    ensures var cs := AllCommands(OBC_BRIGHT, states);
      && (forall i :: 0 <= i < |cs| && cs[i].operA ==> cs[i].shutter)
      && (forall i :: 0 <= i < |cs| - 1 && cs[i].operA ==> Gentle(cs[i + 1]))
      && (cs != [] ==> Gentle(cs[0]))
  {
    RunSafe(OBC_BRIGHT, states, true);
    SafeEverywhere(true, AllCommands(OBC_BRIGHT, states));
  }

  // ---- The register ----

  function Bit(high: bool, weight: bv32): bv32 {
    if high then weight else 0
  }

  function Encode(c: Lines): bv32 {
    Bit(c.operA, 1) | Bit(c.operB, 2) | Bit(c.shutter, 4) | Bit(c.target, 8) | Bit(c.laser, 16)
  }

  // The 32-bit register shared by the calibrator and the recorder.
  datatype Register = Register(bits: bv32)

  // What the register drives onto the five lines.
  function Driven(reg: Register): Lines {
    Lines(reg.bits & 1 != 0, reg.bits & 2 != 0, reg.bits & 4 != 0, reg.bits & 8 != 0, reg.bits & 16 != 0)
  }

  // Read-modify-write of the masked bits.
  function Masked(reg: Register, mask: bv32, bits: bv32): Register {
    Register((reg.bits & !mask) | (bits & mask))
  }

  function PxiBits(recording: bool): bv32 {
    if recording then PXI_START_RECORD else PXI_STOP_RECORD
  }

  // One line command, and one request to the recorder.
  function Commanded(reg: Register, c: Lines): Register {
    Masked(reg, OBC_GPIO_BITMASK, Encode(c))
  }

  function Requested(reg: Register, recording: bool): Register {
    Masked(reg, PXI_GPIO_BITMASK, PxiBits(recording))
  }

  lemma BitOfUpdate(reg: Register, mask: bv32, bits: bv32, w: bv32)
    ensures w & mask == w ==> Masked(reg, mask, bits).bits & w == bits & w
    ensures w & mask == 0 ==> Masked(reg, mask, bits).bits & w == reg.bits & w
  {
  }

  lemma BitsOfEncode(a: bv32, b: bv32, s: bv32, t: bv32, l: bv32)
    requires (a == 0 || a == 1) && (b == 0 || b == 2) && (s == 0 || s == 4) && (t == 0 || t == 8) && (l == 0 || l == 16)
    ensures var e := a | b | s | t | l;
      e & 1 == a && e & 2 == b && e & 4 == s && e & 8 == t && e & 16 == l
  {
  }

  // The lines follow the last command, and only a command moves them.
  lemma CommandDrives(reg: Register, c: Lines)
    ensures Driven(Commanded(reg, c)) == c
  {
    BitsOfEncode(Bit(c.operA, 1), Bit(c.operB, 2), Bit(c.shutter, 4), Bit(c.target, 8), Bit(c.laser, 16));
    BitOfUpdate(reg, OBC_GPIO_BITMASK, Encode(c), 1);
    BitOfUpdate(reg, OBC_GPIO_BITMASK, Encode(c), 2);
    BitOfUpdate(reg, OBC_GPIO_BITMASK, Encode(c), 4);
    BitOfUpdate(reg, OBC_GPIO_BITMASK, Encode(c), 8);
    BitOfUpdate(reg, OBC_GPIO_BITMASK, Encode(c), 16);
    hide Masked, Encode;
  }

  lemma PxiLeavesLines(reg: Register, recording: bool)
    ensures Driven(Requested(reg, recording)) == Driven(reg)
  {
    BitOfUpdate(reg, PXI_GPIO_BITMASK, PxiBits(recording), 1);
    BitOfUpdate(reg, PXI_GPIO_BITMASK, PxiBits(recording), 2);
    BitOfUpdate(reg, PXI_GPIO_BITMASK, PxiBits(recording), 4);
    BitOfUpdate(reg, PXI_GPIO_BITMASK, PxiBits(recording), 8);
    BitOfUpdate(reg, PXI_GPIO_BITMASK, PxiBits(recording), 16);
    hide Masked;
  }

  // ---- The register's bits, in numbers ----

  // The five lines in each state: operating lines A and B 1 and 2, shutter 4, target 8, laser 16.
  function LineBits(state: int): bv32 {
    match state
    case 1 => 0x08
    case 2 => 0x00
    case 3 => 0x0a
    case 4 => 0x0e
    case 5 => 0x0f
    case 6 => 0x18
    case 7 => 0x0c
    case _ => 0x1c
  }

  predicate Known(state: int) {
    1 <= state <= 7
  }

  lemma EncodedPattern(state: int)
    ensures Pattern(state) != [] <==> Known(state)
    ensures Known(state) ==> |Pattern(state)| == 1 && Encode(Pattern(state)[0]) == LineBits(state)
    ensures Encode(RAMP) == 0x1c
  {
  }

  // The bits of the lines, of the recorder, and all others.
  function LampPart(x: bv32): bv32 {
    x & 0x1f
  }

  function RecorderPart(x: bv32): bv32 {
    x & 0x300
  }

  function OtherPart(x: bv32): bv32 {
    x & 0xffff_fce0
  }

  lemma LampUpdate(x: bv32, b: bv32)
    requires b <= 0x1f
    ensures var y := (x & !0x1f) | (b & 0x1f);
      LampPart(y) == b && RecorderPart(y) == RecorderPart(x) && OtherPart(y) == OtherPart(x)
  {
  }

  lemma RecorderUpdate(x: bv32, b: bv32)
    requires b == 0x100 || b == 0x200
    ensures var y := (x & !0x300) | (b & 0x300);
      RecorderPart(y) == b && LampPart(y) == LampPart(x) && OtherPart(y) == OtherPart(x)
  {
  }

  lemma CommandBits(reg: Register, c: Lines)
    requires Encode(c) <= 0x1f
    ensures var r := Commanded(reg, c);
      && LampPart(r.bits) == Encode(c)
      && RecorderPart(r.bits) == RecorderPart(reg.bits) && OtherPart(r.bits) == OtherPart(reg.bits)
  {
    hide Encode, LampPart, RecorderPart, OtherPart;
    LampUpdate(reg.bits, Encode(c));
  }

  /** A recorder request sets bit 8 to start recording or bit 9 to stop it, clears the other, and
      leaves every other bit alone. */
  lemma RequestBits(reg: Register, recording: bool)
    ensures var r := Requested(reg, recording);
      && RecorderPart(r.bits) == (if recording then 0x100 else 0x200)
      && LampPart(r.bits) == LampPart(reg.bits) && OtherPart(r.bits) == OtherPart(reg.bits)
  {
    hide Masked, LampPart, RecorderPart, OtherPart;
    if recording {
      RequestUpdate(reg, 0x100);
    } else {
      RequestUpdate(reg, 0x200);
    }
  }

  lemma RequestUpdate(reg: Register, b: bv32)
    requires b == 0x100 || b == 0x200
    ensures var r := Masked(reg, 0x300, b);
      RecorderPart(r.bits) == b && LampPart(r.bits) == LampPart(reg.bits) && OtherPart(r.bits) == OtherPart(reg.bits)
  {
    hide LampPart, RecorderPart, OtherPart;
    RecorderUpdate(reg.bits, b);
  }

  // ---- Runs of both clients over one register ----

  datatype Op = SetObc(state: int) | SetPxi(recording: bool)

  // The register after each write of a list of line commands.
  function Written(reg: Register, cs: seq<Lines>): seq<Register>
    decreases |cs|
  {
    if cs == [] then [] else
      var r := Commanded(reg, cs[0]);
      [r] + Written(r, cs[1..])
  }

  function Last(reg: Register, written: seq<Register>): Register {
    if written == [] then reg else written[|written| - 1]
  }

  lemma {:induction false} WrittenAppend(reg: Register, cs: seq<Lines>, ds: seq<Lines>)
    ensures Written(reg, cs + ds) == Written(reg, cs) + Written(Last(reg, Written(reg, cs)), ds)
    decreases |cs|
  {
    if cs == [] {
      assert cs + ds == ds;
    } else {
      var r, rest := Commanded(reg, cs[0]), cs[1..];
      assert Written(reg, cs + ds) == [r] + Written(r, rest + ds) by {
        assert (cs + ds)[1..] == rest + ds;
        hide Commanded, Last;
      }
      WrittenAppend(r, rest, ds);
      assert Last(reg, [r] + Written(r, rest)) == Last(r, Written(r, rest)) by {
        hide Commanded, Written;
      }
      assert Written(reg, cs) == [r] + Written(r, rest);
      hide *;
    }
  }

  lemma LastOfBoth(reg: Register, v: seq<Register>, w: seq<Register>)
    ensures Last(reg, v + w) == Last(Last(reg, v), w)
  {
  }

  function WrittenBy(reg: Register, last: int, op: Op): seq<Register> {
    match op
    case SetObc(state) => Written(reg, Commands(last, state))
    case SetPxi(recording) => [Requested(reg, recording)]
  }

  // The register after each write of a run.
  function Trace(reg: Register, last: int, ops: seq<Op>): seq<Register>
    decreases |ops|
  {
    if ops == [] then [] else
      var w := WrittenBy(reg, last, ops[0]);
      w + Trace(Last(reg, w), if ops[0].SetObc? then ops[0].state else last, ops[1..])
  }

  // One write may follow another: lamp A never without the shutter, and out of the bright
  // pattern only gently.
  predicate Follows(before: Register, after: Register) {
    var b, a := Driven(before), Driven(after);
    (a.operA ==> a.shutter) && (b.operA ==> a == b || Gentle(a))
  }

  predicate SafeTrace(reg: Register, t: seq<Register>) {
    forall i | 0 <= i < |t| :: Follows(([reg] + t)[i], t[i])
  }

  lemma SafeJoin(reg: Register, t: seq<Register>, u: seq<Register>)
    requires SafeTrace(reg, t) && SafeTrace(Last(reg, t), u)
    ensures SafeTrace(reg, t + u)
  {
    hide Follows;
    forall i | 0 <= i < |t + u| ensures Follows(([reg] + (t + u))[i], (t + u)[i]) {
      if i < |t| {
        assert ([reg] + (t + u))[i] == ([reg] + t)[i];
      } else {
        assert (t + u)[i] == u[i - |t|];
        assert ([reg] + (t + u))[i] == ([Last(reg, t)] + u)[i - |t|];
      }
    }
  }

  lemma SafeOp(reg: Register, last: int, op: Op)
    requires Driven(reg).operA ==> Driven(reg).shutter && last == OBC_BRIGHT
    ensures var w := WrittenBy(reg, last, op);
      SafeTrace(reg, w)
      && (Driven(Last(reg, w)).operA ==> Driven(Last(reg, w)).shutter && (op.SetObc? ==> op.state == OBC_BRIGHT))
      && (op.SetPxi? ==> Driven(Last(reg, w)) == Driven(reg))
  {
    hide Commanded, Requested, Driven;
    match op
    case SetPxi(recording) => PxiLeavesLines(reg, recording);
    case SetObc(state) =>
      var cs := Commands(last, state);
      if cs != [] {
        CommandDrives(reg, cs[0]);
        var r := Commanded(reg, cs[0]);
        if |cs| > 1 {
          CommandDrives(r, cs[1]);
          assert cs == [cs[0], cs[1]];
          assert Written(r, cs[1..]) == [Commanded(r, cs[1])];
        } else {
          assert Written(reg, cs) == [r];
        }
      }
  }

  /** Over every run that mixes calibrator and recorder requests, started with the last state
      assumed bright and the register holding anything whose lamp A is not on behind a low
      shutter: in the register itself lamp A is never high with the shutter low, and the first
      change after a bright value is to the medium pattern or to lamps low, shutter high. */
  lemma {:induction false} LampSafety(reg: Register, last: int, ops: seq<Op>)
    requires Driven(reg).operA ==> Driven(reg).shutter && last == OBC_BRIGHT
    ensures SafeTrace(reg, Trace(reg, last, ops))
    decreases |ops|
  {
    if ops != [] {
      SafeOp(reg, last, ops[0]);
      hide WrittenBy, SafeTrace;
      var w := WrittenBy(reg, last, ops[0]);
      var next := if ops[0].SetObc? then ops[0].state else last;
      LampSafety(Last(reg, w), next, ops[1..]);
      SafeJoin(reg, w, Trace(Last(reg, w), next, ops[1..]));
    } else {
      assert Trace(reg, last, ops) == [];
    }
  }

  // ---- What the register holds after a run ----

  // The lines hold b, and the rest is as in reg.
  predicate Lit(r: Register, reg: Register, b: bv32) {
    LampPart(r.bits) == b && RecorderPart(r.bits) == RecorderPart(reg.bits) && OtherPart(r.bits) == OtherPart(reg.bits)
  }

  lemma CommandLights(r: Register, reg: Register, c: Lines)
    requires RecorderPart(r.bits) == RecorderPart(reg.bits) && OtherPart(r.bits) == OtherPart(reg.bits)
    requires Encode(c) <= 0x1f
    ensures Lit(Commanded(r, c), reg, Encode(c))
  {
    hide Encode, Commanded, LampPart, RecorderPart, OtherPart;
    CommandBits(r, c);
  }

  /** One calibrator request: a known state raises exactly its own lines, out of the bright state by
      way of the ramp unless it is the medium state; no other bit of the register changes. */
  lemma StateDrives(reg: Register, last: int, state: int)
    ensures var w, ramp := WrittenBy(reg, last, SetObc(state)), last == 5 && state != 4;
      && |w| == (if ramp then 1 else 0) + (if Known(state) then 1 else 0)
      && (ramp ==> Lit(w[0], reg, 0x1c))
      && (w != [] ==> Lit(Last(reg, w), reg, LineBits(state)))
  {
    hide Commanded, Pattern, Encode, LineBits, Lit, Written;
    EncodedPattern(state);
    StateBits(state);
    var ramp := last == 5 && state != 4;
    if Known(state) {
      var c := Pattern(state)[0];
      if ramp {
        assert Commands(last, state) == [RAMP, c];
        TwoWritten(reg, RAMP, c);
        LitTwice(reg, RAMP, c);
      } else {
        assert Commands(last, state) == [c];
        OneWritten(reg, c);
        CommandLights(reg, reg, c);
      }
    } else if ramp {
      assert Commands(last, state) == [RAMP];
      OneWritten(reg, RAMP);
      CommandLights(reg, reg, RAMP);
    } else {
      assert Commands(last, state) == [];
      NothingWritten(reg);
    }
  }

  lemma LitTwice(reg: Register, c: Lines, d: Lines)
    requires Encode(c) <= 0x1f && Encode(d) <= 0x1f
    ensures Lit(Commanded(reg, c), reg, Encode(c)) && Lit(Commanded(Commanded(reg, c), d), reg, Encode(d))
  {
    hide Encode, Commanded, LampPart, RecorderPart, OtherPart;
    CommandLights(reg, reg, c);
    CommandLights(Commanded(reg, c), reg, d);
  }

  lemma NothingWritten(reg: Register)
    ensures Written(reg, []) == []
  {
  }

  lemma StateBits(state: int)
    ensures LineBits(state) <= 0x1f && (!Known(state) ==> LineBits(state) == 0x1c)
  {
  }

  lemma OneWritten(reg: Register, c: Lines)
    ensures Written(reg, [c]) == [Commanded(reg, c)]
  {
    hide Commanded;
    assert [c][1..] == [];
  }

  lemma TwoWritten(reg: Register, c: Lines, d: Lines)
    ensures Written(reg, [c, d]) == [Commanded(reg, c), Commanded(Commanded(reg, c), d)]
  {
    hide Commanded;
    assert [c, d][1..] == [d];
    OneWritten(Commanded(reg, c), d);
  }

  // The lines after a run: those of the last known state, or of the ramp behind a bright one.
  function LinesAfter(b: bv32, last: int, ops: seq<Op>): bv32
    decreases |ops|
  {
    if ops == [] then b
    else
      match ops[0]
      case SetPxi(_) => LinesAfter(b, last, ops[1..])
      case SetObc(state) =>
        LinesAfter(if Known(state) || last == 5 then LineBits(state) else b, state, ops[1..])
  }

  // The recorder's bits after a run: the last request's.
  function RequestAfter(b: bv32, ops: seq<Op>): bv32
    decreases |ops|
  {
    if ops == [] then b
    else
      match ops[0]
      case SetPxi(recording) => RequestAfter(if recording then 0x100 else 0x200, ops[1..])
      case SetObc(_) => RequestAfter(b, ops[1..])
  }

  predicate Holds(reg: Register, lines: bv32, request: bv32, others: bv32) {
    LampPart(reg.bits) == lines && RecorderPart(reg.bits) == request && OtherPart(reg.bits) == others
  }

  lemma RequestHolds(reg: Register, recording: bool, lines: bv32, request: bv32, others: bv32)
    requires Holds(reg, lines, request, others)
    ensures Holds(Requested(reg, recording), lines, if recording then 0x100 else 0x200, others)
  {
    hide Requested, LampPart, RecorderPart, OtherPart;
    RequestBits(reg, recording);
  }

  lemma LitHolds(r: Register, reg: Register, b: bv32, lines: bv32, request: bv32, others: bv32)
    requires Holds(reg, lines, request, others) && Lit(r, reg, b)
    ensures Holds(r, b, request, others)
  {
    hide LampPart, RecorderPart, OtherPart;
  }

  lemma OpHolds(reg: Register, last: int, op: Op, lines: bv32, request: bv32, others: bv32)
    requires Holds(reg, lines, request, others)
    ensures var r := Last(reg, WrittenBy(reg, last, op));
      match op
      case SetPxi(recording) => Holds(r, lines, if recording then 0x100 else 0x200, others)
      case SetObc(state) => Holds(r, if Known(state) || last == 5 then LineBits(state) else lines, request, others)
  {
    hide Written, Requested, LineBits, Holds, Lit;
    var r := Last(reg, WrittenBy(reg, last, op));
    match op
    case SetPxi(recording) =>
      RequestHolds(reg, recording, lines, request, others);
    case SetObc(state) =>
      StateDrives(reg, last, state);
      if Known(state) || last == 5 {
        LitHolds(r, reg, LineBits(state), lines, request, others);
      }
  }

  /** After any run that mixes both clients the lines are those of the last state set, the recorder's
      bits those of the last request, and no other bit has ever changed. */
  lemma {:induction false} RunHolds(reg: Register, last: int, ops: seq<Op>, lines: bv32, request: bv32, others: bv32)
    requires Holds(reg, lines, request, others)
    ensures Holds(Last(reg, Trace(reg, last, ops)), LinesAfter(lines, last, ops), RequestAfter(request, ops), others)
    decreases |ops|
  {
    hide WrittenBy, Holds, LineBits;
    if ops != [] {
      var w := WrittenBy(reg, last, ops[0]);
      var next := if ops[0].SetObc? then ops[0].state else last;
      OpHolds(reg, last, ops[0], lines, request, others);
      LastOfBoth(reg, w, Trace(Last(reg, w), next, ops[1..]));
      match ops[0]
      case SetPxi(recording) =>
        RunHolds(Last(reg, w), next, ops[1..], lines, if recording then 0x100 else 0x200, others);
      case SetObc(state) =>
        RunHolds(Last(reg, w), next, ops[1..], if Known(state) || last == 5 then LineBits(state) else lines,
                 request, others);
    }
  }

  // The control byte assembled from single-bit arguments is the encoding of the lines.
  lemma ControlByte(a: bv32, b: bv32, s: bv32, t: bv32, l: bv32)
    requires a <= 1 && b <= 1 && s <= 1 && t <= 1 && l <= 1
    ensures (a | (b << 1) | (s << 2) | (t << 3) | (l << 4)) & 0xff ==
            Encode(Lines(a == 1, b == 1, s == 1, t == 1, l == 1))
  {
    assert b << 1 == Bit(b == 1, 2) by { assert b == 0 || b == 1; }
    assert s << 2 == Bit(s == 1, 4) by { assert s == 0 || s == 1; }
    assert t << 3 == Bit(t == 1, 8) by { assert t == 0 || t == 1; }
    assert l << 4 == Bit(l == 1, 16) by { assert l == 0 || l == 1; }
    SmallByte(Bit(a == 1, 1), Bit(b == 1, 2), Bit(s == 1, 4), Bit(t == 1, 8), Bit(l == 1, 16));
    hide Bit;
  }

  lemma SmallByte(a: bv32, b: bv32, s: bv32, t: bv32, l: bv32)
    requires a <= 0x1f && b <= 0x1f && s <= 0x1f && t <= 0x1f && l <= 0x1f
    ensures (a | b | s | t | l) & 0xff == a | b | s | t | l
  {
  }

  class AppFrame {
    const fpgaInterface: bool
    var lastOBCState: int
    var gpio: Register
    ghost var written: seq<Register>

    constructor (fpga: bool, reg: Register)
      ensures fpgaInterface == fpga && lastOBCState == OBC_BRIGHT && gpio == reg && written == []
    {
      fpgaInterface, lastOBCState, gpio, written := fpga, OBC_BRIGHT, reg, [];
    }

    method SetGPIO(mask: bv32, bits: bv32)
      modifies `gpio, `written
      ensures gpio == Masked(old(gpio), mask, bits)
      ensures written == old(written) + [gpio]
    {
      var data := gpio.bits;
      data := data & !mask;
      data := data | (bits & mask);
      assert data == (gpio.bits & !mask) | (bits & mask);
      gpio := Register(data);
      written := written + [gpio];
    }

    method SetOBCWork(c: Lines)
      modifies `gpio, `written
      ensures var cs := if fpgaInterface then [c] else [];
        written == old(written) + Written(old(gpio), cs) && gpio == Last(old(gpio), Written(old(gpio), cs))
    {
      if fpgaInterface {
        var a, b, s, t, l := Bit(c.operA, 1), Bit(c.operB, 1), Bit(c.shutter, 1), Bit(c.target, 1), Bit(c.laser, 1);
        var control := (a | (b << 1) | (s << 2) | (t << 3) | (l << 4)) & 0xff;
        ControlByte(a, b, s, t, l);
        hide Encode, Masked;
        SetGPIO(OBC_GPIO_BITMASK, control);
        assert gpio == Commanded(old(gpio), c);
        hide Commanded;
        assert Written(old(gpio), [c]) == [gpio];
      }
    }

    // An unknown state is reported and remembered, but commands nothing.
    method SetOBC(newState: int)
      modifies `gpio, `written, `lastOBCState
      ensures lastOBCState == newState
      ensures var w := if fpgaInterface then WrittenBy(old(gpio), old(lastOBCState), SetObc(newState)) else [];
        written == old(written) + w && gpio == Last(old(gpio), w)
    {
      hide Commanded, Driven;
      ghost var ramp := if lastOBCState == OBC_BRIGHT && newState != OBC_MEDIUM then [RAMP] else [];
      WrittenAppend(gpio, ramp, Pattern(newState));
      LastOfBoth(gpio, Written(gpio, ramp), Written(Last(gpio, Written(gpio, ramp)), Pattern(newState)));
      assert forall r :: Written(r, []) == [] && Last(r, []) == r;
      assert WrittenBy(gpio, lastOBCState, SetObc(newState)) == Written(gpio, ramp + Pattern(newState));
      hide Commanded, Written, Last, WrittenBy;
      if lastOBCState == OBC_BRIGHT && newState != OBC_MEDIUM {
        SetOBCWork(Lines(false, false, true, true, true));
      }
      ghost var r := if fpgaInterface then Last(old(gpio), Written(old(gpio), ramp)) else old(gpio);
      assert gpio == r;
      match newState {
        case 1 => SetOBCWork(Lines(false, false, false, true, false));
        case 2 => SetOBCWork(Lines(false, false, false, false, false));
        case 3 => SetOBCWork(Lines(false, true, false, true, false));
        case 4 => SetOBCWork(Lines(false, true, true, true, false));
        case 5 => SetOBCWork(Lines(true, true, true, true, false));
        case 6 => SetOBCWork(Lines(false, false, false, true, true));
        case 7 => SetOBCWork(Lines(false, false, true, true, false));
        case _ =>
      }
      lastOBCState := newState;
    }

    method SetPXIRecord(recording: bool)
      modifies `gpio, `written
      ensures var w := WrittenBy(old(gpio), lastOBCState, SetPxi(recording));
        written == old(written) + w && gpio == Last(old(gpio), w)
    {
      hide Masked;
      if recording {
        SetGPIO(PXI_GPIO_BITMASK, PXI_START_RECORD);
      } else {
        SetGPIO(PXI_GPIO_BITMASK, PXI_STOP_RECORD);
      }
    }
  }
}

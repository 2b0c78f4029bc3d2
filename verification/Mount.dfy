/**
 The mount handshake: a polled state machine that sends a command, waits for its reply, repeats it
 on silence and gives up after the third try.
 */
module Mount {
  import opened Basics

  datatype State =
    | Idle
    | ConnectS0 | SendS0 | GetS0Reply
    | ConnectS1 | SendS1 | GetS1Reply | SendS | GetSReply

  datatype Color = Red | Green | Yellow

  const POLLS_PER_TRY := 200
  const TRIES := 3

  /** iterations: failed polls since the last send; tries: full waits since the command was first
      sent; sent: every command written. */
  datatype Handler = Handler(state: State, iterations: nat, tries: nat, color: Color, sent: seq<string>)

  // One poll's luck: whether opening and writing work, and what has been received.
  datatype Poll = Poll(opens: bool, writes: bool, reply: string)

  datatype Event = Polled(poll: Poll) | SetMount(active: bool)

  // A reply counts only if it starts with a plus sign.
  predicate Answered(p: Poll) {
    p.reply != "" && p.reply[0] == '+'
  }

  function Fail(h: Handler): Handler {
    h.(color := Red, state := Idle)
  }

  // The handler with command c written, or idle and red if that fails; next is entered on success.
  function Send(h: Handler, p: Poll, c: string, next: State): Handler {
    if !p.writes then Fail(h)
    else h.(iterations := 0, sent := h.sent + [c], state := next)
  }

  function Connect(h: Handler, p: Poll, next: State): Handler {
    if !p.opens then Fail(h) else h.(state := next)
  }

  // No reply yet.
  function Silence(h: Handler, p: Poll, c: string): Handler {
    var q := h.(iterations := h.iterations + 1);
    if q.iterations != POLLS_PER_TRY then q
    else if h.tries + 1 == TRIES then Fail(q.(tries := h.tries + 1))
    else Send(q.(tries := h.tries + 1), p, c, h.state)
  }

  function HandlePoll(h: Handler, p: Poll): Handler {
    match h.state
    case Idle => h
    case ConnectS0 => Connect(h, p, SendS0)
    case SendS0 => var q := Send(h, p, "S0", GetS0Reply); if p.writes then q.(tries := 0) else q
    case GetS0Reply => if !Answered(p) then Silence(h, p, "S0") else h.(color := Green, state := Idle)
    case ConnectS1 => Connect(h, p, SendS1)
    case SendS1 => var q := Send(h, p, "S1", GetS1Reply); if p.writes then q.(tries := 0) else q
    case GetS1Reply => if !Answered(p) then Silence(h, p, "S1") else h.(state := SendS)
    case SendS => var q := Send(h, p, "s", GetSReply); if p.writes then q.(tries := 0) else q
    case GetSReply =>
      if !Answered(p) then Silence(h, p, "s")
      else if p.reply == "+1" then h.(color := Green, state := Idle)
      else h.(state := SendS)
  }

  function Step(h: Handler, e: Event): Handler {
    match e
    case Polled(p) => HandlePoll(h, p)
    case SetMount(active) => h.(state := if active then ConnectS1 else ConnectS0)
  }

  function Run(h: Handler, es: seq<Event>): Handler
    decreases |es|
  {
    if es == [] then h else Run(Step(h, es[0]), es[1..])
  }

  // ---- Silence ----

  function Waiting(s: State): seq<string> {
    match s
    case GetS0Reply => ["S0"]
    case GetS1Reply => ["S1"]
    case GetSReply => ["s"]
    case _ => []
  }

  // Failed polls until the handler gives up.
  function PollsLeft(h: Handler): int {
    200 * (3 - h.tries) - h.iterations
  }

  predicate WaitingInv(h: Handler) {
    Waiting(h.state) != [] && h.tries < 3 && h.iterations < 200
  }

  // Some reply beginning with a plus sign has come.
  predicate Plus(p: Poll) {
    |p.reply| >= 1 && p.reply[0] == '+'
  }

  predicate SilentPolls(es: seq<Event>) {
    forall e <- es :: e.Polled? && e.poll.writes && !Plus(e.poll)
  }

  // One poll without an answer.
  lemma SilentPoll(h: Handler, e: Event)
    requires WaitingInv(h) && SilentPolls([e])
    ensures var q := Step(h, e);
      if PollsLeft(h) > 1 then
        && WaitingInv(q) && q.state == h.state && q.color == h.color && PollsLeft(q) == PollsLeft(h) - 1
        && (if q.tries == h.tries then q.sent == h.sent
            else q.tries == h.tries + 1 && q.sent == h.sent + [Waiting(h.state)[0]])
      else q.state == Idle && q.color == Red && q.sent == h.sent && h.tries == 2
  {
    assert [e][0] == e;
  }

  // After k silent polls, sends have happened at each full wait; at the last one the handler gives up.
  lemma {:induction false} SilentRun(h: Handler, es: seq<Event>)
    requires WaitingInv(h) && SilentPolls(es) && |es| <= PollsLeft(h)
    ensures var r := Run(h, es);
      if |es| < PollsLeft(h) then
        && WaitingInv(r) && r.state == h.state && r.color == h.color && PollsLeft(r) == PollsLeft(h) - |es|
        && r.sent == h.sent + Repeat(Waiting(h.state)[0], r.tries - h.tries)
      else r.state == Idle && r.color == Red && r.sent == h.sent + Repeat(Waiting(h.state)[0], 2 - h.tries)
    decreases |es|
  {
    hide Step, Waiting;
    if es == [] {
      assert h.sent + [] == h.sent;
    } else {
      var q, c := Step(h, es[0]), Waiting(h.state)[0];
      SilentPoll(h, es[0]);
      if PollsLeft(h) > 1 {
        SilentRun(q, es[1..]);
        assert q.tries > h.tries ==> forall n: nat :: q.sent + Repeat(c, n) == h.sent + Repeat(c, n + 1);
      } else {
        assert Repeat(c, 0) == [] && h.sent + [] == h.sent;
        assert es[1..] == [];
      }
    }
  }

  // A state in which a command has just been sent for the first time.
  predicate JustSent(h: Handler, before: seq<string>) {
    WaitingInv(h) && h.tries == 0 && h.iterations == 0 && h.sent == before + Waiting(h.state)
  }

  /** With successful writes and no reply a command is sent exactly three times, and the handler turns
      idle and red with the 600th failed poll and not before. */
  lemma GivesUpAfterThreeTries(h: Handler, before: seq<string>, es: seq<Event>)
    requires JustSent(h, before) && SilentPolls(es)
    ensures |es| == 600 ==>
      var r := Run(h, es);
      r.state == Idle && r.color == Red && r.sent == before + Repeat(Waiting(h.state)[0], 3)
    ensures |es| < 600 ==> Run(h, es).state == h.state && Run(h, es).color == h.color
  {
    if |es| <= 600 {
      SilentRun(h, es);
      var c := Waiting(h.state)[0];
      assert Waiting(h.state) == [c];
      assert before + [c] + Repeat(c, 2) == before + Repeat(c, 3);
    }
  }

  // Every sending state leads to such a state when the write succeeds.
  lemma FirstSend(h: Handler, p: Poll)
    requires h.state == SendS0 || h.state == SendS1 || h.state == SendS
    requires p.writes
    ensures JustSent(HandlePoll(h, p), h.sent)
  {
  }

  // ---- Which commands are sent ----

  predicate IdlePath(s: State) {
    s == Idle || s == ConnectS0 || s == SendS0 || s == GetS0Reply
  }

  predicate ActivePath(s: State) {
    s == Idle || !IdlePath(s)
  }

  function CommandsOf(active: bool): set<string> {
    if active then {"S1", "s"} else {"S0"}
  }

  predicate OnPath(active: bool, s: State) {
    if active then ActivePath(s) else IdlePath(s)
  }

  // The poll that turns the light green: a "+1" status on the active path, any reply to "S0".
  predicate Confirms(active: bool, h: Handler, p: Poll) {
    if active then h.state == GetSReply && p.reply == "+1" else h.state == GetS0Reply && Plus(p)
  }

  lemma StepOnPath(h: Handler, p: Poll, active: bool)
    requires OnPath(active, h.state)
    ensures var r := HandlePoll(h, p);
      && OnPath(active, r.state)
      && (r.sent == h.sent || exists c :: c in CommandsOf(active) && r.sent == h.sent + [c])
      && (Confirms(active, h, p) ==> r.color == Green && r.state == Idle)
      && (!Confirms(active, h, p) ==> r.color == h.color || (r.color == Red && r.state == Idle))
      && (h.state == Idle ==> r == h)
  {
    var r := HandlePoll(h, p);
    if r.sent != h.sent {
      var c := r.sent[|h.sent|];
      assert c in CommandsOf(active) && r.sent == h.sent + [c];
    }
  }

  /** Until the next setMount only the commands of the last one are sent. */
  lemma {:induction false} OnlyItsCommands(h: Handler, active: bool, es: seq<Event>)
    requires OnPath(active, h.state) && forall e <- es :: e.Polled?
    ensures var r := Run(h, es);
      && OnPath(active, r.state) && h.sent <= r.sent
      && forall i :: |h.sent| <= i < |r.sent| ==> r.sent[i] in CommandsOf(active)
    decreases |es|
  {
    if es != [] {
      assert es[0].Polled?;
      StepOnPath(h, es[0].poll, active);
      OnlyItsCommands(Step(h, es[0]), active, es[1..]);
    }
  }

  // Some poll of the run confirms the state asked for.
  ghost predicate ConfirmedIn(h: Handler, active: bool, es: seq<Event>) {
    exists i :: ConfirmedAt(h, active, es, i)
  }

  predicate ConfirmedAt(h: Handler, active: bool, es: seq<Event>, i: int) {
    0 <= i < |es| && es[i].Polled? && Confirms(active, Run(h, es[..i]), es[i].poll)
  }

  lemma {:induction false} IdleForGood(h: Handler, es: seq<Event>)
    requires h.state == Idle && forall e <- es :: e.Polled?
    ensures Run(h, es) == h
    decreases |es|
  {
    if es != [] {
      assert es[0].Polled?;
      IdleForGood(h, es[1..]);
    }
  }

  lemma ConfirmedLater(h: Handler, active: bool, es: seq<Event>)
    requires es != [] && es[0].Polled?
    ensures ConfirmedIn(h, active, es) <==>
              Confirms(active, h, es[0].poll) || ConfirmedIn(Step(h, es[0]), active, es[1..])
  {
    hide Step, Confirms;
    var q := Step(h, es[0]);
    assert Run(h, es[..0]) == h;
    forall i | 0 < i < |es| ensures Run(h, es[..i]) == Run(q, es[1..][..i - 1]) {
      assert es[..i][1..] == es[1..][..i - 1];
    }
    if ConfirmedIn(h, active, es) {
      var i :| ConfirmedAt(h, active, es, i);
      if i > 0 {
        assert ConfirmedAt(q, active, es[1..], i - 1);
      }
    }
    if Confirms(active, h, es[0].poll) {
      assert ConfirmedAt(h, active, es, 0);
    }
    if ConfirmedIn(q, active, es[1..]) {
      var i :| ConfirmedAt(q, active, es[1..], i);
      assert ConfirmedAt(h, active, es, i + 1);
    }
  }

  /** The light turns green if and only if some poll confirms the state asked for: on the active path
      a "+1" in answer to "s", on the idle path any reply to "S0". */
  lemma {:induction false} GreenOnlyOnStatus(h: Handler, active: bool, es: seq<Event>)
    requires OnPath(active, h.state) && h.color != Green && (forall e <- es :: e.Polled?)
    ensures Run(h, es).color == Green <==> ConfirmedIn(h, active, es)
    decreases |es|
  {
    hide Step, Confirms, OnPath, ConfirmedIn;
    if es != [] {
      assert es[0].Polled?;
      var q, p := Step(h, es[0]), es[0].poll;
      PollOnPath(h, p, active);
      ConfirmedLater(h, active, es);
      if Confirms(active, h, p) {
        IdleForGood(q, es[1..]);
      } else {
        GreenOnlyOnStatus(q, active, es[1..]);
      }
    } else {
      NoneConfirmed(h, active);
    }
  }

  lemma NoneConfirmed(h: Handler, active: bool)
    ensures !ConfirmedIn(h, active, [])
  {
  }

  lemma PollOnPath(h: Handler, p: Poll, active: bool)
    requires OnPath(active, h.state)
    ensures var r := Step(h, Polled(p));
      && OnPath(active, r.state)
      && (if Confirms(active, h, p) then r.color == Green && r.state == Idle
          else r.color == h.color || (r.color == Red && r.state == Idle))
  {
    StepOnPath(h, p, active);
    hide OnPath, Confirms, HandlePoll;
  }

  // ---- Whole handshakes ----

  lemma {:induction false} RunAppend(h: Handler, a: seq<Event>, b: seq<Event>)
    ensures Run(h, a + b) == Run(Run(h, a), b)
    decreases |a|
  {
    hide Step;
    if a == [] {
      assert a + b == b;
    } else {
      assert (a + b)[0] == a[0] && (a + b)[1..] == a[1..] + b;
      RunAppend(Step(h, a[0]), a[1..], b);
    }
  }

  lemma RunOne(h: Handler, e: Event)
    ensures Run(h, [e]) == Step(h, e)
  {
    hide Step;
    assert [e][1..] == [];
  }

  // Silence after the first send: the command is repeated with every 200th poll.
  lemma WaitingRun(h: Handler, before: seq<string>, es: seq<Event>)
    requires JustSent(h, before) && SilentPolls(es) && |es| < 600
    ensures var r := Run(h, es);
      r.state == h.state && r.color == h.color && r.sent == before + Repeat(Waiting(h.state)[0], 1 + |es| / 200)
  {
    SilentRun(h, es);
    var r, c := Run(h, es), Waiting(h.state)[0];
    assert Waiting(h.state) == [c] && r.tries == |es| / 200;
    assert before + [c] + Repeat(c, |es| / 200) == before + Repeat(c, 1 + |es| / 200);
  }

  /** A command that is written, then silence for less than 600 polls, then a reply: the command has
      been sent once and again with every 200th poll, and the reply moves the handler on. */
  lemma Exchange(h: Handler, first: Poll, es: seq<Event>, last: Poll)
    requires h.state == SendS0 || h.state == SendS1 || h.state == SendS
    requires first.writes && SilentPolls(es) && |es| < 600 && Plus(last)
    ensures var r := Run(h, [Polled(first)] + es + [Polled(last)]);
      var c := if h.state == SendS0 then "S0" else if h.state == SendS1 then "S1" else "s";
      && r.sent == h.sent + Repeat(c, 1 + |es| / 200)
      && (h.state == SendS0 ==> r.state == Idle && r.color == Green)
      && (h.state == SendS1 ==> r.state == SendS && r.color == h.color)
      && (h.state == SendS ==>
            if last.reply == "+1" then r.state == Idle && r.color == Green else r.state == SendS && r.color == h.color)
  {
    hide Plus, Run, JustSent;
    var q := Step(h, Polled(first));
    FirstSend(h, first);
    WaitingRun(q, h.sent, es);
    RunAppend(h, [Polled(first)] + es, [Polled(last)]);
    RunAppend(h, [Polled(first)], es);
    RunOne(h, Polled(first));
    RunOne(Run(q, es), Polled(last));
    ReplyMoves(Run(q, es), last);
  }

  lemma ReplyMoves(h: Handler, p: Poll)
    requires Waiting(h.state) != [] && Plus(p)
    ensures var r := Step(h, Polled(p));
      && r.sent == h.sent
      && (h.state == GetS0Reply ==> r.state == Idle && r.color == Green)
      && (h.state == GetS1Reply ==> r.state == SendS && r.color == h.color)
      && (h.state == GetSReply ==>
            if p.reply == "+1" then r.state == Idle && r.color == Green else r.state == SendS && r.color == h.color)
  {
  }

  /** A request opens the connection with the next poll and is then about to send "S1" or "S0"; it does
      nothing else, and turns idle and red if the connection cannot be opened. */
  lemma Opens(h: Handler, active: bool, p: Poll)
    ensures var r := Run(h, [SetMount(active), Polled(p)]);
      && r.sent == h.sent
      && if p.opens then r.state == (if active then SendS1 else SendS0) && r.color == h.color
         else r.state == Idle && r.color == Red
  {
    hide HandlePoll;
    var q := Step(h, SetMount(active));
    assert [SetMount(active), Polled(p)][1..] == [Polled(p)];
    assert Run(h, [SetMount(active), Polled(p)]) == Run(q, [Polled(p)]);
    RunOne(q, Polled(p));
    Opened(q, p);
  }

  lemma Opened(h: Handler, p: Poll)
    requires h.state == ConnectS0 || h.state == ConnectS1
    ensures HandlePoll(h, p) ==
            if p.opens then h.(state := if h.state == ConnectS1 then SendS1 else SendS0)
            else h.(state := Idle, color := Red)
  {
  }

  /** A write that fails, the first or a repeated one, ends the exchange: idle and red. */
  lemma FailedWriteTurnsRed(h: Handler, p: Poll)
    requires !p.writes
    requires h.state == SendS0 || h.state == SendS1 || h.state == SendS
             || (WaitingInv(h) && h.iterations == 199 && !Plus(p))
    ensures var r := HandlePoll(h, p); r.state == Idle && r.color == Red && r.sent == h.sent
  {
  }

  lemma SetMountStartsPath(h: Handler, active: bool)
    ensures OnPath(active, Step(h, SetMount(active)).state)
    ensures Step(h, SetMount(active)).sent == h.sent
  {
  }

  // ---- The handler as the program keeps it ----

  class MountHandler {
    var state: State
    var iterations: nat
    var tries: nat
    var color: Color
    var sent: seq<string>

    ghost function View(): Handler
      reads this
    {
      Handler(state, iterations, tries, color, sent)
    }

    constructor ()
      ensures View() == Handler(Idle, 0, 0, Yellow, [])
    {
      state, iterations, tries, color, sent := Idle, 0, 0, Yellow, [];
    }

    method SetMountState(active: bool)
      modifies `state
      ensures View() == Step(old(View()), SetMount(active))
    {
      state := if active then ConnectS1 else ConnectS0;
    }

    method SendCommand(p: Poll, c: string) returns (ok: bool)
      modifies this
      ensures ok == p.writes
      ensures View() == if ok then old(View()).(iterations := 0, sent := old(sent) + [c]) else Fail(old(View()))
    {
      if !p.writes {
        color, state := Red, Idle;
        return false;
      }
      sent, iterations := sent + [c], 0;
      return true;
    }

    method GetAndCheckResponse(p: Poll, c: string) returns (answered: bool)
      requires Waiting(state) == [c]
      modifies this
      ensures answered == Answered(p)
      ensures View() == if answered then old(View()) else Silence(old(View()), p, c)
    {
      if p.reply != "" && p.reply[0] == '+' {
        return true;
      }
      iterations := iterations + 1;
      if iterations == POLLS_PER_TRY {
        tries := tries + 1;
        if tries == TRIES {
          color, state := Red, Idle;
        } else {
          var _ := SendCommand(p, c);
        }
      }
      return false;
    }

    method FirstCommand(p: Poll, c: string, next: State)
      modifies this
      ensures View() == var q := Send(old(View()), p, c, next); if p.writes then q.(tries := 0) else q
    {
      var ok := SendCommand(p, c);
      if ok {
        tries, state := 0, next;
      }
    }

    method OpenConnection(p: Poll, next: State)
      modifies this
      ensures View() == Connect(old(View()), p, next)
    {
      if !p.opens {
        color, state := Red, Idle;
      } else {
        state := next;
      }
    }

    method HandleMount(p: Poll)
      modifies this
      ensures View() == Step(old(View()), Polled(p))
    {
      match state {
        case Idle =>
        case ConnectS0 => OpenConnection(p, SendS0);
        case SendS0 => FirstCommand(p, "S0", GetS0Reply);
        case GetS0Reply =>
          var answered := GetAndCheckResponse(p, "S0");
          if answered {
            color, state := Green, Idle;
          }
        case ConnectS1 => OpenConnection(p, SendS1);
        case SendS1 => FirstCommand(p, "S1", GetS1Reply);
        case GetS1Reply =>
          var answered := GetAndCheckResponse(p, "S1");
          if answered {
            state := SendS;
          }
        case SendS => FirstCommand(p, "s", GetSReply);
        case GetSReply =>
          var answered := GetAndCheckResponse(p, "s");
          if answered {
            if |p.reply| == 2 && p.reply == "+1" {
              color, state := Green, Idle;
            } else {
              state := SendS;
            }
          }
      }
    }
  }
}

/**
 Exactly when flow control loses window: which extended data a receiver ignores, what that does
 to the credit equation, and when a stalled sender can ever get window again.
 */
module FlowLoss {
  import opened Primitives
  import opened ChannelSpec
  import opened FlowSystem
  import opened FlowInvariant
  import opened FlowTheorems

  // ----- what is ignored -----

  /** Extended data reaches the check of descriptor, usage and type code. */
  predicate Handles(c: Endpoint) {
    c.setup.ctype == Open && (!c.setup.eofRcvd || c.setup.extEofBug)
  }

  predicate Ignores(c: Endpoint, m: Message) {
    m.ExtendedData? && Handles(c) && !TakesExtended(c, m.code)
  }

  function IgnoredBytes(c: Endpoint, m: Message): nat {
    if Ignores(c, m) then |Payload(m)| else 0
  }

  /** What the right endpoint ignores in a run: the payloads its guard turns away. */
  function Ignored(s: System, events: seq<Event>): nat
    requires IsRun(s, events)
    decreases |events|
  {
    if events == [] then 0
    else
      IgnoredAt(s, events[0]) + Ignored(Step(s, events[0]), events[1..])
  }

  function IgnoredAt(s: System, e: Event): nat
    requires CanStep(s, e)
  {
    if e.side == Right && e.act.Deliver? then IgnoredBytes(s.right.c, s.toRight[0]) else 0
  }

  /** Whenever what is under way fits the window, the guard alone decides what a delivery loses. */
  lemma LostByGuard(n: Node, fwd: seq<Message>, max: nat)
    requires ReceiverReady(n, fwd, max) && fwd != []
    ensures Receive(n, fwd).node.h.lost == n.h.lost + IgnoredBytes(n.c, fwd[0])
  {
    if fwd[0].ExtendedData? && fwd[0].payload != [] {
      assert n.c.extended + fwd[0].payload != n.c.extended;
    }
  }

  lemma LostQuietly(n: Node, inbox: seq<Message>, act: Action)
    requires Enabled(n, inbox, act) && !act.Deliver?
    ensures NodeStep(n, inbox, act).node.h.lost == n.h.lost
  {
  }

  lemma LostStep(s: System, e: Event)
    requires Inv(s) && CanStep(s, e)
    ensures Step(s, e).right.h.lost == s.right.h.lost + IgnoredAt(s, e)
  {
    if e.side == Right {
      assert Step(s, e).right == NodeStep(s.right, s.toRight, e.act).node;
      if e.act.Deliver? {
        Headroom(s.left, s.right, s.toRight, s.toLeft);
        LostByGuard(s.right, s.toRight, s.left.c.setup.remoteMaxpacket);
      } else {
        LostQuietly(s.right, s.toRight, e.act);
      }
    } else {
      assert Step(s, e).right == s.right;
    }
  }

  lemma {:induction false} LostIsIgnored(s: System, events: seq<Event>)
    requires Inv(s) && IsRun(s, events)
    ensures After(s, events).right.h.lost == s.right.h.lost + Ignored(s, events)
    decreases |events|
  {
    if events != [] {
      StepKeepsInv(s, events[0]);
      LostStep(s, events[0]);
      LostIsIgnored(Step(s, events[0]), events[1..]);
    }
  }

  /**
   The credit equation in terms of the guard: what is missing from the receiver's window is what
   it ignored, so the law of section 5.2 of RFC 4254 holds exactly when it ignored nothing.
   */
  lemma WindowIsWholeIff(s: System, events: seq<Event>)
    requires Init(s) && IsRun(s, events)
    ensures var t := After(s, events);
            var whole :=
              t.left.c.remoteWindow + BytesInFlight(t.toRight) + CreditInFlight(t.toLeft) + t.left.h.lostCredit;
            && whole + Ignored(s, events) == t.right.c.localWindow
            && (whole == t.right.c.localWindow <==> Ignored(s, events) == 0)
  {
    InitHolds(s);
    Reached(s, events);
    LostIsIgnored(s, events);
  }

  lemma {:induction false} WindowMaxStays(s: System, events: seq<Event>)
    requires IsRun(s, events)
    ensures After(s, events).right.c.setup.localWindowMax == s.right.c.setup.localWindowMax
    decreases |events|
  {
    if events != [] {
      var e := events[0];
      if e.side == Right && !e.act.HalfClose? {
        NodeSetup(s.right, s.toRight, e.act);
      }
      WindowMaxStays(Step(s, e), events[1..]);
    }
  }

  lemma {:induction false} RunConcat(s: System, first: seq<Event>, second: seq<Event>)
    requires IsRun(s, first) && IsRun(After(s, first), second)
    ensures IsRun(s, first + second) && After(s, first + second) == After(After(s, first), second)
    decreases |first|
  {
    if first == [] {
      assert first + second == second;
    } else {
      var e, rest := first[0], first[1..];
      HeadApart(first, second);
      RunConcat(Step(s, e), rest, second);
      MoreSteps(s, e, rest + second);
    }
  }

  lemma OneStep(s: System, e: Event)
    requires CanStep(s, e)
    ensures IsRun(s, [e]) && After(s, [e]) == Step(s, e)
  {
    MoreSteps(s, e, []);
    assert [e] + [] == [e];
  }

  lemma MoreSteps(s: System, e: Event, rest: seq<Event>)
    requires CanStep(s, e) && IsRun(Step(s, e), rest)
    ensures IsRun(s, [e] + rest) && After(s, [e] + rest) == After(Step(s, e), rest)
  {
    var run := [e] + rest;
    assert run[0] == e && run[1..] == rest;
  }

  lemma {:induction false} IgnoredConcat(s: System, first: seq<Event>, second: seq<Event>)
    requires IsRun(s, first) && IsRun(After(s, first), second)
    requires IsRun(s, first + second)
    ensures Ignored(s, first + second) == Ignored(s, first) + Ignored(After(s, first), second)
    decreases |first|
  {
    if first == [] {
      assert first + second == second;
    } else {
      var e, rest := first[0], first[1..];
      HeadApart(first, second);
      RunConcat(Step(s, e), rest, second);
      IgnoredConcat(Step(s, e), rest, second);
      IgnoredMore(s, e, rest + second);
    }
  }

  lemma IgnoredMore(s: System, e: Event, rest: seq<Event>)
    requires CanStep(s, e) && IsRun(Step(s, e), rest)
    ensures IsRun(s, [e] + rest) && Ignored(s, [e] + rest) == IgnoredAt(s, e) + Ignored(Step(s, e), rest)
  {
    var run := [e] + rest;
    assert run[0] == e && run[1..] == rest;
  }

  /** Window spent on ignored extended data never comes back: the sender lives with what is left, for ever. */
  lemma IgnoredDataShrinksWindow(s: System, before: seq<Event>, later: seq<Event>)
    requires Init(s) && IsRun(s, before)
    requires IsRun(After(s, before), later)
    ensures After(After(s, before), later).left.c.remoteWindow + Ignored(s, before) <= s.right.c.setup.localWindowMax
  {
    RunConcat(s, before, later);
    IgnoredConcat(s, before, later);
    WindowIsWholeIff(s, before + later);
    CreditEquation(s, before + later);
    WindowMaxStays(s, before + later);
  }

  // ----- receivers that ignore nothing -----

  predicate TakesAll(c: Endpoint) {
    c.efdOpen && c.setup.extendedUsage == ExtendedWrite
  }

  /** Leaves the extended descriptor open: no half-close, and no write to it that fails. */
  predicate KeepsEfd(act: Action) {
    !act.HalfClose? && act != WriteExtended(0)
  }

  /** A receiver that writes extended data, and whose descriptor stays open, ignores and discards none of it. */
  lemma {:induction false} WritingReceiverLosesNothing(s: System, events: seq<Event>)
    requires Inv(s) && IsRun(s, events)
    requires TakesAll(s.right.c)
    requires forall e :: e in events && e.side == Right ==> KeepsEfd(e.act)
    ensures var t := After(s, events);
            && t.right.h.lost == s.right.h.lost && Ignored(s, events) == 0
            && TakesAll(t.right.c)
            && (s.right.h.errIntact ==> t.right.h.errIntact)
    decreases |events|
  {
    if events != [] {
      var e := events[0];
      assert e in events;
      StepKeepsInv(s, e);
      if e.side == Right {
        Headroom(s.left, s.right, s.toRight, s.toLeft);
        WritingStep(s.right, s.toRight, s.left.c.setup.remoteMaxpacket, e.act);
      }
      assert forall d :: d in events[1..] ==> d in events;
      WritingReceiverLosesNothing(Step(s, e), events[1..]);
    }
  }

  lemma WritingStep(n: Node, fwd: seq<Message>, max: nat, act: Action)
    requires ReceiverReady(n, fwd, max) && Enabled(n, fwd, act)
    requires TakesAll(n.c) && KeepsEfd(act)
    ensures var f := NodeStep(n, fwd, act);
            && f.node.h.lost == n.h.lost && TakesAll(f.node.c) && f.node.h.errIntact == n.h.errIntact
            && (act.Deliver? ==> IgnoredBytes(n.c, fwd[0]) == 0)
  {
    NodeSetup(n, fwd, act);
    match act
    case Deliver => WritingDelivery(n, fwd, max);
    case OutputPoll => PollFrame(n.c);
    case _ =>
  }

  lemma WritingDelivery(n: Node, fwd: seq<Message>, max: nat)
    requires ReceiverReady(n, fwd, max) && fwd != [] && TakesAll(n.c)
    ensures IgnoredBytes(n.c, fwd[0]) == 0
    ensures var f := Receive(n, fwd);
            f.node.h.lost == n.h.lost && f.node.h.errIntact == n.h.errIntact && f.node.c.efdOpen
  {
    InputSetup(n.c, fwd[0]);
    if fwd[0].ExtendedData? && fwd[0].payload != [] {
      assert n.c.extended + fwd[0].payload != n.c.extended;
    }
  }

  /** Extended data that its guard lets in always fits the window and reaches the buffer whole. */
  lemma ExtendedNotDropped(s: System, events: seq<Event>)
    requires Init(s) && IsRun(s, events)
    requires var t := After(s, events);
             && t.toRight != [] && t.toRight[0].ExtendedData?
             && Handles(t.right.c) && !Ignores(t.right.c, t.toRight[0])
    ensures var c, m := After(s, events).right.c, After(s, events).toRight[0];
            && |m.payload| <= c.localWindow
            && AfterInputExtended(c, m.code, m.payload) ==
               (c.(extended := c.extended + m.payload, localWindow := c.localWindow - |m.payload|), Continue)
  {
    Reached(s, events);
    ExtendedFitsIn(After(s, events));
  }

  lemma ExtendedFitsIn(t: System)
    requires Inv(t) && t.toRight != [] && t.toRight[0].ExtendedData?
    requires Handles(t.right.c) && !Ignores(t.right.c, t.toRight[0])
    ensures var c, m := t.right.c, t.toRight[0];
            && |m.payload| <= c.localWindow
            && AfterInputExtended(c, m.code, m.payload) ==
               (c.(extended := c.extended + m.payload, localWindow := c.localWindow - |m.payload|), Continue)
  {
    Headroom(t.left, t.right, t.toRight, t.toLeft);
    ExtendedFits(t.right, t.toRight, t.left.c.setup.remoteMaxpacket);
  }

  lemma ExtendedFits(n: Node, fwd: seq<Message>, max: nat)
    requires ReceiverReady(n, fwd, max)
    requires fwd != [] && fwd[0].ExtendedData? && Handles(n.c) && TakesExtended(n.c, fwd[0].code)
    ensures |fwd[0].payload| <= n.c.localWindow
    ensures AfterInputExtended(n.c, fwd[0].code, fwd[0].payload) ==
            (n.c.(extended := n.c.extended + fwd[0].payload, localWindow := n.c.localWindow - |fwd[0].payload|),
             Continue)
  {
  }

  /** No extended data anywhere between the two, and none can enter. */
  predicate NoExtended(s: System) {
    && s.left.c.setup.extendedUsage != ExtendedRead
    && ErrInFlight(s.toRight) == [] && ErrIn(s.right.c) == []
  }

  /** From a sender that does not read an extended descriptor nothing can be ignored. */
  lemma {:induction false} SilentSenderLosesNothing(s: System, events: seq<Event>)
    requires Inv(s) && IsRun(s, events) && NoExtended(s)
    ensures NoExtended(After(s, events))
    ensures After(s, events).right.h.lost == s.right.h.lost && Ignored(s, events) == 0
    decreases |events|
  {
    if events != [] {
      var e := events[0];
      StepKeepsInv(s, e);
      match e.side {
        case Left => SilentSend(s.left, s.toLeft, e.act); Append(s.toRight, NodeStep(s.left, s.toLeft, e.act).sent);
        case Right => SilentReceive(s.right, s.toRight, e.act);
      }
      SilentSenderLosesNothing(Step(s, e), events[1..]);
    }
  }

  lemma SilentSend(n: Node, inbox: seq<Message>, act: Action)
    requires Enabled(n, inbox, act) && n.c.setup.extendedUsage != ExtendedRead
    ensures var f := NodeStep(n, inbox, act);
            f.node.c.setup.extendedUsage != ExtendedRead && ErrInFlight(f.sent) == []
  {
    match act
    case OutputPoll =>
      PollFrame(n.c);
      if MayPollInput(n.c) { Single(Data(n.c.input[..SendLimit(n.c, |n.c.input|)])); }
      var stream := PollStream(n.c).1;
      assert stream + [] == stream;
    case CheckWindow => Single(WindowAdjust(n.c.localConsumed));
    case Deliver => InputSetup(n.c, inbox[0]);
    case _ =>
  }

  lemma SilentReceive(n: Node, fwd: seq<Message>, act: Action)
    requires Enabled(n, fwd, act) && ErrInFlight(fwd) == [] && ErrIn(n.c) == []
    ensures var f := NodeStep(n, fwd, act);
            && ErrInFlight(f.inbox) == [] && ErrIn(f.node.c) == [] && f.node.h.lost == n.h.lost
            && (act.Deliver? ==> IgnoredBytes(n.c, fwd[0]) == 0)
  {
    match act
    case Deliver =>
      InputSetup(n.c, fwd[0]);
      if fwd[0].ExtendedData? {
        assert fwd[0].payload == [];
        assert n.c.extended + [] == n.c.extended;
      }
    case OutputPoll => PollFrame(n.c);
    case _ =>
  }

  // ----- stalls that last -----

  /** The sender has no window, none is on its way, and the receiver has no reason to give any. */
  predicate Stuck(s: System) {
    && s.left.c.remoteWindow == 0 && CreditInFlight(s.toLeft) == 0 && BytesInFlight(s.toRight) == 0
    && s.right.c.output == [] && ErrIn(s.right.c) == []
    && !(WindowLow(s.right.c) && s.right.c.localConsumed > 0)
  }

  lemma StuckSender(n: Node, inbox: seq<Message>, act: Action)
    requires Enabled(n, inbox, act) && n.c.remoteWindow == 0 && CreditInFlight(inbox) == 0
    ensures var f := NodeStep(n, inbox, act);
            f.node.c.remoteWindow == 0 && CreditInFlight(f.inbox) == 0 && BytesInFlight(f.sent) == 0
  {
    match act
    case Deliver => StuckTakes(n, inbox);
    case CheckWindow => Single(WindowAdjust(n.c.localConsumed));
    case _ =>
  }

  lemma StuckTakes(n: Node, inbox: seq<Message>)
    requires inbox != [] && n.c.remoteWindow == 0 && CreditInFlight(inbox) == 0
    ensures var f := Receive(n, inbox); f.node.c.remoteWindow == 0 && CreditInFlight(f.inbox) == 0
  {
  }

  predicate Idle(c: Endpoint) {
    c.output == [] && ErrIn(c) == [] && !(WindowLow(c) && c.localConsumed > 0)
  }

  lemma StuckReceiver(n: Node, fwd: seq<Message>, act: Action)
    requires Enabled(n, fwd, act) && BytesInFlight(fwd) == 0 && Idle(n.c)
    ensures var f := NodeStep(n, fwd, act);
            Idle(f.node.c) && BytesInFlight(f.inbox) == 0 && CreditInFlight(f.sent) == 0
  {
    match act
    case Deliver => IdleTakes(n, fwd);
    case OutputPoll => IdlePolls(n.c);
    case _ =>
  }

  lemma IdleTakes(n: Node, fwd: seq<Message>)
    requires fwd != [] && BytesInFlight(fwd) == 0 && Idle(n.c)
    ensures var f := Receive(n, fwd); Idle(f.node.c) && BytesInFlight(f.inbox) == 0
  {
    var m := fwd[0];
    assert Payload(m) == [];
    match m
    case Data(p) => IdleTakesData(n.c);
    case ExtendedData(code, p) => IdleTakesExtended(n.c, code);
    case WindowAdjust(b) => AdjustFrame(n.c, b);
  }

  lemma IdleTakesData(c: Endpoint)
    requires Idle(c)
    ensures Idle(AfterInputData(c, []).0)
  {
    assert Sub32(c.localWindow, 0) == c.localWindow && Add32(c.localConsumed, 0) == c.localConsumed;
  }

  lemma IdleTakesExtended(c: Endpoint, code: u32)
    requires Idle(c)
    ensures Idle(AfterInputExtended(c, code, []).0)
  {
    assert Sub32(c.localWindow, 0) == c.localWindow && c.extended + [] == c.extended;
  }

  lemma IdlePolls(c: Endpoint)
    requires Idle(c)
    ensures Idle(AfterOutputPoll(c).0) && CreditInFlight(AfterOutputPoll(c).1) == 0
  {
    PollFrame(c);
    PollBalance(c);
  }

  lemma StuckStep(s: System, e: Event)
    requires Stuck(s) && CanStep(s, e)
    ensures Stuck(Step(s, e))
  {
    match e.side
    case Left =>
      StuckSender(s.left, s.toLeft, e.act);
      Append(s.toRight, NodeStep(s.left, s.toLeft, e.act).sent);
    case Right =>
      StuckReceiver(s.right, s.toRight, e.act);
      Append(s.toLeft, NodeStep(s.right, s.toRight, e.act).sent);
  }

  lemma {:induction false} StuckForEver(s: System, events: seq<Event>)
    requires Stuck(s) && IsRun(s, events)
    ensures After(s, events).left.c.remoteWindow == 0
    decreases |events|
  {
    if events != [] {
      StuckStep(s, events[0]);
      StuckForEver(Step(s, events[0]), events[1..]);
    }
  }

  ghost predicate CanResume(s: System) {
    exists later :: IsRun(s, later) && After(s, later).left.c.remoteWindow > 0
  }

  /** A stalled sender can ever send again exactly when enough of the receiver's window is left to give back. */
  lemma StallIsPermanentIff(s: System, events: seq<Event>)
    requires Init(s) && IsRun(s, events)
    requires var t := After(s, events);
             && t.status == Running && Stalled(t)
             && t.left.c.setup.ctype == Open
             && t.right.c.setup.ctype == Open && !t.right.c.setup.closeSent && !t.right.c.setup.closeRcvd
    ensures var t := After(s, events);
            CanResume(t) <==> Recoverable(t.right.c.setup, Gone(t), t.right.h.reset)
  {
    Reached(s, events);
    var t := After(s, events);
    GivesBack(t);
    if SendsAdjust(t.right.c) {
      Resumes(t);
    } else {
      assert Stuck(t);
      forall later | IsRun(t, later)
        ensures After(t, later).left.c.remoteWindow == 0
      {
        StuckForEver(t, later);
      }
    }
  }

  lemma Resumes(t: System)
    requires Inv(t) && t.status == Running && Stalled(t) && t.left.c.setup.ctype == Open && SendsAdjust(t.right.c)
    ensures CanResume(t)
  {
    var e1, e2 := Event(Right, CheckWindow), Event(Left, Deliver);
    var u := Step(t, e1);
    StepKeepsInv(t, e1);
    var adjust := WindowAdjust(t.right.c.localConsumed);
    assert u.toLeft == [adjust] && u.left == t.left;
    Single(adjust);
    Headroom(u.left, u.right, u.toRight, u.toLeft);
    var v := Step(u, e2);
    assert v.left.c.remoteWindow > 0;
    OneStep(u, e2);
    MoreSteps(t, e1, [e2]);
    assert IsRun(t, [e1] + [e2]) && After(t, [e1] + [e2]) == v;
  }

  // ----- stalls that happen -----

  const QUIET: Ledger := Ledger([], [], [], [], [], [], 0, 0, 0, true, true)

  function SmallChannel(usage: ExtendedUsage, efd: bool, window: u32): Endpoint {
    Endpoint(Setup(Open, InputOpen, OutputOpen, false, false, false, false, false, usage, 8, 8, window),
             efd, [], [], [], window, window, 0)
  }

  /** A stall for good, of a receiver with this window. */
  ghost predicate StallsForGood(s: System, before: seq<Event>, window: u32) {
    && Init(s) && IsRun(s, before)
    && Stalled(After(s, before)) && !CanResume(After(s, before))
    && s.right.c.setup.localWindowMax == window
  }

  /** A run ends in a stall of two open ends with these counts. */
  predicate EndsStalled(s: System, events: seq<Event>, window: u32, lost: nat) {
    && Init(s) && IsRun(s, events)
    && var t := After(s, events);
       && t.status == Running && Stalled(t)
       && t.right.h.lost == lost && t.right.h.reset == 0 && t.left.h.lostCredit == 0
       && t.left.c.setup.ctype == Open
       && t.right.c.setup == s.right.c.setup == SmallChannel(ExtendedIgnore, false, window).setup
  }

  lemma StalledForGood(s: System, events: seq<Event>, window: u32, lost: nat)
    requires EndsStalled(s, events, window, lost)
    requires !Recoverable(SmallChannel(ExtendedIgnore, false, window).setup, lost, 0)
    ensures StallsForGood(s, events, window)
  {
    StallIsPermanentIff(s, events);
  }

  lemma LostFromStart(s: System, events: seq<Event>)
    requires Init(s) && IsRun(s, events)
    ensures Ignored(s, events) == After(s, events).right.h.lost
  {
    InitHolds(s);
    LostIsIgnored(s, events);
  }

  function SmallSystem(usage: ExtendedUsage, efd: bool, window: u32): System {
    System(Node(SmallChannel(usage, efd, window), QUIET), Node(SmallChannel(ExtendedIgnore, false, window), QUIET),
           [], [], Running)
  }

  lemma IgnoredRun() returns (events: seq<Event>)
    ensures EndsStalled(SmallSystem(ExtendedRead, true, 4), events, 4, 4)
  {
    var s := SmallSystem(ExtendedRead, true, 4);
    var e0 := Event(Left, ReadExtended([1, 2, 3, 4]));
    var e1 := Event(Left, OutputPoll);
    var e2 := Event(Right, Deliver);
    var s1 := Step(s, e0);
    var full := s1.left.c.extended;
    assert full == [1, 2, 3, 4];
    assert full[..4] == full && full[4..] == [];
    assert PollStream(s1.left.c) == (s1.left.c, []);
    var s2 := Step(s1, e1);
    assert s2.toRight == [ExtendedData(EXTENDED_DATA_STDERR, full)];
    ThreeSteps(s, e0, e1, e2);
    events := [e0, e1, e2];
  }

  /** A receiver without an extended descriptor: one ignored packet uses up the window for good. */
  lemma IgnoredDataCanStall()
    ensures exists s: System, before: seq<Event> :: StallsForGood(s, before, 4) && Ignored(s, before) == 4
  {
    var events := IgnoredRun();
    StalledForGood(SmallSystem(ExtendedRead, true, 4), events, 4, 4);
    LostFromStart(SmallSystem(ExtendedRead, true, 4), events);
  }

  lemma OneBytePolled(c: Endpoint)
    requires c.input == [7] && c.extended == [] && c.remoteWindow == 1 && c.setup.remoteMaxpacket >= 1
    requires c.setup.ctype == Open && !c.setup.closeSent && !c.setup.closeRcvd && c.setup.istate == InputOpen
    ensures AfterOutputPoll(c) == (c.(input := [], remoteWindow := 0), [Data([7])])
  {
    var (polled, sent) := AfterPollInput(c);
    assert c.input[..1] == [7] && c.input[1..] == [];
    assert sent == [Data([7])] && polled == c.(input := [], remoteWindow := 0);
    assert PollErr(polled) == (polled, []);
    assert sent + [] == sent;
  }

  lemma OneByteSent() returns (events: seq<Event>)
    ensures var s := SmallSystem(ExtendedIgnore, false, 1);
            && Init(s) && IsRun(s, events)
            && var t := After(s, events);
               && t.left == s.left.(c := s.left.c.(remoteWindow := 0), h := QUIET.(read := [7]))
               && t.right == s.right.(c := s.right.c.(localWindow := 0, output := [7]), h := QUIET.(received := [7]))
               && t.toRight == [] && t.toLeft == [] && t.status == Running
  {
    var s := SmallSystem(ExtendedIgnore, false, 1);
    var e0 := Event(Left, ReadStream(1, [7]));
    var e1 := Event(Left, OutputPoll);
    var e2 := Event(Right, Deliver);
    var s1 := Step(s, e0);
    assert s1.left.c == s.left.c.(input := [7]);
    OneBytePolled(s1.left.c);
    var s2 := Step(s1, e1);
    assert s2.toRight == [Data([7])];
    ThreeSteps(s, e0, e1, e2);
    events := [e0, e1, e2];
  }

  lemma OneByteWritten() returns (events: seq<Event>)
    ensures EndsStalled(SmallSystem(ExtendedIgnore, false, 1), events, 1, 0)
  {
    var s := SmallSystem(ExtendedIgnore, false, 1);
    var sent := OneByteSent();
    var e := Event(Right, WriteStream(1));
    var t := After(s, sent);
    assert Step(t, e).right.c.output == [];
    OneMoreStep(s, sent, e);
    events := sent + [e];
  }

  /** A window of one byte that three packets cover is used once and never given back. */
  lemma OneByteWindowStalls()
    ensures exists s: System, before: seq<Event> :: StallsForGood(s, before, 1) && Ignored(s, before) == 0
  {
    var events := OneByteWritten();
    StalledForGood(SmallSystem(ExtendedIgnore, false, 1), events, 1, 0);
    LostFromStart(SmallSystem(ExtendedIgnore, false, 1), events);
  }

  lemma OneMoreStep(s: System, events: seq<Event>, e: Event)
    requires IsRun(s, events) && CanStep(After(s, events), e)
    ensures IsRun(s, events + [e]) && After(s, events + [e]) == Step(After(s, events), e)
  {
    OneStep(After(s, events), e);
    RunConcat(s, events, [e]);
  }

  lemma ThreeSteps(s: System, e0: Event, e1: Event, e2: Event)
    requires CanStep(s, e0) && CanStep(Step(s, e0), e1) && CanStep(Step(Step(s, e0), e1), e2)
    ensures IsRun(s, [e0, e1, e2])
    ensures After(s, [e0, e1, e2]) == Step(Step(Step(s, e0), e1), e2)
  {
    OneStep(Step(Step(s, e0), e1), e2);
    MoreSteps(Step(s, e0), e1, [e2]);
    assert [e1] + [e2] == [e1, e2];
    MoreSteps(s, e0, [e1, e2]);
    assert [e0] + [e1, e2] == [e0, e1, e2];
  }
}

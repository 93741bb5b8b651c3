/**
 Every fair schedule delivers.  Handlers either lower a measure of what is still to be done or
 leave the state exactly as it is, so a round in which every handler that could help gets its
 turn makes progress until everything has been written.
 */
module FlowFair {
  import opened Primitives
  import opened ChannelSpec
  import opened FlowSystem
  import opened FlowInvariant
  import opened FlowTheorems
  import opened FlowLoss
  import opened FlowProgress

  // ----- the measure -----

  /** Work left at an endpoint: a byte costs less with every stage it passes, down to returned credit. */
  function NodeLoad(c: Endpoint): nat {
    10 * |c.input| + 10 * |ErrOut(c)| + 6 * |c.output| + 6 * |ErrIn(c)| + 4 * c.localConsumed
  }

  function MessageLoad(m: Message): nat {
    1 + if m.WindowAdjust? then 2 * m.bytes else 8 * |m.payload|
  }

  function LinkLoad(link: seq<Message>): nat {
    if link == [] then 0 else MessageLoad(link[0]) + LinkLoad(link[1..])
  }

  function Load(s: System): nat {
    NodeLoad(s.left.c) + NodeLoad(s.right.c) + LinkLoad(s.toRight) + LinkLoad(s.toLeft)
  }

  lemma {:induction false} LinkLoadAppend(a: seq<Message>, b: seq<Message>)
    ensures LinkLoad(a + b) == LinkLoad(a) + LinkLoad(b)
  {
    if a == [] {
      assert a + b == b;
    } else {
      assert (a + b)[1..] == a[1..] + b;
      LinkLoadAppend(a[1..], b);
    }
  }

  lemma LinkLoadOne(m: Message)
    ensures LinkLoad([m]) == MessageLoad(m)
  {
    assert [m][1..] == [];
  }

  /** Nothing new is read, no half-close moves, and no extended write fails. */
  predicate QuietAction(act: Action) {
    !act.ReadStream? && !act.ReadExtended? && KeepsEfd(act)
  }

  predicate Quiet(events: seq<Event>) {
    forall e :: e in events ==> QuietAction(e.act)
  }

  // ----- every handler progresses or does nothing -----

  predicate Progresses(n: Node, inbox: seq<Message>, f: Effect) {
    || NodeLoad(f.node.c) + LinkLoad(f.inbox) + LinkLoad(f.sent) < NodeLoad(n.c) + LinkLoad(inbox)
    || (f.node == n && f.inbox == inbox && f.sent == [])
  }

  lemma WriteLoad(n: Node, inbox: seq<Message>, w: nat)
    requires Enabled(n, inbox, WriteStream(w)) && Conserved(n)
    ensures Progresses(n, inbox, NodeStep(n, inbox, WriteStream(w)))
  {
    assert Add32(n.c.localConsumed, w) == n.c.localConsumed + w;
    if w == 0 {
      assert n.c.output[0..] == n.c.output && n.h.written + n.c.output[..0] == n.h.written;
    }
  }

  lemma WriteExtendedLoad(n: Node, inbox: seq<Message>, w: nat)
    requires Enabled(n, inbox, WriteExtended(w)) && Conserved(n) && w > 0
    ensures Progresses(n, inbox, NodeStep(n, inbox, WriteExtended(w)))
  {
    assert Add32(n.c.localConsumed, w) == n.c.localConsumed + w;
  }

  lemma CheckLoad(n: Node, inbox: seq<Message>)
    requires Enabled(n, inbox, CheckWindow)
    ensures Progresses(n, inbox, NodeStep(n, inbox, CheckWindow))
  {
    LinkLoadOne(WindowAdjust(n.c.localConsumed));
  }

  /** What polling one buffer does to the measure, or else it does nothing. */
  predicate Sends(c: Endpoint, d: Endpoint, sent: seq<Message>) {
    NodeLoad(d) + LinkLoad(sent) < NodeLoad(c) || (d == c && sent == [])
  }

  lemma PollStreamLoad(c: Endpoint)
    ensures Sends(c, PollStream(c).0, PollStream(c).1)
  {
    var len := SendLimit(c, |c.input|);
    if MayPollInput(c) && len > 0 {
      LinkLoadOne(Data(c.input[..len]));
    }
  }

  lemma PollErrLoad(c: Endpoint)
    ensures Sends(c, PollErr(c).0, PollErr(c).1)
  {
    var len := SendLimit(c, |c.extended|);
    if MayPollExtended(c) && len > 0 {
      LinkLoadOne(ExtendedData(EXTENDED_DATA_STDERR, c.extended[..len]));
    }
  }

  lemma SendsCompose(c: Endpoint, d: Endpoint, e: Endpoint, a: seq<Message>, b: seq<Message>)
    requires Sends(c, d, a) && Sends(d, e, b)
    ensures Sends(c, e, a + b)
  {
    LinkLoadAppend(a, b);
  }

  lemma PollLoad(n: Node, inbox: seq<Message>)
    ensures Progresses(n, inbox, NodeStep(n, inbox, OutputPoll))
  {
    var c := n.c;
    PollStreamLoad(c);
    var d := PollStream(c).0;
    PollErrLoad(d);
    SendsCompose(c, d, PollErr(d).0, PollStream(c).1, PollErr(d).1);
    assert Sends(c, AfterOutputPoll(c).0, AfterOutputPoll(c).1);
  }

  lemma DataLoad(n: Node, inbox: seq<Message>, max: nat)
    requires Live(n.c) && ReceiverReady(n, inbox, max) && inbox != [] && inbox[0].Data?
    ensures Progresses(n, inbox, Receive(n, inbox)) && Receive(n, inbox).status == Running
  {
    DataAccepted(n, inbox, max);
  }

  lemma ExtendedLoad(n: Node, inbox: seq<Message>)
    requires Live(n.c) && inbox != [] && inbox[0].ExtendedData?
    ensures Progresses(n, inbox, Receive(n, inbox)) && Receive(n, inbox).status == Running
  {
  }

  lemma AdjustLoad(n: Node, inbox: seq<Message>)
    requires Live(n.c) && inbox != [] && inbox[0].WindowAdjust?
    requires n.c.remoteWindow + CreditInFlight(inbox) < WORD_SIZE
    ensures Progresses(n, inbox, Receive(n, inbox)) && Receive(n, inbox).status == Running
  {
    AdjustFits(n, inbox);
  }

  lemma NodeProgresses(n: Node, inbox: seq<Message>, act: Action, max: nat)
    requires Live(n.c) && ReceiverReady(n, inbox, max) && Enabled(n, inbox, act) && QuietAction(act)
    requires n.c.remoteWindow + CreditInFlight(inbox) < WORD_SIZE
    ensures Progresses(n, inbox, NodeStep(n, inbox, act)) && NodeStep(n, inbox, act).status == Running
  {
    match act
    case WriteStream(w) => WriteLoad(n, inbox, w);
    case WriteExtended(w) => WriteExtendedLoad(n, inbox, w);
    case CheckWindow => CheckLoad(n, inbox);
    case OutputPoll => PollLoad(n, inbox);
    case Deliver =>
      match inbox[0] {
        case Data(_) => DataLoad(n, inbox, max);
        case ExtendedData(_, _) => ExtendedLoad(n, inbox);
        case WindowAdjust(_) => AdjustLoad(n, inbox);
      }
  }

  /** A quiet step of an open system lowers the measure, or leaves the system exactly as it was. */
  lemma StepProgresses(s: System, e: Event)
    requires Inv(s) && OpenEnds(s) && CanStep(s, e) && QuietAction(e.act)
    ensures Load(Step(s, e)) < Load(s) || Step(s, e) == s
  {
    Headroom(s.left, s.right, s.toRight, s.toLeft);
    Headroom(s.right, s.left, s.toLeft, s.toRight);
    match e.side
    case Left =>
      NodeProgresses(s.left, s.toLeft, e.act, s.right.c.setup.remoteMaxpacket);
      LinkLoadAppend(s.toRight, NodeStep(s.left, s.toLeft, e.act).sent);
    case Right =>
      NodeProgresses(s.right, s.toRight, e.act, s.left.c.setup.remoteMaxpacket);
      LinkLoadAppend(s.toLeft, NodeStep(s.right, s.toRight, e.act).sent);
  }

  // ----- quiet steps keep a ready system ready -----

  lemma ReadyLeft(s: System, act: Action)
    requires Ready(s) && CanStep(s, Event(Left, act)) && QuietAction(act)
    ensures Ready(Step(s, Event(Left, act)))
    ensures Step(s, Event(Left, act)).left.h.read == s.left.h.read
  {
    var e := Event(Left, act);
    StepKeepsInv(s, e);
    Headroom(s.left, s.right, s.toRight, s.toLeft);
    Headroom(s.right, s.left, s.toLeft, s.toRight);
    QuietStep(s.left, s.toLeft, act, s.right.c.setup.remoteMaxpacket);
    var f := NodeStep(s.left, s.toLeft, act);
    Append(s.toRight, f.sent);
    ErrStaysOut(s.left, s.toLeft, act);
  }

  /** An endpoint without waiting extended data gets none and sends none. */
  lemma ErrStaysOut(n: Node, inbox: seq<Message>, act: Action)
    requires Enabled(n, inbox, act) && QuietAction(act)
    ensures NodeStep(n, inbox, act).node.h.read == n.h.read
    ensures ErrOut(n.c) == [] ==>
              ErrOut(NodeStep(n, inbox, act).node.c) == [] && ErrInFlight(NodeStep(n, inbox, act).sent) == []
  {
    match act
    case Deliver => DeliveryKeepsErrOut(n, inbox);
    case OutputPoll => PollBalance(n.c); PollFrame(n.c);
    case CheckWindow => Single(WindowAdjust(n.c.localConsumed));
    case _ =>
  }

  lemma DeliveryKeepsErrOut(n: Node, inbox: seq<Message>)
    requires inbox != []
    ensures ErrOut(Receive(n, inbox).node.c) == ErrOut(n.c) && Receive(n, inbox).node.h.read == n.h.read
  {
    InputSetup(n.c, inbox[0]);
  }

  lemma ReadyRight(s: System, act: Action)
    requires Ready(s) && CanStep(s, Event(Right, act)) && QuietAction(act)
    ensures Ready(Step(s, Event(Right, act)))
    ensures |Step(s, Event(Right, act)).right.h.written| >= |s.right.h.written|
  {
    StepKeepsInv(s, Event(Right, act));
    RightFacts(s, act);
    var f := NodeStep(s.right, s.toRight, act);
    ReadyAgain(s, f.node, f.inbox, f.sent, Step(s, Event(Right, act)));
  }

  lemma RightFacts(s: System, act: Action)
    requires Ready(s) && CanStep(s, Event(Right, act)) && QuietAction(act)
    ensures var f := NodeStep(s.right, s.toRight, act);
            && f.status == Running && f.node.c.setup == s.right.c.setup && f.node.h.intact
            && f.node.h.lost == s.right.h.lost && f.node.h.reset == s.right.h.reset
            && |f.node.h.written| >= |s.right.h.written|
            && (TakesAll(f.node.c) || (ErrOut(s.left.c) == [] && ErrInFlight(f.inbox) == [] && ErrIn(f.node.c) == []))
  {
    Headroom(s.left, s.right, s.toRight, s.toLeft);
    Headroom(s.right, s.left, s.toLeft, s.toRight);
    RightNode(s.right, s.toRight, s.left.c.setup.remoteMaxpacket, act);
  }

  lemma ReadyAgain(s: System, n: Node, inbox: seq<Message>, sent: seq<Message>, t: System)
    requires Ready(s) && t == System(s.left, n, inbox, s.toLeft + sent, Running) && Inv(t)
    requires n.c.setup == s.right.c.setup && n.h.intact
    requires n.h.lost == s.right.h.lost && n.h.reset == s.right.h.reset
    requires TakesAll(n.c) || (ErrOut(s.left.c) == [] && ErrInFlight(inbox) == [] && ErrIn(n.c) == [])
    ensures Ready(t)
  {
  }

  lemma RightNode(n: Node, fwd: seq<Message>, max: nat, act: Action)
    requires Live(n.c) && ReceiverReady(n, fwd, max) && Enabled(n, fwd, act) && QuietAction(act)
    requires n.c.remoteWindow + CreditInFlight(fwd) < WORD_SIZE && n.h.intact && n.c.setup.ostate == OutputOpen
    requires TakesAll(n.c) || (ErrInFlight(fwd) == [] && ErrIn(n.c) == [])
    ensures var f := NodeStep(n, fwd, act);
            && f.status == Running && f.node.c.setup == n.c.setup && f.node.h.intact
            && f.node.h.lost == n.h.lost && f.node.h.reset == n.h.reset && f.node.h.lostCredit == n.h.lostCredit
            && |f.node.h.written| >= |n.h.written|
            && (TakesAll(f.node.c) || (ErrInFlight(f.inbox) == [] && ErrIn(f.node.c) == []))
  {
    QuietStep(n, fwd, act, max);
    NodeIntact(n, fwd, max, act);
    ErrStaysAccepted(n, fwd, max, act);
  }

  /** A receiver that takes extended data, or is offered none, goes on so and loses none. */
  lemma ErrStaysAccepted(n: Node, fwd: seq<Message>, max: nat, act: Action)
    requires Live(n.c) && ReceiverReady(n, fwd, max) && Enabled(n, fwd, act) && QuietAction(act)
    requires TakesAll(n.c) || (ErrInFlight(fwd) == [] && ErrIn(n.c) == [])
    ensures var f := NodeStep(n, fwd, act);
            && f.node.h.lost == n.h.lost && |f.node.h.written| >= |n.h.written|
            && (TakesAll(f.node.c) || (ErrInFlight(f.inbox) == [] && ErrIn(f.node.c) == []))
  {
    match act
    case Deliver =>
      TakesErr(n, fwd, max);
      InputSetup(n.c, fwd[0]);
    case OutputPoll => PollFrame(n.c);
    case _ =>
  }

  lemma ReadyStep(s: System, e: Event)
    requires Ready(s) && CanStep(s, e) && QuietAction(e.act)
    ensures Ready(Step(s, e)) && Step(s, e).left.h.read == s.left.h.read
    ensures |Step(s, e).right.h.written| >= |s.right.h.written|
  {
    match e.side
    case Left => ReadyLeft(s, e.act);
    case Right => ReadyRight(s, e.act);
  }

  // ----- rounds -----

  /** A quiet round: the measure falls, or the round changed nothing and so did each of its steps. */
  lemma {:induction false} RoundProgresses(s: System, round: seq<Event>)
    requires Ready(s) && IsRun(s, round) && Quiet(round)
    ensures var t := After(s, round);
            && Ready(t) && t.left.h.read == s.left.h.read && |t.right.h.written| >= |s.right.h.written|
            && Load(t) <= Load(s)
            && (Load(t) == Load(s) ==> t == s && forall e :: e in round ==> CanStep(s, e) && Step(s, e) == s)
    decreases |round|
  {
    if round != [] {
      var e, rest := round[0], round[1..];
      assert e in round && forall d :: d in rest ==> d in round;
      assert forall d :: d in round ==> d == e || d in rest;
      StepProgresses(s, e);
      ReadyStep(s, e);
      RoundProgresses(Step(s, e), rest);
    }
  }

  /** Every handler that has something to do gets a turn in the round; a write takes at least one byte. */
  ghost predicate Serves(s: System, round: seq<Event>) {
    && (s.toRight != [] ==> Event(Right, Deliver) in round)
    && (s.toLeft != [] ==> Event(Left, Deliver) in round)
    && (s.right.c.output != [] ==> exists w :: w > 0 && Event(Right, WriteStream(w)) in round)
    && (s.right.c.efdOpen && ErrIn(s.right.c) != [] ==> exists w :: w > 0 && Event(Right, WriteExtended(w)) in round)
    && Event(Left, OutputPoll) in round && Event(Right, CheckWindow) in round
  }

  predicate Idle(s: System, e: Event) {
    CanStep(s, e) && Step(s, e) == s
  }

  lemma DeliverIsNotIdle(s: System, side: Side)
    requires Inv(s) && OpenEnds(s)
    ensures !Idle(s, Event(side, Deliver))
  {
    var e := Event(side, Deliver);
    Headroom(s.left, s.right, s.toRight, s.toLeft);
    Headroom(s.right, s.left, s.toLeft, s.toRight);
    if CanStep(s, e) && side == Left {
      LiveReceives(s.left, s.toLeft, s.right.c.setup.remoteMaxpacket);
      assert |Step(s, e).toLeft| < |s.toLeft|;
    }
    if CanStep(s, e) && side == Right {
      LiveReceives(s.right, s.toRight, s.left.c.setup.remoteMaxpacket);
      assert |Step(s, e).toRight| < |s.toRight|;
    }
  }

  lemma WriteIsNotIdle(s: System, w: nat)
    requires w > 0
    ensures !Idle(s, Event(Right, WriteStream(w))) && !Idle(s, Event(Right, WriteExtended(w)))
  {
    if CanStep(s, Event(Right, WriteStream(w))) {
      assert |Step(s, Event(Right, WriteStream(w))).right.c.output| < |s.right.c.output|;
    }
    if CanStep(s, Event(Right, WriteExtended(w))) {
      assert |Step(s, Event(Right, WriteExtended(w))).right.c.extended| < |s.right.c.extended|;
    }
  }

  /** Where every served handler is idle, everything has been written and the sender may send. */
  lemma IdleMeansDelivered(s: System, round: seq<Event>)
    requires Ready(s) && Serves(s, round) && forall e :: e in round ==> Idle(s, e)
    ensures s.right.h.written == s.left.h.read && s.left.c.remoteWindow > 0
  {
    assert s.toRight == [] by { if s.toRight != [] { DeliverIsNotIdle(s, Right); } }
    assert s.toLeft == [] by { if s.toLeft != [] { DeliverIsNotIdle(s, Left); } }
    if s.right.c.output != [] {
      var w :| w > 0 && Event(Right, WriteStream(w)) in round;
      WriteIsNotIdle(s, w);
    }
    if s.right.c.efdOpen && ErrIn(s.right.c) != [] {
      var w :| w > 0 && Event(Right, WriteExtended(w)) in round;
      WriteIsNotIdle(s, w);
    }
    CheckedIdle(s);
    PolledIdle(s);
    DeliveredAll(s);
  }

  lemma CheckedIdle(s: System)
    requires Ready(s) && s.toRight == [] && s.toLeft == [] && s.right.c.output == [] && ErrIn(s.right.c) == []
    requires Idle(s, Event(Right, CheckWindow))
    ensures s.left.c.remoteWindow > 0
  {
    CheckedWindow(s.right.c, s.right.h.lost);
    EmptyLinks(s);
  }

  lemma PolledIdle(s: System)
    requires Ready(s) && s.left.c.remoteWindow > 0 && Idle(s, Event(Left, OutputPoll))
    ensures s.left.c.input == []
  {
    if s.left.c.input != [] {
      PollShrinks(s.left.c);
    }
  }

  // ----- schedules -----

  /** Rounds without new input, in each of which every handler that has something to do gets a turn. */
  ghost predicate FairRun(s: System, rounds: seq<seq<Event>>)
    decreases |rounds|
  {
    rounds == [] ||
    (IsRun(s, rounds[0]) && Quiet(rounds[0]) && Serves(s, rounds[0]) && FairRun(After(s, rounds[0]), rounds[1..]))
  }

  ghost function AfterRounds(s: System, rounds: seq<seq<Event>>): System
    requires FairRun(s, rounds)
    decreases |rounds|
  {
    if rounds == [] then s else AfterRounds(After(s, rounds[0]), rounds[1..])
  }

  lemma {:induction false} DeliveredStays(s: System, rounds: seq<seq<Event>>)
    requires Ready(s) && FairRun(s, rounds) && s.right.h.written == s.left.h.read
    ensures var t := AfterRounds(s, rounds); t.right.h.written == t.left.h.read == s.left.h.read
    decreases |rounds|
  {
    if rounds != [] {
      RoundProgresses(s, rounds[0]);
      var t := After(s, rounds[0]);
      AllWritten(t);
      DeliveredStays(t, rounds[1..]);
    }
  }

  lemma AllWritten(t: System)
    requires Ready(t) && |t.right.h.written| >= |t.left.h.read|
    ensures t.right.h.written == t.left.h.read
  {
    var rest := t.right.c.output + StreamInFlight(t.toRight) + t.left.c.input;
    assert t.left.h.read == t.right.h.written + rest;
    assert rest == [];
  }

  /**
   From every ready state every fair schedule writes out every byte that was read, within as many
   rounds as the measure of the state says.
   */
  lemma {:induction false} EveryFairScheduleDelivers(s: System, rounds: seq<seq<Event>>)
    requires Ready(s) && FairRun(s, rounds) && |rounds| > Load(s)
    ensures AfterRounds(s, rounds).right.h.written == s.left.h.read
    decreases |rounds|
  {
    RoundProgresses(s, rounds[0]);
    var t := After(s, rounds[0]);
    if Load(t) == Load(s) {
      IdleMeansDelivered(s, rounds[0]);
      DeliveredStays(s, rounds);
    } else {
      EveryFairScheduleDelivers(t, rounds[1..]);
    }
  }

  /** The same after every run of a channel that starts open, as for `OpenChannelsDeliver`. */
  lemma OpenChannelsAlwaysDeliver(s: System, events: seq<Event>, rounds: seq<seq<Event>>)
    requires StartsOpen(s, events)
    requires FairRun(After(s, events), rounds) && |rounds| > Load(After(s, events))
    ensures AfterRounds(After(s, events), rounds).right.h.written == After(s, events).left.h.read
  {
    OpenChannelsReady(s, events);
    EveryFairScheduleDelivers(After(s, events), rounds);
  }
}

/**
 Progress: an open channel whose window can come back can always deliver everything it
 has read.  The proof builds the schedule: drain the links, write what is buffered,
 return the credit, send, and start again with less left to send.
 */
module FlowProgress {
  import opened Primitives
  import opened ChannelSpec
  import opened FlowSystem
  import opened FlowInvariant
  import opened FlowTheorems
  import opened FlowLoss

  ghost predicate Reaches(s: System, t: System) {
    exists events :: IsRun(s, events) && After(s, events) == t
  }

  lemma ReachesRefl(s: System)
    ensures Reaches(s, s)
  {
    assert IsRun(s, []) && After(s, []) == s;
  }

  lemma ReachesTrans(s: System, t: System, u: System)
    requires Reaches(s, t) && Reaches(t, u)
    ensures Reaches(s, u)
  {
    var first :| IsRun(s, first) && After(s, first) == t;
    var second :| IsRun(t, second) && After(t, second) == u;
    RunConcat(s, first, second);
  }

  lemma ReachesStep(s: System, e: Event)
    requires CanStep(s, e)
    ensures Reaches(s, Step(s, e))
  {
    OneStep(s, e);
  }

  // ----- states from which everything can be delivered -----

  /** Handles every message without disconnecting, and may send. */
  predicate Live(c: Endpoint) {
    && c.setup.ctype == Open && !c.setup.closeSent && !c.setup.closeRcvd
    && (!c.setup.eofRcvd || c.setup.extEofBug)
  }

  /** Either the receiver takes extended data, or there is none anywhere on the way. */
  predicate ErrAccepted(s: System) {
    || (s.right.c.efdOpen && s.right.c.setup.extendedUsage == ExtendedWrite)
    || (ErrOut(s.left.c) == [] && ErrInFlight(s.toRight) == [] && ErrIn(s.right.c) == [])
  }

  predicate Capable(snd: Setup, rcv: Setup) {
    && (snd.istate == InputOpen || snd.istate == InputWaitDrain)
    && rcv.ostate == OutputOpen
    && snd.remoteMaxpacket >= 1
  }

  predicate Ready(s: System) {
    && Inv(s) && s.status == Running
    && Live(s.left.c) && Live(s.right.c)
    && Capable(s.left.c.setup, s.right.c.setup)
    && s.right.h.intact && s.right.h.reset == 0 && s.left.h.lostCredit == 0
    && Recoverable(s.right.c.setup, s.right.h.lost, 0)
    && ErrAccepted(s)
  }

  // ----- one step of the schedule at a time -----

  lemma LiveReceives(n: Node, inbox: seq<Message>, max: nat)
    requires Live(n.c) && inbox != [] && AllFit(inbox, max)
    requires n.c.remoteWindow + CreditInFlight(inbox) < WORD_SIZE
    ensures var f := Receive(n, inbox);
            && f.status == Running && f.inbox == inbox[1..] && f.sent == []
            && f.node.h.read == n.h.read && f.node.h.lostCredit == n.h.lostCredit && f.node.h.reset == n.h.reset
            && f.node.c.input == n.c.input && ErrOut(f.node.c) == ErrOut(n.c)
  {
    if inbox[0].WindowAdjust? {
      AdjustFits(n, inbox);
    } else {
      TakeOtherFrame(n.c, inbox[0]);
    }
  }

  lemma TakesErr(n: Node, inbox: seq<Message>, max: nat)
    requires Live(n.c) && ReceiverReady(n, inbox, max) && inbox != []
    requires (n.c.efdOpen && n.c.setup.extendedUsage == ExtendedWrite) || (ErrInFlight(inbox) == [] && ErrIn(n.c) == [])
    ensures var f := Receive(n, inbox);
            f.node.h.lost == n.h.lost
            && ((n.c.efdOpen && n.c.setup.extendedUsage == ExtendedWrite)
                || (ErrInFlight(inbox[1..]) == [] && ErrIn(f.node.c) == []))
  {
    if inbox[0].ExtendedData? && inbox[0].payload != [] {
      assert n.c.extended + inbox[0].payload != n.c.extended;
    }
  }

  lemma DeliverRight(s: System) returns (t: System)
    requires Ready(s) && s.toRight != []
    ensures Reaches(s, t) && Ready(t)
    ensures t.left == s.left && t.toLeft == s.toLeft && t.toRight == s.toRight[1..]
  {
    var e := Event(Right, Deliver);
    t := Step(s, e);
    ReachesStep(s, e);
    StepKeepsInv(s, e);
    Headroom(s.left, s.right, s.toRight, s.toLeft);
    Headroom(s.right, s.left, s.toLeft, s.toRight);
    NodeSetup(s.right, s.toRight, Deliver);
    InputSetup(s.right.c, s.toRight[0]);
    LiveReceives(s.right, s.toRight, s.left.c.setup.remoteMaxpacket);
    DeliverIntact(s.right, s.toRight, s.left.c.setup.remoteMaxpacket);
    TakesErr(s.right, s.toRight, s.left.c.setup.remoteMaxpacket);
    assert s.toLeft + [] == s.toLeft;
  }

  lemma DeliverLeft(s: System) returns (t: System)
    requires Ready(s) && s.toLeft != []
    ensures Reaches(s, t) && Ready(t)
    ensures t.right == s.right && t.toRight == s.toRight && t.toLeft == s.toLeft[1..]
    ensures t.left.c.input == s.left.c.input && t.left.h.read == s.left.h.read
  {
    var e := Event(Left, Deliver);
    t := Step(s, e);
    ReachesStep(s, e);
    StepKeepsInv(s, e);
    Headroom(s.left, s.right, s.toRight, s.toLeft);
    Headroom(s.right, s.left, s.toLeft, s.toRight);
    NodeSetup(s.left, s.toLeft, Deliver);
    LiveReceives(s.left, s.toLeft, s.right.c.setup.remoteMaxpacket);
    assert s.toRight + [] == s.toRight;
  }

  lemma {:induction false} DrainRight(s: System) returns (t: System)
    requires Ready(s)
    ensures Reaches(s, t) && Ready(t)
    ensures t.left == s.left && t.toLeft == s.toLeft && t.toRight == []
    decreases |s.toRight|
  {
    if s.toRight == [] {
      t := s;
      ReachesRefl(s);
    } else {
      var u := DeliverRight(s);
      t := DrainRight(u);
      ReachesTrans(s, u, t);
    }
  }

  lemma {:induction false} DrainLeft(s: System) returns (t: System)
    requires Ready(s)
    ensures Reaches(s, t) && Ready(t)
    ensures t.right == s.right && t.toRight == s.toRight && t.toLeft == []
    ensures t.left.c.input == s.left.c.input && t.left.h.read == s.left.h.read
    decreases |s.toLeft|
  {
    if s.toLeft == [] {
      t := s;
      ReachesRefl(s);
    } else {
      var u := DeliverLeft(s);
      t := DrainLeft(u);
      ReachesTrans(s, u, t);
    }
  }

  lemma WriteAll(s: System) returns (t: System)
    requires Ready(s)
    ensures Reaches(s, t) && Ready(t)
    ensures t.left == s.left && t.toLeft == s.toLeft && t.toRight == s.toRight
    ensures t.right.c.output == []
  {
    var e := Event(Right, WriteStream(|s.right.c.output|));
    t := Step(s, e);
    ReachesStep(s, e);
    StepKeepsInv(s, e);
    assert s.toLeft + [] == s.toLeft;
  }

  lemma WriteAllErr(s: System) returns (t: System)
    requires Ready(s) && s.right.c.output == []
    ensures Reaches(s, t) && Ready(t)
    ensures t.left == s.left && t.toLeft == s.toLeft && t.toRight == s.toRight
    ensures t.right.c.output == [] && ErrIn(t.right.c) == []
  {
    if ErrIn(s.right.c) == [] {
      t := s;
      ReachesRefl(s);
    } else {
      var e := Event(Right, WriteExtended(|s.right.c.extended|));
      t := Step(s, e);
      ReachesStep(s, e);
      StepKeepsInv(s, e);
      assert s.toLeft + [] == s.toLeft;
    }
  }

  /** With its buffers drained and its window checked, the receiver offers more than what is lost. */
  lemma CheckedWindow(c: Endpoint, lost: nat)
    requires c.setup.ctype == Open && !c.setup.closeSent && !c.setup.closeRcvd
    requires c.localWindow + c.localConsumed == c.setup.localWindowMax && lost <= c.localWindow
    requires Recoverable(c.setup, lost, 0)
    ensures AfterCheckWindow(c).0.localWindow > lost
    ensures AfterCheckWindow(c).0 == c.(localWindow := AfterCheckWindow(c).0.localWindow,
                                         localConsumed := AfterCheckWindow(c).0.localConsumed)
  {
  }

  lemma ReturnCredit(s: System) returns (t: System)
    requires Ready(s) && s.right.c.output == [] && ErrIn(s.right.c) == []
    ensures Reaches(s, t) && Ready(t)
    ensures t.left == s.left && t.toRight == s.toRight
    ensures t.right.c.output == [] && ErrIn(t.right.c) == [] && t.right.c.localWindow > t.right.h.lost
  {
    var e := Event(Right, CheckWindow);
    t := Step(s, e);
    ReachesStep(s, e);
    StepKeepsInv(s, e);
    CheckedWindow(s.right.c, s.right.h.lost);
  }

  lemma PollShrinks(c: Endpoint)
    requires Live(c) && MayPollInput(c)
    requires c.input != [] && c.remoteWindow >= 1 && c.setup.remoteMaxpacket >= 1
    ensures |AfterOutputPoll(c).0.input| < |c.input|
  {
  }

  lemma SendSome(s: System) returns (t: System)
    requires Ready(s) && s.left.c.input != [] && s.left.c.remoteWindow >= 1
    ensures Reaches(s, t) && Ready(t)
    ensures |t.left.c.input| < |s.left.c.input| && t.left.h.read == s.left.h.read
  {
    var e := Event(Left, OutputPoll);
    t := Step(s, e);
    ReachesStep(s, e);
    StepKeepsInv(s, e);
    PollShrinks(s.left.c);
    PollFrame(s.left.c);
    PollBalance(s.left.c);
    Append(s.toRight, AfterOutputPoll(s.left.c).1);
  }

  // ----- the schedule -----

  lemma OpenWindow(s: System) returns (t: System)
    requires Ready(s)
    ensures Reaches(s, t) && Ready(t)
    ensures t.left.c.input == s.left.c.input && t.left.h.read == s.left.h.read
    ensures t.left.c.remoteWindow >= 1 && t.toRight == [] && t.right.c.output == []
  {
    var u1 := DrainRight(s);
    var u2 := WriteAll(u1);
    ReachesTrans(s, u1, u2);
    var u3 := WriteAllErr(u2);
    ReachesTrans(s, u2, u3);
    var u4 := ReturnCredit(u3);
    ReachesTrans(s, u3, u4);
    t := DrainLeft(u4);
    ReachesTrans(s, u4, t);
    EmptyLinks(t);
  }

  lemma EmptyLinks(t: System)
    requires Ready(t) && t.toRight == [] && t.toLeft == []
    ensures t.left.c.remoteWindow + t.right.h.lost == t.right.c.localWindow
  {
  }

  lemma {:induction false} SendAll(s: System) returns (t: System)
    requires Ready(s)
    ensures Reaches(s, t) && Ready(t)
    ensures t.left.c.input == [] && t.left.h.read == s.left.h.read
    decreases |s.left.c.input|
  {
    if s.left.c.input == [] {
      t := s;
      ReachesRefl(s);
    } else {
      var u1 := OpenWindow(s);
      var u2 := SendSome(u1);
      ReachesTrans(s, u1, u2);
      t := SendAll(u2);
      ReachesTrans(s, u2, t);
    }
  }

  /**
   From every such state some continuation writes out every byte the sender has read, whatever
   is buffered or under way, and although window may have been lost, as long as some can come back;
   and there the sender may send again.
   */
  lemma EverythingIsDelivered(s: System)
    requires Ready(s)
    ensures exists t :: Reaches(s, t) && t.right.h.written == s.left.h.read && t.left.c.remoteWindow > 0
  {
    var u := SendAll(s);
    var t := OpenWindow(u);
    ReachesTrans(s, u, t);
    DeliveredAll(t);
  }

  lemma DeliveredAll(t: System)
    requires Ready(t) && t.toRight == [] && t.left.c.input == [] && t.right.c.output == []
    ensures t.right.h.written == t.left.h.read
  {
  }

  // ----- from the handshake -----

  predicate OpenEnds(s: System) {
    s.status == Running && Live(s.left.c) && Live(s.right.c)
  }

  /** A run in which neither half-close automaton moves keeps the setup and both ends open, and throws nothing away. */
  lemma {:induction false} QuietRun(s: System, events: seq<Event>)
    requires Inv(s) && IsRun(s, events)
    requires forall e :: e in events ==> !e.act.HalfClose?
    requires OpenEnds(s)
    ensures var t := After(s, events);
            && OpenEnds(t)
            && t.left.c.setup == s.left.c.setup && t.right.c.setup == s.right.c.setup
            && t.right.h.reset == s.right.h.reset && t.left.h.lostCredit == s.left.h.lostCredit
    decreases |events|
  {
    if events != [] {
      var e := events[0];
      assert e in events;
      StepKeepsInv(s, e);
      Headroom(s.left, s.right, s.toRight, s.toLeft);
      Headroom(s.right, s.left, s.toLeft, s.toRight);
      match e.side {
        case Left => QuietStep(s.left, s.toLeft, e.act, s.right.c.setup.remoteMaxpacket);
        case Right => QuietStep(s.right, s.toRight, e.act, s.left.c.setup.remoteMaxpacket);
      }
      assert forall d :: d in events[1..] ==> d in events;
      QuietRun(Step(s, e), events[1..]);
    }
  }

  lemma QuietStep(n: Node, inbox: seq<Message>, act: Action, max: nat)
    requires Enabled(n, inbox, act) && !act.HalfClose? && Live(n.c) && AllFit(inbox, max)
    requires n.c.remoteWindow + CreditInFlight(inbox) < WORD_SIZE
    ensures var f := NodeStep(n, inbox, act);
            && f.status == Running
            && f.node.c.setup == n.c.setup && f.node.h.reset == n.h.reset && f.node.h.lostCredit == n.h.lostCredit
  {
    NodeSetup(n, inbox, act);
    if act.Deliver? {
      LiveReceives(n, inbox, max);
    }
  }

  /**
   A run without a half-close of a channel that starts open, with a window of two bytes or of more
   than three packets.  Its receiver writes extended data and no such write fails, or its sender
   reads none.
   */
  predicate StartsOpen(s: System, events: seq<Event>) {
    && Init(s) && IsRun(s, events)
    && OpenEnds(s) && Capable(s.left.c.setup, s.right.c.setup) && Recoverable(s.right.c.setup, 0, 0)
    && (forall e :: e in events ==> !e.act.HalfClose?)
    && (|| s.left.c.setup.extendedUsage != ExtendedRead
        || (TakesAll(s.right.c) && forall e :: e in events && e.side == Right ==> KeepsEfd(e.act)))
  }

  lemma OpenChannelsReady(s: System, events: seq<Event>)
    requires StartsOpen(s, events)
    ensures Ready(After(s, events))
  {
    InitHolds(s);
    RunKeepsInv(s, events);
    QuietRun(s, events);
    OpenOutputStaysIntact(s, events);
    StartsWhole(s);
    NothingLost(s, events);
  }

  /** Such a channel never gets stuck: after every such run some continuation delivers everything read so far. */
  lemma OpenChannelsDeliver(s: System, events: seq<Event>)
    requires StartsOpen(s, events)
    ensures var t := After(s, events);
            exists u :: Reaches(t, u) && u.right.h.written == t.left.h.read && u.left.c.remoteWindow > 0
  {
    OpenChannelsReady(s, events);
    EverythingIsDelivered(After(s, events));
  }

  lemma StartsWhole(s: System)
    requires Init(s)
    ensures s.right.h.lost == 0 && s.right.h.reset == 0 && s.left.h.lostCredit == 0
    ensures s.left.c.setup.extendedUsage != ExtendedRead ==> NoExtended(s)
  {
    OnlyAdjust(s.toRight);
  }

  lemma NothingLost(s: System, events: seq<Event>)
    requires Inv(s) && IsRun(s, events)
    requires || NoExtended(s)
             || (TakesAll(s.right.c) && forall e :: e in events && e.side == Right ==> KeepsEfd(e.act))
    ensures After(s, events).right.h.lost == s.right.h.lost && ErrAccepted(After(s, events))
  {
    if NoExtended(s) {
      SilentSenderLosesNothing(s, events);
    } else {
      WritingReceiverLosesNothing(s, events);
    }
  }
}

/** What every run of a freshly opened channel satisfies. */
module FlowTheorems {
  import opened Primitives
  import opened ChannelSpec
  import opened ChannelLaws
  import opened FlowSystem
  import opened FlowInvariant

  predicate FreshNode(n: Node) {
    && n.c.input == [] && n.c.output == [] && n.c.extended == []
    && n.c.localConsumed == 0 && n.c.localWindow == n.c.setup.localWindowMax
    && n.h == Ledger([], [], [], [], [], [], 0, 0, 0, true, true)
  }

  /**
   A channel just after its handshake: each side knows the other's packet limit, and its
   window, or the part of it that was not announced when the channel was opened is on its way.
   */
  predicate Opened(snd: Node, rcv: Node, back: seq<Message>) {
    && snd.c.setup.remoteMaxpacket == rcv.c.setup.localMaxpacket
    && (|| (back == [] && snd.c.remoteWindow == rcv.c.localWindow)
        || (|back| == 1 && back[0].WindowAdjust? && snd.c.remoteWindow + back[0].bytes == rcv.c.localWindow))
  }

  predicate Init(s: System) {
    && s.status == Running
    && FreshNode(s.left) && FreshNode(s.right)
    && Opened(s.left, s.right, s.toLeft)
    && Opened(s.right, s.left, s.toRight)
  }

  lemma OnlyAdjust(link: seq<Message>)
    requires link == [] || (|link| == 1 && link[0].WindowAdjust?)
    ensures BytesInFlight(link) == 0 && StreamInFlight(link) == [] && ErrInFlight(link) == []
    ensures CreditInFlight(link) == if link == [] then 0 else link[0].bytes
    ensures forall max: nat :: AllFit(link, max)
  {
    if link != [] {
      assert link == [link[0]];
      Single(link[0]);
    }
  }

  lemma InitHolds(s: System)
    requires Init(s)
    ensures Inv(s)
  {
    InitDirection(s.left, s.right, s.toRight, s.toLeft);
    InitDirection(s.right, s.left, s.toLeft, s.toRight);
  }

  lemma InitDirection(snd: Node, rcv: Node, fwd: seq<Message>, back: seq<Message>)
    requires FreshNode(snd) && FreshNode(rcv) && Opened(snd, rcv, back) && Opened(rcv, snd, fwd)
    ensures Direction(snd, rcv, fwd, back)
  {
    OnlyAdjust(fwd);
    OnlyAdjust(back);
  }

  lemma Reached(s: System, events: seq<Event>)
    requires Init(s) && IsRun(s, events)
    ensures Inv(After(s, events))
  {
    InitHolds(s);
    RunKeepsInv(s, events);
  }

  // ----- credit -----

  /** The flow-control law of section 5.2 of RFC 4254 as an equation, for every run. */
  lemma CreditEquation(s: System, events: seq<Event>)
    requires Init(s) && IsRun(s, events)
    ensures var t := After(s, events);
            && t.left.c.remoteWindow + BytesInFlight(t.toRight) + CreditInFlight(t.toLeft)
               + t.left.h.lostCredit + t.right.h.lost == t.right.c.localWindow <= t.right.c.setup.localWindowMax
            && t.right.c.remoteWindow + BytesInFlight(t.toLeft) + CreditInFlight(t.toRight)
               + t.right.h.lostCredit + t.left.h.lost == t.left.c.localWindow <= t.left.c.setup.localWindowMax
  {
    Reached(s, events);
  }

  /** The fatal error on a window adjust that overflows is unreachable. */
  lemma AdjustNeverOverflows(s: System, events: seq<Event>)
    requires Init(s) && IsRun(s, events)
    ensures After(s, events).status != Crashed
  {
    Reached(s, events);
  }

  /** A window check in a state the invariant holds of, with something still buffered or not. */
  predicate CreditReturned(t: System, u: System) {
    var c, d, max := t.right.c, u.right.c, t.right.c.setup.localWindowMax;
    && (d.localConsumed == 0
        || (max - d.localWindow <= 3 * c.setup.localMaxpacket % WORD_SIZE && d.localWindow >= max / 2))
    && (|| (u.toLeft == t.toLeft && d == c)
        || (u.toLeft == t.toLeft + [WindowAdjust(c.localConsumed)]
            && d == c.(localWindow := d.localWindow, localConsumed := 0)
            && d.localWindow == c.localWindow + c.localConsumed))
    && d.localWindow + d.localConsumed + |d.output| + |ErrIn(d)| + u.right.h.reset == max
  }

  /**
   In every run, a check of the window of an open receiver that is not closing, drained or not,
   leaves nothing owed, or else a window at least half of the maximum and short of it by at most
   three packets; an adjust is for exactly what was owed, and no counter wraps.
   */
  lemma CreditIsReturned(s: System, events: seq<Event>)
    requires Init(s) && IsRun(s, events)
    requires InUse(After(s, events).right.c) && After(s, events).status == Running
    ensures CreditReturned(After(s, events), Step(After(s, events), Event(Right, CheckWindow)))
  {
    Reached(s, events);
    var t := After(s, events);
    StepKeepsInv(t, Event(Right, CheckWindow));
    CheckStep(t);
  }

  lemma CheckStep(t: System)
    requires Inv(t) && InUse(t.right.c) && t.status == Running
    requires Inv(Step(t, Event(Right, CheckWindow)))
    ensures CreditReturned(t, Step(t, Event(Right, CheckWindow)))
  {
    CheckReturnsCredit(t.right.c);
  }

  /** What handling `p` does when no branch that drops it is taken and no counter wraps. */
  function Accepted(c: Endpoint, p: seq<byte>): Endpoint {
    if c.setup.ostate == OutputOpen then c.(localWindow := Spare(c, p), output := c.output + p)
    else c.(localWindow := Spare(c, p), localConsumed := Owed(c, p))
  }

  function Spare(c: Endpoint, p: seq<byte>): u32 {
    if |p| <= c.localWindow then c.localWindow - |p| else 0
  }

  function Owed(c: Endpoint, p: seq<byte>): u32 {
    if c.localConsumed + |p| < WORD_SIZE then c.localConsumed + |p| else 0
  }

  /** No packet is ever too big: stream data always reaches the output buffer, or is credited at once. */
  lemma NothingDropped(s: System, events: seq<Event>)
    requires Init(s) && IsRun(s, events)
    requires var t := After(s, events); t.toRight != [] && t.toRight[0].Data? && t.right.c.setup.ctype == Open
    ensures var t := After(s, events);
            var p := t.toRight[0].payload;
            && |p| <= t.right.c.localWindow && t.right.c.localConsumed + |p| < WORD_SIZE
            && AfterInputData(t.right.c, p) == (Accepted(t.right.c, p), Continue)
  {
    Reached(s, events);
    var t := After(s, events);
    Headroom(t.left, t.right, t.toRight, t.toLeft);
    DataAccepted(t.right, t.toRight, t.left.c.setup.remoteMaxpacket);
  }

  lemma DataAccepted(n: Node, fwd: seq<Message>, max: nat)
    requires ReceiverReady(n, fwd, max)
    requires fwd != [] && fwd[0].Data? && n.c.setup.ctype == Open
    ensures |fwd[0].payload| <= n.c.localWindow && n.c.localConsumed + |fwd[0].payload| < WORD_SIZE
    ensures AfterInputData(n.c, fwd[0].payload) == (Accepted(n.c, fwd[0].payload), Continue)
  {
  }

  // ----- bytes -----

  /** Every byte the sender read is, in order, received, under way or still in its buffer. */
  lemma StreamExactness(s: System, events: seq<Event>)
    requires Init(s) && IsRun(s, events)
    ensures var t := After(s, events);
            && t.left.h.read == t.right.h.received + StreamInFlight(t.toRight) + t.left.c.input
            && (t.right.h.intact ==>
                  t.left.h.read == t.right.h.written + t.right.c.output + StreamInFlight(t.toRight) + t.left.c.input)
  {
    Reached(s, events);
  }

  lemma ErrStreamExactness(s: System, events: seq<Event>)
    requires Init(s) && IsRun(s, events)
    ensures var t := After(s, events);
            && t.left.h.errRead == t.right.h.errReceived + ErrInFlight(t.toRight) + ErrOut(t.left.c)
            && (t.right.h.errIntact ==>
                  t.left.h.errRead ==
                  t.right.h.errWritten + ErrIn(t.right.c) + ErrInFlight(t.toRight) + ErrOut(t.left.c))
  {
    Reached(s, events);
  }

  /** Nothing but a half-close of the receiver can make it lose stream bytes. */
  lemma {:induction false} OpenOutputStaysIntact(s: System, events: seq<Event>)
    requires Inv(s) && IsRun(s, events)
    requires s.right.h.intact && s.right.c.setup.ostate == OutputOpen
    requires forall e :: e in events && e.side == Right ==> !e.act.HalfClose?
    ensures After(s, events).right.h.intact
    decreases |events|
  {
    if events == [] {
    } else {
      assert events[0] in events;
      StepKeepsInv(s, events[0]);
      StaysIntact(s, events[0]);
      assert forall e :: e in events[1..] ==> e in events;
      OpenOutputStaysIntact(Step(s, events[0]), events[1..]);
    }
  }

  lemma StaysIntact(s: System, e: Event)
    requires Inv(s) && CanStep(s, e)
    requires s.right.h.intact && s.right.c.setup.ostate == OutputOpen
    requires e.side == Right ==> !e.act.HalfClose?
    ensures var t := Step(s, e); t.right.h.intact && t.right.c.setup.ostate == OutputOpen
  {
    if e.side == Right {
      Headroom(s.left, s.right, s.toRight, s.toLeft);
      NodeSetup(s.right, s.toRight, e.act);
      NodeIntact(s.right, s.toRight, s.left.c.setup.remoteMaxpacket, e.act);
    }
  }

  lemma NodeIntact(n: Node, fwd: seq<Message>, max: nat, act: Action)
    requires ReceiverReady(n, fwd, max) && Enabled(n, fwd, act) && !act.HalfClose?
    requires n.h.intact && n.c.setup.ostate == OutputOpen
    ensures NodeStep(n, fwd, act).node.h.intact
  {
    if act.Deliver? {
      DeliverIntact(n, fwd, max);
    }
  }

  lemma DeliverIntact(n: Node, fwd: seq<Message>, max: nat)
    requires ReceiverReady(n, fwd, max) && fwd != []
    requires n.h.intact && n.c.setup.ostate == OutputOpen
    ensures Receive(n, fwd).node.h.intact
  {
  }

  // ----- both directions -----

  function Mirror(s: System): System {
    System(s.right, s.left, s.toLeft, s.toRight, s.status)
  }

  function MirrorEvent(e: Event): Event {
    Event(if e.side == Left then Right else Left, e.act)
  }

  function MirrorEvents(events: seq<Event>): (r: seq<Event>)
    ensures |r| == |events|
  {
    if events == [] then [] else [MirrorEvent(events[0])] + MirrorEvents(events[1..])
  }

  /** The system is symmetric, so each law stated from left to right holds from right to left. */
  lemma {:induction false} MirrorRun(s: System, events: seq<Event>)
    requires IsRun(s, events)
    ensures IsRun(Mirror(s), MirrorEvents(events))
    ensures After(Mirror(s), MirrorEvents(events)) == Mirror(After(s, events))
    ensures Init(s) ==> Init(Mirror(s))
    decreases |events|
  {
    if events == [] {
    } else {
      MirrorRun(Step(s, events[0]), events[1..]);
      MirrorStep(s, events[0]);
      assert MirrorEvents(events)[1..] == MirrorEvents(events[1..]);
    }
  }

  lemma MirrorStep(s: System, e: Event)
    requires CanStep(s, e)
    ensures CanStep(Mirror(s), MirrorEvent(e))
    ensures Step(Mirror(s), MirrorEvent(e)) == Mirror(Step(s, e))
  {
  }

  // ----- no deadlock -----

  /** Everything received has been written, nothing is on the links, and the sender may not send. */
  predicate Stalled(s: System) {
    && s.left.c.remoteWindow == 0
    && s.toRight == [] && s.toLeft == []
    && s.right.c.output == [] && ErrIn(s.right.c) == []
  }

  /** Window at the receiver that no adjust can give back: ignored there, or credited to a dead sender. */
  function Gone(s: System): nat {
    s.right.h.lost + s.left.h.lostCredit
  }

  /** Whether a receiver with empty buffers gives anything back to a sender without window. */
  predicate Recoverable(setup: Setup, gone: nat, reset: nat) {
    var max := setup.localWindowMax;
    gone + reset < max && (max - gone > Mul32(setup.localMaxpacket, 3) || gone < max / 2)
  }

  /**
   A stalled receiver owes its window less what is gone and what a shutdown threw away, and it
   gives that back in one adjust exactly when it is not nothing and its own window, which is what
   is gone, is below half of the maximum or short of it by more than three packets.
   */
  lemma NoDeadlock(s: System, events: seq<Event>)
    requires Init(s) && IsRun(s, events)
    requires var t := After(s, events);
             && Stalled(t)
             && t.right.c.setup.ctype == Open && !t.right.c.setup.closeSent && !t.right.c.setup.closeRcvd
    ensures var t := After(s, events);
            var c, max, reset := t.right.c, t.right.c.setup.localWindowMax, t.right.h.reset;
            && c.localWindow == Gone(t) && c.localConsumed + Gone(t) + reset == max
            && (SendsAdjust(c) <==> Recoverable(c.setup, Gone(t), reset))
            && (SendsAdjust(c) ==>
                  AfterCheckWindow(c) ==
                  (c.(localWindow := max - reset, localConsumed := 0), [WindowAdjust(max - Gone(t) - reset)]))
  {
    Reached(s, events);
    GivesBack(After(s, events));
  }

  lemma GivesBack(t: System)
    requires Inv(t) && Stalled(t)
    requires t.right.c.setup.ctype == Open && !t.right.c.setup.closeSent && !t.right.c.setup.closeRcvd
    ensures var c, max, reset := t.right.c, t.right.c.setup.localWindowMax, t.right.h.reset;
            && c.localWindow == Gone(t) && c.localConsumed + Gone(t) + reset == max
            && (SendsAdjust(c) <==> Recoverable(c.setup, Gone(t), reset))
            && (SendsAdjust(c) ==>
                  AfterCheckWindow(c) ==
                  (c.(localWindow := max - reset, localConsumed := 0), [WindowAdjust(max - Gone(t) - reset)]))
  {
  }
}

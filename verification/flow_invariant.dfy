/** The invariant of one direction of a channel, and its preservation by every step of either endpoint. */
module FlowInvariant {
  import opened Primitives
  import opened ChannelSpec
  import opened FlowSystem

  /** Extended bytes waiting to leave, for an endpoint that reads the extended descriptor. */
  function ErrOut(c: Endpoint): seq<byte> {
    if c.setup.extendedUsage == ExtendedRead then c.extended else []
  }

  /** Extended bytes waiting to be written, for an endpoint that writes the extended descriptor. */
  function ErrIn(c: Endpoint): seq<byte> {
    if c.setup.extendedUsage == ExtendedWrite then c.extended else []
  }

  /** Section 5.2 of RFC 4254, end to end: window at the sender plus everything under way is the receiver's window. */
  predicate Credit(snd: Node, rcv: Node, fwd: seq<Message>, back: seq<Message>) {
    snd.c.remoteWindow + BytesInFlight(fwd) + CreditInFlight(back) + snd.h.lostCredit + rcv.h.lost
      == rcv.c.localWindow
  }

  /** The receiver's window is always its maximum minus what it still holds or has not yet given back. */
  predicate Conserved(rcv: Node) {
    rcv.c.localWindow + rcv.c.localConsumed + |rcv.c.output| + |ErrIn(rcv.c)| + rcv.h.reset
      == rcv.c.setup.localWindowMax
  }

  /** What was received and not thrown away is written or still buffered, in order. */
  predicate StreamHeld(rcv: Node) {
    rcv.h.intact ==> rcv.h.received == rcv.h.written + rcv.c.output
  }

  predicate ErrHeld(rcv: Node) {
    rcv.h.errIntact ==> rcv.h.errReceived == rcv.h.errWritten + ErrIn(rcv.c)
  }

  predicate StreamExact(snd: Node, rcv: Node, fwd: seq<Message>) {
    snd.h.read == rcv.h.received + StreamInFlight(fwd) + snd.c.input
  }

  predicate ErrExact(snd: Node, rcv: Node, fwd: seq<Message>) {
    snd.h.errRead == rcv.h.errReceived + ErrInFlight(fwd) + ErrOut(snd.c)
  }

  predicate PacketsFit(snd: Node, rcv: Node, fwd: seq<Message>) {
    && snd.c.setup.remoteMaxpacket <= rcv.c.setup.localMaxpacket
    && AllFit(fwd, snd.c.setup.remoteMaxpacket)
  }

  predicate Direction(snd: Node, rcv: Node, fwd: seq<Message>, back: seq<Message>) {
    && Credit(snd, rcv, fwd, back)
    && Conserved(rcv)
    && StreamHeld(rcv)
    && ErrHeld(rcv)
    && StreamExact(snd, rcv, fwd)
    && ErrExact(snd, rcv, fwd)
    && PacketsFit(snd, rcv, fwd)
  }

  predicate Inv(s: System) {
    && s.status != Crashed
    && Direction(s.left, s.right, s.toRight, s.toLeft)
    && Direction(s.right, s.left, s.toLeft, s.toRight)
  }

  // ----- the sending endpoint moves -----

  /**
   The effect of one step of a node, seen as a sender: whatever leaves its window or its
   buffers is on the link, whatever credit it takes off the inbox is in its window.
   */
  predicate SenderMove(n: Node, inbox: seq<Message>, act: Action, f: Effect) {
    && f.status != Crashed
    && f.node.c.setup.remoteMaxpacket == n.c.setup.remoteMaxpacket
    && AllFit(f.sent, n.c.setup.remoteMaxpacket)
    && f.node.c.remoteWindow + BytesInFlight(f.sent) + f.node.h.lostCredit + CreditInFlight(f.inbox)
       == n.c.remoteWindow + n.h.lostCredit + CreditInFlight(inbox)
    && f.node.h.read == n.h.read + StreamTaken(act)
    && StreamInFlight(f.sent) + f.node.c.input == n.c.input + StreamTaken(act)
    && f.node.h.errRead == n.h.errRead + ErrTaken(n, act)
    && ErrInFlight(f.sent) + ErrOut(f.node.c) == ErrOut(n.c) + ErrTaken(n, act)
  }

  function StreamTaken(act: Action): seq<byte> {
    if act.ReadStream? then act.data else []
  }

  function ErrTaken(n: Node, act: Action): seq<byte> {
    if act.ReadExtended? && n.c.setup.extendedUsage == ExtendedRead then act.data else []
  }

  /** Sent from `c`, leaving `d`: the link holds what the window and the buffers lost. */
  predicate Balanced(c: Endpoint, d: Endpoint, sent: seq<Message>) {
    && d.remoteWindow + BytesInFlight(sent) == c.remoteWindow
    && StreamInFlight(sent) + d.input == c.input
    && ErrInFlight(sent) + ErrOut(d) == ErrOut(c)
    && CreditInFlight(sent) == 0
    && d.setup.remoteMaxpacket == c.setup.remoteMaxpacket
    && AllFit(sent, c.setup.remoteMaxpacket)
  }

  lemma PollStreamBalance(c: Endpoint)
    ensures Balanced(c, PollStream(c).0, PollStream(c).1)
  {
    var len := SendLimit(c, |c.input|);
    if MayPollInput(c) && len > 0 {
      Whole(c.input, len);
      SentStream(c, c.input[..len], c.input[len..]);
    }
  }

  lemma SentStream(c: Endpoint, sent: seq<byte>, kept: seq<byte>)
    requires sent + kept == c.input && |sent| <= c.remoteWindow && |sent| <= c.setup.remoteMaxpacket
    ensures Balanced(c, c.(input := kept, remoteWindow := Sub32(c.remoteWindow, |sent|)), [Data(sent)])
  {
    Single(Data(sent));
  }

  lemma PollErrBalance(c: Endpoint)
    ensures Balanced(c, PollErr(c).0, PollErr(c).1)
  {
    var len := SendLimit(c, |c.extended|);
    if MayPollExtended(c) && len > 0 {
      Whole(c.extended, len);
      SentErr(c, c.extended[..len], c.extended[len..]);
    }
  }

  lemma SentErr(c: Endpoint, sent: seq<byte>, kept: seq<byte>)
    requires sent + kept == c.extended && |sent| <= c.remoteWindow && |sent| <= c.setup.remoteMaxpacket
    requires c.setup.extendedUsage == ExtendedRead
    ensures Balanced(c, c.(extended := kept, remoteWindow := Sub32(c.remoteWindow, |sent|)),
                     [ExtendedData(EXTENDED_DATA_STDERR, sent)])
  {
    Single(ExtendedData(EXTENDED_DATA_STDERR, sent));
  }

  lemma BalancedCompose(c: Endpoint, d: Endpoint, e: Endpoint, s1: seq<Message>, s2: seq<Message>)
    requires Balanced(c, d, s1) && Balanced(d, e, s2)
    ensures Balanced(c, e, s1 + s2)
  {
    Append(s1, s2);
    AppendFits(s1, s2, c.setup.remoteMaxpacket);
    Reassociate(StreamInFlight(s1), StreamInFlight(s2), e.input, d.input);
    Reassociate(ErrInFlight(s1), ErrInFlight(s2), ErrOut(e), ErrOut(d));
  }

  lemma Reassociate(s1: seq<byte>, s2: seq<byte>, e: seq<byte>, d: seq<byte>)
    requires s2 + e == d
    ensures s1 + s2 + e == s1 + d
  {
    assert s1 + s2 + e == s1 + (s2 + e);
  }

  /** What one output poll puts on the wire is exactly what it takes from the buffers and from the window. */
  lemma PollBalance(c: Endpoint)
    ensures Balanced(c, AfterOutputPoll(c).0, AfterOutputPoll(c).1)
  {
    if c.setup.ctype != Open || c.setup.closeSent || c.setup.closeRcvd {
    } else {
      var (first, stream) := PollStream(c);
      var (second, err) := PollErr(first);
      PollStreamBalance(c);
      PollErrBalance(first);
      BalancedCompose(c, first, second, stream, err);
    }
  }

  /** The poll leaves the receiving half of the endpoint alone. */
  lemma PollFrame(c: Endpoint)
    ensures var d := AfterOutputPoll(c).0;
            d == c.(remoteWindow := d.remoteWindow, input := d.input, extended := d.extended)
            && ErrIn(d) == ErrIn(c)
  {
  }

  /** The credit under way fits beside the sender's window, so an adjust never overflows it. */
  lemma AdjustFits(n: Node, inbox: seq<Message>)
    requires inbox != [] && inbox[0].WindowAdjust?
    requires n.c.remoteWindow + CreditInFlight(inbox) < WORD_SIZE
    ensures n.c.setup.ctype == Open ==>
              AfterInput(n.c, inbox[0]) == (n.c.(remoteWindow := n.c.remoteWindow + inbox[0].bytes), Continue)
    ensures n.c.setup.ctype != Open ==> AfterInput(n.c, inbox[0]) == (n.c, Continue)
  {
  }

  lemma TakeAdjustMove(n: Node, inbox: seq<Message>)
    requires inbox != [] && inbox[0].WindowAdjust?
    requires n.c.remoteWindow + CreditInFlight(inbox) < WORD_SIZE
    ensures SenderMove(n, inbox, Deliver, Receive(n, inbox))
  {
    AdjustFits(n, inbox);
  }

  lemma TakeOtherMove(n: Node, inbox: seq<Message>)
    requires inbox != [] && !inbox[0].WindowAdjust?
    ensures SenderMove(n, inbox, Deliver, Receive(n, inbox))
  {
    TakeOtherFrame(n.c, inbox[0]);
  }

  lemma TakeOtherFrame(c: Endpoint, m: Message)
    requires !m.WindowAdjust?
    ensures var (d, outcome) := AfterInput(c, m);
            && outcome != Fatal
            && d.remoteWindow == c.remoteWindow && d.setup.remoteMaxpacket == c.setup.remoteMaxpacket
            && d.input == c.input && ErrOut(d) == ErrOut(c)
  {
  }

  lemma PollMove(n: Node, inbox: seq<Message>)
    ensures SenderMove(n, inbox, OutputPoll, NodeStep(n, inbox, OutputPoll))
  {
    PollBalance(n.c);
    PollFrame(n.c);
  }

  lemma CheckMove(n: Node, inbox: seq<Message>)
    requires Enabled(n, inbox, CheckWindow)
    ensures SenderMove(n, inbox, CheckWindow, NodeStep(n, inbox, CheckWindow))
  {
    Single(WindowAdjust(n.c.localConsumed));
  }

  lemma QuietMove(n: Node, inbox: seq<Message>, act: Action)
    requires Enabled(n, inbox, act)
    requires !act.OutputPoll? && !act.Deliver? && !act.CheckWindow?
    ensures SenderMove(n, inbox, act, NodeStep(n, inbox, act))
  {
  }

  lemma SenderMoves(n: Node, inbox: seq<Message>, act: Action)
    requires Enabled(n, inbox, act)
    requires n.c.remoteWindow + CreditInFlight(inbox) < WORD_SIZE
    ensures SenderMove(n, inbox, act, NodeStep(n, inbox, act))
  {
    match act
    case OutputPoll => PollMove(n, inbox);
    case Deliver =>
      if inbox[0].WindowAdjust? {
        TakeAdjustMove(n, inbox);
      } else {
        TakeOtherMove(n, inbox);
      }
    case CheckWindow => CheckMove(n, inbox);
    case _ => QuietMove(n, inbox, act);
  }

  lemma SenderKeeps(snd: Node, rcv: Node, fwd: seq<Message>, back: seq<Message>, act: Action, f: Effect)
    requires Direction(snd, rcv, fwd, back)
    requires SenderMove(snd, back, act, f)
    ensures Direction(f.node, rcv, fwd + f.sent, f.inbox)
  {
    Append(fwd, f.sent);
    AppendFits(fwd, f.sent, snd.c.setup.remoteMaxpacket);
    HandOver(rcv.h.received, StreamInFlight(fwd), StreamInFlight(f.sent), f.node.c.input, snd.c.input,
             StreamTaken(act));
    HandOver(rcv.h.errReceived, ErrInFlight(fwd), ErrInFlight(f.sent), ErrOut(f.node.c), ErrOut(snd.c),
             ErrTaken(snd, act));
  }

  lemma HandOver(r: seq<byte>, fwd: seq<byte>, sent: seq<byte>, kept: seq<byte>, buf: seq<byte>, taken: seq<byte>)
    requires sent + kept == buf + taken
    ensures r + (fwd + sent) + kept == r + fwd + buf + taken
  {
    assert r + (fwd + sent) + kept == r + fwd + (sent + kept);
  }

  // ----- the receiving endpoint moves -----

  /**
   The effect of one step of a node, seen as a receiver: `fwd` is its inbox.  Window charged for
   what arrives is still held, given back as credit, or counted as lost or thrown away.
   */
  predicate ReceiverMove(n: Node, fwd: seq<Message>, max: nat, f: Effect) {
    && f.node.c.setup.localMaxpacket == n.c.setup.localMaxpacket
    && AllFit(f.inbox, max)
    && f.node.c.localWindow - f.node.h.lost - BytesInFlight(f.inbox) - CreditInFlight(f.sent)
       == n.c.localWindow - n.h.lost - BytesInFlight(fwd)
    && Conserved(f.node)
    && StreamHeld(f.node)
    && ErrHeld(f.node)
    && f.node.h.received + StreamInFlight(f.inbox) == n.h.received + StreamInFlight(fwd)
    && f.node.h.errReceived + ErrInFlight(f.inbox) == n.h.errReceived + ErrInFlight(fwd)
  }

  /** What a receiver may rely on: its own bookkeeping, and that what is under way fits its window. */
  predicate ReceiverReady(n: Node, fwd: seq<Message>, max: nat) {
    && Conserved(n) && StreamHeld(n) && ErrHeld(n)
    && BytesInFlight(fwd) <= n.c.localWindow
    && max <= n.c.setup.localMaxpacket
    && AllFit(fwd, max)
  }

  lemma WriteMove(n: Node, fwd: seq<Message>, max: nat, w: nat)
    requires ReceiverReady(n, fwd, max)
    requires Enabled(n, fwd, WriteStream(w))
    ensures ReceiverMove(n, fwd, max, NodeStep(n, fwd, WriteStream(w)))
  {
    TakeFirst(n.h.written, n.c.output[..w], n.c.output[w..]);
    assert n.c.output[..w] + n.c.output[w..] == n.c.output;
  }

  lemma ErrWritten(n: Node, w: nat)
    requires w <= |n.c.extended| && n.c.setup.extendedUsage == ExtendedWrite
    requires ErrHeld(n) && Conserved(n)
    ensures var m := Node(AfterExtendedWrite(n.c, w), n.h.(errWritten := n.h.errWritten + n.c.extended[..w]));
            ErrHeld(m) && Conserved(m)
  {
    assert w > 0 ==> Add32(n.c.localConsumed, w) == n.c.localConsumed + w;
    TakeFirst(n.h.errWritten, n.c.extended[..w], n.c.extended[w..]);
    assert n.c.extended[..w] + n.c.extended[w..] == n.c.extended;
  }

  lemma WriteExtendedMove(n: Node, fwd: seq<Message>, max: nat, w: nat)
    requires ReceiverReady(n, fwd, max)
    requires Enabled(n, fwd, WriteExtended(w))
    ensures ReceiverMove(n, fwd, max, NodeStep(n, fwd, WriteExtended(w)))
  {
    ErrWritten(n, w);
  }

  lemma CheckWindowMove(n: Node, fwd: seq<Message>, max: nat)
    requires ReceiverReady(n, fwd, max)
    requires Enabled(n, fwd, CheckWindow)
    ensures ReceiverMove(n, fwd, max, NodeStep(n, fwd, CheckWindow))
  {
    Single(WindowAdjust(n.c.localConsumed));
  }

  lemma PollReceiverMove(n: Node, fwd: seq<Message>, max: nat)
    requires ReceiverReady(n, fwd, max)
    ensures ReceiverMove(n, fwd, max, NodeStep(n, fwd, OutputPoll))
  {
    PollBalance(n.c);
    PollFrame(n.c);
  }

  lemma DataBuffered(n: Node, p: seq<byte>, d: Endpoint)
    requires StreamHeld(n) && Conserved(n)
    requires d == n.c.(localWindow := d.localWindow, output := n.c.output + p)
    requires d.localWindow + |p| == n.c.localWindow
    ensures var m := Node(d, Record(n.h, n.c, d, Data(p)));
            StreamHeld(m) && Conserved(m)
  {
    TakeFirst(n.h.written, n.c.output, p);
  }

  lemma DataFaked(n: Node, p: seq<byte>, d: Endpoint)
    requires StreamHeld(n) && Conserved(n)
    requires d == n.c.(localWindow := d.localWindow, localConsumed := d.localConsumed)
    requires d.localWindow + d.localConsumed == n.c.localWindow + n.c.localConsumed
    ensures var m := Node(d, Record(n.h, n.c, d, Data(p)));
            StreamHeld(m) && Conserved(m)
  {
    if p == [] {

      assert n.h.received + p == n.h.received;
    }
  }

  lemma DataMove(n: Node, fwd: seq<Message>, max: nat)
    requires ReceiverReady(n, fwd, max)
    requires fwd != [] && fwd[0].Data?
    ensures ReceiverMove(n, fwd, max, Receive(n, fwd))
  {
    if n.c.setup.ctype == Open {
      var p := fwd[0].payload;
      var d := AfterInputData(n.c, p).0;
      DataKept(n, p);
      DataHandled(n, fwd, max, Node(d, Record(n.h, n.c, d, Data(p))));
    }
  }

  lemma DataKept(n: Node, p: seq<byte>)
    requires Conserved(n) && StreamHeld(n)
    requires n.c.setup.ctype == Open && |p| <= n.c.localWindow && |p| <= n.c.setup.localMaxpacket
    ensures var (d, outcome) := AfterInputData(n.c, p);
            var m := Node(d, Record(n.h, n.c, d, Data(p)));
            && outcome == Continue
            && StreamHeld(m) && Conserved(m)
            && d.localWindow + |p| == n.c.localWindow
            && d.setup.localMaxpacket == n.c.setup.localMaxpacket && d.extended == n.c.extended
            && d.setup.extendedUsage == n.c.setup.extendedUsage
  {
    assert Sub32(n.c.localWindow, |p|) == n.c.localWindow - |p|;
    if n.c.setup.ostate == OutputOpen {
      DataBuffered(n, p, n.c.(localWindow := n.c.localWindow - |p|, output := n.c.output + p));
    } else {
      assert Add32(n.c.localConsumed, |p|) == n.c.localConsumed + |p|;
      DataFaked(n, p, n.c.(localWindow := n.c.localWindow - |p|, localConsumed := n.c.localConsumed + |p|));
    }
  }

  lemma DataHandled(n: Node, fwd: seq<Message>, max: nat, m: Node)
    requires ErrHeld(n) && AllFit(fwd, max)
    requires fwd != [] && fwd[0].Data?
    requires Conserved(m) && StreamHeld(m)
    requires m.c.localWindow + |fwd[0].payload| == n.c.localWindow
    requires m.c.setup.localMaxpacket == n.c.setup.localMaxpacket && m.c.extended == n.c.extended
    requires m.c.setup.extendedUsage == n.c.setup.extendedUsage
    requires m.h == n.h.(received := n.h.received + fwd[0].payload, intact := m.h.intact)
    ensures ReceiverMove(n, fwd, max, Effect(m, fwd[1..], [], Running))
  {
    TakeFirst(n.h.received, fwd[0].payload, StreamInFlight(fwd[1..]));
  }

  lemma TakeFirst(done: seq<byte>, first: seq<byte>, rest: seq<byte>)
    ensures done + (first + rest) == (done + first) + rest
  {
  }

  lemma ExtendedMove(n: Node, fwd: seq<Message>, max: nat)
    requires ReceiverReady(n, fwd, max)
    requires fwd != [] && fwd[0].ExtendedData?
    ensures ReceiverMove(n, fwd, max, Receive(n, fwd))
  {
    var code, p := fwd[0].code, fwd[0].payload;
    var (d, outcome) := AfterInputExtended(n.c, code, p);
    if outcome == Continue {
      ExtendedKept(n, code, p);
      ExtendedHandled(n, fwd, max, Node(d, Record(n.h, n.c, d, fwd[0])));
    }
  }

  lemma ExtendedKept(n: Node, code: u32, p: seq<byte>)
    requires Conserved(n) && ErrHeld(n) && |p| <= n.c.localWindow
    requires AfterInputExtended(n.c, code, p).1 == Continue
    ensures var d := AfterInputExtended(n.c, code, p).0;
            var m := Node(d, Record(n.h, n.c, d, ExtendedData(code, p)));
            && ErrHeld(m) && Conserved(m)
            && m.c.localWindow - m.h.lost == n.c.localWindow - n.h.lost - |p|
            && d.setup == n.c.setup && d.output == n.c.output
            && m.h == n.h.(errReceived := n.h.errReceived + p, lost := m.h.lost, errIntact := m.h.errIntact)
  {
    if TakesExtended(n.c, code) {
      TakeFirst(n.h.errWritten, n.c.extended, p);
      assert p != [] ==> n.c.extended + p != n.c.extended;
      assert p == [] ==> n.c.extended + p == n.c.extended;
    } else {
      assert p == [] ==> n.h.errReceived + p == n.h.errReceived;
    }
  }

  lemma ExtendedHandled(n: Node, fwd: seq<Message>, max: nat, m: Node)
    requires StreamHeld(n) && AllFit(fwd, max)
    requires fwd != [] && fwd[0].ExtendedData?
    requires Conserved(m) && ErrHeld(m)
    requires m.c.localWindow - m.h.lost == n.c.localWindow - n.h.lost - |fwd[0].payload|
    requires m.c.setup == n.c.setup && m.c.output == n.c.output
    requires m.h == n.h.(errReceived := n.h.errReceived + fwd[0].payload, lost := m.h.lost, errIntact := m.h.errIntact)
    ensures ReceiverMove(n, fwd, max, Effect(m, fwd[1..], [], Running))
  {
    TakeFirst(n.h.errReceived, fwd[0].payload, ErrInFlight(fwd[1..]));
  }

  lemma AdjustFrame(c: Endpoint, bytes: u32)
    ensures var (d, outcome) := AfterInput(c, WindowAdjust(bytes));
            d == c.(remoteWindow := d.remoteWindow)
  {
  }

  lemma CreditMove(n: Node, fwd: seq<Message>, max: nat)
    requires ReceiverReady(n, fwd, max)
    requires fwd != [] && fwd[0].WindowAdjust?
    ensures ReceiverMove(n, fwd, max, Receive(n, fwd))
  {
    CreditTaken(n, fwd);
    var f := Receive(n, fwd);
    if f.inbox != fwd {
      CreditHandled(n, fwd, max, f);
    }
  }

  lemma CreditTaken(n: Node, fwd: seq<Message>)
    requires fwd != [] && fwd[0].WindowAdjust?
    ensures var f := Receive(n, fwd);
            && f.sent == []
            && f.node.c == n.c.(remoteWindow := f.node.c.remoteWindow)
            && f.node.h == n.h.(lostCredit := f.node.h.lostCredit)
            && (f.inbox == fwd || f.inbox == fwd[1..])
  {
    AdjustFrame(n.c, fwd[0].bytes);
  }

  /** Credit for the other direction leaves what the receiver holds or owes as it is. */
  lemma CreditHandled(n: Node, fwd: seq<Message>, max: nat, f: Effect)
    requires ReceiverReady(n, fwd, max) && fwd != [] && fwd[0].WindowAdjust?
    requires f.sent == [] && f.inbox == fwd[1..]
    requires f.node.c == n.c.(remoteWindow := f.node.c.remoteWindow)
    requires f.node.h == n.h.(lostCredit := f.node.h.lostCredit)
    ensures ReceiverMove(n, fwd, max, f)
  {
  }

  lemma DeliverMove(n: Node, fwd: seq<Message>, max: nat)
    requires ReceiverReady(n, fwd, max) && fwd != []
    ensures ReceiverMove(n, fwd, max, Receive(n, fwd))
  {
    match fwd[0]
    case Data(_) => DataMove(n, fwd, max);
    case ExtendedData(_, _) => ExtendedMove(n, fwd, max);
    case WindowAdjust(_) => CreditMove(n, fwd, max);
  }

  /** Reading and the half-close do not touch what the receiver's side of the channel holds or owes. */
  lemma OtherMove(n: Node, fwd: seq<Message>, max: nat, act: Action)
    requires ReceiverReady(n, fwd, max)
    requires Enabled(n, fwd, act) && (act.ReadStream? || act.ReadExtended? || act.HalfClose?)
    ensures ReceiverMove(n, fwd, max, NodeStep(n, fwd, act))
  {
  }

  lemma ReceiverMoves(n: Node, fwd: seq<Message>, max: nat, act: Action)
    requires ReceiverReady(n, fwd, max)
    requires Enabled(n, fwd, act)
    ensures ReceiverMove(n, fwd, max, NodeStep(n, fwd, act))
  {
    match act
    case OutputPoll => PollReceiverMove(n, fwd, max);
    case CheckWindow => CheckWindowMove(n, fwd, max);
    case WriteStream(w) => WriteMove(n, fwd, max, w);
    case WriteExtended(w) => WriteExtendedMove(n, fwd, max, w);
    case Deliver => DeliverMove(n, fwd, max);
    case _ => OtherMove(n, fwd, max, act);
  }

  lemma ReceiverKeeps(snd: Node, rcv: Node, fwd: seq<Message>, back: seq<Message>, f: Effect)
    requires Direction(snd, rcv, fwd, back)
    requires ReceiverMove(rcv, fwd, snd.c.setup.remoteMaxpacket, f)
    ensures Direction(snd, f.node, f.inbox, back + f.sent)
  {
    Append(back, f.sent);
  }

  // ----- what no handler touches -----

  lemma InputSetup(c: Endpoint, m: Message)
    ensures AfterInput(c, m).0.setup == c.setup
    ensures AfterInput(c, m).0.efdOpen == c.efdOpen
  {
    match m
    case Data(p) =>
    case ExtendedData(code, p) =>
    case WindowAdjust(b) =>
  }

  lemma NodeSetup(n: Node, inbox: seq<Message>, act: Action)
    requires Enabled(n, inbox, act) && !act.HalfClose?
    ensures var f := NodeStep(n, inbox, act);
            f.node.c.setup == n.c.setup && n.h.lost <= f.node.h.lost
  {
    match act
    case Deliver => InputSetup(n.c, inbox[0]);
    case OutputPoll => PollFrame(n.c);
    case _ =>
  }

  // ----- whole steps and whole runs -----

  /** A direction that keeps its equations leaves room for every credit and every packet under way. */
  lemma Headroom(snd: Node, rcv: Node, fwd: seq<Message>, back: seq<Message>)
    requires Direction(snd, rcv, fwd, back)
    ensures snd.c.remoteWindow + CreditInFlight(back) < WORD_SIZE
    ensures ReceiverReady(rcv, fwd, snd.c.setup.remoteMaxpacket)
  {
  }

  lemma StepKeepsInv(s: System, e: Event)
    requires Inv(s) && CanStep(s, e)
    ensures Inv(Step(s, e))
  {
    Headroom(s.left, s.right, s.toRight, s.toLeft);
    Headroom(s.right, s.left, s.toLeft, s.toRight);
    match e.side
    case Left =>
      var f := NodeStep(s.left, s.toLeft, e.act);
      SenderMoves(s.left, s.toLeft, e.act);
      SenderKeeps(s.left, s.right, s.toRight, s.toLeft, e.act, f);
      ReceiverMoves(s.left, s.toLeft, s.right.c.setup.remoteMaxpacket, e.act);
      ReceiverKeeps(s.right, s.left, s.toLeft, s.toRight, f);
    case Right =>
      var f := NodeStep(s.right, s.toRight, e.act);
      SenderMoves(s.right, s.toRight, e.act);
      SenderKeeps(s.right, s.left, s.toLeft, s.toRight, e.act, f);
      ReceiverMoves(s.right, s.toRight, s.left.c.setup.remoteMaxpacket, e.act);
      ReceiverKeeps(s.left, s.right, s.toRight, s.toLeft, f);
  }

  lemma {:induction false} RunKeepsInv(s: System, events: seq<Event>)
    requires Inv(s) && IsRun(s, events)
    ensures Inv(After(s, events))
    decreases |events|
  {
    if events == [] {
    } else {
      StepKeepsInv(s, events[0]);
      RunKeepsInv(Step(s, events[0]), events[1..]);
    }
  }
}

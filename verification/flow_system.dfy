/**
 Two channel endpoints joined by two FIFO links (section 5.2 of RFC 4254), as a
 step system.  Each endpoint carries counters and transcripts that exist only to
 state what a run did; no handler reads them.
 */
module FlowSystem {
  import opened Primitives
  import opened ChannelSpec

  datatype Ledger = Ledger(
    read: seq<byte>,          // everything taken from the read descriptor
    received: seq<byte>,      // every DATA payload handled, including faked consumption
    written: seq<byte>,       // everything the write descriptor accepted
    errRead: seq<byte>,       // the same three for extended data
    errReceived: seq<byte>,
    errWritten: seq<byte>,
    lost: nat,                // extended bytes dropped without being charged to the window
    lostCredit: nat,          // window credit that arrived after this endpoint was dead
    reset: nat,               // buffered output bytes thrown away by a shutdown
    intact: bool,             // no stream byte was discarded here
    errIntact: bool)          // no extended byte was discarded here

  datatype Node = Node(c: Endpoint, h: Ledger)

  datatype Status = Running | Disconnected | Crashed

  datatype Action =
    | ReadStream(avail: nat, data: seq<byte>)
    | WriteStream(n: nat)
    | WriteExtended(n: nat)
    | ReadExtended(data: seq<byte>)
    | CheckWindow
    | OutputPoll
    | Deliver
    | HalfClose(istate: InputState, ostate: OutputState, closeSent: bool, closeRcvd: bool, eofSent: bool,
                eofRcvd: bool, dead: bool, resetOutput: bool, closeEfd: bool)

  /** What a node does with its own state, its inbox and the link it writes to. */
  datatype Effect = Effect(node: Node, inbox: seq<Message>, sent: seq<Message>, status: Status)

  predicate Enabled(n: Node, inbox: seq<Message>, act: Action) {
    match act
    case ReadStream(avail, data) => n.c.setup.ctype == Open && |data| <= ReadLimit(n.c, avail)
    case WriteStream(w) => n.c.setup.ctype == Open && w <= |n.c.output|
    case WriteExtended(w) =>
      n.c.setup.ctype == Open && n.c.efdOpen && n.c.setup.extendedUsage == ExtendedWrite
      && 0 < |n.c.extended| && w <= |n.c.extended|
    case ReadExtended(data) => n.c.setup.ctype == Open && n.c.efdOpen && n.c.setup.extendedUsage != ExtendedWrite
    case CheckWindow => n.c.setup.ctype == Open
    case OutputPoll => true
    case Deliver => inbox != []
    case HalfClose(_, _, _, _, _, _, _, _, _) => true
  }

  function StatusOf(o: Outcome): Status {
    match o
    case Continue => Running
    case Disconnect => Disconnected
    case Fatal => Crashed
  }

  /** Bookkeeping for one handled message: `c` before, `d` after. */
  function Record(h: Ledger, c: Endpoint, d: Endpoint, m: Message): Ledger {
    match m
    case Data(payload) =>
      h.(received := h.received + payload,
         intact := h.intact && |d.output| == |c.output| + |payload|)
    case ExtendedData(_, payload) =>
      var dropped := d == c && payload != [];
      h.(errReceived := h.errReceived + payload,
         lost := h.lost + (if dropped then |payload| else 0),
         errIntact := h.errIntact && !dropped)
    case WindowAdjust(bytes) =>
      h.(lostCredit := h.lostCredit + (if c.setup.ctype == Open then 0 else bytes))
  }

  function Receive(n: Node, inbox: seq<Message>): Effect
    requires inbox != []
  {
    var (d, outcome) := AfterInput(n.c, inbox[0]);
    if outcome == Continue then
      Effect(Node(d, Record(n.h, n.c, d, inbox[0])), inbox[1..], [], Running)
    else
      Effect(n, inbox, [], StatusOf(outcome))
  }

  function ShutDown(n: Node, act: Action): Node
    requires act.HalfClose?
  {
    var thrown := if act.resetOutput then |n.c.output| else 0;
    var setup := n.c.setup.(istate := act.istate, ostate := act.ostate, closeSent := act.closeSent,
                            closeRcvd := act.closeRcvd, eofSent := act.eofSent, eofRcvd := act.eofRcvd,
                            ctype := if act.dead then Zombie else n.c.setup.ctype);
    Node(n.c.(setup := setup,
              output := if act.resetOutput then [] else n.c.output,
              efdOpen := n.c.efdOpen && !act.closeEfd),
         n.h.(reset := n.h.reset + thrown, intact := n.h.intact && thrown == 0))
  }

  function NodeStep(n: Node, inbox: seq<Message>, act: Action): Effect
    requires Enabled(n, inbox, act)
  {
    match act
    case ReadStream(_, data) =>
      Effect(Node(AfterRead(n.c, data), n.h.(read := n.h.read + data)), inbox, [], Running)
    case WriteStream(w) =>
      Effect(Node(AfterWrite(n.c, w), n.h.(written := n.h.written + n.c.output[..w])), inbox, [], Running)
    case WriteExtended(w) =>
      Effect(Node(AfterExtendedWrite(n.c, w), n.h.(errWritten := n.h.errWritten + n.c.extended[..w])),
             inbox, [], Running)
    case ReadExtended(data) =>
      var taken := if n.c.setup.extendedUsage == ExtendedRead then data else [];
      Effect(Node(AfterExtendedRead(n.c, data), n.h.(errRead := n.h.errRead + taken)), inbox, [], Running)
    case CheckWindow =>
      var (d, sent) := AfterCheckWindow(n.c);
      Effect(n.(c := d), inbox, sent, Running)
    case OutputPoll =>
      var (d, sent) := AfterOutputPoll(n.c);
      Effect(n.(c := d), inbox, sent, Running)
    case Deliver =>
      Receive(n, inbox)
    case HalfClose(_, _, _, _, _, _, _, _, _) =>
      Effect(ShutDown(n, act), inbox, [], Running)
  }

  datatype Side = Left | Right

  /** `toRight` carries what the left endpoint sent, `toLeft` what the right one sent. */
  datatype System = System(left: Node, right: Node, toRight: seq<Message>, toLeft: seq<Message>, status: Status)

  datatype Event = Event(side: Side, act: Action)

  predicate CanStep(s: System, e: Event) {
    && s.status == Running
    && match e.side
       case Left => Enabled(s.left, s.toLeft, e.act)
       case Right => Enabled(s.right, s.toRight, e.act)
  }

  function Step(s: System, e: Event): System
    requires CanStep(s, e)
  {
    match e.side
    case Left =>
      var f := NodeStep(s.left, s.toLeft, e.act);
      System(f.node, s.right, s.toRight + f.sent, f.inbox, f.status)
    case Right =>
      var f := NodeStep(s.right, s.toRight, e.act);
      System(s.left, f.node, f.inbox, s.toLeft + f.sent, f.status)
  }

  predicate IsRun(s: System, events: seq<Event>)
    decreases |events|
  {
    events == [] || (CanStep(s, events[0]) && IsRun(Step(s, events[0]), events[1..]))
  }

  function After(s: System, events: seq<Event>): System
    requires IsRun(s, events)
    decreases |events|
  {
    if events == [] then s else After(Step(s, events[0]), events[1..])
  }

  // ----- sums over a link -----

  function Payload(m: Message): seq<byte> {
    if m.WindowAdjust? then [] else m.payload
  }

  /** Bytes on a link that the sender has already charged to its window. */
  function BytesInFlight(link: seq<Message>): nat {
    if link == [] then 0 else |Payload(link[0])| + BytesInFlight(link[1..])
  }

  function CreditInFlight(link: seq<Message>): nat {
    if link == [] then 0 else (if link[0].WindowAdjust? then link[0].bytes else 0) + CreditInFlight(link[1..])
  }

  function StreamInFlight(link: seq<Message>): seq<byte> {
    if link == [] then [] else (if link[0].Data? then link[0].payload else []) + StreamInFlight(link[1..])
  }

  function ErrInFlight(link: seq<Message>): seq<byte> {
    if link == [] then [] else (if link[0].ExtendedData? then link[0].payload else []) + ErrInFlight(link[1..])
  }

  /** A message an endpoint with this packet limit can send. */
  predicate Fits(m: Message, max: nat) {
    |Payload(m)| <= max && (m.ExtendedData? ==> m.code == EXTENDED_DATA_STDERR)
  }

  predicate AllFit(link: seq<Message>, max: nat) {
    link == [] || (Fits(link[0], max) && AllFit(link[1..], max))
  }

  lemma {:induction false} AppendCounts(a: seq<Message>, b: seq<Message>)
    ensures BytesInFlight(a + b) == BytesInFlight(a) + BytesInFlight(b)
    ensures CreditInFlight(a + b) == CreditInFlight(a) + CreditInFlight(b)
  {
    if a == [] {
      assert a + b == b;
    } else {
      assert (a + b)[1..] == a[1..] + b;
      AppendCounts(a[1..], b);
    }
  }

  lemma {:induction false} AppendStream(a: seq<Message>, b: seq<Message>)
    ensures StreamInFlight(a + b) == StreamInFlight(a) + StreamInFlight(b)
  {
    if a == [] {
      assert a + b == b;
    } else {
      assert (a + b)[1..] == a[1..] + b;
      AppendStream(a[1..], b);
      Regroup(if a[0].Data? then a[0].payload else [], StreamInFlight(a[1..]), StreamInFlight(b));
    }
  }

  lemma {:induction false} AppendErr(a: seq<Message>, b: seq<Message>)
    ensures ErrInFlight(a + b) == ErrInFlight(a) + ErrInFlight(b)
  {
    if a == [] {
      assert a + b == b;
    } else {
      assert (a + b)[1..] == a[1..] + b;
      AppendErr(a[1..], b);
      Regroup(if a[0].ExtendedData? then a[0].payload else [], ErrInFlight(a[1..]), ErrInFlight(b));
    }
  }

  /** What a link carries adds up, in the measures the invariant speaks of. */
  lemma Append(a: seq<Message>, b: seq<Message>)
    ensures BytesInFlight(a + b) == BytesInFlight(a) + BytesInFlight(b)
    ensures CreditInFlight(a + b) == CreditInFlight(a) + CreditInFlight(b)
    ensures StreamInFlight(a + b) == StreamInFlight(a) + StreamInFlight(b)
    ensures ErrInFlight(a + b) == ErrInFlight(a) + ErrInFlight(b)
  {
    AppendCounts(a, b);
    AppendStream(a, b);
    AppendErr(a, b);
  }

  lemma {:induction false} AppendFits(a: seq<Message>, b: seq<Message>, max: nat)
    ensures AllFit(a + b, max) <==> AllFit(a, max) && AllFit(b, max)
  {
    if a == [] {
      assert a + b == b;
    } else {
      assert (a + b)[1..] == a[1..] + b;
      AppendFits(a[1..], b, max);
    }
  }

  lemma Single(m: Message)
    ensures BytesInFlight([m]) == |Payload(m)|
    ensures CreditInFlight([m]) == if m.WindowAdjust? then m.bytes else 0
    ensures StreamInFlight([m]) == if m.Data? then m.payload else []
    ensures ErrInFlight([m]) == if m.ExtendedData? then m.payload else []
    ensures forall max: nat :: AllFit([m], max) <==> Fits(m, max)
  {
    assert [m][1..] == [];
  }
}

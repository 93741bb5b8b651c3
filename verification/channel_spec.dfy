/**
 The window arithmetic of one SSH channel endpoint as pure functions: what each
 handler of channels.c does to the fields that take part in flow control.

 The half-close automaton of nchan.c is not computed here.  Its states and flags are
 fields that the environment may set at any time, so every invariant proved about
 these functions holds whatever that automaton does.
 */
module ChannelSpec {
  import opened Primitives

  /** Types of an established channel: open, or marked dead and waiting for collection. */
  datatype ChannelType = Open | Zombie
  datatype InputState = InputOpen | InputWaitDrain | InputWaitOClose | InputClosed
  datatype OutputState = OutputOpen | OutputWaitDrain | OutputWaitIEof | OutputClosed
  datatype ExtendedUsage = ExtendedIgnore | ExtendedRead | ExtendedWrite

  datatype Message =
    | Data(payload: seq<byte>)
    | ExtendedData(code: u32, payload: seq<byte>)
    | WindowAdjust(bytes: u32)

  /** How the handling of an incoming message ends for the connection. */
  datatype Outcome = Continue | Disconnect | Fatal

  /** What a system call on a descriptor came back with. */
  datatype ReadResult = ReadAgain | ReadFailed | ReadBytes(data: seq<byte>)
  datatype WriteResult = WriteAgain | WriteFailed | Wrote(n: nat)

  const EXTENDED_DATA_STDERR: u32 := 1
  const CHANNEL_MAX_READ: nat := 32 * 1024

  /** What the handshake and the half-close automaton decide; no handler here writes it. */
  datatype Setup = Setup(
    ctype: ChannelType,
    istate: InputState,
    ostate: OutputState,
    closeSent: bool,
    closeRcvd: bool,
    eofSent: bool,
    eofRcvd: bool,
    extEofBug: bool,
    extendedUsage: ExtendedUsage,
    remoteMaxpacket: u32,
    localMaxpacket: u32,
    localWindowMax: u32)

  datatype Endpoint = Endpoint(
    setup: Setup,
    efdOpen: bool,
    input: seq<byte>,
    output: seq<byte>,
    extended: seq<byte>,
    remoteWindow: u32,
    localWindow: u32,
    localConsumed: u32)

  // ----- descriptor side -----

  /** Most bytes one pass of the read handler asks for; `avail` is the room left in the input buffer. */
  function ReadLimit(c: Endpoint, avail: nat): nat {
    if avail == 0 || |c.input| >= c.remoteWindow then 0
    else Min(Min(CHANNEL_MAX_READ, c.remoteWindow - |c.input|), avail)
  }

  function AfterRead(c: Endpoint, data: seq<byte>): Endpoint {
    c.(input := c.input + data)
  }

  function AfterWrite(c: Endpoint, n: nat): Endpoint
    requires n <= |c.output|
  {
    c.(output := c.output[n..], localConsumed := Add32(c.localConsumed, n))
  }

  /** The write side of the extended descriptor; a failed write closes the descriptor. */
  function AfterExtendedWrite(c: Endpoint, n: nat): Endpoint
    requires n <= |c.extended|
  {
    if n == 0 then c.(efdOpen := false)
    else c.(extended := c.extended[n..], localConsumed := Add32(c.localConsumed, n))
  }

  function AfterExtendedRead(c: Endpoint, data: seq<byte>): Endpoint {
    if data == [] then c.(efdOpen := false)
    else if c.setup.extendedUsage == ExtendedIgnore then c
    else c.(extended := c.extended + data)
  }

  // ----- window credit -----

  predicate WindowLow(c: Endpoint) {
    || Sub32(c.setup.localWindowMax, c.localWindow) > Mul32(c.setup.localMaxpacket, 3)
    || c.localWindow < c.setup.localWindowMax / 2
  }

  predicate SendsAdjust(c: Endpoint) {
    && c.setup.ctype == Open
    && !c.setup.closeSent && !c.setup.closeRcvd
    && WindowLow(c)
    && c.localConsumed > 0
  }

  function AfterCheckWindow(c: Endpoint): (Endpoint, seq<Message>) {
    if SendsAdjust(c) then
      (c.(localWindow := Add32(c.localWindow, c.localConsumed), localConsumed := 0),
       [WindowAdjust(c.localConsumed)])
    else
      (c, [])
  }

  // ----- sending -----

  function SendLimit(c: Endpoint, len: nat): nat {
    Min(Min(len, c.remoteWindow), c.setup.remoteMaxpacket)
  }

  function AfterPollInput(c: Endpoint): (Endpoint, seq<Message>) {
    var len := SendLimit(c, |c.input|);
    if len == 0 then (c, [])
    else
      (c.(input := c.input[len..], remoteWindow := Sub32(c.remoteWindow, len)), [Data(c.input[..len])])
  }

  function AfterPollExtended(c: Endpoint): (Endpoint, seq<Message>) {
    var len := SendLimit(c, |c.extended|);
    if len == 0 then (c, [])
    else
      (c.(extended := c.extended[len..], remoteWindow := Sub32(c.remoteWindow, len)),
       [ExtendedData(EXTENDED_DATA_STDERR, c.extended[..len])])
  }

  predicate MayPollInput(c: Endpoint) {
    c.setup.istate == InputOpen || c.setup.istate == InputWaitDrain
  }

  predicate MayPollExtended(c: Endpoint) {
    !c.setup.eofSent && c.setup.extendedUsage == ExtendedRead
  }

  function PollStream(c: Endpoint): (Endpoint, seq<Message>) {
    if MayPollInput(c) then AfterPollInput(c) else (c, [])
  }

  function PollErr(c: Endpoint): (Endpoint, seq<Message>) {
    if MayPollExtended(c) then AfterPollExtended(c) else (c, [])
  }

  /** One pass of the output poll over this channel: stream data first, then extended data. */
  function AfterOutputPoll(c: Endpoint): (Endpoint, seq<Message>) {
    if c.setup.ctype != Open || c.setup.closeSent || c.setup.closeRcvd then (c, [])
    else
      var (first, stream) := PollStream(c);
      var (second, err) := PollErr(first);
      (second, stream + err)
  }

  // ----- receiving -----

  function AfterInputData(c: Endpoint, data: seq<byte>): (Endpoint, Outcome) {
    var len := |data|;
    if c.setup.ctype != Open then
      (c, Disconnect)
    else if c.setup.ostate != OutputOpen then
      (c.(localWindow := Sub32(c.localWindow, len), localConsumed := Add32(c.localConsumed, len)), Continue)
    else if len > c.setup.localMaxpacket || len > c.localWindow then
      (c, Continue)
    else
      (c.(localWindow := Sub32(c.localWindow, len), output := c.output + data), Continue)
  }

  predicate TakesExtended(c: Endpoint, code: u32) {
    c.efdOpen && c.setup.extendedUsage == ExtendedWrite && code == EXTENDED_DATA_STDERR
  }

  function AfterInputExtended(c: Endpoint, code: u32, data: seq<byte>): (Endpoint, Outcome) {
    if c.setup.ctype != Open || (c.setup.eofRcvd && !c.setup.extEofBug) then
      (c, Disconnect)
    else if !TakesExtended(c, code) || |data| > c.localWindow then
      (c, Continue)
    else
      (c.(extended := c.extended + data, localWindow := Sub32(c.localWindow, |data|)), Continue)
  }

  function AfterInputAdjust(c: Endpoint, adjust: u32): (Endpoint, Outcome) {
    if c.setup.ctype != Open then
      (c, Continue)
    else if Add32(c.remoteWindow, adjust) < c.remoteWindow then
      (c, Fatal)
    else
      (c.(remoteWindow := Add32(c.remoteWindow, adjust)), Continue)
  }

  function AfterInput(c: Endpoint, m: Message): (Endpoint, Outcome) {
    match m
    case Data(payload) => AfterInputData(c, payload)
    case ExtendedData(code, payload) => AfterInputExtended(c, code, payload)
    case WindowAdjust(bytes) => AfterInputAdjust(c, bytes)
  }
}

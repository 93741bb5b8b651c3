/** What the handlers of one endpoint promise, in the terms of the window and the buffers alone. */
module ChannelLaws {
  import opened Primitives
  import opened ChannelSpec

  /** An endpoint that neither side has begun to close. */
  predicate InUse(c: Endpoint) {
    c.setup.ctype == Open && !c.setup.closeSent && !c.setup.closeRcvd
  }

  // ----- window credit -----

  /**
   After the check, whatever is still buffered, either nothing consumed is owed to the peer or the
   window is neither short by more than three packets nor below half of the maximum; and what was
   sent is exactly what was owed, in one adjust.
   */
  lemma CheckReturnsCredit(c: Endpoint)
    requires InUse(c)
    ensures var (d, sent) := AfterCheckWindow(c);
            var max := c.setup.localWindowMax;
            && (|| d.localConsumed == 0
                || ((max - d.localWindow) % WORD_SIZE <= 3 * c.setup.localMaxpacket % WORD_SIZE
                    && d.localWindow >= max / 2))
            && (|| (sent == [] && d == c)
                || (&& sent == [WindowAdjust(c.localConsumed)] && c.localConsumed > 0
                    && ((max - c.localWindow) % WORD_SIZE > 3 * c.setup.localMaxpacket % WORD_SIZE
                        || c.localWindow < max / 2)
                    && d == c.(localWindow := (c.localWindow + c.localConsumed) % WORD_SIZE, localConsumed := 0)))
  {
  }

  lemma ClosingKeepsCredit(c: Endpoint)
    requires !InUse(c)
    ensures AfterCheckWindow(c) == (c, [])
  {
  }

  // ----- sending -----

  /** `sent` is the longest prefix of a buffer that a window and a packet limit let through; `rest` stays behind. */
  predicate Longest(buffer: seq<byte>, sent: seq<byte>, rest: seq<byte>, window: nat, limit: nat) {
    && buffer == sent + rest
    && |sent| <= window && |sent| <= limit
    && (rest == [] || |sent| == window || |sent| == limit)
  }

  function AsData(p: seq<byte>): seq<Message> {
    if p == [] then [] else [Data(p)]
  }

  function AsExtended(p: seq<byte>): seq<Message> {
    if p == [] then [] else [ExtendedData(1, p)]
  }

  /**
   One poll of a channel in use sends the longest prefix of the input buffer that window and
   packet limit allow, and then the longest prefix of the extended buffer that what is left of
   the window allows; nothing of a buffer that may not be sent from, and no empty message.
   */
  lemma PollSendsLongest(c: Endpoint) returns (p: seq<byte>, q: seq<byte>)
    requires InUse(c)
    ensures var (d, sent) := AfterOutputPoll(c);
            var limit := c.setup.remoteMaxpacket;
            var readsErr := !c.setup.eofSent && c.setup.extendedUsage == ExtendedRead;
            && sent == AsData(p) + AsExtended(q)
            && (if c.setup.istate == InputOpen || c.setup.istate == InputWaitDrain
                then Longest(c.input, p, d.input, c.remoteWindow, limit) else p == [] && d.input == c.input)
            && (if readsErr then Longest(c.extended, q, d.extended, c.remoteWindow - |p|, limit)
                else q == [] && d.extended == c.extended)
            && d == c.(input := d.input, extended := d.extended, remoteWindow := c.remoteWindow - |p| - |q|)
  {
    var first := PollStream(c).0;
    p := PollInputTakes(c);
    q := PollExtendedTakes(first);
  }

  lemma PollInputTakes(c: Endpoint) returns (p: seq<byte>)
    ensures var (d, sent) := PollStream(c);
            && sent == AsData(p)
            && (if c.setup.istate == InputOpen || c.setup.istate == InputWaitDrain
                then Longest(c.input, p, d.input, c.remoteWindow, c.setup.remoteMaxpacket)
                else p == [] && d.input == c.input)
            && d == c.(input := d.input, remoteWindow := c.remoteWindow - |p|)
  {
    p := if MayPollInput(c) then c.input[..SendLimit(c, |c.input|)] else [];
  }

  lemma PollExtendedTakes(c: Endpoint) returns (q: seq<byte>)
    ensures var (d, sent) := PollErr(c);
            && sent == AsExtended(q)
            && (if !c.setup.eofSent && c.setup.extendedUsage == ExtendedRead
                then Longest(c.extended, q, d.extended, c.remoteWindow, c.setup.remoteMaxpacket)
                else q == [] && d.extended == c.extended)
            && d == c.(extended := d.extended, remoteWindow := c.remoteWindow - |q|)
  {
    q := if MayPollExtended(c) then c.extended[..SendLimit(c, |c.extended|)] else [];
  }

  /** A longest prefix is unique. */
  lemma LongestIsUnique(b: seq<byte>, s: seq<byte>, r: seq<byte>, t: seq<byte>, u: seq<byte>, window: nat, limit: nat)
    requires Longest(b, s, r, window, limit) && Longest(b, t, u, window, limit)
    ensures s == t && r == u
  {
    assert s == b[..|s|] && t == b[..|t|] && r == b[|s|..] && u == b[|t|..];
  }

  lemma ClosingSendsNothing(c: Endpoint)
    requires !InUse(c)
    ensures AfterOutputPoll(c) == (c, [])
  {
  }

  // ----- reading -----

  /** A read may take `n` bytes exactly if they fit the buffer, the largest read and the window not yet spoken for. */
  lemma ReadLimitIff(c: Endpoint, avail: nat, n: nat)
    ensures n <= ReadLimit(c, avail) <==> n == 0 || (n <= avail && n <= 0x8000 && |c.input| + n <= c.remoteWindow)
  {
  }

  // ----- descriptors -----

  /** A failed write closes the extended descriptor and keeps what was buffered; any other write counts what it took. */
  lemma ExtendedWriteIs(c: Endpoint, n: nat)
    requires n <= |c.extended|
    ensures var d := AfterExtendedWrite(c, n);
            && (d.efdOpen <==> c.efdOpen && n > 0)
            && d.extended == c.extended[n..] && d.localConsumed == (c.localConsumed + n) % WORD_SIZE
            && d == c.(efdOpen := d.efdOpen, extended := d.extended, localConsumed := d.localConsumed)
  {
  }

  /** An empty read closes the extended descriptor; what is read is kept unless it is to be ignored. */
  lemma ExtendedReadIs(c: Endpoint, data: seq<byte>)
    ensures var d := AfterExtendedRead(c, data);
            && (d.efdOpen <==> c.efdOpen && data != [])
            && d.extended == c.extended + (if c.setup.extendedUsage == ExtendedIgnore then [] else data)
            && d == c.(efdOpen := d.efdOpen, extended := d.extended)
  {
  }

  // ----- receiving from any peer -----

  /** Stream data is buffered and charged exactly if it fits packet limit and window; otherwise nothing changes. */
  lemma DataIsTakenIff(c: Endpoint, p: seq<byte>)
    requires c.setup.ctype == Open && c.setup.ostate == OutputOpen
    ensures AfterInputData(c, p) ==
            (if |p| <= c.setup.localMaxpacket && |p| <= c.localWindow
             then c.(output := c.output + p, localWindow := c.localWindow - |p|) else c, Continue)
  {
  }

  /** Extended data is buffered and charged exactly if somebody writes it, it is stderr's and it fits the window. */
  lemma ExtendedIsTakenIff(c: Endpoint, code: u32, p: seq<byte>)
    requires c.setup.ctype == Open && (c.setup.eofRcvd ==> c.setup.extEofBug)
    ensures AfterInputExtended(c, code, p) ==
            (if c.efdOpen && c.setup.extendedUsage == ExtendedWrite && code == 1 && |p| <= c.localWindow
             then c.(extended := c.extended + p, localWindow := c.localWindow - |p|) else c, Continue)
  {
  }

  /** What ends the connection: data for a channel that is not open, extended data after its end, too much credit. */
  lemma OutcomeIs(c: Endpoint, m: Message)
    ensures AfterInput(c, m).1 ==
            match m
            case Data(_) => if c.setup.ctype == Open then Continue else Disconnect
            case ExtendedData(_, _) =>
              if c.setup.ctype == Open && !(c.setup.eofRcvd && !c.setup.extEofBug) then Continue else Disconnect
            case WindowAdjust(n) =>
              if c.setup.ctype == Open && c.remoteWindow + n >= WORD_SIZE then Fatal else Continue
    ensures AfterInput(c, m).1 != Continue ==> AfterInput(c, m).0 == c
  {
  }

  /** What an endpoint holds for its own descriptors, with what it owes and what it may still get. */
  function Charged(c: Endpoint): nat {
    c.localWindow + c.localConsumed + |c.output|
    + (if c.setup.extendedUsage == ExtendedWrite then |c.extended| else 0)
  }

  function AfterInputs(c: Endpoint, ms: seq<Message>): Endpoint
    decreases |ms|
  {
    if ms == [] then c else AfterInputs(AfterInput(c, ms[0]).0, ms[1..])
  }

  lemma InputKeepsCharge(c: Endpoint, m: Message)
    requires c.setup.ostate == OutputOpen
    ensures var d := AfterInput(c, m).0; d.setup == c.setup && Charged(d) == Charged(c)
  {
    match m
    case Data(p) =>
      if c.setup.ctype == Open {
        DataIsTakenIff(c, p);
      }
    case ExtendedData(code, p) =>
      if c.setup.ctype == Open && (c.setup.eofRcvd ==> c.setup.extEofBug) {
        ExtendedIsTakenIff(c, code, p);
      }
    case WindowAdjust(_) =>
  }

  /**
   Whatever messages a peer sends, honest or not, an endpoint that can write holds no more for its
   descriptors than the window it has given, because each byte it takes is charged to that window.
   */
  lemma {:induction false} AnyPeerIsBounded(c: Endpoint, ms: seq<Message>)
    requires c.setup.ostate == OutputOpen && Charged(c) == c.setup.localWindowMax
    ensures var d := AfterInputs(c, ms);
            && d.setup == c.setup && Charged(d) == c.setup.localWindowMax
            && |d.output| <= c.setup.localWindowMax
            && (c.setup.extendedUsage == ExtendedWrite ==> |d.output| + |d.extended| <= c.setup.localWindowMax)
    decreases |ms|
  {
    if ms != [] {
      InputKeepsCharge(c, ms[0]);
      AnyPeerIsBounded(AfterInput(c, ms[0]).0, ms[1..]);
    }
  }

  /** An endpoint that can no longer write charges and credits any packet, so one beyond the window wraps the window. */
  lemma ClosedOutputWraps(c: Endpoint, p: seq<byte>)
    requires c.setup.ctype == Open && c.setup.ostate != OutputOpen
    ensures AfterInputData(c, p) ==
            (c.(localWindow := (c.localWindow - |p|) % WORD_SIZE, localConsumed := (c.localConsumed + |p|) % WORD_SIZE),
             Continue)
    ensures |p| <= WORD_SIZE && |p| > c.localWindow ==>
              AfterInputData(c, p).0.localWindow == c.localWindow + WORD_SIZE - |p|
  {
  }
}

/** The window-carrying part of a channel, updated in place by its handlers. */
module ChannelObject {
  import opened Primitives
  import opened ChannelSpec

  class Channel {
    var ctype: ChannelType
    var istate: InputState
    var ostate: OutputState
    var closeSent: bool
    var closeRcvd: bool
    var eofSent: bool
    var eofRcvd: bool
    var extEofBug: bool
    var efdOpen: bool
    var extendedUsage: ExtendedUsage
    var input: seq<byte>
    var output: seq<byte>
    var extended: seq<byte>
    var remoteWindow: u32
    var remoteMaxpacket: u32
    var localWindow: u32
    var localWindowMax: u32
    var localConsumed: u32
    var localMaxpacket: u32

    /** Messages handed to the packet layer, oldest first. */
    var wire: seq<Message>

    function View(): Endpoint
      reads this
    {
      Endpoint(Setup(ctype, istate, ostate, closeSent, closeRcvd, eofSent, eofRcvd, extEofBug, extendedUsage,
                     remoteMaxpacket, localMaxpacket, localWindowMax),
               efdOpen, input, output, extended, remoteWindow, localWindow, localConsumed)
    }

    /** A channel whose open was confirmed with the peer's window and packet limit. */
    constructor (window: u32, maxpack: u32, usage: ExtendedUsage, efd: bool, bug: bool,
                 peerWindow: u32, peerMaxpacket: u32)
      ensures View() == Endpoint(Setup(Open, InputOpen, OutputOpen, false, false, false, false, bug, usage,
                                       peerMaxpacket, maxpack, window),
                                 efd, [], [], [], peerWindow, window, 0)
      ensures wire == []
    {
      ctype, istate, ostate := Open, InputOpen, OutputOpen;
      closeSent, closeRcvd, eofSent, eofRcvd, extEofBug := false, false, false, false, bug;
      efdOpen, extendedUsage := efd, usage;
      input, output, extended := [], [], [];
      remoteWindow, remoteMaxpacket := peerWindow, peerMaxpacket;
      localWindow, localWindowMax, localConsumed, localMaxpacket := window, window, 0, maxpack;
      wire := [];
    }

    /** Reads straight into the input buffer; a failed read is the half-close automaton's business. */
    method HandleRfd(ready: bool, avail: nat, got: ReadResult) returns (r: int)
      requires got.ReadBytes? ==> |got.data| <= ReadLimit(View(), avail)
      modifies this`input
      ensures View() == if ready && got.ReadBytes? then AfterRead(old(View()), got.data) else old(View())
      ensures r == -1 <==> ready && avail > 0 && old(|input|) < remoteWindow && got.ReadFailed?
    {
      if !ready {
        return 1;
      }
      if avail == 0 {
        assert got.ReadBytes? ==> input + got.data == input;
        return 1;
      }
      var have := |input|;
      if have >= remoteWindow {
        assert got.ReadBytes? ==> input + got.data == input;
        return 1;
      }
      if got.ReadFailed? {
        return -1;
      }
      if got.ReadBytes? {
        input := input + got.data;
      }
      return 1;
    }

    method HandleWfd(ready: bool, put: WriteResult) returns (r: int)
      requires put.Wrote? ==> 0 < put.n && (output != [] ==> put.n <= |output|)
      modifies this`output, this`localConsumed
      ensures View() == if ready && old(output) != [] && put.Wrote? then AfterWrite(old(View()), put.n) else old(View())
      ensures r == -1 <==> ready && old(output) != [] && put.WriteFailed?
    {
      if !ready || |output| == 0 {
        return 1;
      }
      var olen := |output|;
      if put.WriteAgain? {
        return 1;
      }
      if put.WriteFailed? {
        return -1;
      }
      output := output[put.n..];
      localConsumed := Add32(localConsumed, olen - |output|);
      return 1;
    }

    method HandleEfdWrite(ready: bool, put: WriteResult)
      requires put.Wrote? ==> 0 < put.n && (extended != [] ==> put.n <= |extended|)
      modifies this`extended, this`localConsumed, this`efdOpen
      ensures View() ==
              if !ready || old(extended) == [] || put.WriteAgain? then old(View())
              else AfterExtendedWrite(old(View()), if put.Wrote? then put.n else 0)
    {
      if !ready || |extended| == 0 {
        return;
      }
      if put.WriteAgain? {
        return;
      }
      if put.WriteFailed? {
        efdOpen := false;
      } else {
        extended := extended[put.n..];
        localConsumed := Add32(localConsumed, put.n);
      }
    }

    method HandleEfdRead(ready: bool, got: ReadResult)
      requires got.ReadBytes? ==> got.data != []
      modifies this`extended, this`efdOpen
      ensures View() ==
              if !ready || got.ReadAgain? then old(View())
              else AfterExtendedRead(old(View()), if got.ReadBytes? then got.data else [])
    {
      if !ready || got.ReadAgain? {
        return;
      }
      if got.ReadFailed? {
        efdOpen := false;
        return;
      }
      if extendedUsage != ExtendedIgnore {
        extended := extended + got.data;
      }
    }

    method CheckWindow()
      modifies this`localWindow, this`localConsumed, this`wire
      ensures View() == AfterCheckWindow(old(View())).0
      ensures wire == old(wire) + AfterCheckWindow(old(View())).1
    {
      if ctype == Open && !(closeSent || closeRcvd) &&
         (Sub32(localWindowMax, localWindow) > Mul32(localMaxpacket, 3) || localWindow < localWindowMax / 2) &&
         localConsumed > 0
      {
        wire := wire + [WindowAdjust(localConsumed)];
        localWindow := Add32(localWindow, localConsumed);
        localConsumed := 0;
      }
    }

    method OutputPollInputOpen()
      modifies this`input, this`remoteWindow, this`wire
      ensures View() == AfterPollInput(old(View())).0
      ensures wire == old(wire) + AfterPollInput(old(View())).1
    {
      var len := |input|;
      if len == 0 {
        return;
      }
      if len > remoteWindow {
        len := remoteWindow;
      }
      if len > remoteMaxpacket {
        len := remoteMaxpacket;
      }
      if len == 0 {
        return;
      }
      wire := wire + [Data(input[..len])];
      input := input[len..];
      remoteWindow := Sub32(remoteWindow, len);
    }

    method OutputPollExtendedRead()
      modifies this`extended, this`remoteWindow, this`wire
      ensures View() == AfterPollExtended(old(View())).0
      ensures wire == old(wire) + AfterPollExtended(old(View())).1
    {
      var len := |extended|;
      if len == 0 {
        return;
      }
      if len > remoteWindow {
        len := remoteWindow;
      }
      if len > remoteMaxpacket {
        len := remoteMaxpacket;
      }
      if len == 0 {
        return;
      }
      wire := wire + [ExtendedData(EXTENDED_DATA_STDERR, extended[..len])];
      extended := extended[len..];
      remoteWindow := Sub32(remoteWindow, len);
    }

    method OutputPoll()
      modifies this`input, this`extended, this`remoteWindow, this`wire
      ensures View() == AfterOutputPoll(old(View())).0
      ensures wire == old(wire) + AfterOutputPoll(old(View())).1
    {
      if ctype != Open || closeSent || closeRcvd {
        return;
      }
      ghost var stream := PollStream(View());
      if istate == InputOpen || istate == InputWaitDrain {
        OutputPollInputOpen();
      }
      assert View() == stream.0 && wire == old(wire) + stream.1;
      if !eofSent && extendedUsage == ExtendedRead {
        OutputPollExtendedRead();
      }
    }

    method InputData(data: seq<byte>) returns (outcome: Outcome)
      modifies this`localWindow, this`localConsumed, this`output
      ensures (View(), outcome) == AfterInputData(old(View()), data)
    {
      if ctype != Open {
        return Disconnect;
      }
      var winLen := |data|;
      if ostate != OutputOpen {
        localWindow := Sub32(localWindow, winLen);
        localConsumed := Add32(localConsumed, winLen);
        return Continue;
      }
      if winLen > localMaxpacket {
        return Continue;
      }
      if winLen > localWindow {
        return Continue;
      }
      localWindow := Sub32(localWindow, winLen);
      output := output + data;
      return Continue;
    }

    method InputExtendedData(code: u32, data: seq<byte>) returns (outcome: Outcome)
      modifies this`localWindow, this`extended
      ensures (View(), outcome) == AfterInputExtended(old(View()), code, data)
    {
      if ctype != Open {
        return Disconnect;
      }
      if eofRcvd && !extEofBug {
        return Disconnect;
      }
      if !efdOpen || extendedUsage != ExtendedWrite || code != EXTENDED_DATA_STDERR {
        return Continue;
      }
      if |data| > localWindow {
        return Continue;
      }
      extended := extended + data;
      localWindow := Sub32(localWindow, |data|);
      return Continue;
    }

    method InputWindowAdjust(adjust: u32) returns (outcome: Outcome)
      modifies this`remoteWindow
      ensures (View(), outcome) == AfterInputAdjust(old(View()), adjust)
    {
      if ctype != Open {
        return Continue;
      }
      var newRwin := Add32(remoteWindow, adjust);
      if newRwin < remoteWindow {
        return Fatal;
      }
      remoteWindow := newRwin;
      return Continue;
    }
  }
}

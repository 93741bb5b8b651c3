/** The channel table, updated in place by the channel and mux proxy operations. */
module MuxTable {
  import opened Primitives
  import opened Words
  import opened MuxSpec
  import MuxRuns

  /** A message sent on to the server. */
  datatype Upstream =
    | OpenUp(local: int)
    | ConfirmUp(remote: u32, local: int)
    | CloseUp(remote: u32)

  class Channels {
    var channels: array<Option<Slot>>
    var sent: seq<Upstream>

    ghost function Table(): Table
      reads this, channels
    {
      channels[..]
    }

    constructor ()
      ensures fresh(channels) && Table() == seq(10, _ => None) && sent == []
    {
      channels := new Option<Slot>[10](_ => None);
      sent := [];
    }

    /** Takes the first free slot, growing the table when there is none; -1 stands for the fatal error. */
    method New(s: Slot) returns (found: int)
      modifies this`channels, channels
      ensures found == if FirstFree(old(Table())) == old(channels.Length) > CHANNELS_MAX_CHANNELS then -1
                       else FirstFree(old(Table()))
      ensures Table() == if found == -1 then old(Table()) else MuxSpec.New(old(Table()), s)
      ensures channels == old(channels) || fresh(channels)
    {
      ghost var t := channels[..];
      var i := 0;
      while i < channels.Length && channels[i].Some?
        invariant 0 <= i <= channels.Length
        invariant forall j :: 0 <= j < i ==> channels[j].Some?
        modifies {}
      {
        i := i + 1;
      }
      if i >= channels.Length {
        if channels.Length > CHANNELS_MAX_CHANNELS {
          return -1;
        }
        var grown := new Option<Slot>[channels.Length + GROWTH](_ => None);
        var j := 0;
        while j < channels.Length
          invariant 0 <= j <= channels.Length
          invariant forall m :: 0 <= m < j ==> grown[m] == t[m]
          invariant forall m :: j <= m < grown.Length ==> grown[m] == None
          modifies grown
        {
          grown[j] := channels[j];
          j := j + 1;
        }
        channels := grown;
      }
      assert channels[..] == Expanded(t);
      channels[i] := Some(s.(self := i));
      return i;
    }

    method FreeChannel(i: nat)
      requires MuxSpec.Inv(Table()) && Live(Table(), i)
      modifies channels
      ensures Table() == Free(old(Table()), i)
    {
      var c := channels[i].value;
      if c.kind == MuxClient {
        var j := 0;
        while j < channels.Length
          invariant 0 <= j <= channels.Length
          invariant forall m :: 0 <= m < j ==> channels[m] == DetachFrom(old(Table()), i)[m]
          invariant forall m :: j <= m < channels.Length ==> channels[m] == old(channels[m])
          modifies channels
        {
          if channels[j].Some? {
            var other := channels[j].value;
            if other.kind == MuxProxy && other.muxCtx == Some(i) {
              channels[j] := Some(other.(muxCtx := None, kind := Ordinary));
            }
          }
          j := j + 1;
        }
        assert channels[..] == DetachFrom(old(Table()), i);
      }
      channels[c.self] := None;
    }

    method FindRemote(r: u32) returns (i: nat)
      ensures i == ByRemoteId(Table(), r)
    {
      i := 0;
      while i < channels.Length
        invariant 0 <= i <= channels.Length
        invariant i <= ByRemoteId(Table(), r)
        modifies {}
      {
        if channels[i].Some? && channels[i].value.remoteId == Some(r) {
          return;
        }
        i := i + 1;
      }
    }

    /** A client's open: the server sees the id of the new proxy channel instead of the client's. */
    method ProxyOpen(client: nat, id: u32) returns (self: int)
      modifies this, channels
      ensures Table() == if self == -1 then old(Table()) else DownOpen(old(Table()), client, id, None)
      ensures sent == if self == -1 then old(sent) else old(sent) + [OpenUp(self)]
      ensures self != -1 ==> self == FirstFree(old(Table()))
    {
      self := New(Proxy(client, id, None));
      if self != -1 {
        sent := sent + [OpenUp(self)];
      }
    }

    method ProxyConfirm(client: nat, id: u32, remote: u32) returns (self: int)
      modifies this, channels
      ensures Table() == if self == -1 then old(Table()) else DownOpen(old(Table()), client, id, Some(remote))
      ensures sent == if self == -1 then old(sent) else old(sent) + [ConfirmUp(remote, self)]
      ensures self != -1 ==> self == FirstFree(old(Table()))
    {
      self := New(Proxy(client, id, Some(remote)));
      if self != -1 {
        sent := sent + [ConfirmUp(remote, self)];
      }
    }

    method ProxyClose(remote: u32)
      requires MuxSpec.Inv(Table())
      modifies this`sent, channels
      ensures Table() == DownClose(old(Table()), remote)
      ensures sent == old(sent) + [CloseUp(remote)]
    {
      var i := FindRemote(remote);
      if i < channels.Length {
        if channels[i].value.closeRcvd {
          FreeChannel(i);
        } else {
          channels[i] := Some(channels[i].value.(closeSent := true));
        }
      }
      sent := sent + [CloseUp(remote)];
    }

    /** False when the message is not for a mux client and the caller must handle it itself. */
    method ProxyUpstream(i: int, kind: MessageType, body: seq<octet>) returns (taken: bool)
      requires MuxSpec.Inv(Table())
      modifies channels
      ensures Table() == Up(old(Table()), i, kind, body)
      ensures taken <==> Routed(old(Table()), i) && kind != Unsupported
    {
      if !(0 <= i < channels.Length) || channels[i].None? || channels[i].value.kind != MuxProxy {
        return false;
      }
      if channels[i].value.muxCtx.None? || kind == Unsupported {
        return false;
      }
      ghost var t := channels[..];
      var downstream := channels[i].value.muxCtx.value;
      assert Routed(t, i) && IsClient(t, downstream);
      var p := Packet(kind, channels[i].value.downstreamId, body);
      channels[downstream] := Some(channels[downstream].value.(output := channels[downstream].value.output + [p]));
      assert channels[..] == Forward(t, downstream, p);
      if kind == OpenConfirmation {
        if |body| > 4 {
          channels[i] := Some(channels[i].value.(remoteId := Some(PeekU32(body))));
        }
      } else if kind == Close {
        if channels[i].value.closeSent {
          MuxRuns.ForwardKeeps(t, downstream, p);
          FreeChannel(i);
        } else {
          channels[i] := Some(channels[i].value.(closeRcvd := true));
        }
      }
      return true;
    }
  }
}

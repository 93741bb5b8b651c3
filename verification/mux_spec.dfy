/**
 The channel table and the mux proxy's id translation as functions on a sequence of slots.
 A channel pointer is the slot index of the channel: the table keeps the two in step.
 */
module MuxSpec {
  import opened Primitives
  import opened Words

  datatype Kind = MuxClient | MuxProxy | Ordinary

  datatype MessageType =
    | Close | Data | Eof | ExtendedData | OpenConfirmation | OpenFailure
    | WindowAdjust | Success | Failure | Request | Unsupported

  /** A message queued for a mux client, under the client's own channel id. */
  datatype Packet = Packet(kind: MessageType, id: u32, body: seq<octet>)

  datatype Slot = Slot(
    self: int,
    kind: Kind,
    muxCtx: Option<nat>,
    downstreamId: u32,
    remoteId: Option<u32>,
    closeSent: bool,
    closeRcvd: bool,
    output: seq<Packet>)

  type Table = seq<Option<Slot>>

  const CHANNELS_MAX_CHANNELS: nat := 16 * 1024
  const GROWTH: nat := 10

  // ----- slots -----

  function FirstFree(t: Table): (i: nat)
    ensures i <= |t|
    ensures i < |t| ==> t[i].None?
    ensures forall j :: 0 <= j < i ==> t[j].Some?
  {
    if t == [] || t[0].None? then 0 else 1 + FirstFree(t[1..])
  }

  function Expanded(t: Table): Table {
    if FirstFree(t) == |t| then t + seq(GROWTH, _ => None) else t
  }

  function Fresh(self: nat, kind: Kind): Slot {
    Slot(self, kind, None, 0, None, false, false, [])
  }

  /** channel_new: the new channel and its slot. */
  function New(t: Table, s: Slot): Table {
    Expanded(t)[FirstFree(t) := Some(s.(self := FirstFree(t)))]
  }

  predicate Live(t: Table, i: int) {
    0 <= i < |t| && t[i].Some?
  }

  predicate IsClient(t: Table, k: int) {
    Live(t, k) && t[k].value.kind == MuxClient
  }

  /** A proxy whose client is still there. */
  predicate Routed(t: Table, i: int) {
    Live(t, i) && t[i].value.kind == MuxProxy && t[i].value.muxCtx.Some?
  }

  function Detached(s: Slot): Slot {
    s.(muxCtx := None, kind := Ordinary)
  }

  function DetachFrom(t: Table, k: nat): (r: Table)
    ensures |r| == |t|
  {
    seq(|t|, i requires 0 <= i < |t| =>
      if Routed(t, i) && t[i].value.muxCtx == Some(k) then Some(Detached(t[i].value)) else t[i])
  }

  /** channel_free: a mux client first lets go of its proxies. */
  function Free(t: Table, i: nat): (r: Table)
    requires Live(t, i) && 0 <= t[i].value.self < |t|
    ensures |r| == |t|
  {
    (if t[i].value.kind == MuxClient then DetachFrom(t, i) else t)[t[i].value.self := None]
  }

  function ByRemoteId(t: Table, r: u32): (i: nat)
    ensures i <= |t|
    ensures i < |t| ==> t[i].Some? && t[i].value.remoteId == Some(r)
    ensures forall j :: 0 <= j < i ==> !(t[j].Some? && t[j].value.remoteId == Some(r))
  {
    if t == [] || (t[0].Some? && t[0].value.remoteId == Some(r)) then 0 else 1 + ByRemoteId(t[1..], r)
  }

  // ----- from a mux client to the server -----

  function Proxy(client: nat, id: u32, remote: Option<u32>): Slot {
    Slot(0, MuxProxy, Some(client), id, remote, false, false, [])
  }

  /** An open or an open confirmation from a client: the id it carries is replaced by FirstFree(t). */
  function DownOpen(t: Table, client: nat, id: u32, remote: Option<u32>): Table {
    New(t, Proxy(client, id, remote))
  }

  function DownClose(t: Table, r: u32): Table
    requires SelfIds(t)
  {
    var i := ByRemoteId(t, r);
    if i == |t| then t
    else if t[i].value.closeRcvd then Free(t, i)
    else t[i := Some(t[i].value.(closeSent := true))]
  }

  // ----- from the server to a mux client -----

  function Forward(t: Table, client: nat, p: Packet): Table
    requires Live(t, client)
  {
    t[client := Some(t[client].value.(output := t[client].value.output + [p]))]
  }

  function NoteConfirmation(t: Table, i: nat, body: seq<octet>): Table
    requires Live(t, i)
  {
    if |body| > 4 then t[i := Some(t[i].value.(remoteId := Some(PeekU32(body))))] else t
  }

  function PeekU32(body: seq<octet>): u32
    requires |body| >= 4
  {
    BigEndianBound(body[..4]);
    assert Pow256(4) == WORD_SIZE;
    BigEndian(body[..4])
  }

  function NoteClose(t: Table, i: nat): Table
    requires Live(t, i) && 0 <= t[i].value.self < |t|
  {
    if t[i].value.closeSent then Free(t, i) else t[i := Some(t[i].value.(closeRcvd := true))]
  }

  /** channel_proxy_upstream for a message addressed to local id `i`; untouched when it is not for a client. */
  function Up(t: Table, i: int, kind: MessageType, body: seq<octet>): Table
    requires SelfIds(t) && ClientsLive(t)
  {
    if !Routed(t, i) || kind == Unsupported then t
    else
      var c := t[i].value.muxCtx.value;
      assert Live(t, c);
      var u := Forward(t, c, Packet(kind, t[i].value.downstreamId, body));
      match kind
      case OpenConfirmation => NoteConfirmation(u, i, body)
      case Close => NoteClose(u, i)
      case _ => u
  }

  // ----- the invariant of the table -----

  predicate SelfIds(t: Table) {
    forall i :: 0 <= i < |t| && t[i].Some? ==> t[i].value.self == i
  }

  predicate ClientsLive(t: Table) {
    forall i :: 0 <= i < |t| && Routed(t, i) ==> IsClient(t, t[i].value.muxCtx.value)
  }

  predicate ClientsPlain(t: Table) {
    forall i :: 0 <= i < |t| && IsClient(t, i) ==> t[i].value.remoteId == None && t[i].value.muxCtx == None
  }

  /** A proxy that has seen both closes is gone. */
  predicate HalfOpen(t: Table) {
    forall i :: 0 <= i < |t| && Routed(t, i) ==> !(t[i].value.closeSent && t[i].value.closeRcvd)
  }

  predicate Inv(t: Table) {
    SelfIds(t) && ClientsLive(t) && ClientsPlain(t) && HalfOpen(t)
  }

  /** What the server guarantees of the ids it hands out: live ones differ. */
  ghost predicate RemoteIdsUnique(t: Table) {
    forall i, j ::
      Live(t, i) && Live(t, j) && t[i].value.remoteId.Some? && t[i].value.remoteId == t[j].value.remoteId ==> i == j
  }
}

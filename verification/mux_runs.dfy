/** Routing through the mux proxy: every run of the table refines a map from local ids to routes. */
module MuxRuns {
  import opened Primitives
  import opened Words
  import opened MuxSpec

  /** Who opened the channel, under which id, and what has been seen of it since. */
  datatype Route = Route(client: nat, ownId: u32, remote: Option<u32>, closedByClient: bool, closedByServer: bool)

  type Routes = map<int, Route>

  function RouteOf(s: Slot): Route
    requires s.muxCtx.Some?
  {
    Route(s.muxCtx.value, s.downstreamId, s.remoteId, s.closeSent, s.closeRcvd)
  }

  function Abs(t: Table): Routes {
    map i | 0 <= i < |t| && Routed(t, i) :: RouteOf(t[i].value)
  }

  // ----- what each event should do to the routes -----

  function RefOpen(r: Routes, local: int, client: nat, id: u32, remote: Option<u32>): Routes {
    r[local := Route(client, id, remote, false, false)]
  }

  function RefClientGone(r: Routes, client: nat): Routes {
    map i | i in r && r[i].client != client :: r[i]
  }

  /** A close from a client marks the route to that remote channel, or ends it if the server closed first. */
  function RefDownClose(r: Routes, remote: u32): Routes {
    map i | i in r && !(r[i].remote == Some(remote) && r[i].closedByServer) ::
      if r[i].remote == Some(remote) then r[i].(closedByClient := true) else r[i]
  }

  function RefUp(r: Routes, local: int, kind: MessageType, body: seq<octet>): Routes {
    if local !in r then r
    else if kind == OpenConfirmation && |body| > 4 then r[local := r[local].(remote := Some(PeekU32(body)))]
    else if kind == Close && r[local].closedByClient then r - {local}
    else if kind == Close then r[local := r[local].(closedByServer := true)]
    else r
  }

  // ----- the table keeps its invariant and follows the routes -----

  lemma ExpandedSame(t: Table, i: int)
    ensures FirstFree(t) < |Expanded(t)|
    ensures Live(Expanded(t), i) <==> Live(t, i)
    ensures Live(t, i) ==> Expanded(t)[i] == t[i] && i != FirstFree(t)
  {
  }

  predicate Newborn(t: Table, s: Slot) {
    && !s.closeSent && !s.closeRcvd
    && (s.kind == MuxClient ==> s.remoteId == None && s.muxCtx == None)
    && (s.kind == MuxProxy ==> s.muxCtx.Some? && IsClient(t, s.muxCtx.value))
  }

  lemma NewSlots(t: Table, s: Slot, i: int)
    ensures Live(New(t, s), i) <==> Live(t, i) || i == FirstFree(t)
    ensures i == FirstFree(t) ==> New(t, s)[i] == Some(s.(self := i))
    ensures Live(t, i) ==> i != FirstFree(t) && New(t, s)[i] == t[i]
  {
    ExpandedSame(t, i);
    ExpandedSame(t, FirstFree(t));
  }

  /** A new channel takes a free slot, so no route is disturbed. */
  lemma NewKeeps(t: Table, s: Slot)
    requires Inv(t) && Newborn(t, s)
    ensures Inv(New(t, s))
  {
    var u := New(t, s);
    forall i | 0 <= i < |u| && u[i].Some?
      ensures u[i].value.self == i
      ensures Routed(u, i) ==> IsClient(u, u[i].value.muxCtx.value) && !(u[i].value.closeSent && u[i].value.closeRcvd)
      ensures IsClient(u, i) ==> u[i].value.remoteId == None && u[i].value.muxCtx == None
    {
      NewSlots(t, s, i);
      if Routed(u, i) {
        NewSlots(t, s, u[i].value.muxCtx.value);
      }
    }
  }

  lemma NewFollows(t: Table, s: Slot)
    requires Inv(t) && Newborn(t, s)
    ensures FirstFree(t) !in Abs(t)
    ensures Abs(New(t, s)) ==
            if s.kind == MuxProxy then RefOpen(Abs(t), FirstFree(t), s.muxCtx.value, s.downstreamId, s.remoteId)
            else Abs(t)
  {
    var r, first := Abs(t), FirstFree(t);
    var q := if s.kind == MuxProxy then RefOpen(r, first, s.muxCtx.value, s.downstreamId, s.remoteId) else r;
    NewSlots(t, s, first);
    forall i: int
      ensures i in Abs(New(t, s)) <==> i in q
      ensures i in q ==> Abs(New(t, s))[i] == q[i]
    {
      NewRouted(t, s, i);
    }
    NewRouted(t, s, first);
  }

  lemma NewRouted(t: Table, s: Slot, i: int)
    requires s.kind == MuxProxy ==> s.muxCtx.Some?
    ensures Routed(New(t, s), i) <==> Routed(t, i) || (i == FirstFree(t) && s.kind == MuxProxy)
    ensures Routed(t, i) ==> i != FirstFree(t) && New(t, s)[i] == t[i]
  {
    NewSlots(t, s, i);
  }

  lemma FreeKeeps(t: Table, i: nat)
    requires Inv(t) && Live(t, i)
    ensures Inv(Free(t, i)) && Free(t, i)[i].None?
  {
    var u := Free(t, i);
    forall j | 0 <= j < |u| && Routed(u, j)
      ensures IsClient(u, u[j].value.muxCtx.value)
    {
      assert Routed(t, j) && u[j] == t[j];
      assert IsClient(t, t[j].value.muxCtx.value);
    }
  }

  /** Freeing a mux client ends exactly its routes; freeing any other channel ends at most its own. */
  lemma FreeFollows(t: Table, i: nat)
    requires Inv(t) && Live(t, i)
    ensures Abs(Free(t, i)) == if IsClient(t, i) then RefClientGone(Abs(t), i) else Abs(t) - {i}
  {
    var u := Free(t, i);
    forall j: int
      ensures Routed(u, j) <==> Routed(t, j) && j != i && !(IsClient(t, i) && t[j].value.muxCtx == Some(i))
      ensures Routed(u, j) ==> u[j] == t[j]
    {
    }
  }

  lemma DownCloseKeeps(t: Table, r: u32)
    requires Inv(t)
    ensures Inv(DownClose(t, r))
  {
    var i := ByRemoteId(t, r);
    if i < |t| {
      if t[i].value.closeRcvd {
        FreeKeeps(t, i);
      } else {
        FlagKeeps(t, i, t[i].value.(closeSent := true));
      }
    }
  }

  /** Replacing a live slot by one of the same identity, links and kind. */
  lemma FlagKeeps(t: Table, i: nat, s: Slot)
    requires Inv(t) && Live(t, i)
    requires s.self == i && s.kind == t[i].value.kind && s.muxCtx == t[i].value.muxCtx
    requires s.kind == MuxClient ==> s.remoteId == None
    requires Routed(t, i) ==> !(s.closeSent && s.closeRcvd)
    ensures Inv(t[i := Some(s)])
  {
    var u := t[i := Some(s)];
    forall j | 0 <= j < |u| && Routed(u, j)
      ensures IsClient(u, u[j].value.muxCtx.value)
    {
      assert Routed(t, j);
      assert IsClient(t, t[j].value.muxCtx.value);
    }
  }

  lemma FlagFollows(t: Table, i: nat, s: Slot)
    requires Live(t, i) && s.kind == t[i].value.kind && s.muxCtx == t[i].value.muxCtx
    ensures Abs(t[i := Some(s)]) == if Routed(t, i) then Abs(t)[i := RouteOf(s)] else Abs(t)
  {
    var u := t[i := Some(s)];
    forall j: int
      ensures Routed(u, j) <==> Routed(t, j)
    {
    }
  }

  /** With unique live remote ids the search for one finds the only channel that has it. */
  lemma OnlyHit(t: Table, r: u32)
    requires RemoteIdsUnique(t)
    ensures forall j :: Routed(t, j) ==> (t[j].value.remoteId == Some(r) <==> j == ByRemoteId(t, r))
  {
    var i := ByRemoteId(t, r);
    forall j | Routed(t, j) && t[j].value.remoteId == Some(r)
      ensures j == i
    {
      assert Live(t, i) && Live(t, j);
    }
  }

  lemma CloseMiss(r: Routes, remote: u32)
    requires forall j :: j in r ==> r[j].remote != Some(remote)
    ensures RefDownClose(r, remote) == r
  {
    var q := RefDownClose(r, remote);
    forall j
      ensures j in q <==> j in r
      ensures j in q ==> q[j] == r[j]
    {
    }
  }

  lemma CloseHit(r: Routes, remote: u32, i: int)
    requires forall j :: j in r ==> (r[j].remote == Some(remote) <==> j == i)
    requires i in r
    ensures RefDownClose(r, remote) ==
            if r[i].closedByServer then r - {i} else r[i := r[i].(closedByClient := true)]
  {
    var q := RefDownClose(r, remote);
    forall j
      ensures j in q <==> j in r && !(j == i && r[i].closedByServer)
      ensures j in q && j != i ==> q[j] == r[j]
    {
    }
  }

  /** A close that ends at one channel: its route, if it has one, is marked, or ended if the server closed first. */
  function RefCloseAt(r: Routes, hit: int): Routes {
    if hit !in r then r
    else if r[hit].closedByServer then r - {hit}
    else r[hit := r[hit].(closedByClient := true)]
  }

  /** A client's close ends at the first channel with the remote id, whoever else has it. */
  lemma DownCloseAt(t: Table, r: u32)
    requires Inv(t)
    ensures Abs(DownClose(t, r)) == RefCloseAt(Abs(t), ByRemoteId(t, r))
  {
    var i := ByRemoteId(t, r);
    if i < |t| {
      if t[i].value.closeRcvd {
        FreeFollows(t, i);
      } else {
        FlagFollows(t, i, t[i].value.(closeSent := true));
      }
    }
  }

  /** A client's close reaches the route it is meant for and no other. */
  lemma {:induction false} DownCloseFollows(t: Table, r: u32)
    requires Inv(t) && RemoteIdsUnique(t)
    ensures Abs(DownClose(t, r)) == RefDownClose(Abs(t), r)
  {
    var i := ByRemoteId(t, r);
    OnlyHit(t, r);
    DownCloseAt(t, r);
    if i in Abs(t) {
      CloseHit(Abs(t), r, i);
    } else {
      CloseMiss(Abs(t), r);
    }
  }

  lemma ForwardKeeps(t: Table, c: nat, p: Packet)
    requires Inv(t) && IsClient(t, c)
    ensures Inv(Forward(t, c, p))
    ensures Abs(Forward(t, c, p)) == Abs(t)
    ensures forall j :: 0 <= j < |t| && j != c ==> Forward(t, c, p)[j] == t[j]
  {
    var s := t[c].value.(output := t[c].value.output + [p]);
    FlagKeeps(t, c, s);
    FlagFollows(t, c, s);
  }

  lemma UpFollows(t: Table, i: int, kind: MessageType, body: seq<octet>)
    requires Inv(t)
    ensures Inv(Up(t, i, kind, body))
    ensures Abs(Up(t, i, kind, body)) == if kind == Unsupported then Abs(t) else RefUp(Abs(t), i, kind, body)
  {
    if Routed(t, i) && kind != Unsupported {
      var c := t[i].value.muxCtx.value;
      var p := Packet(kind, t[i].value.downstreamId, body);
      assert IsClient(t, c) && i != c;
      ForwardKeeps(t, c, p);
      var u := Forward(t, c, p);
      if kind == OpenConfirmation {
        ConfirmationFollows(u, i, body);
      } else if kind == Close {
        CloseFollows(u, i);
      }
    }
  }

  lemma ConfirmationFollows(t: Table, i: int, body: seq<octet>)
    requires Inv(t) && Routed(t, i)
    ensures Inv(NoteConfirmation(t, i, body))
    ensures Abs(NoteConfirmation(t, i, body)) == RefUp(Abs(t), i, OpenConfirmation, body)
  {
    if |body| > 4 {
      var s := t[i].value.(remoteId := Some(PeekU32(body)));
      FlagKeeps(t, i, s);
      FlagFollows(t, i, s);
    }
  }

  lemma CloseFollows(t: Table, i: int)
    requires Inv(t) && Routed(t, i)
    ensures Inv(NoteClose(t, i))
    ensures Abs(NoteClose(t, i)) == RefUp(Abs(t), i, Close, [])
  {
    if t[i].value.closeSent {
      FreeKeeps(t, i);
      FreeFollows(t, i);
    } else {
      FlagKeeps(t, i, t[i].value.(closeRcvd := true));
      FlagFollows(t, i, t[i].value.(closeRcvd := true));
    }
  }

  function OutputOf(t: Table, k: int): seq<Packet> {
    if Live(t, k) then t[k].value.output else []
  }

  /** A message for a routed local id goes to the route's client under the client's own id, and nowhere else. */
  lemma {:induction false} UpDelivers(t: Table, i: int, kind: MessageType, body: seq<octet>)
    requires Inv(t) && i in Abs(t) && kind != Unsupported
    ensures var u := Up(t, i, kind, body);
            var route := Abs(t)[i];
            && OutputOf(u, route.client) == OutputOf(t, route.client) + [Packet(kind, route.ownId, body)]
            && forall k :: k != route.client && k != i ==> OutputOf(u, k) == OutputOf(t, k)
  {
    var c := t[i].value.muxCtx.value;
    assert IsClient(t, c) && i != c;
    assert t[i].value.self == i;
  }

  // ----- runs -----

  datatype Event =
    | Joins                                            // a mux client connects
    | Leaves(client: nat)                              // a mux client's channel is freed
    | OtherOpens(peer: Option<u32>)                    // a channel that is none of the proxy's business
    | OtherCloses(slot: nat)
    | Opens(client: nat, id: u32)                      // a client's CHANNEL_OPEN
    | Confirms(client: nat, id: u32, remote: u32)      // a client's CHANNEL_OPEN_CONFIRMATION
    | ClientCloses(remote: u32)                        // a client's CHANNEL_CLOSE
    | FromServer(local: int, kind: MessageType, body: seq<octet>)

  ghost predicate Enabled(t: Table, e: Event) {
    match e
    case Leaves(k) => IsClient(t, k)
    case OtherCloses(i) => Live(t, i) && t[i].value.kind == Ordinary
    case Opens(k, _) => IsClient(t, k)
    case Confirms(k, _, _) => IsClient(t, k)
    case _ => true
  }

  ghost function Step(t: Table, e: Event): Table
    requires Inv(t) && Enabled(t, e)
  {
    match e
    case Joins => New(t, Fresh(0, MuxClient))
    case Leaves(k) => Free(t, k)
    case OtherOpens(peer) => New(t, Fresh(0, Ordinary).(remoteId := peer))
    case OtherCloses(i) => Free(t, i)
    case Opens(k, id) => DownOpen(t, k, id, None)
    case Confirms(k, id, remote) => DownOpen(t, k, id, Some(remote))
    case ClientCloses(remote) => DownClose(t, remote)
    case FromServer(i, kind, body) => Up(t, i, kind, body)
  }

  /** The same event on the routes; `local` is the id the table hands out next. */
  function RefStep(r: Routes, local: int, e: Event): Routes {
    match e
    case Leaves(k) => RefClientGone(r, k)
    case Opens(k, id) => RefOpen(r, local, k, id, None)
    case Confirms(k, id, remote) => RefOpen(r, local, k, id, Some(remote))
    case ClientCloses(remote) => RefDownClose(r, remote)
    case FromServer(i, kind, body) => if kind == Unsupported then r else RefUp(r, i, kind, body)
    case _ => r
  }

  /** One step of the table is one step of the routes, when a close is told which channel it ended at. */
  lemma StepKeeps(t: Table, e: Event)
    requires Inv(t) && Enabled(t, e)
    ensures Inv(Step(t, e))
    ensures Abs(Step(t, e)) ==
            if e.ClientCloses? then RefCloseAt(Abs(t), ByRemoteId(t, e.remote)) else RefStep(Abs(t), FirstFree(t), e)
    ensures FirstFree(t) !in Abs(t)
  {
    match e
    case Joins => NewStep(t, Fresh(0, MuxClient));
    case Leaves(k) => FreeStep(t, k);
    case OtherOpens(peer) => NewStep(t, Fresh(0, Ordinary).(remoteId := peer));
    case OtherCloses(i) => FreeStep(t, i);
    case Opens(k, id) => NewStep(t, Proxy(k, id, None));
    case Confirms(k, id, remote) => NewStep(t, Proxy(k, id, Some(remote)));
    case ClientCloses(remote) => CloseStep(t, remote);
    case FromServer(i, kind, body) => UpFollows(t, i, kind, body);
    FreeSlot(t);
  }

  lemma FreeSlot(t: Table)
    ensures FirstFree(t) !in Abs(t)
  {
  }

  lemma NewStep(t: Table, s: Slot)
    requires Inv(t) && Newborn(t, s)
    ensures Inv(New(t, s))
    ensures Abs(New(t, s)) ==
            if s.kind == MuxProxy then RefOpen(Abs(t), FirstFree(t), s.muxCtx.value, s.downstreamId, s.remoteId)
            else Abs(t)
  {
    NewKeeps(t, s);
    NewFollows(t, s);
  }

  lemma FreeStep(t: Table, i: nat)
    requires Inv(t) && Live(t, i)
    ensures Inv(Free(t, i))
    ensures Abs(Free(t, i)) == if IsClient(t, i) then RefClientGone(Abs(t), i) else Abs(t) - {i}
  {
    FreeKeeps(t, i);
    FreeFollows(t, i);
  }

  lemma CloseStep(t: Table, remote: u32)
    requires Inv(t)
    ensures Inv(DownClose(t, remote))
    ensures Abs(DownClose(t, remote)) == RefCloseAt(Abs(t), ByRemoteId(t, remote))
  {
    DownCloseKeeps(t, remote);
    DownCloseAt(t, remote);
  }

  /** With unique live remote ids a close needs no telling. */
  lemma StepFollows(t: Table, e: Event)
    requires Inv(t) && Enabled(t, e) && (e.ClientCloses? ==> RemoteIdsUnique(t))
    ensures Inv(Step(t, e))
    ensures Abs(Step(t, e)) == RefStep(Abs(t), FirstFree(t), e)
  {
    StepKeeps(t, e);
    if e.ClientCloses? {
      DownCloseFollows(t, e.remote);
    }
  }

  ghost predicate IsRun(t: Table, events: seq<Event>)
    requires Inv(t)
    decreases |events|
  {
    events == [] ||
    (Enabled(t, events[0]) && (StepKeeps(t, events[0]); IsRun(Step(t, events[0]), events[1..])))
  }

  ghost function After(t: Table, events: seq<Event>): (u: Table)
    requires Inv(t) && IsRun(t, events)
    ensures Inv(u)
    decreases |events|
  {
    if events == [] then t
    else
      StepKeeps(t, events[0]);
      After(Step(t, events[0]), events[1..])
  }

  /** Whenever a client closes, the live remote ids differ. */
  ghost predicate UniqueCloses(t: Table, events: seq<Event>)
    requires Inv(t) && IsRun(t, events)
    decreases |events|
  {
    events == [] ||
    ((events[0].ClientCloses? ==> RemoteIdsUnique(t))
     && (StepKeeps(t, events[0]); UniqueCloses(Step(t, events[0]), events[1..])))
  }

  /** The id a new channel would get at each event: what the server sees in the messages of opens and confirmations. */
  ghost function IdsOf(t: Table, events: seq<Event>): (ids: seq<nat>)
    requires Inv(t) && IsRun(t, events)
    ensures |ids| == |events|
    decreases |events|
  {
    if events == [] then []
    else
      StepKeeps(t, events[0]);
      [FirstFree(t)] + IdsOf(Step(t, events[0]), events[1..])
  }

  /** The routes that an observer of the events and of the ids given out keeps, without the table. */
  function RefAfter(r: Routes, events: seq<Event>, ids: seq<nat>): Routes
    requires |ids| == |events|
    decreases |events|
  {
    if events == [] then r else RefAfter(RefStep(r, ids[0], events[0]), events[1..], ids[1..])
  }

  /** No id given out is that of a route still there. */
  predicate FreshIds(r: Routes, events: seq<Event>, ids: seq<nat>)
    requires |ids| == |events|
    decreases |events|
  {
    events == [] || (ids[0] !in r && FreshIds(RefStep(r, ids[0], events[0]), events[1..], ids[1..]))
  }

  /**
   For every interleaving of opens, confirmations, closes, departures and server messages, the
   table routes exactly as the observer says, however often ids and slots are reused.
   */
  lemma {:induction false} TableFollowsEvents(t: Table, events: seq<Event>)
    requires Inv(t) && IsRun(t, events) && UniqueCloses(t, events)
    ensures Abs(After(t, events)) == RefAfter(Abs(t), events, IdsOf(t, events))
    ensures FreshIds(Abs(t), events, IdsOf(t, events))
    decreases |events|
  {
    if events != [] {
      StepKeeps(t, events[0]);
      StepFollows(t, events[0]);
      TableFollowsEvents(Step(t, events[0]), events[1..]);
      assert IdsOf(t, events)[1..] == IdsOf(Step(t, events[0]), events[1..]);
    }
  }

  // ----- whose a route is -----

  type Owners = map<int, (nat, u32)>

  /** The client, and the client's own id, that each local id was last given to. */
  function OwnersAfter(o: Owners, events: seq<Event>, ids: seq<nat>): Owners
    requires |ids| == |events|
    decreases |events|
  {
    if events == [] then o else OwnersAfter(OwnersStep(o, ids[0], events[0]), events[1..], ids[1..])
  }

  function OwnersStep(o: Owners, local: int, e: Event): Owners {
    match e
    case Opens(k, id) => o[local := (k, id)]
    case Confirms(k, id, _) => o[local := (k, id)]
    case _ => o
  }

  predicate OwnedBy(r: Routes, o: Owners) {
    forall i :: i in r ==> i in o && o[i] == (r[i].client, r[i].ownId)
  }

  lemma StepOwned(t: Table, e: Event, o: Owners)
    requires Inv(t) && Enabled(t, e) && OwnedBy(Abs(t), o)
    ensures OwnedBy(Abs(Step(t, e)), OwnersStep(o, FirstFree(t), e))
  {
    var r, local := Abs(t), FirstFree(t);
    assert e.ClientCloses? ==> Abs(Step(t, e)) == RefCloseAt(r, ByRemoteId(t, e.remote)) by { StepKeeps(t, e); }
    assert !e.ClientCloses? ==> Abs(Step(t, e)) == RefStep(r, local, e) by { StepKeeps(t, e); }
    if e.ClientCloses? {
      CloseOwned(r, ByRemoteId(t, e.remote), o);
    } else {
      RefStepOwned(r, local, e, o);
    }
  }

  lemma CloseOwned(r: Routes, hit: int, o: Owners)
    requires OwnedBy(r, o)
    ensures OwnedBy(RefCloseAt(r, hit), o)
  {
  }

  lemma RefStepOwned(r: Routes, local: int, e: Event, o: Owners)
    requires OwnedBy(r, o) && !e.ClientCloses?
    ensures OwnedBy(RefStep(r, local, e), OwnersStep(o, local, e))
  {
    match e
    case FromServer(i, kind, body) =>
    case _ =>
  }

  /** In every run, whatever remote ids repeat, a live route is that of the client its id was last given to. */
  lemma {:induction false} RoutesKeepOwners(t: Table, events: seq<Event>, o: Owners)
    requires Inv(t) && IsRun(t, events) && OwnedBy(Abs(t), o)
    ensures OwnedBy(Abs(After(t, events)), OwnersAfter(o, events, IdsOf(t, events)))
    decreases |events|
  {
    if events != [] {
      StepKeeps(t, events[0]);
      StepOwned(t, events[0], o);
      RoutesKeepOwners(Step(t, events[0]), events[1..], OwnersStep(o, FirstFree(t), events[0]));
      assert IdsOf(t, events)[1..] == IdsOf(Step(t, events[0]), events[1..]);
    }
  }

  /** After every run a message for a live route reaches the client its id was last given to, under its own id. */
  lemma DeliveredAfterRun(t: Table, events: seq<Event>, o: Owners, i: int, kind: MessageType, body: seq<octet>)
    requires Inv(t) && IsRun(t, events) && OwnedBy(Abs(t), o)
    requires kind != Unsupported && i in Abs(After(t, events))
    ensures var before, owners := After(t, events), OwnersAfter(o, events, IdsOf(t, events));
            && i in owners
            && var (client, ownId) := owners[i];
               var u := Up(before, i, kind, body);
               && OutputOf(u, client) == OutputOf(before, client) + [Packet(kind, ownId, body)]
               && forall k :: k != client && k != i ==> OutputOf(u, k) == OutputOf(before, k)
  {
    RoutesKeepOwners(t, events, o);
    UpDelivers(After(t, events), i, kind, body);
  }

  /** A new channel takes the first free slot; only without one the table grows, by ten. */
  lemma TableGrows(t: Table, s: Slot)
    ensures |New(t, s)| == if forall i :: 0 <= i < |t| ==> t[i].Some? then |t| + 10 else |t|
    ensures forall i :: 0 <= i < |t| && t[i].None? ==> FirstFree(t) <= i
  {
  }

  /** A client's open makes a route to it, under its own id, that knows no server id; its confirmation one that does. */
  lemma OpenedRoute(t: Table, k: nat, id: u32, remote: u32)
    requires Inv(t) && IsClient(t, k)
    ensures var i := FirstFree(t);
            && i !in Abs(t)
            && Abs(Step(t, Opens(k, id))) == Abs(t)[i := Route(k, id, None, false, false)]
            && Abs(Step(t, Confirms(k, id, remote))) == Abs(t)[i := Route(k, id, Some(remote), false, false)]
  {
    StepKeeps(t, Opens(k, id));
    StepKeeps(t, Confirms(k, id, remote));
  }

  /** A leaving client's proxies stay behind as ordinary channels without a client; nobody else's slot changes. */
  lemma LeavingDetaches(t: Table, k: nat)
    requires Inv(t) && IsClient(t, k)
    ensures var u := Step(t, Leaves(k));
            && !Live(u, k) && |u| == |t|
            && forall i :: 0 <= i < |t| && i != k ==>
                 u[i] == if t[i].Some? && t[i].value.kind == MuxProxy && t[i].value.muxCtx == Some(k)
                         then Some(t[i].value.(muxCtx := None, kind := Ordinary)) else t[i]
  {
    assert t[k].value.self == k;
  }

  lemma FreedByClient(t: Table, i: int, remote: u32)
    requires Inv(t) && RemoteIdsUnique(t)
    requires i in Abs(t) && Abs(t)[i].remote == Some(remote)
    ensures var down := Step(t, ClientCloses(remote));
            && (i in Abs(down) <==> !Abs(t)[i].closedByServer)
            && (i !in Abs(down) ==> down[i].None?)
  {
    StepFollows(t, ClientCloses(remote));
    var j := ByRemoteId(t, remote);
    assert j <= i && t[i].Some? && t[j].Some?;
    assert j == i;
    if t[i].value.closeRcvd {
      FreeKeeps(t, i);
    }
  }

  lemma FreedByServer(t: Table, i: int)
    requires Inv(t) && i in Abs(t)
    ensures var up := Step(t, FromServer(i, Close, []));
            && (i in Abs(up) <==> !Abs(t)[i].closedByClient)
            && (i !in Abs(up) ==> up[i].None?)
  {
    StepFollows(t, FromServer(i, Close, []));
  }

  /** The second of the two closes, whichever way it goes, frees the slot; the first does not. */
  lemma FreedOnSecondClose(t: Table, i: int, remote: u32)
    requires Inv(t) && RemoteIdsUnique(t)
    requires i in Abs(t) && Abs(t)[i].remote == Some(remote)
    ensures var down := Step(t, ClientCloses(remote));
            var up := Step(t, FromServer(i, Close, []));
            && (i in Abs(down) <==> !Abs(t)[i].closedByServer)
            && (i in Abs(up) <==> !Abs(t)[i].closedByClient)
            && (i !in Abs(down) ==> down[i].None?)
            && (i !in Abs(up) ==> up[i].None?)
  {
    FreedByClient(t, i, remote);
    FreedByServer(t, i);
  }

  // ----- the server's id -----

  /** A word as the four bytes of a message, highest first. */
  function FourBytes(v: u32): (s: seq<octet>)
    ensures |s| == 4
  {
    [v / 0x100_0000, v / 0x1_0000 % 0x100, v / 0x100 % 0x100, v % 0x100]
  }

  lemma FourBytesSpell(v: u32)
    ensures BigEndian(FourBytes(v)) == v
  {
    var a, b, c, d := v / 0x100_0000, v / 0x1_0000 % 0x100, v / 0x100 % 0x100, v % 0x100;
    SpellOut(a, b, c, d);
    assert v / 0x100 == 0x100 * (v / 0x1_0000) + c && v / 0x1_0000 == 0x100 * a + b;
  }

  lemma SpellOut(a: octet, b: octet, c: octet, d: octet)
    ensures BigEndian([a, b, c, d]) == 0x100_0000 * a + 0x1_0000 * b + 0x100 * c + d
  {
    assert [a, b, c, d][..3] == [a, b, c] && [a, b, c][..2] == [a, b] && [a, b][..1] == [a] && [a][..0] == [];
    assert BigEndian([a]) == a;
    assert BigEndian([a, b]) == 0x100 * a + b;
    assert BigEndian([a, b, c]) == 0x1_0000 * a + 0x100 * b + c;
  }

  lemma Peeked(v: u32, tail: seq<octet>)
    ensures PeekU32(FourBytes(v) + tail) == v
  {
    FourBytesSpell(v);
    assert (FourBytes(v) + tail)[..4] == FourBytes(v);
  }

  /** A confirmation with something behind its first four bytes records the id they spell, and changes nothing else. */
  lemma ConfirmationRecords(t: Table, i: int, v: u32, tail: seq<octet>)
    requires Inv(t) && i in Abs(t) && tail != []
    ensures var u := Up(t, i, OpenConfirmation, FourBytes(v) + tail);
            Inv(u) && Abs(u) == Abs(t)[i := Abs(t)[i].(remote := Some(v))]
  {
    var body := FourBytes(v) + tail;
    UpFollows(t, i, OpenConfirmation, body);
    Peeked(v, tail);
  }

  /** A body of at most four bytes records nothing. */
  lemma ShortConfirmation(t: Table, i: int, body: seq<octet>)
    requires Inv(t) && i in Abs(t) && |body| <= 4
    ensures Abs(Up(t, i, OpenConfirmation, body)) == Abs(t)
  {
    UpFollows(t, i, OpenConfirmation, body);
  }

  /** What a client's close for `v` does to route `i`, and the server's close after it. */
  ghost predicate Closes(u: Table, i: int, v: u32)
    requires Inv(u) && i in Abs(u)
  {
    var r, down := Abs(u), Step(u, ClientCloses(v));
    && Inv(down)
    && Abs(down) == (if r[i].closedByServer then r - {i} else r[i := r[i].(closedByClient := true)])
    && !Live(if r[i].closedByServer then down else Step(down, FromServer(i, Close, [])), i)
  }

  /**
   After the server has confirmed a proxy's open under `v`, and while no other live channel has
   that id, a client's close for `v` marks exactly that route, or ends it and frees the slot if the
   server has closed it; and if it has not, its close then frees the slot.
   */
  lemma ConfirmedRouteCloses(t: Table, i: int, v: u32, tail: seq<octet>, u: Table)
    requires Inv(t) && i in Abs(t) && tail != []
    requires u == Up(t, i, OpenConfirmation, FourBytes(v) + tail) && RemoteIdsUnique(u)
    ensures Inv(u) && Abs(u) == Abs(t)[i := Abs(t)[i].(remote := Some(v))] && Closes(u, i, v)
  {
    ConfirmationRecords(t, i, v, tail);
    ClosesBoth(u, i, v);
  }

  lemma ClosesBoth(u: Table, i: int, v: u32)
    requires Inv(u) && RemoteIdsUnique(u) && i in Abs(u) && Abs(u)[i].remote == Some(v)
    ensures Closes(u, i, v)
  {
    var r, down := Abs(u), Step(u, ClientCloses(v));
    StepKeeps(u, ClientCloses(v));
    CloseHits(u, i, v);
    FreedByClient(u, i, v);
    if !r[i].closedByServer {
      FreedByServer(down, i);
    }
  }

  lemma CloseHits(u: Table, i: int, v: u32)
    requires Inv(u) && RemoteIdsUnique(u) && i in Abs(u) && Abs(u)[i].remote == Some(v)
    ensures ByRemoteId(u, v) == i
  {
    OnlyHit(u, v);
  }
}

# Verified models of the SSH gateway and its control client

The gateway carries forwarded connections for cluster services.  It is OpenSSH 9.2 with a small
Kubernetes client beside it that keeps an index from host names to services.  This project models
the parts of both that are hard to get right and proves what they keep.  `dafny verify
dfyconfig.toml` checks all of it.

Each component has a specification module on values and, where the program changes things in
place, a class or methods over arrays that are proved against it.

- **Channel flow control** (`channel_spec`, `channel_laws`, `channel`, `flow_system`,
  `flow_invariant`, `flow_theorems`, `flow_loss`, `flow_progress`, `flow_fair`).  Two endpoints, two first-in
  first-out links, and steps chosen freely: read, write, poll, check the window, deliver,
  half-close.  Ledgers beside the real state record what was read, received, written, ignored and
  thrown away.  The credit equation of section 5.2 of RFC 4254, the exactness of both streams, the
  unreachability of the overflow and dropping branches, freedom from deadlock, and delivery by
  every fair schedule all follow from one invariant.
- **Mux proxy** (`mux_spec`, `mux_runs`, `mux_table`).  The slot table and the translation of
  channel ids, related to a map of routes that an observer of the events and of the ids given out
  would keep.
- **Pollfd packing** (`poll_spec`, `poll_table`).  Descriptors are packed into one array before
  poll and looked up through recorded indices after it.
- **Multi-step authentication** (`texts`, `method_lists`, `auth_spec`, `auth_runs`,
  `auth_limits`, `auth_context`).  Comma-separated lists consumed string by string, related to lists
  of entries; safety, failure counts and the user over runs.
- **Bit vector** (`words`, `bitmap`).  Words, bits and big-endian strings as one natural number.
- **Ciphers** (`chacha_spec`, `chacha_words`, `chacha_rounds`, `chacha`, `aead_spec`, `aead`,
  `aes_modes_spec`, `aes_modes`).  In-place block loops against pointwise definitions.  The ChaCha
  block function is modelled in full, and related to its description on 32-bit vectors and to the
  values of RFC 8439; Poly1305 and the AES block cipher are arbitrary functions.
- **Key options** (`option_wire`, `option_buffer`).  Serialiser and parser over a bounded buffer.
- **Service index** (`service_text`, `service_index`, `service_cache`).  References in one string,
  edited by substring search and replacement; the relation they stand for; informer histories.
- **Group choice** (`group_choice`), **addresses** (`addr_spec`, `addr`), **gathered writes**
  (`gather_io`).

## What the proofs found

- Extended data that a receiver ignores is paid for by the sender and never given back.  The credit
  equation misses exactly the payloads turned away by the guard on descriptor, usage and type code
  (`FlowLoss.WindowIsWholeIff`), which can stall the sender for good (`FlowLoss.IgnoredDataCanStall`);
  `FlowLoss.StallIsPermanentIff` says exactly when a stall lasts.
- A window of one byte is never given back unless it exceeds three packets
  (`FlowLoss.OneByteWindowStalls`, `FlowTheorems.NoDeadlock`).
- A peer cannot make an endpoint that still writes hold more than its window, whatever it sends
  (`ChannelLaws.AnyPeerIsBounded`); one that no longer writes charges data unchecked, and a packet
  beyond the window wraps it (`ChannelLaws.ClosedOutputWraps`).
- Bit `BITMAP_MAX` can be set and written but not read back (`Bitmaps.LimitIsNotReadable`,
  `Bitmaps.LimitDoesNotSurvive`).
- A tunnel device from 2^31 to 2^32 - 2 on the wire is read as a negative number and written back
  as 0
  (`OptionWire.HighDeviceBecomesZero`, `OptionWire.RereadIff`).
- In the service index, "a/x" and "ba/x" under one key confuse each other: the first is never
  listed, and removing it damages the second (`ServiceIndex.NamesakeIsLost`,
  `ServiceIndex.StepStandsIff`).  The update handler indexes services that the delete handler then
  does not remove, because only the latter asks whether they are managed
  (`ServiceIndex.UnmanagedIsLeftBehind`, `ServiceIndex.AlwaysMatchesIff`).
  The branch for a lone primary entry in the claim is dead (`ServiceIndex.PrimaryNeverKept`).
- The group chooser does not always return the smallest sufficient size: an exact match is taken
  only if it stands before every larger candidate (`GroupChoice.ExactSizeIff`).
- A gathered write whose first chunk is empty stops at once and reports 0 bytes, whatever the other
  chunks hold (`GatherIo.Atomiciov`).
- An address and its mask cannot be and-ed into the mask's own place: the mask is overwritten first
  (`Addr.AddrAnd`).
- A network whose host bits are not zero matches no address at all (`Addr.AddrNetmatch`).

## Model

| member | source | states |
|---|---|---|
| `ChannelObject.Channel.HandleRfd` | `cluster/cmxsafe-gw/openssh/openssh-portable-V_9_2_P1/channels.c:2049-2132` | reads at most what the peer's window has left over for what is buffered already, and appends exactly that to the input buffer |
| `ChannelObject.Channel.HandleWfd` | `cluster/cmxsafe-gw/openssh/openssh-portable-V_9_2_P1/channels.c:2134-2223` | removes exactly the written prefix of the output buffer and counts it as consumed; nothing else changes |
| `ChannelObject.Channel.HandleEfdWrite` | `cluster/cmxsafe-gw/openssh/openssh-portable-V_9_2_P1/channels.c:2225-2252` | the same for the extended buffer; a failed write closes the descriptor instead |
| `ChannelObject.Channel.HandleEfdRead` | `cluster/cmxsafe-gw/openssh/openssh-portable-V_9_2_P1/channels.c:2254-2282` | appends what was read from the extended descriptor, discards it in ignore mode, and closes the descriptor at end of file |
| `ChannelObject.Channel.CheckWindow` | `cluster/cmxsafe-gw/openssh/openssh-portable-V_9_2_P1/channels.c:2301-2327` | sends an adjust for exactly the consumed bytes, under exactly the source's condition, with the 32-bit wrap of its subtractions and products written out |
| `ChannelObject.Channel.OutputPollInputOpen` | `cluster/cmxsafe-gw/openssh/openssh-portable-V_9_2_P1/channels.c:2893-2962` | sends the longest prefix of the input buffer that window and packet limit allow, and charges the window for it |
| `ChannelObject.Channel.OutputPollExtendedRead` | `cluster/cmxsafe-gw/openssh/openssh-portable-V_9_2_P1/channels.c:2965-2994` | the same for extended data |
| `ChannelObject.Channel.OutputPoll` | `cluster/cmxsafe-gw/openssh/openssh-portable-V_9_2_P1/channels.c:2997-3027` | stream data is sent before extended data, on open channels without a close in either direction only |
| `ChannelObject.Channel.InputData` | `cluster/cmxsafe-gw/openssh/openssh-portable-V_9_2_P1/channels.c:3339-3396` | accepts, credits at once, drops or disconnects, exactly as the branch conditions say |
| `ChannelObject.Channel.InputExtendedData` | `cluster/cmxsafe-gw/openssh/openssh-portable-V_9_2_P1/channels.c:3398-3454` | accepts, ignores, drops or disconnects, exactly as the branch conditions say |
| `ChannelObject.Channel.InputWindowAdjust` | `cluster/cmxsafe-gw/openssh/openssh-portable-V_9_2_P1/channels.c:3584-3615` | adds the credit, or reports the fatal overflow |
| `ChannelLaws.CheckReturnsCredit` | `cluster/cmxsafe-gw/openssh/openssh-portable-V_9_2_P1/channels.c:2301-2327` | of an open channel without a close, drained or not: after the check either nothing is owed or the window is at least half of the maximum and short of it by at most three packets (modulo 2^32); what was sent is one adjust for exactly what was owed, exactly if something was owed and the window was low |
| `ChannelLaws.ClosingKeepsCredit` | `cluster/cmxsafe-gw/openssh/openssh-portable-V_9_2_P1/channels.c:2301-2327` | a channel that is not open, or whose close was sent or received, sends no adjust and keeps what it owes |
| `ChannelLaws.PollSendsLongest` | `cluster/cmxsafe-gw/openssh/openssh-portable-V_9_2_P1/channels.c:2893-3027` | one poll sends the longest prefix of the input buffer that window and packet limit allow and then the longest prefix of the extended buffer that the rest of the window allows, in two messages in this order, none of them empty; nothing else changes |
| `ChannelLaws.ClosingSendsNothing` | `cluster/cmxsafe-gw/openssh/openssh-portable-V_9_2_P1/channels.c:3007-3027` | such a channel sends no data and changes nothing |
| `ChannelLaws.LongestIsUnique` | `cluster/cmxsafe-gw/openssh/openssh-portable-V_9_2_P1/channels.c:2945-2949` | there is one such prefix |
| `ChannelLaws.ReadLimitIff` | `cluster/cmxsafe-gw/openssh/openssh-portable-V_9_2_P1/channels.c:2049-2132` | a read may take n bytes exactly if they fit the buffer, the largest read and the part of the window that is not spoken for |
| `ChannelLaws.ExtendedWriteIs` | `cluster/cmxsafe-gw/openssh/openssh-portable-V_9_2_P1/channels.c:2225-2252` | a failed write closes the extended descriptor, any other counts what it took as consumed |
| `ChannelLaws.ExtendedReadIs` | `cluster/cmxsafe-gw/openssh/openssh-portable-V_9_2_P1/channels.c:2254-2282` | end of file closes the extended descriptor; data is kept unless it is to be ignored |
| `ChannelLaws.DataIsTakenIff` | `cluster/cmxsafe-gw/openssh/openssh-portable-V_9_2_P1/channels.c:3362-3396` | on an open channel that can write, data from any peer is buffered and charged exactly if it fits packet limit and window, and changes nothing otherwise |
| `ChannelLaws.ExtendedIsTakenIff` | `cluster/cmxsafe-gw/openssh/openssh-portable-V_9_2_P1/channels.c:3415-3454` | extended data is buffered and charged exactly if the descriptor is open and written to, the type is stderr's and the window has room |
| `ChannelLaws.OutcomeIs` | `cluster/cmxsafe-gw/openssh/openssh-portable-V_9_2_P1/channels.c:3339-3615` | which messages disconnect, and that credit is fatal exactly from 2^32 on; such a message changes nothing |
| `ChannelLaws.AnyPeerIsBounded` | `cluster/cmxsafe-gw/openssh/openssh-portable-V_9_2_P1/channels.c:3339-3454` | whatever messages a peer sends, an endpoint that can write holds no more for its descriptors than the window it has given |
| `ChannelLaws.ClosedOutputWraps` | `cluster/cmxsafe-gw/openssh/openssh-portable-V_9_2_P1/channels.c:3366-3376` | once it cannot write, every packet is charged and credited unchecked, so that one beyond the window wraps the window |
| `FlowInvariant.SenderMoves` | `cluster/cmxsafe-gw/openssh/openssh-portable-V_9_2_P1/channels.c:2893-2994` | every step of a node, seen as a sender, conserves window plus credit and the stream: what leaves its window or its buffers is on the link |
| `FlowInvariant.ReceiverMoves` | `cluster/cmxsafe-gw/openssh/openssh-portable-V_9_2_P1/channels.c:3339-3396` | every step of a node, seen as a receiver, conserves the window charged for what arrives: it is held, given back, or counted as lost |
| `FlowInvariant.StepKeepsInv` | `cluster/cmxsafe-gw/openssh/openssh-portable-V_9_2_P1/channels.c:2301-2327` | every enabled step of either node, in any state, keeps the two-way invariant |
| `FlowInvariant.RunKeepsInv` | `cluster/cmxsafe-gw/openssh/openssh-portable-V_9_2_P1/channels.c:2301-3396` | so does every run |
| `FlowTheorems.CreditEquation` | `cluster/cmxsafe-gw/openssh/openssh-portable-V_9_2_P1/channels.c:2945-2959` | in every reachable state: window at the sender + bytes under way + credit under way + what the receiver ignored + credit that came to a dead sender equals the receiver's window, which is at most its maximum; both directions |
| `FlowTheorems.CreditIsReturned` | `cluster/cmxsafe-gw/openssh/openssh-portable-V_9_2_P1/channels.c:2301-2327` | in every run a check by an open receiver that is not closing, drained or not, leaves nothing owed, or a window at least half of the maximum and short of it by at most three packets; an adjust is for exactly what was owed and no counter wraps |
| `FlowTheorems.AdjustNeverOverflows` | `cluster/cmxsafe-gw/openssh/openssh-portable-V_9_2_P1/channels.c:3606-3610` | the fatal error on an overflowing adjust is unreachable |
| `FlowTheorems.NothingDropped` | `cluster/cmxsafe-gw/openssh/openssh-portable-V_9_2_P1/channels.c:3362-3393` | a data message that arrives is never too big: the dropping branches are unreachable, no subtraction wraps, and every byte reaches the output buffer or is credited at once |
| `FlowTheorems.StreamExactness` | `cluster/cmxsafe-gw/openssh/openssh-portable-V_9_2_P1/channels.c:2185-2220` | bytes read by the sender = bytes received ++ bytes under way ++ bytes buffered at the sender, in order; and = bytes written ++ buffered for writing ++ under way ++ buffered, while the receiver's output was never cut off |
| `FlowTheorems.ErrStreamExactness` | `cluster/cmxsafe-gw/openssh/openssh-portable-V_9_2_P1/channels.c:2965-2994` | the same law for extended data; FlowLoss.WritingReceiverLosesNothing says when its second half applies |
| `FlowTheorems.OpenOutputStaysIntact` | `cluster/cmxsafe-gw/openssh/openssh-portable-V_9_2_P1/channels.c:3366-3376` | only a half-close of the receiver can make it lose stream bytes |
| `FlowTheorems.MirrorRun` | `cluster/cmxsafe-gw/openssh/openssh-portable-V_9_2_P1/channels.c:2997-3027` | the system is symmetric: mirrored runs reach mirrored states, so each law also holds from right to left |
| `FlowTheorems.NoDeadlock` | `cluster/cmxsafe-gw/openssh/openssh-portable-V_9_2_P1/channels.c:2301-2327` | a receiver that has drained everything while the sender's window is 0 owes its window less what is gone (ignored, or credited to a dead sender) and what a shutdown threw away, and it gives exactly that back in one adjust if and only if it is not nothing and the window it has left, which is what is gone, is below half of the maximum or short of it by more than three packets (modulo 2^32) |
| `FlowLoss.LostByGuard` | `cluster/cmxsafe-gw/openssh/openssh-portable-V_9_2_P1/channels.c:3423-3429` | when what is under way fits the window, a delivery loses exactly the payloads that the guard on descriptor, usage and type code turns away |
| `FlowLoss.LostIsIgnored` | `cluster/cmxsafe-gw/openssh/openssh-portable-V_9_2_P1/channels.c:3415-3450` | over every run the window lost is the sum of those payloads |
| `FlowLoss.WindowIsWholeIff` | `cluster/cmxsafe-gw/openssh/openssh-portable-V_9_2_P1/channels.c:3415-3450` | window, bytes and credit under way account for the receiver's whole window if and only if the guard turned nothing away; otherwise exactly those bytes are missing |
| `FlowLoss.IgnoredDataShrinksWindow` | `cluster/cmxsafe-gw/openssh/openssh-portable-V_9_2_P1/channels.c:3423-3429` | window spent on extended data that the receiver ignores never comes back, in any continuation |
| `FlowLoss.WritingReceiverLosesNothing` | `cluster/cmxsafe-gw/openssh/openssh-portable-V_9_2_P1/channels.c:3423-3450` | a receiver that writes extended data, in any run without its own half-close or failed extended write, ignores nothing and keeps every extended byte |
| `FlowLoss.SilentSenderLosesNothing` | `cluster/cmxsafe-gw/openssh/openssh-portable-V_9_2_P1/channels.c:2965-2994` | nothing is ignored from a sender that reads no extended descriptor |
| `FlowLoss.ExtendedNotDropped` | `cluster/cmxsafe-gw/openssh/openssh-portable-V_9_2_P1/channels.c:3436-3450` | extended data that the guard lets in always fits the window and reaches the buffer whole |
| `FlowLoss.StallIsPermanentIff` | `cluster/cmxsafe-gw/openssh/openssh-portable-V_9_2_P1/channels.c:2301-2327` | a stalled sender of an open channel can get window again in some continuation if and only if the recoverable part of the receiver's window is large enough; otherwise its window stays 0 in every continuation |
| `FlowLoss.IgnoredDataCanStall` | `cluster/cmxsafe-gw/openssh/openssh-portable-V_9_2_P1/channels.c:3423-3429` | a concrete run in which one ignored packet stalls the sender for good |
| `FlowLoss.OneByteWindowStalls` | `cluster/cmxsafe-gw/openssh/openssh-portable-V_9_2_P1/channels.c:2306-2310` | a concrete run in which a window of one byte is used once and never given back |
| `FlowProgress.EverythingIsDelivered` | `cluster/cmxsafe-gw/openssh/openssh-portable-V_9_2_P1/channels.c:2997-3027` | from every live state whose lost window leaves a recoverable part, some continuation writes out every byte the sender has read and lets it send again, for every packet limit from one byte up; FlowFair.EveryFairScheduleDelivers says it of every fair schedule |
| `FlowProgress.OpenChannelsDeliver` | `cluster/cmxsafe-gw/openssh/openssh-portable-V_9_2_P1/channels.c:2301-2327` | the same after every run without a half-close of a channel that starts open with a recoverable window, if its receiver writes extended data without a failed write or its sender reads none; all conditions are on the start and the events; FlowFair.OpenChannelsAlwaysDeliver says it of every fair schedule |
| `FlowFair.StepProgresses` | `cluster/cmxsafe-gw/openssh/openssh-portable-V_9_2_P1/channels.c:2997-3027` | every step without new input of an open channel lowers a measure of the work left, or changes nothing at all |
| `FlowFair.EveryFairScheduleDelivers` | `cluster/cmxsafe-gw/openssh/openssh-portable-V_9_2_P1/channels.c:2997-3027` | from every such state every schedule of rounds, in each of which every handler with something to do gets a turn, in any order and among any other steps, writes out every byte that was read, within as many rounds as the measure says |
| `FlowFair.OpenChannelsAlwaysDeliver` | `cluster/cmxsafe-gw/openssh/openssh-portable-V_9_2_P1/channels.c:2301-2327` | so does every fair schedule after every run of a channel that starts open |
| `MuxTable.Channels.New` | `cluster/cmxsafe-gw/openssh/openssh-portable-V_9_2_P1/channels.c:449-506` | takes the first free slot, growing the table by ten when there is none, and fails exactly above the limit; the new channel's id is its slot |
| `MuxTable.Channels.FreeChannel` | `cluster/cmxsafe-gw/openssh/openssh-portable-V_9_2_P1/channels.c:698-762` | empties exactly the channel's slot; a mux client first lets go of exactly its own proxies |
| `MuxTable.Channels.ProxyOpen` | `cluster/cmxsafe-gw/openssh/openssh-portable-V_9_2_P1/channels.c:3096-3132` | a client's open gets a new slot that remembers the client and its id; the server is sent the slot's id instead |
| `MuxTable.Channels.ProxyConfirm` | `cluster/cmxsafe-gw/openssh/openssh-portable-V_9_2_P1/channels.c:3133-3170` | the same for a client's confirmation, which also records the server's id |
| `MuxTable.Channels.ProxyClose` | `cluster/cmxsafe-gw/openssh/openssh-portable-V_9_2_P1/channels.c:3181-3196` | a client's close marks the proxy, or frees it if the server closed first |
| `MuxTable.Channels.ProxyUpstream` | `cluster/cmxsafe-gw/openssh/openssh-portable-V_9_2_P1/channels.c:3227-3304` | a server message goes to the proxy's client under the client's own id; confirmations record the server's id, closes mark or free the slot |
| `MuxRuns.StepKeeps` | `cluster/cmxsafe-gw/openssh/openssh-portable-V_9_2_P1/channels.c:3227-3304` | every event keeps the table invariant (own ids equal slots, clients of routed proxies are live, no proxy has seen both closes) and moves the abstract routes as specified, a close at the first channel with the remote id, whatever ids the server repeats |
| `MuxRuns.StepFollows` | `cluster/cmxsafe-gw/openssh/openssh-portable-V_9_2_P1/channels.c:3181-3196` | with unique live remote ids the close too is a step on the routes alone |
| `MuxRuns.TableFollowsEvents` | `cluster/cmxsafe-gw/openssh/openssh-portable-V_9_2_P1/channels.c:3073-3225` | for every interleaving of joins, departures, opens, confirmations, closes and server messages, with unique live remote ids at each client close, the table routes as an observer would who is told the events and the ids given out, and those ids are never ids of live routes, however often ids and slots are reused |
| `MuxRuns.RoutesKeepOwners` | `cluster/cmxsafe-gw/openssh/openssh-portable-V_9_2_P1/channels.c:3096-3170` | in every run, whatever remote ids the server repeats, a live route belongs to the client, and carries the client's id, that its local id was last given to |
| `MuxRuns.DeliveredAfterRun` | `cluster/cmxsafe-gw/openssh/openssh-portable-V_9_2_P1/channels.c:3227-3264` | after every run, whatever remote ids the server repeats, a server message for a live route is queued for the client its local id was last given to, under that client's own id, and for nobody else |
| `MuxRuns.UpDelivers` | `cluster/cmxsafe-gw/openssh/openssh-portable-V_9_2_P1/channels.c:3227-3264` | a server message for a routed local id is queued for the client that created it, with that client's own id, and for nobody else |
| `MuxRuns.OpenedRoute` | `cluster/cmxsafe-gw/openssh/openssh-portable-V_9_2_P1/channels.c:3096-3170` | a client's open makes a route under its own id without a server id, its confirmation one with the id it names |
| `MuxRuns.ConfirmationRecords` | `cluster/cmxsafe-gw/openssh/openssh-portable-V_9_2_P1/channels.c:3286-3292` | a confirmation with something behind its first four bytes records the number they spell, highest byte first, as the server's id of that route, and changes no route otherwise |
| `MuxRuns.ShortConfirmation` | `cluster/cmxsafe-gw/openssh/openssh-portable-V_9_2_P1/channels.c:3286-3292` | one of at most four bytes records nothing |
| `MuxRuns.ConfirmedRouteCloses` | `cluster/cmxsafe-gw/openssh/openssh-portable-V_9_2_P1/channels.c:3181-3298` | after such a confirmation, with unique ids, a client's close for that number marks or ends exactly that route, and the slot is freed once the server's close has come too |
| `MuxRuns.LeavingDetaches` | `cluster/cmxsafe-gw/openssh/openssh-portable-V_9_2_P1/channels.c:698-762` | a leaving client's proxies become ordinary channels without a client; no other slot changes |
| `MuxRuns.TableGrows` | `cluster/cmxsafe-gw/openssh/openssh-portable-V_9_2_P1/channels.c:449-506` | the table grows, by ten, only when no slot is free |
| `MuxRuns.DownCloseFollows` | `cluster/cmxsafe-gw/openssh/openssh-portable-V_9_2_P1/channels.c:3181-3196` | with unique live remote ids a client's close affects exactly the route to that remote channel |
| `MuxRuns.FreedOnSecondClose` | `cluster/cmxsafe-gw/openssh/openssh-portable-V_9_2_P1/channels.c:3273-3290` | whichever close comes second frees the slot; the first one never does |
| `PollTable.Poller.PreparePollfd` | `cluster/cmxsafe-gw/openssh/openssh-portable-V_9_2_P1/channels.c:2637-2737` | one channel's wanted descriptors are packed one after the other from the next free index, and every other array entry is unchanged; it never runs past the end if four entries per channel are there |
| `PollTable.Poller.PreparePoll` | `cluster/cmxsafe-gw/openssh/openssh-portable-V_9_2_P1/channels.c:2740-2778` | after it the array and the recorded indices are packed: every channel knows where its descriptors are; reserved entries survive, a reallocation included |
| `PollTable.Poller.AfterPoll` | `cluster/cmxsafe-gw/openssh/openssh-portable-V_9_2_P1/channels.c:2809-2886` | on the active entries it ends in a fatal error exactly if some channel's own tests do, and otherwise each channel gets exactly its own result |
| `PollSpec.PackingIsSound` | `cluster/cmxsafe-gw/openssh/openssh-portable-V_9_2_P1/channels.c:2740-2778` | every recorded index lies in the active part of the array and names that channel's descriptor |
| `PollSpec.PackingIsInjective` | `cluster/cmxsafe-gw/openssh/openssh-portable-V_9_2_P1/channels.c:2655-2735` | no two (channel, descriptor) pairs share an index |
| `PollSpec.ReadyIsExact` | `cluster/cmxsafe-gw/openssh/openssh-portable-V_9_2_P1/channels.c:2809-2886` | for a consistent channel no fatal error is raised, nothing but io_ready changes, and io_ready becomes exactly the wanted kinds of I/O whose entry reported them |
| `PollSpec.PackedIsConsistent` | `cluster/cmxsafe-gw/openssh/openssh-portable-V_9_2_P1/channels.c:2781-2803` | packing establishes that consistency, whatever valid events poll reports |
| `PollSpec.RoundIsSafe` | `cluster/cmxsafe-gw/openssh/openssh-portable-V_9_2_P1/channels.c:2781-2886` | prepare, poll, test against the active count: the round is fatal for a channel if and only if its layout is bad (read and write descriptors differ, and another shares the read descriptor) |
| `PollSpec.RegisteredLayoutIff` | `cluster/cmxsafe-gw/openssh/openssh-portable-V_9_2_P1/channels.c:383-400` | registration makes a bad layout exactly if read and write descriptors are given, differ, and the extended one is the read descriptor |
| `PollSpec.LayoutStaysGood` | `cluster/cmxsafe-gw/openssh/openssh-portable-V_9_2_P1/channels.c:508-556` | good registrations give a good layout, and closing descriptors or reconnecting keeps it |
| `PollSpec.RegisteredRoundIsSafe` | `cluster/cmxsafe-gw/openssh/openssh-portable-V_9_2_P1/channels.c:2781-2886` | a channel with any such history survives the round |
| `PollSpec.SocketStaysShared` | `cluster/cmxsafe-gw/openssh/openssh-portable-V_9_2_P1/channels.c:383-400` | from registration on, through every close and reconnect, an open socket is also the read and the write descriptor |
| `PollSpec.WantedIsArmed` | `cluster/cmxsafe-gw/openssh/openssh-portable-V_9_2_P1/channels.c:2655-2735` | whatever has happened to a channel's descriptors since its creation, every wanted kind of I/O on an open one has an entry that polls for it; the entry without events is never made |
| `PollSpec.PolledForIff` | `cluster/cmxsafe-gw/openssh/openssh-portable-V_9_2_P1/channels.c:2655-2735` | a descriptor has an entry exactly if some I/O is wanted of it, and the entry polls for what that I/O needs and for nothing else; only the entry of a socket of its own polls for nothing |
| `PollSpec.FatalIff` | `cluster/cmxsafe-gw/openssh/openssh-portable-V_9_2_P1/channels.c:2781-2886` | the tests after poll are fatal exactly for a bad layout or for an index beyond the array, of another descriptor's entry, or of one that poll called invalid |
| `PollSpec.CloseForgets` | `cluster/cmxsafe-gw/openssh/openssh-portable-V_9_2_P1/channels.c:508-556` | closing clears every field that holds the descriptor, with its wishes and its index, and nothing else |
| `MethodLists.JoinSplit` | `cluster/cmxsafe-gw/openssh/openssh-portable-V_9_2_P1/auth2.c:551-577` | joining the entries of a comma-separated list gives the list back |
| `MethodLists.StartsWithIsHeadMatch` | `cluster/cmxsafe-gw/openssh/openssh-portable-V_9_2_P1/auth2.c:638-661` | the string test is a test of the list's first entry: equal to the method, to method:submethod, or a method with a submethod still open |
| `MethodLists.RemoveRefinesTail` | `cluster/cmxsafe-gw/openssh/openssh-portable-V_9_2_P1/auth2.c:670-692` | the string edit removes exactly the first entry, and only if the method satisfies it |
| `MethodLists.MethodsValid` | `cluster/cmxsafe-gw/openssh/openssh-portable-V_9_2_P1/auth2.c:550-587` | accepts a list exactly if it is not empty and every entry names a known method, enabled where that is asked for |
| `AuthRuns.GreedyIsExact` | `cluster/cmxsafe-gw/openssh/openssh-portable-V_9_2_P1/auth2.c:696-719` | removing heads greedily loses nothing: the entries gone are the longest prefix that the successes satisfy in order |
| `AuthRuns.UpdateKeeps` | `cluster/cmxsafe-gw/openssh/openssh-portable-V_9_2_P1/auth2.c:696-719` | the update loop reports completion exactly when the new success finishes some list, and otherwise leaves every list the suffix its history says |
| `AuthRuns.NotListedIff` | `cluster/cmxsafe-gw/openssh/openssh-portable-V_9_2_P1/auth2.c:706-719` | the fatal "method not in AuthenticationMethods" is raised exactly when no list gives up an entry |
| `AuthRuns.StepKeeps` | `cluster/cmxsafe-gw/openssh/openssh-portable-V_9_2_P1/auth2.c:349-457` | one request or one resumed method keeps the agreement of stored lists and successes so far |
| `AuthRuns.OrderedMultiFactor` | `cluster/cmxsafe-gw/openssh/openssh-portable-V_9_2_P1/auth2.c:381-386` | a run ends authenticated only after successes that satisfy, in order, every entry of a configured list that passed the set-up |
| `AuthRuns.NoListLeftBehind` | `cluster/cmxsafe-gw/openssh/openssh-portable-V_9_2_P1/auth2.c:599-636` | while a run goes on no list is satisfied yet, and every stored list is the unsatisfied rest of its original, cut at an entry boundary |
| `AuthRuns.AllowedIffNext` | `cluster/cmxsafe-gw/openssh/openssh-portable-V_9_2_P1/auth2.c:460-477` | a method may be tried exactly when it is the next entry of some list |
| `AuthRuns.TriesAreBounded` | `cluster/cmxsafe-gw/openssh/openssh-portable-V_9_2_P1/auth2.c:420-429` | a run that goes on has seen fewer failures than the limit and at most 1024 requests |
| `AuthLimits.FailuresAreCharged` | `cluster/cmxsafe-gw/openssh/openssh-portable-V_9_2_P1/auth2.c:430-441` | over every run the failure count moves by exactly the number of charged events: let in, not logged as a success, not impossible, not postponed, not the server's fault, and not the first request's "none" |
| `AuthLimits.StepCharges` | `cluster/cmxsafe-gw/openssh/openssh-portable-V_9_2_P1/auth2.c:430-441` | one event adds a failure exactly if it is charged, and the client is cut off exactly when that uses up the tries, or when the request is refused at the door |
| `AuthLimits.ChargesRunOut` | `cluster/cmxsafe-gw/openssh/openssh-portable-V_9_2_P1/auth2.c:420-441` | as many charged events as tries end the run |
| `AuthLimits.OneUserPerRun` | `cluster/cmxsafe-gw/openssh/openssh-portable-V_9_2_P1/auth2.c:275-330` | while a run goes on, and when it succeeds, all its requests have named the user and service of the first and have been counted, at most 1024; it succeeds only for a user who exists and the service ssh-connection |
| `AuthLimits.OneSuccessIsEnough` | `cluster/cmxsafe-gw/openssh/openssh-portable-V_9_2_P1/auth2.c:374-386` | without lists, or with "any" alone, no run goes on after a success or ends authenticated without one |
| `AuthLimits.SuccessWasNext` | `cluster/cmxsafe-gw/openssh/openssh-portable-V_9_2_P1/auth2.c:460-543` | a request is logged as a success only for a method of the table with that name or synonym that is enabled and next in some list |
| `AuthLimits.ByNameIsFirst` | `cluster/cmxsafe-gw/openssh/openssh-portable-V_9_2_P1/auth2.c:508-523` | the method of a name is the first of the table with this name or synonym, and none exactly if there is no such |
| `AuthLimits.KeptConcat` | `cluster/cmxsafe-gw/openssh/openssh-portable-V_9_2_P1/auth2.c:599-636` | the set-up judges the lists one by one and keeps their order |
| `AuthLimits.KeptOne` | `cluster/cmxsafe-gw/openssh/openssh-portable-V_9_2_P1/auth2.c:605-621` | a list is stored exactly if all its methods are known and enabled |
| `AuthLimits.FirstRequestRefusedIff` | `cluster/cmxsafe-gw/openssh/openssh-portable-V_9_2_P1/auth2.c:311-313` | the first request is refused exactly if lists are configured and none is valid |
| `AuthContext.Authctxt.SetupMethodsLists` | `cluster/cmxsafe-gw/openssh/openssh-portable-V_9_2_P1/auth2.c:599-636` | keeps exactly the valid lists, in order; fails exactly if there are lists and none is valid; "any" alone means none |
| `AuthContext.Authctxt.MethodAllowed` | `cluster/cmxsafe-gw/openssh/openssh-portable-V_9_2_P1/auth2.c:460-477` | is the specification's test on the stored strings |
| `AuthContext.Authctxt.UpdateMethodsLists` | `cluster/cmxsafe-gw/openssh/openssh-portable-V_9_2_P1/auth2.c:696-719` | leaves the strings and returns the verdict of the specification |
| `AuthContext.Authctxt.UserauthFinish` | `cluster/cmxsafe-gw/openssh/openssh-portable-V_9_2_P1/auth2.c:349-457` | the whole new state after a result, including failure counting, partial success, disconnects and the fatal errors |
| `AuthContext.Authctxt.InputUserauthRequest` | `cluster/cmxsafe-gw/openssh/openssh-portable-V_9_2_P1/auth2.c:257-347` | the whole new state after a request: style cut off the user name, first request set-up, change of user or service, look-up, retry limit, result |
| `Bitmaps.Bitmap.TestBit` | `cluster/cmxsafe-gw/openssh/openssh-portable-V_9_2_P1/bitmap.c:71-78` | membership |
| `Bitmaps.Bitmap.Reserve` | `cluster/cmxsafe-gw/openssh/openssh-portable-V_9_2_P1/bitmap.c:81-97` | grows the array without changing the set, and fails exactly above the limit |
| `Bitmaps.Bitmap.SetBit` | `cluster/cmxsafe-gw/openssh/openssh-portable-V_9_2_P1/bitmap.c:100-112` | inserts the bit, or changes nothing and fails above the limit |
| `Bitmaps.Bitmap.ClearBit` | `cluster/cmxsafe-gw/openssh/openssh-portable-V_9_2_P1/bitmap.c:125-138` | removes the bit |
| `Bitmaps.Bitmap.Retop` | `cluster/cmxsafe-gw/openssh/openssh-portable-V_9_2_P1/bitmap.c:115-122` | moves top down to the highest non-zero word and changes no bit |
| `Bitmaps.Bitmap.NBits` | `cluster/cmxsafe-gw/openssh/openssh-portable-V_9_2_P1/bitmap.c:140-158` | largest member plus one, or 0 for the empty set; the shifting loop ends |
| `Bitmaps.Bitmap.NBytes` | `cluster/cmxsafe-gw/openssh/openssh-portable-V_9_2_P1/bitmap.c:161-164` | the least number of bytes that hold the number |
| `Bitmaps.Bitmap.ToString` | `cluster/cmxsafe-gw/openssh/openssh-portable-V_9_2_P1/bitmap.c:167-185` | writes the shortest big-endian spelling of the sum of 2^i over the set, fails exactly if the buffer is shorter, and writes nowhere else |
| `Bitmaps.Bitmap.FromString` | `cluster/cmxsafe-gw/openssh/openssh-portable-V_9_2_P1/bitmap.c:188-214` | the set becomes the number the string spells, or the call fails exactly above the limit and changes nothing |
| `Bitmaps.SetBitInserts` | `cluster/cmxsafe-gw/openssh/openssh-portable-V_9_2_P1/bitmap.c:100-112` | or-ing 2^(n%32) into word n/32 is insertion of n |
| `Bitmaps.ClearBitRemoves` | `cluster/cmxsafe-gw/openssh/openssh-portable-V_9_2_P1/bitmap.c:125-138` | and-ing its complement is removal of n |
| `Bitmaps.StringRoundTrip` | `cluster/cmxsafe-gw/openssh/openssh-portable-V_9_2_P1/bitmap.c:167-214` | reading back what was written gives the same set |
| `Bitmaps.ReadableIff` | `cluster/cmxsafe-gw/openssh/openssh-portable-V_9_2_P1/bitmap.c:188-197` | the written string is short enough to be read exactly if every member is below the limit |
| `Bitmaps.LimitIsNotReadable` | `cluster/cmxsafe-gw/openssh/openssh-portable-V_9_2_P1/bitmap.c:83-87` | bit BITMAP_MAX itself can be set and written but not read back: the round trip holds if and only if it is absent |
| `Bitmaps.LimitDoesNotSurvive` | `cluster/cmxsafe-gw/openssh/openssh-portable-V_9_2_P1/bitmap.c:167-197` | a concrete bitmap, with the limit alone, whose string is too long to be read |
| `Bitmaps.RewritingStripsZeros` | `cluster/cmxsafe-gw/openssh/openssh-portable-V_9_2_P1/bitmap.c:167-214` | writing what was read gives the input without its leading zero bytes |
| `ChaCha.RunRounds` | `cluster/cmxsafe-gw/openssh/openssh-portable-V_9_2_P1/chacha.c:140-149` | the double-round loop computes ten double rounds of the specification |
| `ChaCha.Context.EncryptWith` | `cluster/cmxsafe-gw/openssh/openssh-portable-V_9_2_P1/chacha.c:89-219` | for any block function: every output byte is the input byte xor the key stream byte, partial last block included, in place or not; the counter words advance by the number of blocks |
| `ChaCha.Context.EncryptBytes` | `cluster/cmxsafe-gw/openssh/openssh-portable-V_9_2_P1/chacha.c:89-219` | the same for the ChaCha block function |
| `ChaChaSpec.CounterAdvances` | `cluster/cmxsafe-gw/openssh/openssh-portable-V_9_2_P1/chacha.c:193-197` | after n blocks words 12 and 13, read as one number, have advanced by n modulo 2^64, and no other word has changed |
| `ChaChaSpec.CryptTwice` | `cluster/cmxsafe-gw/openssh/openssh-portable-V_9_2_P1/chacha.c:89-219` | running the stream again from the same state undoes it |
| `ChaChaSpec.CryptSplits` | `cluster/cmxsafe-gw/openssh/openssh-portable-V_9_2_P1/chacha.c:89-219` | a text split at a multiple of 64 bytes gives the same bytes in two calls |
| `ChaChaSpec.CryptPrefix` | `cluster/cmxsafe-gw/openssh/openssh-portable-V_9_2_P1/chacha.c:89-219` | a prefix of the output depends on that prefix of the input only |
| `ChaChaRounds.QuarterVector` | `cluster/cmxsafe-gw/openssh/openssh-portable-V_9_2_P1/chacha.c:46-50` | the quarter round gives the result of section 2.1.1 of RFC 8439 on its words |
| `ChaChaRounds.QuarterWord` | `cluster/cmxsafe-gw/openssh/openssh-portable-V_9_2_P1/chacha.c:46-50` | for all words it is the one written with wrapping addition, exclusive or and rotation of 32-bit vectors |
| `ChaChaRounds.ColumnsAre` | `cluster/cmxsafe-gw/openssh/openssh-portable-V_9_2_P1/chacha.c:140-145` | the first four quarter rounds act on the four columns of the state |
| `ChaChaRounds.DiagonalsAre` | `cluster/cmxsafe-gw/openssh/openssh-portable-V_9_2_P1/chacha.c:145-149` | the last four act on the four diagonals |
| `ChaChaRounds.DoubleRoundIs` | `cluster/cmxsafe-gw/openssh/openssh-portable-V_9_2_P1/chacha.c:140-149` | for every state a double round is a quarter round on all columns, and then again with row r moved r places to the left |
| `ChaChaRounds.BlockVector` | `cluster/cmxsafe-gw/openssh/openssh-portable-V_9_2_P1/chacha.c:118-200` | the block of section 2.3.2 of RFC 8439, words and first bytes, comes out of its state |
| `ChaChaWords.WordAdds` | `cluster/cmxsafe-gw/openssh/openssh-portable-V_9_2_P1/chacha.c:43-43` | the 32-bit vector of a sum is the wrapping sum of the vectors, for all numbers |
| `ChaChaWords.WordXors` | `cluster/cmxsafe-gw/openssh/openssh-portable-V_9_2_P1/chacha.c:42-42` | and that of an exclusive or the exclusive or |
| `AeadSpec.OpenUndoesSeal` | `cluster/cmxsafe-gw/openssh/openssh-portable-V_9_2_P1/cipher-chachapoly.c:60-121` | opening a sealed packet restores header and payload, for every key, sequence number and length |
| `AeadSpec.SealUndoesOpen` | `cluster/cmxsafe-gw/openssh/openssh-portable-V_9_2_P1/cipher-chachapoly.c:84-93` | a packet that is accepted is the seal of what it opens to |
| `AeadSpec.LengthOfSealed` | `cluster/cmxsafe-gw/openssh/openssh-portable-V_9_2_P1/cipher-chachapoly.c:123-137` | the length field read from any prefix of at least four bytes of a sealed packet is the header's first four bytes |
| `AeadSpec.SealParts` | `cluster/cmxsafe-gw/openssh/openssh-portable-V_9_2_P1/cipher-chachapoly.c:69-121` | one run over 64 zero bytes and the payload gives the authentication key in its first 32 bytes and the payload's ciphertext behind the first block; the header's ciphertext comes from the other key, and the tag covers both |
| `AeadSpec.ContextBytes` | `cluster/cmxsafe-gw/openssh/openssh-portable-V_9_2_P1/chacha.c:52-87` | a context set up for a packet is, byte for byte, the text "expand 32-byte k", the key, the counter lowest byte first, and the sequence number lowest byte last |
| `Aead.ChachaPoly.Encrypt` | `cluster/cmxsafe-gw/openssh/openssh-portable-V_9_2_P1/cipher-chachapoly.c:69-121` | writes header, payload and tag of the seal, in place or not, and nothing behind them; the contexts keep their keys |
| `Aead.ChachaPoly.Decrypt` | `cluster/cmxsafe-gw/openssh/openssh-portable-V_9_2_P1/cipher-chachapoly.c:69-121` | returns 0 and the opened bytes, or the MAC error with the destination untouched, exactly as the tag says |
| `Aead.ChachaPoly.GetPacketLength` | `cluster/cmxsafe-gw/openssh/openssh-portable-V_9_2_P1/cipher-chachapoly.c:123-137` | the decrypted big-endian length, or an error for fewer than four bytes |
| `AesModes.Rijndael.CbcEncryptBytes` | `cluster/cmxsafe-gw/openssh/openssh-portable-V_9_2_P1/cipher-aes.c:70-98` | computes CBC encryption block by block, in place or not; a partial block is fatal; the vector is left at the last ciphertext block |
| `AesModes.Rijndael.CbcDecryptBytes` | `cluster/cmxsafe-gw/openssh/openssh-portable-V_9_2_P1/cipher-aes.c:99-114` | the backward loop computes CBC decryption, also when source and destination are the same; the vector is left at the last ciphertext block |
| `AesModesSpec.CbcRoundTrip` | `cluster/cmxsafe-gw/openssh/openssh-portable-V_9_2_P1/cipher-aes.c:70-114` | decryption undoes encryption for every number of blocks |
| `AesModesSpec.CbcRoundTripBack` | `cluster/cmxsafe-gw/openssh/openssh-portable-V_9_2_P1/cipher-aes.c:70-114` | encryption undoes decryption |
| `AesModesSpec.CbcEncryptChains` | `cluster/cmxsafe-gw/openssh/openssh-portable-V_9_2_P1/cipher-aes.c:97-97` | successive encryptions continue one chain |
| `AesModesSpec.CbcDecryptChains` | `cluster/cmxsafe-gw/openssh/openssh-portable-V_9_2_P1/cipher-aes.c:111-111` | successive decryptions continue one chain |
| `AesModesSpec.CbcEncryptsBytes` | `cluster/cmxsafe-gw/openssh/openssh-portable-V_9_2_P1/cipher-aes.c:70-98` | each ciphertext block is the cipher of the bytewise exclusive or of its plaintext block and the ciphertext block or vector before it |
| `AesModesSpec.CbcDecryptsBytes` | `cluster/cmxsafe-gw/openssh/openssh-portable-V_9_2_P1/cipher-aes.c:99-114` | each plaintext block is the exclusive or of its deciphered block and the ciphertext block or vector before it |
| `AesModes.IncEarlyExit` | `cluster/cmxsafe-gw/openssh/openssh-portable-V_9_2_P1/cipher-aesctr.c:37-40` | the early-exit loop computes the big-endian increment in place |
| `AesModes.IncConstantTime` | `cluster/cmxsafe-gw/openssh/openssh-portable-V_9_2_P1/cipher-aesctr.c:41-53` | the constant-time variant computes the same increment |
| `AesModesSpec.IncAddsOne` | `cluster/cmxsafe-gw/openssh/openssh-portable-V_9_2_P1/cipher-aesctr.c:32-54` | the increment is +1 modulo 2^(8*len) |
| `AesModesSpec.CountedValue` | `cluster/cmxsafe-gw/openssh/openssh-portable-V_9_2_P1/cipher-aesctr.c:68-82` | after k blocks the counter is k more, modulo 2^128 |
| `AesModesSpec.CounterReuseIff` | `cluster/cmxsafe-gw/openssh/openssh-portable-V_9_2_P1/cipher-aesctr.c:68-82` | two blocks of a stream use the same counter exactly if their positions agree modulo 2^128 |
| `AesModes.AesCtr.EncryptBytes` | `cluster/cmxsafe-gw/openssh/openssh-portable-V_9_2_P1/cipher-aesctr.c:68-82` | the byte loop computes counter mode, in place or not, and leaves the counter after the blocks it started |
| `AesModesSpec.CtrTwice` | `cluster/cmxsafe-gw/openssh/openssh-portable-V_9_2_P1/cipher-aesctr.c:68-82` | running counter mode again from the same counter undoes it |
| `AesModesSpec.CtrSplits` | `cluster/cmxsafe-gw/openssh/openssh-portable-V_9_2_P1/cipher-aesctr.c:68-82` | a text split at a multiple of 16 bytes gives the same bytes in two calls |
| `AesModesSpec.CtrAt` | `cluster/cmxsafe-gw/openssh/openssh-portable-V_9_2_P1/cipher-aesctr.c:68-82` | byte 16 q + n is exclusive-ored with byte n of the cipher of the starting counter plus q, modulo 2^128 |
| `OptionBuffer.Sshbuf.Serialise` | `cluster/cmxsafe-gw/openssh/openssh-portable-V_9_2_P1/auth-options.c:793-843` | appends exactly the record's wire form; succeeds if and only if it fits behind what the buffer holds; an untrusted peer gets a record without text |
| `OptionBuffer.Sshbuf.Deserialise` | `cluster/cmxsafe-gw/openssh/openssh-portable-V_9_2_P1/auth-options.c:845-908` | returns exactly what the parse of the buffer's front is, error codes included, and consumes exactly what was parsed |
| `OptionBuffer.Sshbuf.SerialiseArray` | `cluster/cmxsafe-gw/openssh/openssh-portable-V_9_2_P1/auth-options.c:701-726` | appends count and strings, or fails exactly if they do not fit |
| `OptionBuffer.Sshbuf.DeserialiseArray` | `cluster/cmxsafe-gw/openssh/openssh-portable-V_9_2_P1/auth-options.c:728-767` | reads the announced number of strings from the inner buffer; every error of the source, in its order |
| `OptionWire.ParseWire` | `cluster/cmxsafe-gw/openssh/openssh-portable-V_9_2_P1/auth-options.c:793-908` | reading what was written gives the record with flags cut to bytes and odd device numbers turned to 0, and leaves exactly what follows |
| `OptionWire.RoundTripIff` | `cluster/cmxsafe-gw/openssh/openssh-portable-V_9_2_P1/auth-options.c:793-908` | a record survives the trip unchanged if and only if its flags are bytes and its tunnel device is at least -1, which is the domain of the format |
| `OptionWire.RereadIff` | `cluster/cmxsafe-gw/openssh/openssh-portable-V_9_2_P1/auth-options.c:845-908` | a record that was read can be written, and reads the same again if and only if its device number is at least -1 |
| `OptionWire.HighDeviceBecomesZero` | `cluster/cmxsafe-gw/openssh/openssh-portable-V_9_2_P1/auth-options.c:878-882` | a device number of 2^31 on the wire is read as a negative one, which is written back as 0 |
| `OptionWire.WireIsPrefixFree` | `cluster/cmxsafe-gw/openssh/openssh-portable-V_9_2_P1/auth-options.c:793-908` | equal streams carry equal records and equal remainders |
| `OptionWire.WireNullableBack` | `cluster/cmxsafe-gw/openssh/openssh-portable-V_9_2_P1/auth-options.c:769-791` | a missing string and an empty one stay different |
| `OptionWire.WireListBack` | `cluster/cmxsafe-gw/openssh/openssh-portable-V_9_2_P1/auth-options.c:701-767` | arrays of any length survive the trip |
| `OptionWire.FlagPositions` | `cluster/cmxsafe-gw/openssh/openssh-portable-V_9_2_P1/auth-options.c:799-811` | the nine flags are the first nine bytes, in the order written |
| `OptionWire.NumberPositions` | `cluster/cmxsafe-gw/openssh/openssh-portable-V_9_2_P1/auth-options.c:813-822` | then eight bytes spell the expiry and five the tunnel device, highest byte first |
| `OptionWire.TailOrder` | `cluster/cmxsafe-gw/openssh/openssh-portable-V_9_2_P1/auth-options.c:824-842` | then come the four strings and the three arrays, in this order |
| `OptionWire.NullableForm` | `cluster/cmxsafe-gw/openssh/openssh-portable-V_9_2_P1/auth-options.c:769-791` | a missing string is a set flag and no bytes, any other a clear flag, its length and its bytes |
| `OptionWire.ListForm` | `cluster/cmxsafe-gw/openssh/openssh-portable-V_9_2_P1/auth-options.c:701-726` | an array is its length, the room of its strings, and the strings |
| `OptionWire.UntrustedRecord` | `cluster/cmxsafe-gw/openssh/openssh-portable-V_9_2_P1/auth-options.c:824-842` | an untrusted peer reads the flags and numbers, "yes" and "true" for two of the texts and nothing for the others; records that differ in texts only give it equal bytes |
| `OptionWire.TrustedRecord` | `cluster/cmxsafe-gw/openssh/openssh-portable-V_9_2_P1/auth-options.c:824-842` | a trusted peer reads the whole record |
| `OptionWire.ShortRecord` | `cluster/cmxsafe-gw/openssh/openssh-portable-V_9_2_P1/auth-options.c:856-871` | a buffer that ends within the flags is read to its end |
| `OptionWire.HugeCount` | `cluster/cmxsafe-gw/openssh/openssh-portable-V_9_2_P1/auth-options.c:728-767` | a count above the largest int is invalid, and its room is consumed |
| `ServiceText.ContainsRender` | `cluster/k8s-client/main.go:266-272` | a reference is found in the index string exactly if some token ends with it |
| `ServiceText.AppendIsExact` | `cluster/k8s-client/main.go:266-272` | appending adds the token if it is new, if and only if the token is there already or no other token ends with it |
| `ServiceText.RemoveIsExact` | `cluster/k8s-client/main.go:273-282` | replacing a reference by nothing removes its token and nothing else, if and only if no other token ends with it |
| `ServiceText.SplitRender` | `cluster/k8s-client/main.go:305-307` | splitting the stored string gives the tokens back; an empty entry for none |
| `ServiceIndex.AppendStandsIff` | `cluster/k8s-client/main.go:266-272` | appending under a key is insertion into the relation if and only if the reference is there already or none under that key ends with it |
| `ServiceIndex.RemoveStandsIff` | `cluster/k8s-client/main.go:273-282` | removing under a key is deletion from the relation if and only if no other reference under that key ends with it |
| `ServiceIndex.StepStandsIff` | `cluster/k8s-client/main.go:105-147` | the cache follows the relation through an event if and only if each edit of the event is so |
| `ServiceIndex.CacheStandsForRelation` | `cluster/k8s-client/main.go:105-147` | after every sequence of such service events and name claims the cache spells out the relation between keys and references, each reference once under each of its keys; and it does so after every event on the way if and only if every event was so |
| `ServiceIndex.NoClashIsSound` | `cluster/k8s-client/main.go:122-123` | references none of which ends with another are always so, under whatever keys |
| `ServiceIndex.AgreementIff` | `cluster/k8s-client/main.go:114-147` | an event keeps index and live services in agreement if and only if the added service is managed exactly when it has a key, or the deleted one is managed if it has a key |
| `ServiceIndex.AlwaysMatchesIff` | `cluster/k8s-client/main.go:114-147` | the agreement lasts through a whole history if and only if every event is so |
| `ServiceIndex.UnmanagedIsLeftBehind` | `cluster/k8s-client/main.go:125-147` | a concrete history after which a deleted service is still in the relation and still listed in the cache |
| `ServiceIndex.IndexAgreesWithServices` | `cluster/k8s-client/main.go:105-147` | for histories an informer can report, of such services and sound events, the cache lists under each key exactly the live services with that key |
| `ServiceIndex.ClashIff` | `cluster/k8s-client/main.go:122-123` | one reference ends with another exactly when the names agree and one namespace ends with the other |
| `ServiceIndex.NamesakeIsLost` | `cluster/k8s-client/main.go:266-282` | a namesake in such a namespace is never listed, and removing it damages the other entry |
| `ServiceIndex.ClaimOutcome` | `cluster/k8s-client/main.go:300-339` | a claim returns no name exactly if another reference under the key could not be cleared, and otherwise appends the claimed service |
| `ServiceIndex.KeyOfHost` | `cluster/k8s-client/main.go:105-123` | a host name under .myservices.local is listed without it, any other as it is and not as managed |
| `ServiceIndex.AddedIsListed` | `cluster/k8s-client/main.go:114-124` | a load balancer added under such a host name is listed there, by name space and name, and nothing changes under other keys |
| `ServiceIndex.ClaimIsListed` | `cluster/k8s-client/main.go:300-339` | a claim that clears the name returns it, and lists the user's service in the default name space under it |
| `ServiceCache.Index.Append` | `cluster/k8s-client/main.go:266-272` | the new cache |
| `ServiceCache.Index.Remove` | `cluster/k8s-client/main.go:273-282` | the new cache; an entry that becomes blank is deleted |
| `ServiceCache.Index.OnUpdate` | `cluster/k8s-client/main.go:125-138` | the new cache after an update event |
| `ServiceCache.Index.HandleNSService` | `cluster/k8s-client/main.go:300-339` | the new cache and the returned name of a claim |
| `ServiceCache.KeepInPlace` | `cluster/k8s-client/main.go:311-325` | filtering into the front of the array that is being read keeps exactly the entries of other services whose patch failed, in order |
| `GroupChoice.FirstPass` | `cluster/cmxsafe-gw/openssh/openssh-portable-V_9_2_P1/dh.c:173-195` | the best size and the number of its occurrences in the whole file, although the count starts over at every new best |
| `GroupChoice.SecondPass` | `cluster/cmxsafe-gw/openssh/openssh-portable-V_9_2_P1/dh.c:209-226` | stops at the drawn occurrence of the best size, or reports that it disappeared |
| `GroupChoice.ChooseDh` | `cluster/cmxsafe-gw/openssh/openssh-portable-V_9_2_P1/dh.c:158-235` | with an unchanged file the result is the drawn one of the groups of best size, and the fallback is used only if nothing is in range; a chosen group is always in range and of best size, even if the file changed |
| `GroupChoice.BestMeaning` | `cluster/cmxsafe-gw/openssh/openssh-portable-V_9_2_P1/dh.c:186-192` | the best size occurs; it is the maximum if no candidate reaches the wanted size, and otherwise reaches it with no candidate strictly between |
| `GroupChoice.CandidateIff` | `cluster/cmxsafe-gw/openssh/openssh-portable-V_9_2_P1/dh.c:173-185` | a group is a candidate exactly if a line holds it and its size is in range |
| `GroupChoice.ExactSizeIff` | `cluster/cmxsafe-gw/openssh/openssh-portable-V_9_2_P1/dh.c:186-192` | the wanted size itself is chosen if and only if it stands before every larger candidate |
| `GroupChoice.LargerGroupHidesExact` | `cluster/cmxsafe-gw/openssh/openssh-portable-V_9_2_P1/dh.c:186-192` | a larger group listed first hides one of exactly the wanted size |
| `Addr.AddrNetmask` | `cluster/cmxsafe-gw/openssh/openssh-portable-V_9_2_P1/addr.c:166-193` | the mask of the given length, or failure without change |
| `Addr.AddrAnd` | `cluster/cmxsafe-gw/openssh/openssh-portable-V_9_2_P1/addr.c:207-228` | word-wise and, scope from the first, also when the destination is the first address; a destination that is the second ends as the first; failure without change for mixed families |
| `Addr.AddrInvert` | `cluster/cmxsafe-gw/openssh/openssh-portable-V_9_2_P1/addr.c:140-158` | word-wise complement |
| `Addr.AddrCmp` | `cluster/cmxsafe-gw/openssh/openssh-portable-V_9_2_P1/addr.c:252-283` | integer order within a family, byte by byte for IPv6, then scope; IPv6 above all others |
| `Addr.AddrIncrement` | `cluster/cmxsafe-gw/openssh/openssh-portable-V_9_2_P1/addr.c:304-323` | carries from the last word up, in place |
| `Addr.AddrHostIsAll0s` | `cluster/cmxsafe-gw/openssh/openssh-portable-V_9_2_P1/addr.c:332-343` | 0 if and only if the mask length is valid and 2 to the number of host bits divides the address |
| `Addr.AddrNetmatch` | `cluster/cmxsafe-gw/openssh/openssh-portable-V_9_2_P1/addr.c:493-506` | 0 if and only if families and (for IPv6) scopes agree, the length is valid, the net has no host bits, and both have the same quotient by 2 to the number of host bits |
| `AddrSpec.MaskedNum` | `cluster/cmxsafe-gw/openssh/openssh-portable-V_9_2_P1/addr.c:166-228` | and-ing a mask subtracts the remainder by 2 to the number of host bits, for any number of words |
| `AddrSpec.HostZeroIffDivides` | `cluster/cmxsafe-gw/openssh/openssh-portable-V_9_2_P1/addr.c:332-343` | the inverted mask leaves zero if and only if that power of 2 divides the address |
| `AddrSpec.NetMatchIff` | `cluster/cmxsafe-gw/openssh/openssh-portable-V_9_2_P1/addr.c:493-506` | the masked host equals the net if and only if the net has no host bits and the quotients agree |
| `AddrSpec.InvertNum` | `cluster/cmxsafe-gw/openssh/openssh-portable-V_9_2_P1/addr.c:140-158` | inverting counts the address down from the last one |
| `AddrSpec.IncrementNum` | `cluster/cmxsafe-gw/openssh/openssh-portable-V_9_2_P1/addr.c:304-323` | increment is +1, and the last address wraps to zero |
| `GatherIo.Atomiciov` | `cluster/cmxsafe-gw/openssh/openssh-portable-V_9_2_P1/atomicio.c:104-172` | how it ends, how much it hands over and after how many calls is what a plain counter of bytes gives that offers each call all that is left; what is handed over is that prefix of the chunks, and its length the sum of what the calls reported; the returned value is 0 after an error or fault |
| `GatherIo.DriveCounts` | `cluster/cmxsafe-gw/openssh/openssh-portable-V_9_2_P1/atomicio.c:122-170` | the counter has moved the sum of what the calls reported, without the last call if that claimed too much; finished means everything was moved, pending means not |
| `GatherIo.NoCallTooMany` | `cluster/cmxsafe-gw/openssh/openssh-portable-V_9_2_P1/atomicio.c:122-122` | no call is made once everything has been reported |
| `GatherIo.DriveEnds` | `cluster/cmxsafe-gw/openssh/openssh-portable-V_9_2_P1/atomicio.c:124-168` | each early end has its cause in the last call |
| `GatherIo.StopsIff` | `cluster/cmxsafe-gw/openssh/openssh-portable-V_9_2_P1/atomicio.c:122-170` | every call but the last gives no cause to stop, and the operation ends early exactly if the last one does |
| `GatherIo.OverclaimIsFault` | `cluster/cmxsafe-gw/openssh/openssh-portable-V_9_2_P1/atomicio.c:151-155` | a call that claims more than it was offered is the last one and ends in the branch that should not happen |
| `GatherIo.NeverFaults` | `cluster/cmxsafe-gw/openssh/openssh-portable-V_9_2_P1/atomicio.c:151-155` | with a write function that never does, that branch is unreachable |
| `GatherIo.SkipDone` | `cluster/cmxsafe-gw/openssh/openssh-portable-V_9_2_P1/atomicio.c:146-151` | completed chunks, empty ones in between included, are skipped without losing a byte |
| `GatherIo.Advance` | `cluster/cmxsafe-gw/openssh/openssh-portable-V_9_2_P1/atomicio.c:144-162` | what is left after a partial write is exactly the rest, with the chunk in progress cut in place |

## Left out

- The half-close automaton (nchan.c): `istate`, `ostate` and the EOF and CLOSE flags change by an environment step of the flow model at any time, not by the automaton's rules.
- Channel types other than open and zombie: larval, opening, abandoned and connecting channels carry no window traffic of their own here.
- Datagram channels, dynamic forwarding before it is open, X11 channels and channels with filters: their accounting differs between sender and receiver, or bypasses the window.
- ChannelObject.Channel.HandleRfd: forced reads of a detached terminal are left out, and that a read returns at most what was asked for is taken from the system call; so too for the extended descriptor.
- ChannelObject.Channel.HandleEfdRead: forced reads of a detached terminal are left out.
- ChannelObject.Channel.OutputPollInputOpen: the end-of-file step for a drained input belongs to the half-close automaton, and the datagram branch is left out.
- Bytes read in a buffer-limited pass: the flow model takes the room in the buffer as a parameter of each read; buffer sizes themselves are not modelled.
- FlowFair.EveryFairScheduleDelivers: nothing new is read during the schedule, no half-close happens and no extended write fails; extended data that would be ignored must not be waiting at the sender or under way.
- FlowTheorems.StreamExactness: the form with written and buffered bytes is stated while the receiver's output was never cut off; after a half-close only the form with received bytes remains.
- MuxTable.Channels.FreeChannel: remote forwardings of a mux client are not cancelled; channels are values in array slots and a channel pointer is a slot index, so two pointers to one freed channel are not modelled.
- MuxTable.Channels.ProxyUpstream: the packet's header bytes are a kind, an id and a body, not a rebuilt buffer.
- The global-request and permission branches of the proxy's downstream side, and mux clients that are only marked dead.
- MuxRuns.TableFollowsEvents: the observer is told each id given out, as the server is; that an id is the first free slot is not derived by the observer.
- PollTable.Poller.PreparePoll: which kinds of I/O each channel wants is an input; the handlers that choose them and their time-outs are not modelled.
- Sockets, poll, fcntl, logging, signals and terminals: reads and writes are oracles that return data or a count.
- PAM, GSSAPI, Kerberos, BSD authentication, audit, banner and timing delays in authentication: the result of a method, of the root check and of the account check is part of each event.
- AuthContext.Authctxt.InputUserauthRequest: the style cut off the user name is not stored, since only the methods read it.
- Bitmaps.Bitmap.Reserve: allocation cannot fail; the same holds for every buffer and array of the project.
- ChaCha.Context.EncryptBytes: the key set-up is the one for 256-bit keys, the only one the packet cipher uses.
- Aead.ChachaPoly.Decrypt: clearing of temporary key material and the constant time of the comparison are not modelled.
- AesModes.Rijndael.CbcEncryptBytes: source and destination are the same array or different ones from their first byte on; overlapping ranges at different offsets are not modelled.
- PollSpec.WantedIsArmed: the connect loop's own check of a pending socket and the shutdown of a socket's halves leave the descriptors as they are and are no steps of the model.
- OptionBuffer.Sshbuf.Deserialise: a device number of 2^31 or more is read as the negative int that common compilers produce.
- ServiceCache.Index.HandleNSService: each API call is an oracle that succeeds or fails per reference, and each handler is one atomic step; goroutine races are not modelled.
- ServiceIndex.CacheStandsForRelation: white space is the Latin-1 set; references never contain other white space.
- ServiceIndex.IndexAgreesWithServices: histories without name claims, because a claim lists a service before the informer has reported it.
- GroupChoice.ChooseDh: parsing of a moduli line is an input, and sizes are positive; a wanted size below 1 is not covered.
- Addr.AddrNetmatch: words are the big-endian numbers of their four bytes, so htonl and ntohl disappear; parsing and printing of addresses are not modelled.
- GatherIo.Atomiciov: writing is modelled; reading differs in who fills the chunks only.  The call is observed for any number of calls of the write function and may still be running after them.  The single-buffer form is not modelled; unlike this one it has no branch for a call that claims too much.
- Option merging, permission matching and host name look-ups: each follows from reading one branch.
- The OpenSSL-backed ciphers and digests.
- Kubernetes objects, the Tetragon stream and the endpoint slices of the control client.

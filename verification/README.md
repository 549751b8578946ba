# Models of the RTL8189ES driver

Models of the parts of the vendored Realtek wireless driver whose behaviour is hard to see from
one function body, with proofs of what they keep.  Each file is one component and one module.

- `CommandThread`, `CommandThreadProof`: the command queue as a state machine.  Submitters and
  the command thread interleave in atomic steps (lock regions, dequeue, checks, handler call,
  completion, free, timeout, return); the lifetime of every command object and of every submit
  context on a submitter's stack is part of the state, and touching either after its end is
  recorded as a fault.  `rtw_sctx_wait` and `rtw_sctx_done*` are modelled by their contracts.
- `Nat25Spec`, `Nat25`, `Nat25Address`: the NAT2.5 address database, as a map and as the chained
  hash table with `next_hash` and `pprev_hash` over an explicit memory, with the wrapping tick
  counter.  The table is generic in the address type; `Nat25Address` supplies the driver's.
- `IeList`, `IeEdit`, `P2pEdit`: information elements as bytes, and the functions that search,
  filter and edit them in place.
- `BeaconIe`, `Tim`: splicing elements into the soft AP's beacon, and the TIM element.
- `PppoeRelay`: the Relay-Session-Id tag that carries a client's address through PPPoE discovery.
- `ApStations`: station flags, the counters over them, the ERP element and the HT operation mode.
- `Sounding`: the beamforming sounding scheduler.
- `ChannelGroup`: fitting channel settings into a group, the AP's decision, and the union.
- `AccessList`, `KeepAlive`, `BeaconTimer`: the MAC access lists, keep-alive expiry, and the
  software beacon timer.
- `Sequences`, `Arithmetic`: what the others share about encoded lists, slices and remainders.

Code that changes a buffer or a structure in place is a class or a method over an array, proved
against a function on values; what that function means is then proved in lemmas.

Where the code does less than one would expect, the lemmas say so and give the exact condition:
the relay tag is built on hosts of network byte order only, and an empty relay tag is lost
(`PppoeRelay`); a beacon is torn by the TIM insertion when the element after SSID and rates has more or less than
one byte of data (`Tim`);
`rtw_remove_bcn_ie` does not undo an addition that was silently skipped (`BeaconIe`); the Barker
bit goes stale, three HT flags outlive a changed association, and the operation mode is wrong
exactly while no non-HT station is associated and the report about legacy APs it was last computed
with is not the present one (`ApStations`); the channel union
can depend on the order of the interfaces (`ChannelGroup`); stopping a sounding period that waits
for its start command leaves that command queued, to be run without a period (`Sounding`); the
32-bit reduction of the timing function can be wrong when it wraps, and the beacon timer's offset can
be zero (`BeaconTimer`); the tick comparison flips half a counter range later (`Nat25Spec`).

Preconditions are what the code relies on: element and tag lists are well formed,
vendor elements carry their identifying bytes, P2P attribute lists are complete, and buffers have
room for what is spliced into them.

## Model

| member | source | states |
|---|---|---|
| CommandThreadProof.NoUseAfterFree | src/rtl8189ES_linux/core/rtw_cmd.c:646-683 | in every interleaving of submitters, timeouts and the thread, the thread never touches a freed command nor a context whose submitter returned, a submitter never writes a freed command, and every context is completed, every object freed and every payload freed at most once |
| CommandThreadProof.StatusIsTruthful | src/rtl8189ES_linux/core/rtw_cmd.c:646-656 | a context that reads success belongs to a command whose handler ran and returned success; one that reads dropped belongs to a command that never ran |
| CommandThreadProof.CommandsAreConserved | src/rtl8189ES_linux/core/rtw_cmd.c:543-641 | accepted commands are at every moment finished, in hand or queued, each exactly once and in acceptance order, and handlers run in acceptance order, put-backs to the head included |
| CommandThreadProof.FinishedCommandsAreReleased | src/rtl8189ES_linux/core/rtw_cmd.c:665-725 | a command that left the thread had its payload freed exactly once, its context detached, and its object freed exactly once unless the disconnect callback keeps it after a failure |
| CommandThreadProof.RefusedCommandsAreReleased | src/rtl8189ES_linux/core/rtw_cmd.c:433-475 | a refused submission never enters the queue, and object and payload are freed exactly once |
| CommandThreadProof.NoLostWakeup | src/rtl8189ES_linux/core/rtw_cmd.c:433-475 | when the thread sleeps with the semaphore at zero and has not put a command back, every queued command belongs to a submitter that is about to raise the semaphore |
| CommandThreadProof.ScheduleKeepsInv | src/rtl8189ES_linux/core/rtw_cmd.c:521-733 | the invariant behind these holds after every schedule from a state in which it holds |
| Nat25.Bridge.constructor | src/rtl8189ES_linux/core/rtw_br_ext.c:612-640 | an empty table is well formed |
| Nat25.Bridge.Link | src/rtl8189ES_linux/core/rtw_br_ext.c:380-394 | the four pointer writes of linking, as one function of memory |
| Nat25.Bridge.Unlink | src/rtl8189ES_linux/core/rtw_br_ext.c:397-410 | unlinking through the back-pointer, as one function of memory |
| Nat25.LinkKeepsChain | src/rtl8189ES_linux/core/rtw_br_ext.c:380-394 | linking an entry into a well-formed chain gives the chain with that entry in front, back-pointers included |
| Nat25.UnlinkKeepsChain | src/rtl8189ES_linux/core/rtw_br_ext.c:397-410 | unlinking any member of a well-formed chain gives the chain without it, back-pointers included |
| Nat25.ChainsDisjoint | src/rtl8189ES_linux/core/rtw_br_ext.c:328-410 | in a well-formed table no entry is in two chains |
| Nat25.Bridge.Find | src/rtl8189ES_linux/core/rtw_br_ext.c:413-420 | walking the bucket of an address finds its entry if and only if the map has it |
| Nat25.Bridge.Lookup | src/rtl8189ES_linux/core/rtw_br_ext.c:413-485 | refines the map: an unexpired match writes the recorded MAC into the frame and adds one use, an expired match returns 1 and changes nothing, a miss returns 0; the table stays well formed |
| Nat25.Bridge.Insert | src/rtl8189ES_linux/core/rtw_br_ext.c:487-522 | refines a map update that keeps an existing use count, starts a new one at 1, and does nothing if allocation fails; the table stays well formed |
| Nat25.Bridge.Expire | src/rtl8189ES_linux/core/rtw_br_ext.c:641-726 | refines one expire pass of the map; the table stays well formed, and the shortcut is dropped exactly if the address it names is forgotten |
| Nat25.Bridge.Cleanup | src/rtl8189ES_linux/core/rtw_br_ext.c:612-638 | frees every entry, empties every chain and drops the shortcut |
| Nat25.Bridge.UseShortcut | src/rtl8189ES_linux/core/rtw_xmit.c:4343-4366 | a hit through the shortcut renews exactly the entry it points at, which is allocated; the shortcut stays for the same source address, moves to the entry of the address, if there is one, for another, and is unset otherwise; the map and what is remembered afterwards are given for every case |
| Nat25.Bridge.Replay | src/rtl8189ES_linux/core/rtw_br_ext.c:380-726 | any run of operations and of packets through the shortcut, interleaved at will, does to chains, memory and shortcut what the same run does to the map and the named address, and ends well formed |
| Nat25Spec.ServedAsRun | src/rtl8189ES_linux/core/rtw_br_ext.c:612-726 | in every such run the shortcut never outlives the address it names, and the map is that of a run without the shortcut in which each packet renews one address or none, so the properties of those runs hold of these |
| Nat25Spec.SilentStationForgotten | src/rtl8189ES_linux/core/rtw_br_ext.c:692-726 | in every such run an expired address that no packet renews is gone after exactly as many further passes as its use count, and with it any shortcut that named it |
| Nat25Spec.RunKeepsCounted | src/rtl8189ES_linux/core/rtw_br_ext.c:487-522 | over every run each recorded address has a use count of at least one |
| Nat25Spec.ExpiredExact | src/rtl8189ES_linux/core/rtw_br_ext.c:145-162 | the wrapping comparison says exactly that the ageing time has passed, up to half the counter range beyond it |
| Nat25Spec.ExpiredFlips | src/rtl8189ES_linux/core/rtw_br_ext.c:145-162 | from there on, for half the range, it says the opposite |
| Nat25Spec.AgedEntryCountsDown | src/rtl8189ES_linux/core/rtw_br_ext.c:641-726 | an expired entry that is not inserted again is gone after exactly as many further passes as its use count, whatever lookups happen in between |
| Nat25Spec.FreshEntryStays | src/rtl8189ES_linux/core/rtw_br_ext.c:641-726 | an unexpired entry is never removed by expire passes, and every lookup adds one use |
| Nat25Spec.AbsentStaysAbsent | src/rtl8189ES_linux/core/rtw_br_ext.c:487-522 | an address that is absent and not inserted stays absent |
| Nat25Address.Hash | src/rtl8189ES_linux/core/rtw_br_ext.c:328-377 | the hash of every network address is below the number of buckets |
| Nat25Address.NewBridge | src/rtl8189ES_linux/core/rtw_br_ext.c:328-377 | the driver's table is the generic one with the driver's hash |
| IeList.EncInjective | src/rtl8189ES_linux/core/rtw_ieee80211.c:325-349 | the bytes of an element list determine the list |
| IeList.GetIe | src/rtl8189ES_linux/core/rtw_ieee80211.c:325-349 | position and length of the first element with an id, or none |
| IeEdit.GetIeEx | src/rtl8189ES_linux/core/rtw_ieee80211.c:363-398 | position and size of the first element with an id and a vendor prefix, or none |
| IeEdit.IesRemoveIe | src/rtl8189ES_linux/core/rtw_ieee80211.c:409-440 | the buffer holds exactly the list with every match from the offset on filtered out, success means that something was removed, and nothing before the offset or after the list changes |
| IeEdit.KeepFacts | src/rtl8189ES_linux/core/rtw_ieee80211.c:409-440 | the filter keeps exactly the elements that do not match |
| IeEdit.KeepIdempotent | src/rtl8189ES_linux/core/rtw_ieee80211.c:409-440 | removing twice is removing once |
| P2pEdit.GetP2pAttr | src/rtl8189ES_linux/core/rtw_ieee80211.c:2152-2197 | position and size of the first attribute with an id, or none |
| P2pEdit.GetP2pIe | src/rtl8189ES_linux/core/rtw_ieee80211.c:2097-2140 | position and size of the first P2P element, or none, short tails included |
| P2pEdit.DelP2pAttr | src/rtl8189ES_linux/core/rtw_ieee80211.c:2290-2330 | one P2P element keeps exactly its other attributes, in order, and the vacated bytes are zero |
| P2pEdit.BssEx.DelAttr | src/rtl8189ES_linux/core/rtw_ieee80211.c:2349-2405 | the buffer holds the original elements in order with the attribute gone from every P2P element, all length bytes and IELength consistent, the vacated tail zero, nothing else changed; both nested loops end |
| P2pEdit.EncElemsInjective | src/rtl8189ES_linux/core/rtw_ieee80211.c:2349-2405 | a buffer holds at most one well-formed list, attributes included, so the previous row fixes the outcome |
| P2pEdit.DropAllIdempotent | src/rtl8189ES_linux/core/rtw_ieee80211.c:2349-2405 | the attribute is in no element afterwards, the number of elements is the same, and deleting again changes nothing |
| BeaconIe.Beacon.Add | src/rtl8189ES_linux/core/rtw_ap.c:168-231 | the beacon holds the list with the element replaced or inserted at its place, or the same list where the code silently does nothing |
| BeaconIe.Beacon.Remove | src/rtl8189ES_linux/core/rtw_ap.c:233-269 | the beacon holds the list without the first element of that id, if it has data |
| BeaconIe.AddedSorted | src/rtl8189ES_linux/core/rtw_ap.c:168-231 | a list sorted by id stays sorted |
| BeaconIe.RemovedSorted | src/rtl8189ES_linux/core/rtw_ap.c:233-269 | a list sorted by id stays sorted |
| BeaconIe.RemoveUndoesAdd | src/rtl8189ES_linux/core/rtw_ap.c:168-269 | removal undoes an addition if and only if a non-empty element was really inserted, or nothing was added and the list has no element with this id or an empty one first |
| Tim.SetTimIe | src/rtl8189ES_linux/core/rtw_ap.c:49-86 | the element carries the tightest even-aligned window of the bitmap |
| Tim.DecodesExactly | src/rtl8189ES_linux/core/rtw_ap.c:49-86 | a receiver that decodes offset and partial virtual bitmap as section 8.4.2.7 of IEEE 802.11-2012 says gets every bit of the map, bit 0 from the control byte |
| Tim.BoundsUnique | src/rtl8189ES_linux/core/rtw_ap.c:49-86 | there is only one such window |
| Tim.UpdateBcnTim | src/rtl8189ES_linux/core/rtw_ap.c:88-166 | the TIM element of the beacon is replaced, or one is written at the computed place with everything around it kept, also past the end of a list that is too short; the new element decodes to the whole bitmap; the beacon then is a list with it at its place if and only if the place is an element boundary of the old list, and that list is given |
| Tim.SplicedIff | src/rtl8189ES_linux/core/rtw_ap.c:118-163 | for every list, element and place: the spliced bytes are a list with the element at its place if and only if the place is an element boundary |
| Tim.BoundaryIffOneByte | src/rtl8189ES_linux/core/rtw_ap.c:118-140 | behind leading SSID and rates elements, either optional, the computed place is an element boundary if and only if the next element has one byte of data |
| Tim.InsertsBehindDs | src/rtl8189ES_linux/core/rtw_ap.c:118-140 | behind leading SSID, rates and DS elements, the first two optional, the place is between two elements |
| Tim.InsertTearsElement | src/rtl8189ES_linux/core/rtw_ap.c:118-140 | a beacon with SSID, eight rates and a country element but no DS element: no list then has the TIM element where it was put, and with an empty map the bytes are no list at all |
| PppoeRelay.Skb.FindTag | src/rtl8189ES_linux/core/rtw_br_ext.c:87-102 | position of the first tag of a type, or none |
| PppoeRelay.Skb.AddTag | src/rtl8189ES_linux/core/rtw_br_ext.c:105-122 | the tag goes in front of the others and the length field grows by its size, or the call fails for want of room; the size is read in host byte order |
| PppoeRelay.Skb.PullAndMerge | src/rtl8189ES_linux/core/rtw_br_ext.c:124-143 | bytes are cut out of the frame and the rest moves up, if they are inside it |
| PppoeRelay.Skb.ForwardRequest | src/rtl8189ES_linux/core/rtw_br_ext.c:1132-1171 | the request carries the relay tag with magic, source address and old body, then its other tags, and a right length field; it succeeds if and only if the old body has at most 28 bytes, there is room, and host order is network order, and every failure's state is given |
| PppoeRelay.Skb.ForwardReply | src/rtl8189ES_linux/core/rtw_br_ext.c:1203-1244 | succeeds if and only if the first relay tag has the magic and an address; then the frame goes to that address, the tag is stripped of both, and the length fields are right |
| PppoeRelay.RoundTrip | src/rtl8189ES_linux/core/rtw_br_ext.c:1132-1244 | a reply that echoes a request's tags gives the client's tags with the relay tag in front if and only if that tag was absent or not empty |
| PppoeRelay.EchoAnswers | src/rtl8189ES_linux/core/rtw_br_ext.c:1132-1244 | such a reply is always accepted and leads to the client's address; an empty relay tag is lost |
| PppoeRelay.EncTagsInjective | src/rtl8189ES_linux/core/rtw_br_ext.c:87-102 | the bytes of a tag list determine the list |
| ApStations.Bss.Join | src/rtl8189ES_linux/core/rtw_ap.c:3499-3693 | every counter stays the number of stations with its flag, and flags, ERP byte, operation mode and its beacon copy are those of the specification step; the beacon is sent anew exactly if a counter crossed zero or the mode changed |
| ApStations.Bss.Leave | src/rtl8189ES_linux/core/rtw_ap.c:3695-3787 | the same for a leaving station, all of whose flags and whose TIM bit go; the warning about a zero counter cannot happen |
| ApStations.Bss.BeaconCheck | src/rtl8189ES_linux/core/rtw_cmd.c:3190-3239 | the periodic check as a specification step: the mode is updated every tenth time or with a legacy AP, which is then forgotten |
| ApStations.Bss.BssCoex | src/rtl8189ES_linux/core/rtw_ap.c:3295-3353 | the same for a 20/40 coexistence frame |
| ApStations.Bss.HtOperationUpdate | src/rtl8189ES_linux/core/rtw_ap.c:3396-3465 | the mode becomes a function of the counters and olbc_ht, the result counts the parts that changed, and it is 0 exactly if the mode was that function already |
| ApStations.Bss.UpdateErp | src/rtl8189ES_linux/core/rtw_ap.c:2977-3009 | the ERP byte as the updater writes it, with its comparison with one |
| ApStations.Bss.Replay | src/rtl8189ES_linux/core/rtw_ap.c:3295-3787 | any run of joins, leaves, coexistence frames, legacy AP reports, beacon checks and buffered frames keeps every counter equal to the number of stations with its flag and follows the specification run |
| ApStations.CountUpdate | src/rtl8189ES_linux/core/rtw_ap.c:3499-3787 | changing one station's flags changes each count by that station alone |
| ApStations.ErpOverRuns | src/rtl8189ES_linux/core/rtw_ap.c:3549-3573 | over all runs on a started BSS with ERP the protection bits are set exactly if a non-ERP station is associated, although the updater compares with one; the Barker bit is right after every step that changes them |
| ApStations.ErpNeedsStart | src/rtl8189ES_linux/core/rtw_ap.c:3222-3224 | without start or ERP, the first non-ERP station makes the bits wrong |
| ApStations.BarkerStep | src/rtl8189ES_linux/core/rtw_ap.c:3001-3004 | for every step: the Barker bit is right afterwards if and only if the protection bits changed, or it was right before exactly if the counter of long-preamble stations neither left zero nor came back to it |
| ApStations.BarkerOverRuns | src/rtl8189ES_linux/core/rtw_ap.c:2977-3009 | over every run: the Barker bit is right at the end if and only if there are long-preamble stations exactly if there were any when the protection bits last changed, or, if they never did, exactly if the bit said so at the start |
| ApStations.BarkerGoesStale | src/rtl8189ES_linux/core/rtw_ap.c:3001-3004 | so a first long-preamble station that supports ERP makes a right bit wrong |
| ApStations.ModeRightIff | src/rtl8189ES_linux/core/rtw_ap.c:3396-3465 | over every run: the mode is the function of the counters and olbc_ht at the end if and only if the olbc_ht it was last computed with is the present one or a non-HT station is associated, or, if it was never computed, exactly if it was right for the present one at the start |
| ApStations.ModeIs | src/rtl8189ES_linux/core/rtw_ap.c:3396-3465 | over every run: what the mode is at the end, and that the beacon's copy equals it |
| ApStations.ModeOverRuns | src/rtl8189ES_linux/core/rtw_ap.c:3396-3465 | so over all runs the mode stays that function while olbc_ht does not change, and the beacon's copy equals the mode |
| ApStations.ModeAfterUpdate | src/rtl8189ES_linux/core/rtw_cmd.c:3222-3236 | whatever happened before, an HT join, a leave or a tenth check without a legacy AP makes the mode right; a check with a legacy AP, which it then forgets, does so if and only if a non-HT station is associated |
| ApStations.ModeAfterOlbcChange | src/rtl8189ES_linux/core/rtw_cmd.c:3222-3236 | a change of olbc_ht leaves a right mode right if and only if a non-HT station is associated |
| ApStations.SecondReport | src/rtl8189ES_linux/core/rtw_cmd.c:3222-3236 | a run in which a report makes the mode wrong, the check that forgets it leaves it wrong, and a second report makes it right with no update in between |
| ApStations.SettlesAfterTenChecks | src/rtl8189ES_linux/core/rtw_cmd.c:3205-3239 | without a legacy AP any run with ten beacon checks ends with the right mode, whatever else happens in it |
| ApStations.WhatFlagsMean | src/rtl8189ES_linux/core/rtw_ap.c:3522-3668 | four flags follow the latest association request; no-greenfield, 20 MHz and 40-intolerant remember any earlier one |
| Sounding.Sounder.Handler | src/rtl8189ES_linux/core/rtw_beamforming.c:712-859 | from a ready state the handler leaves a sounding under way with its timer running, or ends the period with sounding_running lowered by one and, unless nothing was sent, everything listed sounded; the recursion through the direct commands ends, measured by the listed entries not yet sounded |
| Sounding.Sounder.Next | src/rtl8189ES_linux/core/rtw_beamforming.c:784-859 | the next listed entry, then the group, then the end of the period |
| Sounding.Sounder.Down | src/rtl8189ES_linux/core/rtw_beamforming.c:1496-1555 | a result moves the period on, or is ignored outside a sounding; every entry's failure count afterwards and the request to leave are given |
| Sounding.Sounder.Begin | src/rtl8189ES_linux/core/rtw_beamforming.c:736-782 | a period begins with fresh lists, or ends at once with sounding_running lowered: which, and in which state, is given |
| Sounding.Sounder.GetList | src/rtl8189ES_linux/core/rtw_beamforming.c:625-710 | the lists are the first two due single-user and the first six due group entries in index order; every entry's counter afterwards is given |
| Sounding.Sounder.ResetVars | src/rtl8189ES_linux/core/rtw_beamforming.c:593-615 | lists and flags of the last period are cleared |
| Sounding.Sounder.PeriodTimer | src/rtl8189ES_linux/core/rtw_beamforming.c:861-925 | the whole state after a tick; the invariant is kept if and only if the tick does not stop a period that still waits for its start command |
| Sounding.Sounder.TimeoutTimer | src/rtl8189ES_linux/core/rtw_beamforming.c:927-957 | the whole state after the timeout, invariant kept: a running sounding becomes timed out with one start command queued |
| Sounding.Sounder.RunCmd | src/rtl8189ES_linux/core/rtw_beamforming.c:1811-1858 | keeps the invariant (sounding_running is 0 or 1, and while it is 1 exactly one start command is queued or a sounding is under way with its timer or a result pending), and does what a command may do: sound something more and arm the timer, or end the period with everything listed sounded or, at its start, nothing sent |
| Sounding.Sounder.Report | src/rtl8189ES_linux/core/rtw_beamforming.c:1557-1570 | a firmware report at any time keeps the invariant |
| Sounding.Sounder.UpdateTraffic | src/rtl8189ES_linux/core/rtw_beamforming.c:1971-2002 | new apply and delete flags at any time keep the invariant; every entry afterwards is given |
| Sounding.Sounder.Replay | src/rtl8189ES_linux/core/rtw_beamforming.c:712-957 | every run of commands, reports, timers, traffic and readiness changes is followed, event by event, up to the first tick that would stop a period waiting for its start command: each state is what the event makes of the one before, sounding_running stays 0 or 1, in no state has an entry been sounded twice in its period, and from rest every period that ends is a whole one |
| Sounding.EveryPeriod | src/rtl8189ES_linux/core/rtw_beamforming.c:712-925 | in every such run from rest, each end of a period is that of a whole one: a tick began it, it waited in the initial state until a command chose both lists from the entries of that moment, it then kept them, taking back nothing it had sent, and a command ended it with everything on them sounded in order, or that same first command ended it with nothing sent |
| Sounding.Phases | src/rtl8189ES_linux/core/rtw_beamforming.c:712-925 | at every moment of such a run a period that runs was begun by a tick and still waits, or has had its lists since a command chose them; a start command is queued exactly while it waits for one |
| Sounding.LateStart | src/rtl8189ES_linux/core/rtw_beamforming.c:861-925 | the tick that is the exception is reached from the start, and the start command left queued then lowers sounding_running to -1 or begins a sounding while it is 0 |
| Sounding.Sounder.OncePerPeriod | src/rtl8189ES_linux/core/rtw_beamforming.c:784-846 | in a period each entry is sounded at most once and the group at most once and last |
| Sounding.Sounder.CompleteMeansAll | src/rtl8189ES_linux/core/rtw_beamforming.c:784-859 | a completed period has sounded exactly the listed entries in order, and the group |
| ChannelGroup.Sync | src/rtl8189ES_linux/core/rtw_ieee80211.c:1947-1995 | the group keeps its channel, is never narrowed, keeps its side if wide and keeps every member; the request fits the group afterwards, and exactly when it is narrowed is given |
| ChannelGroup.SyncAll | src/rtl8189ES_linux/core/rtw_ieee80211.c:1947-1995 | the same over any list of requests, all of which fit the final group |
| ChannelGroup.FitsAreGrouped | src/rtl8189ES_linux/core/rtw_ieee80211.c:1917-1936 | members of a group can be grouped with it and with each other |
| ChannelGroup.SecondaryInBand | src/rtl8189ES_linux/core/rtw_wlan_util.c:476-546 | where a wide channel has a side, the secondary channel lies in the 2.4 GHz band, or is a 5 GHz channel whose side points back |
| ChannelGroup.UpdateBss | src/rtl8189ES_linux/core/rtw_ap.c:4862-4880 | every selected interface gets the decided channel, at most the decided width and its side |
| ChannelGroup.UnionOf | src/rtl8189ES_linux/core/rtw_mi.c:110-174 | the loop with its early breaks computes the walk of the active interfaces, or 0 and the default |
| ChannelGroup.UniformUnion | src/rtl8189ES_linux/core/rtw_mi.c:110-174 | uniform settings have a union: their channel, the greatest width, all counted |
| ChannelGroup.UnionInEveryOrder | src/rtl8189ES_linux/core/rtw_mi.c:110-174 | a union exists in every order of the interfaces if and only if they share one channel and one side per width |
| ChannelGroup.UnionIgnoresOrder | src/rtl8189ES_linux/core/rtw_mi.c:110-174 | and then it does not depend on the order |
| ChannelGroup.OrderIrrelevantIff | src/rtl8189ES_linux/core/rtw_mi.c:110-174 | the result is the same in every order if and only if the settings are uniform, or on different channels, or two of the widest are on different sides |
| ChannelGroup.OrderMatters | src/rtl8189ES_linux/core/rtw_mi.c:110-174 | three interfaces with a union in one order and none in another |
| ChannelGroup.DecisionHasUnion | src/rtl8189ES_linux/core/rtw_ap.c:4862-4880 | after the decision any active updated interfaces, in any order, have a union with the greatest of their widths, inside the decided group |
| AccessList.Pool.constructor | src/rtl8189ES_linux/core/rtw_ap.c:2455-2482 | an empty, disabled list |
| AccessList.Pool.Add | src/rtl8189ES_linux/core/rtw_ap.c:2551-2622 | fails if and only if the address is not listed and all sixteen slots are used; otherwise the address is listed once, at the end |
| AccessList.Pool.FreeSlot | src/rtl8189ES_linux/core/rtw_ap.c:2595-2608 | while fewer than sixteen are listed the scan finds a free slot |
| AccessList.Pool.Remove | src/rtl8189ES_linux/core/rtw_ap.c:2624-2672 | exactly the address goes, all of them for the broadcast address, and the order of the others stays |
| AccessList.Pool.Clear | src/rtl8189ES_linux/core/rtw_ap.c:2484-2531 | the list is empty and disabled, and the counter it warns about is zero |
| AccessList.Pool.Allows | src/rtl8189ES_linux/core/rtw_sta_mgt.c:1073-1119 | the decision by mode and membership |
| AccessList.AddSta | src/rtl8189ES_linux/core/rtw_ap.c:2551-2622 | the same as adding for a valid period; an invalid one is refused and nothing changes |
| AccessList.AccessCtrl | src/rtl8189ES_linux/core/rtw_sta_mgt.c:1121-1130 | an address is allowed if and only if both lists allow it |
| KeepAlive.ExpireTimeoutChk | src/rtl8189ES_linux/core/rtw_ap.c:486-732 | the two loops over the associated stations do to every station what the per-station pass says |
| KeepAlive.DroppedOnlyAfterFour | src/rtl8189ES_linux/core/rtw_ap.c:683-730 | over all runs with the active check a station is dropped only by a fourth failed frame with none answered and no reception seen since the first; between passes the counter is at most three and counts such frames |
| KeepAlive.FourInARowDrop | src/rtl8189ES_linux/core/rtw_ap.c:683-730 | four such passes in a row do drop it |
| BeaconTimer.ReduceWide | src/rtl8189ES_linux/core/rtw_ap.c:4985-4992 | read over full-width values the loop ends with the time modulo the interval |
| BeaconTimer.Round | src/rtl8189ES_linux/core/rtw_ap.c:4987-4991 | one round makes the value smaller and keeps it modulo the interval |
| BeaconTimer.Reduce | src/rtl8189ES_linux/core/rtw_ap.c:4985-4992 | what the 32-bit product and sum of the code compute |
| BeaconTimer.ReduceRightIff | src/rtl8189ES_linux/core/rtw_ap.c:4985-4992 | that is right if and only if what wrapped away is a multiple of the interval, so always when nothing wraps |
| BeaconTimer.DefaultInterval | src/rtl8189ES_linux/core/rtw_ap.c:4979-4992 | for the interval in use: if and only if the number of wraps is a multiple of 25 |
| BeaconTimer.WrongBeforeCarry | src/rtl8189ES_linux/core/rtw_ap.c:4985-4992 | a concrete time for which it is wrong |
| BeaconTimer.NextBeacon | src/rtl8189ES_linux/core/rtw_ap.c:4994-5055 | the chosen interface exists, the timer ends the early time before a slot boundary that is given case by case, and the offset is positive if and only if it is not the last slot at exactly the early time before the end of the interval |
| BeaconTimer.DueNow | src/rtl8189ES_linux/core/rtw_ap.c:4994-5055 | a concrete time for which the offset is zero: two interfaces, half an interval apart |

## Left out

- Nat25Spec.Bumped: use counts are unbounded; the 32-bit wrap after two thousand million lookups is not modelled.
- Tim.UpdateBcnTim: allocation of the backup buffer is taken to succeed, as in the code, which does not handle its failure, except for the wrapped size of a list that ends before the place, for which it is taken to fail; BeaconIe does the same for its lists.
- PppoeRelay.Skb.ForwardRequest: on a host of the other byte order the model stops where the copy would leave the tag buffer.
- Sounding.Sounder.Replay: beamformees enter and leave without their entries changing, the choice of phydm_get_beamforming_sounding_info is an input, commands are always queued successfully, and each handler runs without being interrupted by another.
- ApStations.Bss.Replay: olbc and olbc_ht, which the code always sets and clears together, are one flag; the counter of the beacon check, which all interfaces share, is one interface's own; the reset of num_sta_no_ht after a scan (rtw_ap.c:1544), the mode written when a BSS starts (rtw_ap.c:1829), and station entries freed without leaving are not among the events.
- ChannelGroup.DecisionHasUnion: mesh interfaces, which adjust their settings once more, are not covered.
- KeepAlive.DroppedOnlyAfterFour: only with the active check on; without it the code drops a silent station at once, or follows the ADDBA check, which is not part of this model.
- Ageing of the list of stations that are still authenticating, at the head of expire_timeout_chk.
- The frame bodies of rtw_process_public_act_bsscoex are taken as parsed.
- The width and secondary channel that update_bcn_htinfo_ie also writes, and sw_to_20mhz.
- Locking inside the NAT2.5 database and the IPX, AppleTalk and IPv6 branches of nat25_db_handle: the same database calls with other header layouts.
- PPPoE discovery without relay tags (one remembered client address and a countdown).
- IE length bookkeeping at rtw_ieee80211.c:511-520, which subtracts only the payload length.
- Command constructors beyond the submitter pattern, power-save registration beyond its failure, and the branches under SUPPORT_HW_RFOFF_DETECTED.
- Choosing a channel under DFS, MCC or mesh, and rtw_adjust_chbw.
- Frame construction, hardware registers, notifications, logging and dumps.

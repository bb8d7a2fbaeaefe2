# Verified model of the command protocols and of the controller library

This project models, in Dafny, the parts of the repository with the most state and arithmetic, and
proves what they are for. `dafny verify dfyconfig.toml` checks all of it.

- **The command interfaces, versions 1 to 3.** Each has transmit queues over a circular array that
  grows, and a receiver that filters repeated frames. For each version there are four parts:
  the queue as a value with a function for each operation (`QueueV1`, `QueueV2`, `QueueV3`, with
  `PackV2` and `PackV3` for the formats of the packs); classes that do the same in place over
  the circular array of `RingBuffer` (`TxQueueV1`, `TxQueueV2`, `TxQueueV3` and, for version 3,
  the whole interface with its timer in `InterfaceV3`), each method proved to compute the function; a
  system of a sender, a receiver and two links as a step function, with an invariant of every step
  and theorems on every run (`SystemV1`, `SystemV2`, `SystemV3`; `UnackedV2` and `UnackedV3` for queues
  without acknowledgements); and what the application is told
  about each command in every run (`TracesV1`, `TracesV2`, `TracesV3`). `AckCountsV2` and `AckCountsV3`, on the
  common `AckCounts`, have the counts of transmissions and acknowledgements. `PeersV3` has two interfaces of version 3
  with all their queues over one link in each direction, `CountsV1` the numbers of version 1 counted without
  wrapping, `ReorderingV3` a run over a link that does not keep the order. `StopAndWait` has the part
  of the invariant that acknowledged queues of versions 2 and 3 share, `OneWay` that of the others, `Links` the steps of a
  system, `Commands` and `TransportLayer` what all share.
- **MD5.** `Md5Spec` is RFC 1321, with its constants proved to be the sines that it names (`Md5Sines`) and one of its
  digests (`Md5TestSuite`); `Md5` is the streaming code with its rewritten functions, its 64-byte
  buffer and its two length words, proved to give the digest of the message however it is split.
- **Wire formats.** `Codec` has the encoder and decoder of arguments, driven by a description,
  `EncodedCommands` what that means for commands that are delivered, `MuxHeader` the frame headers of both
  generations, `FindDesc` the search for a description, `Bytes` the integers.
- **Heap structures.** `LinkedList` is the intrusive circular list over real pointers; `Registry` the
  controller's devices, backends and discoveries with handle generation and the purge of stale devices.

The links of the systems lose and duplicate any frame at any time and keep the order of the others.
The transport takes or refuses each frame as it likes. Times are arbitrary numbers.

Where the code does something else than its names and comments suggest, the model follows the code
and a theorem says what comes of it:

- On a version 3 queue that is not acknowledged, the size of a command that does not fit stays in the pack
  (arsdk_cmd_itf3.c:521-535): the receiver reports an error for a pack whose commands it delivers all
  (`NoAckPackUnpack`), and a command of more than a pack makes the checking loop run forever
  (`NoAckDrainsIff`). When the transport refuses such a frame the size is added once more each time, and when there are
  enough of them the receiver takes them for a command that was never sent (`SizesDeliver`): the commands delivered are among those
  that left the queue, in order and each once, for the commands that fit in a pack and for no others (`UnackedV3.AtMostOnceIffFits`).
- A command of more than 1398 bytes blocks a version 2 queue: empty packs are sent, acknowledged and sent again
  (`DrainsIff`; on a queue that is not acknowledged, the loop does not end).
- `waiting_ack` stays set when a pack is acknowledged (arsdk_cmd_itf3.c:897-901, and version 2 alike), so the next
  pack waits for the rest of the timeout (`QueueV3.AckDoesNotRelease`, `QueueV2.AckDoesNotRelease`), and in every run at most one
  pack is sent in each timeout (`TracesV3.OnePackPerTimeout`, `TracesV2.OnePackPerTimeout`). A pack in flight is told by its number of commands.
- The error "more acknowledgements than sendings" (arsdk_cmd_itf3.c:839-846, and version 2 alike) means a link that duplicates
  (`AckCountsV3.NeverMoreAcks`), but in version 2 it can also come of a command that is too large (`AckCountsV2.CountsWrap`).
- When the transport refuses a frame no timer is set for it: `CheckOnceDeadline`, `CheckAllDeadline` and `WakeUp` say exactly when a queue is
  left with entries that nothing wakes up.
- In version 1 numbers have 8 bits, and a command that is refused or given up uses up numbers without being received. An
  acknowledged command may never have been delivered, because the numbers came back to about where the receiver was, or because
  an old acknowledgement with the same number was on the link (`CountsV1.LostAfterRefusals`, `CountsV1.LostToOldAck`);
  `CountsV1.AckedIffProcessed` says for every run when it was, and `CountsV1.AckedAreProcessed` gives a condition under which all were.
- The delay of version 1 for the minimum time between frames is the time that is over, not the time that is left
  (arsdk_cmd_itf1.c:447-451): in the first millisecond no timer is set, and later the queue wakes up too early or too late
  (`QueueV1.RateDeadline`).
- The test that filters repeated frames accepts every frame that is more than ten behind the last one, and at the wrap also nearer
  ones (`StopAndWait.LateFrame`). When links reorder, a command can be delivered twice (`ReorderingV3.DeliveredTwice`).
- The number of an acknowledgement frame is stored where that of a data frame with its identifier would be
  (arsdk_cmd_itf3.c:1217-1223), so the identifiers of the two must differ (`PeersV3.SharedIdentifier`); those in use do
  (`PeersV3.IdentifiersInUse`).
- The number of a discovery run has 32 bits, but that of a device is returned in 16: from the run 32768 on the
  purge removes devices that were just seen (`AddDevice`).
- Moving a node of a list after or before itself breaks the list unless the node is alone (`MoveAfter`, `MoveBefore`).
- The decoder that looks up the description skips four bytes of header without looking at the length (`Codec.GetValues`).

## Model

| member | source | states |
|---|---|---|
| `SystemV3.ExactlyOnceInOrder` | libarsdk/src/cmd_itf/arsdk_cmd_itf3.c:629-907 | In every run over links that lose and duplicate frames but keep their order, across any number of 16-bit wraps, the commands delivered are exactly those of a prefix of the accepted ones, in order and each once. The prefix includes all that were reported as acknowledged, and it is everything when the queue is empty without a stop. The number of the receiver is always that of the last acknowledged pack or of the current one |
| `SystemV3.StepKeepsInv` | libarsdk/src/cmd_itf/arsdk_cmd_itf3.c:629-907 | Each of the nine kinds of steps keeps the invariant that ties the sender, the receiver and both links together |
| `SystemV3.PackIsStable` | libarsdk/src/cmd_itf/arsdk_cmd_itf3.c:415-468 | Until its acknowledgement the current pack keeps its number, its bytes and its commands, whatever is added to the queue; every transmission carries them |
| `SystemV3.PackMovesPoint` | libarsdk/src/cmd_itf/arsdk_cmd_itf3.c:1093-1198 | Unpacking the current pack takes the receiver from the end of the last acknowledged pack exactly to the end of this one, also inside a command |
| `PeersV3.EndToEnd` | libarsdk/src/cmd_itf/arsdk_cmd_itf3.c:766-1253 | Two interfaces with any number of queues, whose data and acknowledgements share one link in each direction, with any losses, duplications, refusals and times, and after any stop. For each acknowledged queue of both sides, what the other side received from it is exactly the deliverable commands of a prefix of those accepted, in order and each once; the prefix includes all that were reported as acknowledged, and it is everything when the queue is empty without a stop |
| `EncodedCommands.ArgumentsArrive` | libarsdk/src/cmd_itf/arsdk_cmd_itf3.c:1180-1190 | Between two interfaces, when the accepted commands are encoded ones: what was received from an acknowledged queue is exactly a prefix of what it accepted, and decoding each command gives the arguments it was encoded from |
| `EncodedCommands.DeliveredV3` | libarsdk/src/cmd_itf/arsdk_cmd_itf3.c:629-907 | In every run of version 3 with encoded commands, what is delivered is a prefix of the accepted commands themselves, with all that were acknowledged |
| `EncodedCommands.DeliveredV2` | libarsdk/src/cmd_itf/arsdk_cmd_itf2.c:486-710 | The same for version 2 |
| `EncodedCommands.DeliveredV1` | libarsdk/src/cmd_itf/arsdk_cmd_itf1.c:374-493 | In every run of version 1 with encoded commands, each frame processed by the receiver delivers the command that it carried |
| `EncodedCommands.EncodedIsDeliverable` | libarsdk/src/cmd_itf/arsdk_cmd_itf3.c:1180-1190 | Every command that the encoder makes, also one without arguments, is given to the application as it is |
| `EncodedCommands.HeaderIffIdentifiers` | libarsdk/src/arsdk_decoder.c:475-502 | A command has a header if and only if it begins with the identifiers of some description |
| `PeersV3.LookFlow` | libarsdk/src/cmd_itf/arsdk_cmd_itf3.c:766-795 | Looking at all the queues is, for each acknowledged one with its part of the links, one look that keeps the invariant of a queue alone |
| `PeersV3.AckTakenKeeps` | libarsdk/src/cmd_itf/arsdk_cmd_itf3.c:799-907 | An acknowledgement that arrives concerns one queue, and the number stored for its identifier disturbs no queue of the other side |
| `PeersV3.DataTakenKeeps` | libarsdk/src/cmd_itf/arsdk_cmd_itf3.c:1202-1253 | A data frame that arrives, acknowledged or refused by the transport, concerns one queue of the other side |
| `PeersV3.DropKeeps` | libarsdk/src/cmd_itf/arsdk_cmd_itf3.c:1202-1211 | A frame that arrives after the stop is, for its queue, a lost one |
| `PeersV3.SharedIdentifier` | libarsdk/src/cmd_itf/arsdk_cmd_itf3.c:1217-1223 | If an acknowledgement had the identifier of a data queue, the next data frame of that queue would be acknowledged in any case, and delivered if and only if its number is to be processed after that of the acknowledgement |
| `PeersV3.IdentifiersInUse` | libarsdkctrl/src/arsdk_device.c:556-573 | The queues of controllers and devices, with the offset of acknowledgements, satisfy what the end-to-end theorem demands |
| `PeersV3.RecvFrame` | libarsdkctrl/src/arsdk_device.c:120-137 | The callback of the transport with the interface object: a frame below the identifiers of commands, or after the stop, changes nothing; any other changes the object and sends what the steps of the end-to-end theorem say |
| `PeersV3.SendCmd` | libarsdk/src/cmd_itf/arsdk_cmd_itf3.c:1007-1041 | Sending a command with the object is the step of the theorem on the first queue for its kind; it fails, and changes nothing, if and only if the interface is stopped or there is no such queue |
| `PeersV3.TimerFires` | libarsdk/src/cmd_itf/arsdk_cmd_itf3.c:979-983 | The timer of the object does the step of the theorem |
| `PeersV3.StopItf` | libarsdk/src/cmd_itf/arsdk_cmd_itf3.c:987-1003 | Stopping the object does, too |
| `TracesV3.TracesAreOk` | libarsdk/src/cmd_itf/arsdk_cmd_itf3.c:546-559 | For every accepted command the application is told: partly packed any number of times, then packed, then acknowledged, or a beginning of that and then cancelled. The packings have consecutive pack numbers, one for each pack that the command spans, and the acknowledgement has the number of the last of them |
| `TracesV3.DoneOnce` | libarsdk/src/cmd_itf/arsdk_cmd_itf3.c:370-399 | Only the last call for a command can say that it is done; there is one for every acknowledged command and, after the stop, for every accepted one. Only commands counted as acknowledged are reported so |
| `TracesV3.CanDrain` | libarsdk/src/cmd_itf/arsdk_cmd_itf3.c:629-762 | From every reachable state of a running queue, finitely many transmissions and arrivals, with no new command, deliver every accepted command: there is no dead end |
| `TracesV3.AckLowers` | libarsdk/src/cmd_itf/arsdk_cmd_itf3.c:878-901 | Each acknowledgement that is waited for lowers the bytes still to be acknowledged by exactly the bytes of the pack, and by at least one |
| `TracesV3.Round` | libarsdk/src/cmd_itf/arsdk_cmd_itf3.c:629-762 | With empty links one transmission and its acknowledgement strictly lower what is left |
| `TracesV3.OnePackPerTimeout` | libarsdk/src/cmd_itf/arsdk_cmd_itf3.c:629-762 | In every run whose times do not go back, any two transmissions in a row are at least the acknowledgement timeout apart, with or without the acknowledgement between them, and at least the minimum delay; so n transmissions take at least n - 1 timeouts |
| `AckCountsV3.NeverMoreAcks` | libarsdk/src/cmd_itf/arsdk_cmd_itf3.c:825-847 | In every run in which no link duplicates, whatever is lost, refused or stopped, the acknowledgements counted for the last acknowledged pack are never more than its transmissions, so the error that the code reports for that means a duplicate |
| `AckCountsV3.CountsAreExact` | libarsdk/src/cmd_itf/arsdk_cmd_itf3.c:892-901 | When nothing is lost or refused either and there is no minimum delay, the transmissions of the last acknowledged pack are those counted as acknowledged and those still on the links, and the transmissions of the current pack are all on the links |
| `AckCountsV3.StepKeepsBooks` | libarsdk/src/cmd_itf/arsdk_cmd_itf3.c:629-907 | Each kind of step keeps these balances of transmissions, frames on the links and counted acknowledgements |
| `AckCounts.AckLedger` | libarsdk/src/cmd_itf/arsdk_cmd_itf3.c:825-901 | An acknowledgement that arrives is either counted for the last pack, or makes the current pack the last one with a count of one, and the balance stays exact in both cases |
| `StopAndWait.ReceiveKeeps` | libarsdk/src/cmd_itf/arsdk_cmd_itf3.c:1043-1062 | A data frame is processed if and only if it is the first frame of the current pack to arrive, with its payload, whatever the numbers; the invariant is kept |
| `StopAndWait.AckKeeps` | libarsdk/src/cmd_itf/arsdk_cmd_itf3.c:799-907 | An acknowledgement has the number of the last pack or of the current one; in the second case the receiver has the pack and the sender may go on |
| `StopAndWait.LoseKeeps` | libarsdk/src/cmd_itf/arsdk_cmd_itf3.c:629-907 | A link that loses any frame or acknowledgement keeps the invariant |
| `StopAndWait.DuplicateKeeps` | libarsdk/src/cmd_itf/arsdk_cmd_itf3.c:629-907 | A link that duplicates any frame or acknowledgement keeps the invariant |
| `StopAndWait.LateFrame` | libarsdk/src/cmd_itf/arsdk_cmd_itf3.c:1043-1062 | Why the order on the links matters: of the frames before the last accepted one, exactly those more than ten behind it, or on the other side of a wrap, are processed again |
| `ReorderingV3.DeliveredTwice` | libarsdk/src/cmd_itf/arsdk_cmd_itf3.c:1043-1062 | A run with one frame that comes late: of twelve commands accepted thirteen are delivered |
| `PackV3.PackEncodes` | libarsdk/src/cmd_itf/arsdk_cmd_itf3.c:488-565 | Every acknowledged pack is the byte stream of its commands from the point of the last pack. It has 1 to 1000 bytes, cuts a command only when it is full, and holds every queued command when it has fewer than 996 bytes |
| `PackV3.PackConserves` | libarsdk/src/cmd_itf/arsdk_cmd_itf3.c:488-565 | A pack followed by the bytes that remain is exactly the byte stream there was |
| `PackV3.EncodeThenRest` | libarsdk/src/cmd_itf/arsdk_cmd_itf3.c:488-565 | The same for any cut: the bytes taken and the bytes left are the stream |
| `PackV3.UnpackEncoded` | libarsdk/src/cmd_itf/arsdk_cmd_itf3.c:1093-1198 | Unpacking an encoding delivers exactly the commands that it completes and keeps the beginning of the one that it cuts |
| `PackV3.PackThenUnpack` | libarsdk/src/cmd_itf/arsdk_cmd_itf3.c:488-565 | Packing and unpacking agree, and what the receiver keeps is the size of the cut command less the bytes left to send |
| `PackV3.CutAndReassemble` | libarsdk/src/cmd_itf/arsdk_cmd_itf3.c:488-565 | For every list of commands of any lengths, unpacking the successive packs in order gives the list back with nothing left over; the packs are the byte stream of the list |
| `PackV3.PackCount` | libarsdk/src/cmd_itf/arsdk_cmd_itf3.c:488-565 | How many packs a list of commands takes, from above and from below: every pack but the last has at least 996 bytes |
| `PackV3.NoAckPackUnpack` | libarsdk/src/cmd_itf/arsdk_cmd_itf3.c:521-535 | Of a pack that is not acknowledged exactly the commands counted in it are delivered, whether or not they have a header; the result is the protocol error if and only if the pack ends with the size of a command that did not fit |
| `PackV3.NoAckPackSize` | libarsdk/src/cmd_itf/arsdk_cmd_itf3.c:521-535 | Such a pack has at most 1000 bytes, and it has a command if and only if the oldest one, with its size, fits alone |
| `PackV3.FitsUpTo998` | libarsdk/src/cmd_itf/arsdk_cmd_itf3.c:521-535 | A command fits in a pack of version 3 with its size if and only if it has at most 998 bytes |
| `Bytes.VarintRoundTrip` | libarsdk/include/arsdk/arsdk.h:91-95 | A 32-bit variable-length integer is read back with its exact length, whatever follows it |
| `Bytes.TruncatedGroups` | libarsdk/include/arsdk/arsdk.h:91-95 | No proper prefix of a written integer reads as one |
| `Bytes.VarintBytes` | libarsdk/include/arsdk/arsdk.h:91-95 | The bytes of a 32-bit variable-length integer, from one to five |
| `QueueV3.CheckOnceKeeps` | libarsdk/src/cmd_itf/arsdk_cmd_itf3.c:629-762 | Looking at a queue keeps the pack buffer the encoding of the first entries |
| `QueueV3.RecvAckKeeps` | libarsdk/src/cmd_itf/arsdk_cmd_itf3.c:799-907 | An acknowledgement keeps the queue consistent, with the remaining length inside its first command |
| `QueueV3.AckDoesNotRelease` | libarsdk/src/cmd_itf/arsdk_cmd_itf3.c:878-901 | After the acknowledgement that was waited for, a queue with commands left transmits nothing if and only if the timeout of the acknowledged pack, or the minimum delay, is not over |
| `QueueV3.AddKeeps` | libarsdk/src/cmd_itf/arsdk_cmd_itf3.c:415-468 | Adding a command does not touch the current pack |
| `QueueV3.AgainPops` | libarsdk/src/cmd_itf/arsdk_cmd_itf3.c:751-761 | A transmission that is not acknowledged pops entries if and only if the oldest command fits in a pack or a pack was left from before; what remains is in order |
| `QueueV3.ReadyAfter` | libarsdk/src/cmd_itf/arsdk_cmd_itf3.c:629-762 | Each time that looking at a queue starts over, a measure gets smaller: the entries, or the minimum delay that begins |
| `QueueV3.NoAckDrainsIff` | libarsdk/src/cmd_itf/arsdk_cmd_itf3.c:521-535 | With a transport that takes everything, a queue that is not acknowledged is emptied by looking at it often enough if and only if every command fits in a pack; otherwise looking at it goes on forever |
| `QueueV3.OversizeOnce` | libarsdk/src/cmd_itf/arsdk_cmd_itf3.c:521-535 | What livelocks: each frame has only the size of the oversize command, and the queue is as before |
| `UnackedV3.AtMostOnceInOrder` | libarsdk/src/cmd_itf/arsdk_cmd_itf3.c:705-761 | In every run of a queue that is not acknowledged, whatever is lost, duplicated or refused, the commands delivered are those of some packs among those that left the queue, in order and each once, unless a frame of sizes as long as a command was taken |
| `UnackedV3.AtMostOnceIffFits` | libarsdk/src/cmd_itf/arsdk_cmd_itf3.c:521-535 | This holds in all runs with a given command if and only if the command, with its size, fits in a pack; for any larger one a run is given that delivers a command that was never sent while the queue keeps its own |
| `UnackedV3.FrameDelivers` | libarsdk/src/cmd_itf/arsdk_cmd_itf3.c:705-761 | What a taken frame delivers is what left the queue with it, if and only if it is not such a frame |
| `UnackedV3.SizesDeliver` | libarsdk/src/cmd_itf/arsdk_cmd_itf3.c:1093-1198 | A size that is sent k + 1 times delivers something if and only if k of them are as long as the command, and the first thing delivered is made of them |
| `UnackedV3.OnlyLossesLose` | libarsdk/src/cmd_itf/arsdk_cmd_itf3.c:1043-1062 | With commands that fit, when the link lost no frame and has none left, everything that left the queue was delivered, across any number of wraps |
| `UnackedV3.OneFramePerDelay` | libarsdk/src/cmd_itf/arsdk_cmd_itf3.c:680-698 | In every run of a queue without acknowledgements whose times do not go back, any two frames in a row are at least the minimum delay apart |
| `InterfaceV3.NoLostWakeUp` | libarsdk/src/cmd_itf/arsdk_cmd_itf3.c:766-795 | When the transport takes every frame and acknowledged queues have a timeout, looking at all the queues ends with a delay if and only if some queue is not empty; it is positive and the least of the deadlines of these queues |
| `InterfaceV3.CheckOnceDeadline` | libarsdk/src/cmd_itf/arsdk_cmd_itf3.c:629-762 | When exactly a look at a queue transmits, starts over and gives no deadline, by its entries, its delays and the answer of the transport: there is none if and only if the queue is empty, or no delay is running and the frame is refused or there is no acknowledgement timeout. Otherwise the deadline is the rest of the delay that is running |
| `InterfaceV3.DeadlineIsExact` | libarsdk/src/cmd_itf/arsdk_cmd_itf3.c:652-698 | Until its deadline a queue that waits does nothing but count down, whenever it is looked at; when the deadline is over it transmits, unless a minimum delay is running besides the wait for the acknowledgement |
| `Commands.RemainingIsExact` | libarsdk/src/cmd_itf/arsdk_cmd_itf3.c:652-672 | What is left of a delay is exactly for how many more milliseconds it runs |
| `InterfaceV3.CheckAllDeadline` | libarsdk/src/cmd_itf/arsdk_cmd_itf3.c:629-762 | For looking at a queue until there is nothing to do at once, over any transport: it is left with entries and without a deadline if and only if the transport refuses one of the frames that it would need to take, or an acknowledged frame is sent without a timeout |
| `InterfaceV3.WakeUp` | libarsdk/src/cmd_itf/arsdk_cmd_itf3.c:766-795 | Over any transport, looking at all the queues ends with the least deadline of exactly the queues that are left with entries and not forgotten; with no delay if and only if there are none |
| `InterfaceV3.TimerIsExact` | libarsdk/src/cmd_itf/arsdk_cmd_itf3.c:766-795 | Before the delay that looking at all the queues gives is over, none of the queues that are due would transmit; when it is over, one of them would, if there are no minimum delays |
| `InterfaceV3.TimerIsOk` | libarsdk/src/cmd_itf/arsdk_cmd_itf3.c:786-794 | The timer that is set from this delay: none if and only if no queue is due, and else exactly this delay |
| `InterfaceV3.CheckedReady` | libarsdk/src/cmd_itf/arsdk_cmd_itf3.c:629-762 | Looking at a queue leaves it ready for the next operation |
| `InterfaceV3.CmdItf3.constructor` | libarsdk/src/cmd_itf/arsdk_cmd_itf3.c:1257-1337 | A new interface has new queues and accepts the first data frame of every identifier |
| `InterfaceV3.CmdItf3.CheckTxQueues` | libarsdk/src/cmd_itf/arsdk_cmd_itf3.c:766-795 | All the queues are looked at in turn, in place; there is a timer if and only if some queue is due, and it fires exactly when the first of these would transmit |
| `InterfaceV3.CmdItf3.RecvData` | libarsdk/src/cmd_itf/arsdk_cmd_itf3.c:1202-1253 | What any frame does, acknowledgement or data, to the queues, the reception state of its identifier and of the others, the application, the timer, the number of the next acknowledgement and the frames sent; nothing after the stop |
| `InterfaceV3.CmdItf3.RecvAckFrame` | libarsdk/src/cmd_itf/arsdk_cmd_itf3.c:799-907 | An acknowledgement goes to the first queue with its identifier; one that is too short or for no queue changes nothing |
| `InterfaceV3.CmdItf3.RecvDataFrame` | libarsdk/src/cmd_itf/arsdk_cmd_itf3.c:1202-1253 | A data frame is acknowledged in any case and unpacked if its number is to be processed; the reception state of the other identifiers stays, and no more than the acknowledgement is sent |
| `InterfaceV3.CmdItf3.SendAck` | libarsdk/src/cmd_itf/arsdk_cmd_itf3.c:911-934 | The acknowledgement has the number of the frame and a number of its own |
| `InterfaceV3.CmdItf3.ShouldProcessData` | libarsdk/src/cmd_itf/arsdk_cmd_itf3.c:1043-1062 | The number is remembered if and only if the frame is to be processed |
| `InterfaceV3.CmdItf3.UnpackCmds` | libarsdk/src/cmd_itf/arsdk_cmd_itf3.c:1093-1198 | The loop over the payload delivers, keeps and returns what the unpacking function says, for every payload |
| `InterfaceV3.CmdItf3.FindTxQueue` | libarsdk/src/cmd_itf/arsdk_cmd_itf3.c:569-625 | The first queue that suits the kind of the command, or none: an acknowledged one unless the kind is that without, and the one with the identifier 125 for low priority alone |
| `InterfaceV3.SuitsExactly` | libarsdk/src/cmd_itf/arsdk_cmd_itf3.c:592-617 | Which kinds of commands a queue is for, by its acknowledgements and its identifier |
| `InterfaceV3.SuitsGuarantee` | libarsdk/src/cmd_itf/arsdk_cmd_itf3.c:592-617 | What the kind of a command promises is what its queue does |
| `PeersV3.ChosenByController` | libarsdkctrl/src/arsdk_device.c:556-573 | Of its two queues a controller takes 11 for acknowledged and high priority commands, 10 for those without acknowledgement, and none for others |
| `PeersV3.ChosenByDevice` | libarsdk/src/arsdk_peer.c:362-387 | Of its three queues a device takes 126 for acknowledged and high priority commands, 127 for those without acknowledgement, 125 for low priority, and none for others |
| `InterfaceV3.CmdItf3.Send` | libarsdk/src/cmd_itf/arsdk_cmd_itf3.c:1007-1041 | A command goes to its queue, which has acknowledgements unless its kind is that without, and all the queues are looked at; on an error nothing changes, and no command of an invalid kind is sent |
| `InterfaceV3.CmdItf3.StopAll` | libarsdk/src/cmd_itf/arsdk_cmd_itf3.c:987-1003 | Every queue is cancelled and the interface is closed |
| `TxQueueV3.TxQueue.constructor` | libarsdk/src/cmd_itf/arsdk_cmd_itf3.c:332-366 | A new queue is empty, and its first pack gets number 0 |
| `TxQueueV3.TxQueue.Add` | libarsdk/src/cmd_itf/arsdk_cmd_itf3.c:415-468 | The entry is appended in place, also when the circular array is reallocated |
| `TxQueueV3.TxQueue.PackEntry` | libarsdk/src/cmd_itf/arsdk_cmd_itf3.c:521-559 | One turn of the packing loop |
| `TxQueueV3.TxQueue.PackCmds` | libarsdk/src/cmd_itf/arsdk_cmd_itf3.c:488-565 | The packing loop over the circular array makes the pack and the calls that the specification says |
| `TxQueueV3.TxQueue.CheckPass` | libarsdk/src/cmd_itf/arsdk_cmd_itf3.c:629-762 | One look at a queue, in place, does what the specification says to the queue, the transport and the deadline |
| `TxQueueV3.TxQueue.CheckTxQueue` | libarsdk/src/cmd_itf/arsdk_cmd_itf3.c:629-762 | The loop of looks terminates and does what the specification says |
| `TxQueueV3.TxQueue.RecvAck` | libarsdk/src/cmd_itf/arsdk_cmd_itf3.c:799-907 | An acknowledgement, in place, does what the specification says; completed commands are popped one by one |
| `TxQueueV3.TxQueue.Stop` | libarsdk/src/cmd_itf/arsdk_cmd_itf3.c:370-399 | Every entry is cancelled, oldest first |
| `TxQueueV3.PackingTurn` | libarsdk/src/cmd_itf/arsdk_cmd_itf3.c:521-559 | One turn of the loop is one step of the recursive packing |
| `RingBuffer.Ring.Add` | libarsdk/src/cmd_itf/arsdk_cmd_itf3.c:415-468 | Appends to the circular array, growing it before it is full |
| `RingBuffer.Ring.Grow` | libarsdk/src/cmd_itf/arsdk_cmd_itf3.c:426-457 | The entries are moved to the start of a larger array in their order, in one piece or, when they wrap, in two |
| `RingBuffer.Ring.Pop` | libarsdk/src/cmd_itf/arsdk_cmd_itf3.c:472-480 | Removes the oldest entry |
| `RingBuffer.Ring.Replace` | libarsdk/src/cmd_itf/arsdk_cmd_itf1.c:197-228 | Overwrites one entry and leaves the others, across the wrap |
| `SystemV2.ExactlyOnceInOrder` | libarsdk/src/cmd_itf/arsdk_cmd_itf2.c:486-710 | In every run of an acknowledged queue over links that keep their order, with commands of any size, the commands delivered are exactly those of a prefix of the accepted ones, in order and each once, including all the acknowledged ones. It never goes beyond a command of more than 1398 bytes |
| `SystemV2.StepKeepsInv` | libarsdk/src/cmd_itf/arsdk_cmd_itf2.c:486-710 | Each kind of step keeps the invariant, also once an oversize command is the oldest and only empty packs are sent |
| `SystemV2.StepKeepsQueue` | libarsdk/src/cmd_itf/arsdk_cmd_itf2.c:398-422 | On every queue, acknowledged or not, the entries stay the pending commands and the pack the encoding of the first of them |
| `SystemV2.DrainsIff` | libarsdk/src/cmd_itf/arsdk_cmd_itf2.c:398-422 | A running acknowledged queue can be emptied by transmissions and arrivals if and only if every command in it has at most 1398 bytes |
| `SystemV2.CanDrain` | libarsdk/src/cmd_itf/arsdk_cmd_itf2.c:486-589 | If they do, finitely many steps deliver every accepted command |
| `SystemV2.PackDelivers` | libarsdk/src/cmd_itf/arsdk_cmd_itf2.c:884-951 | Unpacking a pack delivers its commands |
| `TracesV2.DoneOnce` | libarsdk/src/cmd_itf/arsdk_cmd_itf2.c:291-310 | In every run of every queue only the last call for a command says that it is done, and by the end of the stop there is exactly one for each accepted command: acknowledged after at least one transmission, or sent where there are no acknowledgements, or cancelled |
| `TracesV2.StepKeepsLog` | libarsdk/src/cmd_itf/arsdk_cmd_itf2.c:561-588 | Each step keeps this, with one call for each successful transmission, also a repeated one |
| `TracesV2.OnePackPerTimeout` | libarsdk/src/cmd_itf/arsdk_cmd_itf2.c:486-589 | The same for version 2: any two transmissions in a row are at least the acknowledgement timeout apart |
| `AckCountsV2.NeverMoreAcks` | libarsdk/src/cmd_itf/arsdk_cmd_itf2.c:652-668 | The same for version 2, in every run without duplicates whose commands fit in a pack |
| `AckCountsV2.CountsAreExact` | libarsdk/src/cmd_itf/arsdk_cmd_itf2.c:697-704 | The same for version 2: without losses, refusals and duplicates the counts are exact |
| `AckCountsV2.CountsWrap` | libarsdk/src/cmd_itf/arsdk_cmd_itf2.c:486-668 | For every command that does not fit there is a run without any duplicate that counts an acknowledgement where it counts no transmission: 65536 empty packs take the numbers around to that of the last pack |
| `PackV2.PackIsLongest` | libarsdk/src/cmd_itf/arsdk_cmd_itf2.c:398-422 | A pack has the longest prefix of the commands that fits in 1400 bytes; it has a command if and only if the oldest one fits alone |
| `PackV2.FitsUpTo1398` | libarsdk/src/cmd_itf/arsdk_cmd_itf2.c:398-422 | A command fits in a pack of version 2 with its size if and only if it has at most 1398 bytes |
| `PackV2.UnpackEncoded` | libarsdk/src/cmd_itf/arsdk_cmd_itf2.c:884-951 | Unpacking an encoding gives the commands back; the result is that of the last one |
| `PackV2.TruncatedPack` | libarsdk/src/cmd_itf/arsdk_cmd_itf2.c:884-951 | A payload cut short at any byte delivers exactly the commands that are whole in it |
| `QueueV2.CheckOnceKeeps` | libarsdk/src/cmd_itf/arsdk_cmd_itf2.c:486-589 | Looking at a queue keeps the pack the encoding of the first entries |
| `QueueV2.RecvAckKeeps` | libarsdk/src/cmd_itf/arsdk_cmd_itf2.c:626-710 | An acknowledgement keeps the queue consistent |
| `QueueV2.AckDoesNotRelease` | libarsdk/src/cmd_itf/arsdk_cmd_itf2.c:626-710 | After the acknowledgement that was waited for, a queue with commands left transmits nothing if and only if the timeout of the acknowledged pack is not over |
| `QueueV2.DeadlineIsExact` | libarsdk/src/cmd_itf/arsdk_cmd_itf2.c:507-533 | Until its deadline a queue that waits does nothing but count down; when it is over, it transmits again |
| `QueueV2.CheckAllDeadline` | libarsdk/src/cmd_itf/arsdk_cmd_itf2.c:486-589 | So it is for the deadline that looking at a queue until there is nothing to do at once ends with |
| `QueueV2.AgainPops` | libarsdk/src/cmd_itf/arsdk_cmd_itf2.c:578-588 | What a transmission that is not acknowledged pops |
| `QueueV2.NoAckDrainsIff` | libarsdk/src/cmd_itf/arsdk_cmd_itf2.c:398-422 | A queue that is not acknowledged is emptied by looking at it if and only if every command fits in a pack; otherwise looking at it goes on forever |
| `UnackedV2.AtMostOnceInOrder` | libarsdk/src/cmd_itf/arsdk_cmd_itf2.c:486-589 | In every run of a queue that is not acknowledged, with commands of any size and whatever is lost, duplicated or refused, the commands delivered are those of some packs among those that left the queue, in order and each once |
| `UnackedV2.OnlyLossesLose` | libarsdk/src/cmd_itf/arsdk_cmd_itf2.c:486-589 | With commands that fit, when the link lost no frame and has none left, everything that left the queue was delivered |
| `OneWay.ArriveExplained` | libarsdk/src/cmd_itf/arsdk_cmd_itf2.c:956-1004 | Whatever the numbers, a frame that is processed was transmitted after all those processed before it |
| `OneWay.ArriveUnbroken` | libarsdk/src/cmd_itf/arsdk_cmd_itf2.c:956-1004 | Over a link that lost nothing, a frame is processed if and only if it is the next one, also when the numbers wrap |
| `TxQueueV2.TxQueue.constructor` | libarsdk/src/cmd_itf/arsdk_cmd_itf2.c:252-287 | A new queue is empty, and its first pack gets number 0 |
| `TxQueueV2.TxQueue.Add` | libarsdk/src/cmd_itf/arsdk_cmd_itf2.c:326-379 | Appends an entry, in place |
| `TxQueueV2.TxQueue.PackCmds` | libarsdk/src/cmd_itf/arsdk_cmd_itf2.c:398-422 | The packing loop makes the pack that the specification says |
| `TxQueueV2.TxQueue.NotifyPacked` | libarsdk/src/cmd_itf/arsdk_cmd_itf2.c:561-566 | The loop over the packed entries notifies each of them, across the wrap |
| `TxQueueV2.TxQueue.CheckPass` | libarsdk/src/cmd_itf/arsdk_cmd_itf2.c:486-589 | One look at a queue, in place |
| `TxQueueV2.TxQueue.CheckTxQueue` | libarsdk/src/cmd_itf/arsdk_cmd_itf2.c:486-589 | The loop of looks terminates and does what the specification says |
| `TxQueueV2.TxQueue.RecvAck` | libarsdk/src/cmd_itf/arsdk_cmd_itf2.c:626-710 | An acknowledgement, in place |
| `TxQueueV2.TxQueue.Stop` | libarsdk/src/cmd_itf/arsdk_cmd_itf2.c:291-310 | Every entry is cancelled, oldest first |
| `TxQueueV2.Receiver.UnpackCmds` | libarsdk/src/cmd_itf/arsdk_cmd_itf2.c:884-951 | The loop over the payload delivers and returns what the unpacking function says |
| `TxQueueV2.Receiver.RecvDataFrame` | libarsdk/src/cmd_itf/arsdk_cmd_itf2.c:956-1004 | A data frame is refused after the stop; otherwise it is acknowledged on an acknowledged queue, and unpacked if and only if its number is to be processed, while the other identifiers stay |
| `SystemV1.AtMostOnceInOrder` | libarsdk/src/cmd_itf/arsdk_cmd_itf1.c:374-493 | In every run, with any retries, losses, duplications and wraps of the 8-bit numbers, the commands delivered are a subsequence of those transmitted, in the order of their first transmissions, and none is delivered twice |
| `SystemV1.SubsequenceOfAccepted` | libarsdk/src/cmd_itf/arsdk_cmd_itf1.c:374-493 | Without overwriting they are a subsequence of the accepted commands |
| `SystemV1.StepKeepsInv` | libarsdk/src/cmd_itf/arsdk_cmd_itf1.c:374-493 | Each kind of step keeps the invariant: frames of the same command have the same number, and the receiver is never ahead of the link |
| `SystemV1.OnlyOldestWaits` | libarsdk/src/cmd_itf/arsdk_cmd_itf1.c:374-493 | Only the oldest entry of an acknowledged queue ever waits for an acknowledgement, and then it carries the number of the queue; a queue that overwrites and is not acknowledged never holds two commands with the same identifier |
| `TracesV1.DoneOnce` | libarsdk/src/cmd_itf/arsdk_cmd_itf1.c:163-182 | In every run of every queue only the last call for a command says that it is done, and by the end of the stop each accepted command got exactly one |
| `TracesV1.TransmissionBound` | libarsdk/src/cmd_itf/arsdk_cmd_itf1.c:374-493 | A command with a positive limit of retries is transmitted at most once more than that, and it is given up only after exactly so many transmissions; without acknowledgements it is transmitted at most once |
| `TracesV1.RetriesInNumbers` | libarsdk/src/cmd_itf/arsdk_cmd_itf1.c:107-114 | A command whose description asks to retry is given up only after 0x80000000 transmissions; any other one after exactly one more than the positive limit of its queue, and never if that is not positive |
| `TracesV1.OneFramePerDelay` | libarsdk/src/cmd_itf/arsdk_cmd_itf1.c:440-451 | In every run of a queue with a minimum delay whose times do not go back, more than this delay passes between any two frames in a row, retries or not |
| `TracesV1.StepKeepsLog` | libarsdk/src/cmd_itf/arsdk_cmd_itf1.c:374-493 | Each step keeps the number of calls of a pending command equal to its retries, plus one while it waits |
| `CountsV1.AckedIffProcessed` | libarsdk/src/cmd_itf/arsdk_cmd_itf1.c:530-582 | What an acknowledgement says, in every run: the command it is taken for has been processed by the receiver if and only if a frame of it has arrived and its number was to be processed when the first one did, with all numbers counted without wrapping. The acknowledgement answers a frame of this command, or one a multiple of 256 numbers before |
| `CountsV1.AckedAreProcessed` | libarsdk/src/cmd_itf/arsdk_cmd_itf1.c:374-493 | In every run in which always fewer than 246 numbers were used since the last frame processed, and no acknowledgement is 256 numbers old, every command reported as acknowledged has been processed |
| `CountsV1.StepKeepsCounts` | libarsdk/src/cmd_itf/arsdk_cmd_itf1.c:374-493 | Each kind of step keeps the invariant of the counts: the frames and acknowledgements on the links and the receiver have the 8-bit numbers of counts that are in order |
| `CountsV1.AckedAfterRefusals` | libarsdk/src/cmd_itf/arsdk_cmd_itf1.c:453-492 | A command that the transport refused any number of times is acknowledged over links that lose nothing, whatever the receiver processed last; the application gets it if and only if the number that it got at last is to be processed |
| `CountsV1.LostAfterRefusals` | libarsdk/src/cmd_itf/arsdk_cmd_itf1.c:453-492 | A run without losses, with 255 refusals, in which two commands are acknowledged and one is delivered |
| `CountsV1.LostToOldAck` | libarsdk/src/cmd_itf/arsdk_cmd_itf1.c:530-582 | A run in which an old acknowledgement is taken for that of a command whose only frame was lost |
| `QueueV1.OverwriteRefinesMap` | libarsdk/src/cmd_itf/arsdk_cmd_itf1.c:197-293 | Adding to a queue that overwrites and is not acknowledged is putting into a map with insertion order: identifiers stay distinct, a newer command takes the place of the older one, which alone is cancelled, and all others keep value and place |
| `QueueV1.PopRefinesMap` | libarsdk/src/cmd_itf/arsdk_cmd_itf1.c:297-305 | Removing the oldest entry removes the oldest key of that map |
| `QueueV1.Replaceable` | libarsdk/src/cmd_itf/arsdk_cmd_itf1.c:197-216 | The entry to replace is the first one with the identifier that does not wait for an acknowledgement |
| `QueueV1.ProcessedAfterSkips` | libarsdk/src/cmd_itf/arsdk_cmd_itf1.c:714-726 | When exactly a frame is processed whose number is any distance after that of the last one processed |
| `QueueV1.DeadlineIsExact` | libarsdk/src/cmd_itf/arsdk_cmd_itf1.c:394-438 | Until its deadline a command that waits for its acknowledgement does nothing but count down; when it is over, the command is given up or transmitted again, unless the minimum delay is running |
| `QueueV1.SentDeadline` | libarsdk/src/cmd_itf/arsdk_cmd_itf1.c:479-487 | After an acknowledged transmission the deadline is the whole timeout, exactly |
| `QueueV1.RateDeadline` | libarsdk/src/cmd_itf/arsdk_cmd_itf1.c:440-451 | The deadline during the minimum delay is the time that is over: 0, for which no timer is set, in the first millisecond; and else right if and only if about half of the delay was over |
| `TxQueueV1.TxQueue.constructor` | libarsdk/src/cmd_itf/arsdk_cmd_itf1.c:140-159 | A new queue is empty, and its first frame gets number 0 |
| `TxQueueV1.TxQueue.Replace` | libarsdk/src/cmd_itf/arsdk_cmd_itf1.c:197-228 | The search in the circular array replaces the right entry in place, or finds none |
| `TxQueueV1.TxQueue.Add` | libarsdk/src/cmd_itf/arsdk_cmd_itf1.c:232-293 | Overwrites or appends, in place, also when the array is reallocated |
| `TxQueueV1.TxQueue.Send` | libarsdk/src/cmd_itf/arsdk_cmd_itf1.c:453-492 | The transmission of the oldest command, with a new number only if it is not a retry |
| `TxQueueV1.TxQueue.CheckPass` | libarsdk/src/cmd_itf/arsdk_cmd_itf1.c:374-493 | One look at a queue, in place: it waits, retries, gives up or transmits |
| `TxQueueV1.TxQueue.CheckTxQueue` | libarsdk/src/cmd_itf/arsdk_cmd_itf1.c:374-493 | The loop of looks terminates on every queue and does what the specification says |
| `TxQueueV1.TxQueue.RecvAck` | libarsdk/src/cmd_itf/arsdk_cmd_itf1.c:530-582 | An acknowledgement counts only if it is for the oldest entry |
| `TxQueueV1.TxQueue.Stop` | libarsdk/src/cmd_itf/arsdk_cmd_itf1.c:163-182 | Every entry is cancelled, oldest first |
| `TxQueueV1.Receiver.RecvDataFrame` | libarsdk/src/cmd_itf/arsdk_cmd_itf1.c:749-830 | A data frame is refused after the stop; otherwise it is acknowledged on an acknowledged queue, and delivered if and only if its number is to be processed and it has a header, while the other identifiers stay |
| `Md5.Context.Update` | libarsdkctrl/src/arsdk_md5.c:238-272 | Whatever was taken in before, updating with any bytes appends them to the message; the length words hold the byte count modulo 2 to the 61 |
| `Md5.Context.Final` | libarsdkctrl/src/arsdk_md5.c:274-323 | The result is the digest of the whole message as RFC 1321 defines it, however it was split; the context is wiped |
| `Md5Sines.TableOfSines` | libarsdkctrl/src/arsdk_md5.c:139-209 | Each of the 64 constants is the integer part of 2 to the 32 times the absolute value of the sine of its number, for any values that satisfy the addition formulas and the series of sine and cosine at 1 |
| `Md5TestSuite.LettersAndDigits` | libarsdkctrl/src/arsdk_md5.c:238-323 | The digest of the 62 letters and digits is the one that appendix A.5 of RFC 1321 gives |
| `Md5Spec.OutputRegisters` | libarsdkctrl/src/arsdk_md5.c:305-320 | The four words of the result are the four registers in order, low-order byte first |
| `Md5.Context.FinalBlocks` | libarsdkctrl/src/arsdk_md5.c:278-303 | The padding, in one block or in two, is that of sections 3.1 and 3.2 of RFC 1321 |
| `Md5.Context.Body` | libarsdkctrl/src/arsdk_md5.c:119-225 | The loop over a multiple of 64 bytes is the processing of the blocks one after the other |
| `Md5.Context.Init` | libarsdkctrl/src/arsdk_md5.c:227-236 | The registers of section 3.3 of RFC 1321, and nothing taken in |
| `Md5.OneBlock` | libarsdkctrl/src/arsdk_md5.c:139-217 | The 64 steps with the rewritten functions compute the state that section 3.4 of RFC 1321 defines |
| `Md5.Round1` | libarsdkctrl/src/arsdk_md5.c:139-155 | The first 16 steps are the first 16 operations |
| `Md5.Round2` | libarsdkctrl/src/arsdk_md5.c:157-173 | The next 16 steps |
| `Md5.Round3` | libarsdkctrl/src/arsdk_md5.c:175-191 | The next 16 steps, where every second one uses the other form of the function |
| `Md5.Round4` | libarsdkctrl/src/arsdk_md5.c:193-209 | The last 16 steps |
| `Md5.FourSteps` | libarsdkctrl/src/arsdk_md5.c:86-89 | Four steps on each register in turn are four operations |
| `Md5.StepIsOperation` | libarsdkctrl/src/arsdk_md5.c:86-89 | A step is an operation, whatever the order of its sum |
| `Md5.SameF` | libarsdkctrl/src/arsdk_md5.c:77-81 | The rewritten F is the F of RFC 1321 on all words |
| `Md5.SameG` | libarsdkctrl/src/arsdk_md5.c:77-81 | The rewritten G is the G of RFC 1321 on all words |
| `Md5.SameH2` | libarsdkctrl/src/arsdk_md5.c:77-81 | The second form of H is the H of RFC 1321 on all words |
| `Md5.CountsAdd` | libarsdkctrl/src/arsdk_md5.c:244-248 | The split addition keeps the 29-bit and the 32-bit word the length modulo 2 to the 61 |
| `Md5.CountsPlace` | libarsdkctrl/src/arsdk_md5.c:278-301 | The low word gives the place in the block, and the two words the bit count modulo 2 to the 64 |
| `Md5.Compute` | libarsdkctrl/src/arsdk_md5.c:325-356 | The digest of a file read in chunks of any sizes is that of its bytes; nothing if a read fails |
| `Md5Spec.BlocksAppend` | libarsdkctrl/src/arsdk_md5.c:119-225 | Processing blocks in two parts is processing them at once |
| `Codec.CmdRoundTrip` | libarsdk/src/arsdk_encoder.c:231-446 | For every description over the 13 types and every matching arguments, decoding the encoded command, with anything after it, gives the arguments back; a missing string comes back empty |
| `Codec.CmdCanonical` | libarsdk/src/arsdk_decoder.c:297-471 | A command that decodes is the encoding of what it decodes to, followed by bytes that are ignored |
| `Codec.ValuesRoundTrip` | libarsdk/src/arsdk_encoder.c:271-431 | The same for lists of arguments anywhere in a buffer: decoding ends right after them |
| `Codec.ValueRoundTrip` | libarsdk/src/arsdk_encoder.c:114-227 | The same for one argument of any type |
| `Codec.ValueCanonical` | libarsdk/src/arsdk_decoder.c:87-238 | What is decoded encodes to the very bytes that were read |
| `Codec.Ranges` | libarsdk/src/arsdk_encoder.c:114-227 | Which numbers an argument of each of the types can be |
| `Codec.BytesOf8Bits` | libarsdk/src/arsdk_encoder.c:114-126 | The byte of an 8-bit number |
| `Codec.BytesOf16Bits` | libarsdk/src/arsdk_encoder.c:130-142 | The two bytes of a 16-bit number, negative ones in two's complement |
| `Codec.BytesOf32Bits` | libarsdk/src/arsdk_encoder.c:146-187 | The four bytes of a 32-bit number, an enumeration or a single-precision number |
| `Codec.BytesOf64Bits` | libarsdk/src/arsdk_encoder.c:162-209 | The eight bytes of a 64-bit or a double-precision number |
| `Codec.BytesOfOthers` | libarsdk/src/arsdk_encoder.c:191-227 | The bytes of a string, also a missing one, and of a block |
| `Codec.BytesOfHeader` | libarsdk/src/arsdk_encoder.c:256-265 | The four bytes at the beginning of a command |
| `Codec.ValuesCanonical` | libarsdk/src/arsdk_decoder.c:297-471 | The same for lists of arguments |
| `Codec.Encoder.EnsureCapacity` | libarsdk/src/arsdk_encoder.c:76-93 | The capacity grows to a multiple of 256 and the bytes written stay |
| `Codec.Encoder.Write` | libarsdk/src/arsdk_encoder.c:97-110 | Bytes are appended, and the offset never passes the capacity |
| `Codec.Encoder.WriteValue` | libarsdk/src/arsdk_encoder.c:114-227 | The bytes of one argument are appended |
| `Codec.Encode` | libarsdk/src/arsdk_encoder.c:231-446 | The loop over the arguments makes the encoding, or fails if and only if their number or a type does not match |
| `Codec.Decoder.Read` | libarsdk/src/arsdk_decoder.c:59-83 | The next bytes, or an error that leaves the offset, if and only if there are not as many |
| `Codec.Decoder.ReadCstr` | libarsdk/src/arsdk_decoder.c:205-220 | A string up to its zero byte, or an error if there is none |
| `Codec.Decoder.ReadValue` | libarsdk/src/arsdk_decoder.c:87-238 | One argument of any type, as the format says; the offset at which it stops is exact also after an error |
| `Codec.StopBound` | libarsdk/src/arsdk_decoder.c:59-83 | Decoding never moves beyond the end of the buffer, also when it fails, if it starts within it |
| `Codec.Decode` | libarsdk/src/arsdk_decoder.c:297-471 | The header and all the arguments, or an error if and only if the identifiers differ or an argument is not there; the offset stays within the buffer |
| `Codec.GetValues` | libarsdk/src/arsdk_decoder.c:558-661 | The same arguments as the other decoder whenever that one succeeds and they fit; the offset leaves the buffer if and only if the decoder is reached with fewer than four bytes |
| `FindDesc.Find` | libarsdk/src/arsdk_decoder.c:506-543 | On every table grouped by project and class, with empty inner tables and repeated identifiers allowed, the search with its early exits finds exactly the description that comes first in the flattened table, or none |
| `FindDesc.GetValues` | libarsdk/src/arsdk_decoder.c:545-662 | Decoding by the identifiers: not found if and only if the table has no description for them; otherwise the arguments of the first one |
| `MuxHeader.RoundTripV2` | libarsdk/src/mux/arsdk_transport_mux.c:145-195 | For every version up to the largest one that can be encoded, reading a header back, with anything after it, gives the type, the identifier, the 16-bit number, the payload length and the header length if and only if the version is at least 2 |
| `MuxHeader.ParseV2` | libarsdk/src/mux/arsdk_transport_mux.c:145-195 | A header that is read has 6 to 14 bytes and lies within the frame |
| `MuxHeader.BytesOfV2` | libarsdk/src/mux/arsdk_transport_mux.c:354-414 | The bytes of a header of version 2 or later; of version 2 the first one is 12 |
| `MuxHeader.BytesOfV1` | libarsdk/src/mux/arsdk_transport_mux.c:416-449 | The seven bytes of a header of version 1; a length below 7 is refused |
| `MuxHeader.RefusedV2` | libarsdk/src/mux/arsdk_transport_mux.c:145-195 | A frame whose first byte is below 12 is refused by version 2 |
| `MuxHeader.V1IsNotV2` | libarsdk/src/mux/arsdk_transport_mux.c:145-195 | No frame that starts with a type of version 1, complete or not, is read as version 2 |
| `MuxHeader.RoundTripV1` | libarsdk/src/mux/arsdk_transport_mux.c:112-131 | A header of version 1 is read back with its number modulo 256, if and only if the frame is at least as long as its header |
| `MuxHeader.Buffer.EncodeV2` | libarsdk/src/mux/arsdk_transport_mux.c:354-414 | The header is appended, or nothing is written, when the version is too large or there is no room for the longest header |
| `MuxHeader.Buffer.EncodeV1` | libarsdk/src/mux/arsdk_transport_mux.c:416-449 | The header is appended if there is room for it |
| `MuxHeader.DecodeV2` | libarsdk/src/mux/arsdk_transport_mux.c:145-195 | The cursor over the frame reads what the format says, or refuses it |
| `MuxHeader.DecodeV1` | libarsdk/src/mux/arsdk_transport_mux.c:112-131 | The same for version 1 |
| `MuxHeader.ReadProtoV` | libarsdk/src/mux/arsdk_transport_mux.c:59-77 | The version at the start of a frame; a value that is a type of version 1 means version 1 and takes no bytes |
| `LinkedList.Add` | libarsdk/src/arsdk_list.h:119-127 | Between two neighbours of a cycle, the cycle has the new node there, with all pointers right in both directions |
| `LinkedList.AddAfter` | libarsdk/src/arsdk_list.h:129-133 | The node comes right after the other one |
| `LinkedList.AddBefore` | libarsdk/src/arsdk_list.h:135-139 | The node comes right before the other one; before the head, at the end of the list |
| `LinkedList.Detach` | libarsdk/src/arsdk_list.h:141-146 | Joining the neighbours of a node leaves the cycle without it |
| `LinkedList.Del` | libarsdk/src/arsdk_list.h:148-153 | The node is out, with no pointers |
| `LinkedList.DelInit` | libarsdk/src/arsdk_list.h:155-160 | The node is out and a list of its own |
| `LinkedList.Replace` | libarsdk/src/arsdk_list.h:162-169 | The new node takes the place of the old one, also of one that is alone |
| `LinkedList.ReplaceInit` | libarsdk/src/arsdk_list.h:171-176 | The same, and the old node is a list of its own |
| `LinkedList.MoveAfter` | libarsdk/src/arsdk_list.h:178-183 | A node is taken out and comes after another one; after itself, the list survives if and only if the node is alone, and otherwise its pointers are said |
| `LinkedList.MoveBefore` | libarsdk/src/arsdk_list.h:185-190 | A node is taken out and comes before another one; before itself, likewise |
| `LinkedList.NextIsNext` | libarsdk/src/arsdk_list.h:96-100 | The next item is the next element of the list, and there is none after the last |
| `LinkedList.EndsOfList` | libarsdk/src/arsdk_list.h:102-117 | The list is empty if and only if it has no elements; its first and last ones are where they belong |
| `LinkedList.Length` | libarsdk/src/arsdk_list.h:241-252 | The walk over the list ends, with the number of its elements |
| `Registry.Discovery.Purge` | libarsdkctrl/src/arsdk_discovery.c:79-112 | The search that starts over after each removal ends; exactly the devices of this discovery from other runs are gone, the others are the same in the same order, with valid handles that are all different |
| `Registry.Discovery.AddDevice` | libarsdkctrl/src/arsdk_discovery.c:152-192 | A device seen again is marked and no other is touched, a new one is appended; with an identifier given, one with another identifier is never marked, whatever its name. It is safe from the next purge if and only if the number of the run fits in 16 bits |
| `Registry.Discovery.FindDevice` | libarsdkctrl/src/arsdk_discovery.c:114-148 | The first device of this discovery and backend type with the identifier, or with the name if no identifier is given; none if and only if there is no such device |
| `Registry.Discovery.RemoveDevice` | libarsdkctrl/src/arsdk_discovery.c:196-224 | Exactly the first matching device is removed; with an identifier given, never one with another identifier, whatever its name |
| `Registry.Discovery.Start` | libarsdkctrl/src/arsdk_discovery.c:34-57 | A start takes a new number for the run, unless a run is going on |
| `Registry.FitsInt16` | libarsdkctrl/src/arsdk_device.c:476-488 | A run number survives the conversion if and only if it fits in 16 bits |
| `Registry.Ctrl.GenerateHandle` | libarsdkctrl/src/arsdk_ctrl.c:190-216 | The first random number that is a valid handle of no device |
| `Registry.FreeHandleIff` | libarsdkctrl/src/arsdk_ctrl.c:190-216 | If every number comes up sooner or later, such a handle does, and the search ends, if and only if there are fewer than 65535 devices |
| `Registry.Ctrl.CreateDevice` | libarsdkctrl/src/arsdk_ctrl.c:221-254 | The new device is appended, and handles stay valid and different |
| `Registry.Ctrl.RegisterDevice` | libarsdkctrl/src/arsdk_ctrl.c:117-138 | A device is appended unless it is there |
| `Registry.Ctrl.UnregisterDevice` | libarsdkctrl/src/arsdk_ctrl.c:142-169 | A device is taken out if it is there |
| `Registry.Ctrl.DestroyDevice` | libarsdkctrl/src/arsdk_ctrl.c:258-295 | A device is marked and taken out; the others stay in order |
| `Registry.Ctrl.NextDevice` | libarsdkctrl/src/arsdk_ctrl.c:174-188 | The device after another one, or the first |
| `Registry.Ctrl.UnregisterBackend` | libarsdkctrl/src/arsdk_ctrl.c:319-353 | Exactly the devices of the backend are destroyed, during the walk over the list, and the backend is gone |
| `Registry.Ctrl.UnregisterDiscovery` | libarsdkctrl/src/arsdk_ctrl.c:377-411 | The discovery is gone; its devices stay and no longer belong to it |
| `Registry.Ctrl.GetDevice` | libarsdkctrl/src/arsdk_ctrl.c:413-427 | The device with a handle; none if and only if there is none |
| `Registry.WithoutOne` | libarsdkctrl/src/arsdk_discovery.c:79-112 | Removing one stale device makes no difference to what the purge leaves |

## Left out

- Links that reorder frames: the exactly-once theorems are about links that keep the order; `ReorderingV3` has one run of the others.
- The variable-length integers come from a library that is not part of this model: they are taken as 7 bits a byte, least
  significant group first, 1 to 5 bytes, with an error for longer ones and for values of more than 32 bits.
- Elapsed times: the time library is not part of this model; a delay is running while the elapsed time is within its range.
- Callbacks that call the interface again or change a list, and allocation failures.
- Memory lifetime: reference counts, freed entries and the poison values of list nodes (a null pointer stands for them).
- In `SystemV1`, `SystemV2` and `SystemV3` a queue is alone on its links; `PeersV3` puts all the acknowledged queues of version 3 together.
- Versions 1 and 2 have no model of the loop over all queues, of the choice of the queue and of the timer, which are those of version 3 up to the
  choice of the high priority queue in version 1; their receivers have the data frames, and `RecvAck` of the queue is called for its own acknowledgements.
- Low latency queues, the link quality counters, pack status callbacks and logging.
- The counters of transmissions, acknowledgements and retries and the lengths of queues are unbounded; 32-bit overflow of these is not modelled.
- MuxHeader.Buffer.EncodeV1: takes the size of the whole frame, which the code adds up from the lengths of header and payload.
- The argument lists of C (`va_list`), the path for processors other than little-endian ones that read numbers in place, and `arsdk_cmd_fmt`.
- Floating-point numbers are their bits.
- Md5.Context.Final: writes to the buffer that follow each other directly are one step of the model.
- The registry keeps its lists as sequences; `LinkedList` has the pointers. Device states, disconnection and callbacks of the controller.
- Registry.Ctrl.DestroyDevice: the forced disconnection of a connected device is left out; the device is marked and taken out.
- Registry.Ctrl.GenerateHandle: the random numbers are a parameter, among which a free handle has to come up (`FreeHandleIff`), as otherwise the code loops forever.
- Registry.Ctrl.CreateDevice: likewise.
- Registry.Discovery.AddDevice: likewise, for a device that is not known yet.
- InterfaceV3.CmdItf3.FindTxQueue: the kind of the command is a parameter, where the code takes it from the description of the command if the caller gave none
  (`FindDesc.Find` is that search).
- FindDesc.GetValues: the identifiers of the command are a parameter.
- PeersV3.SendCmd: the user data of a command is the number of commands accepted before it by its queue, which the queue only hands back.
- Sockets, the event loop, the multiplexer, discovery over the network, JSON handshakes, FTP and everything built on it.
- InterfaceV3.CmdItf3.Send: a command for a queue without acknowledgement and without a minimum delay is required to fit in a pack, because
  with a transport that takes every frame the code would not return (`NoAckDrainsIff`); what it does when a frame is refused is in `UnackedV3`.
- TxQueueV3.TxQueue.CheckTxQueue: likewise for the commands of such a queue.
- TxQueueV2.TxQueue.CheckTxQueue: likewise for the commands of a queue without acknowledgement, which returns only on a refusal.

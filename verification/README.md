# Verification of the module bus and two tool algorithms

This project models two parts of the repository and proves what they promise.

**The shared-memory bus and the module call protocol**, in four layers. Each is proved on its own
terms, and `PacketRuns.dfy` and `CallOverChannels.dfy` put them together: a port is a client, what
the polls of one side bring is what the other side sent, and the call needs no more.

1. *The ring.* `RingLayout.dfy` is the layout and the counter arithmetic: 64-bit counters that
   wrap, a power-of-two mask, byte offsets into one mapping. `Ring.dfy` is the object over those
   bytes. `RingProtocol.dfy` cuts the operations of the producer and the consumer into their
   atomic loads, slot bytes and stores, interleaves them freely, and refines a bounded
   first-in first-out queue.
2. *The channel.* `Wire.dfy` and `FrameCodec.dfy` are the 64-byte frame header, `Channel.dfy` the
   client over two rings, `ChannelRuns.dfy` whole sequences of sends and polls.
3. *Fragments.* `Envelope.dfy` is the 40-byte module envelope, `Fragments.dfy` the split of a body,
   `Port.dfy` the narrow surface the module layers use of a client, `Caller.dfy` the calling side.
4. *The serving loop.* `Runtime.dfy` is a state machine whose actions are steps of the loop and of
   the handlers; `RuntimeInv.dfy`, `RuntimeHistory.dfy`, `RuntimeDrain.dfy`, `RuntimeCancel.dfy` and
   `RuntimeReplies.dfy` prove properties of all its runs, `RuntimeJobs.dfy` of the life of one job,
   and `RuntimeIntake.dfy` says what the loop makes of each packet and what a started job runs on.
   `ReplyLoop.dfy` is the sending of a reply, with its retries. `RuntimeLoop.dfy` is the loop as it
   is written, with maps updated in place and handlers moving between its steps, and shows that each
   of its methods is a run of the machine. `RequestTails.dfy` follows a request whose fragments are
   not all kept. `CallFidelity.dfy` joins caller and module, `CallOverChannels.dfy` does so over two
   channels, each followed until it is drained, and `CallAlone.dfy` shows that a call nothing
   disturbs meets the premises and succeeds.

**Two tool algorithms.** `Occurrences.dfy` and `EditFile.dfy` are the string replacement of the edit
tool; `Chain.dfy` and `ChainRun.dfy` the command chains of the guarded shell; `Capture.dfy` the
bounded capture of a command's output.

`Words.dfy` holds machine words, little-endian fields and bit masks; `Wrappers.dfy` the two result types.

Where the code and its documentation part, the model follows the code:

- The edit tool's header says `old_string` must occur exactly once. The code counts matches that do
  not overlap, so a string with a proper border (such as `aa`) can occur twice and count once.
  `Occurrences.CountMeansUnique` gives the exact condition.
- The edit tool reads a file as a C string: bytes from the first NUL on are dropped by the write.
- A failed command before `&&` skips one command, not the pipeline it begins, unlike sections 2.9.2
  and 2.9.3 of the Shell Command Language in IEEE Std 1003.1-2017. `ChainRuns.LoopIsActual` says what
  runs instead and `ChainRuns.ChainAgreesIff` when there is no difference.
- `Call` narrows the request length to 32 bits before it compares it with the limit. A request of
  2^32 bytes passes (`Caller.GuardCanFail`): `Call` numbers it and sends its fragments one by one
  (`Caller.OversizedGoesOut`). `Caller.SizeGuardIff` is the exact condition.
- The module refuses the fragment that passes 16 MiB, or the first one when the table is full, and
  drops what it had gathered; but it does not remember. The next fragment begins a new assembly, and
  the last one can start a job on a tail of the request (`RequestTails.TailStarts`).
  `RequestTails.WholeRequestIff` is the exact condition for the whole.
- A call on kind 3 or 4 can never return a body: the host's refusals use those kinds.
- `Poll` takes an inline slice without the placement check. Its bound is a wrapping sum: the frame of
  `Channel.PollCanFault` is valid, decodes, and makes it slice out of range, which ends the program;
  `Channel.SliceUnsafeIff` is the exact condition. The frame of `Channel.PollCanShowHeader` has its
  payload inside the header, and `Poll` hands it out. No frame that `emit` sends does either
  (`Channel.ReadBack`).

## Model

| member | source | states |
|---|---|---|
| Words.LittleEndian | server-go/bus/wire.go:164-218 | Byte i of a field is the i-th least significant one of the word read from it. |
| RingLayout.NeedFits | server-go/bus/ring.go:58-65 | For every geometry the header check lets through, the size computation stays below 2^63, the capacity is at most 2^31 and divides 2^64. |
| RingLayout.MaskReduces | server-go/bus/ring.go:88-90 | Masking an index with capacity - 1 is the index modulo the capacity. |
| RingLayout.SlotLives | server-go/bus/ring.go:88-91 | Index i lives at byte 192 + (i mod capacity) * slotSize, where the other end of the mapping looks for it. |
| RingLayout.HeaderIs | server-go/bus/ring.go:46-75 | Which header is accepted, word by word at the offsets both ends share; the two counters may differ by a capacity at most, modulo 2^64. |
| RingLayout.SlotInside | server-go/bus/ring.go:88-91 | Every one of the 2^64 indexes names a slot past the header and inside the mapped bytes. |
| RingLayout.SlotsDisjoint | server-go/bus/ring.go:88-91 | Two indexes less than a capacity apart, counted modulo 2^64 and so across the wrap, name disjoint slots. |
| RingLayout.FreeSlotIsPrivate | server-go/bus/ring.go:93-103 | Whatever is written into the free slot at the head, the queue and both counters stay as they are. |
| RingLayout.Publish | server-go/bus/ring.go:105-109 | Storing head + 1, wrapping, appends exactly the slot at the head to the queue and keeps the ring sound. |
| RingLayout.Release | server-go/bus/ring.go:122-126 | Storing tail + 1, wrapping, removes exactly the front of the queue and keeps the ring sound. |
| Rings.AttachRing | server-go/bus/ring.go:46-75 | Accepts a mapping if and only if its header is sound for the bytes mapped; the ring it returns has the header's geometry. Any other mapping is an error. |
| Rings.InitRing | server-go/bus/ring.go:130-149 | Succeeds if and only if the capacity is a power of two of at least 2, slots are not empty and all fits; the result is an empty valid ring, and bytes behind it are untouched. On failure nothing is written. |
| Rings.Ring.ProduceBegin | server-go/bus/ring.go:96-103 | No slot if and only if the queue is full; otherwise the offset of the slot at the head. |
| Rings.Ring.ProduceCommit | server-go/bus/ring.go:106-109 | The queue grows at its end by the contents of the slot at the head. |
| Rings.Ring.ConsumeBegin | server-go/bus/ring.go:113-120 | No slot if and only if the queue is empty; otherwise the slot whose bytes are the front of the queue. |
| Rings.Ring.ConsumeCommit | server-go/bus/ring.go:123-126 | The queue loses exactly its front. |
| Rings.Ring.Count | server-go/bus/ring.go:84-86 | The number of queued slots, whatever the counters have wrapped to. |
| RingProtocol.StepRefinesFifo | server-go/bus/ring.go:93-126 | Under any interleaving, every atomic step of either side keeps the invariant and is a step or a stutter of a bounded first-in first-out queue; only the two index stores move the queue. |
| RingProtocol.VerdictsAreSound | server-go/bus/ring.go:96-120 | Full and empty are true answers at the instant the peer index is loaded, and a slot is granted only when one is free, or one is there, even on a stale index. |
| RingProtocol.DeliveredInOrder | server-go/bus/ring.go:93-126 | Over every run: the j-th slot released showed only bytes of the j-th slot published; published minus released is the queue and never exceeds the capacity, modulo 2^64. |
| RingProtocol.BorrowedSlotIsStable | server-go/bus/client.go:277-305 | While the consumer holds a slot, no run of producer steps changes any byte of it. |
| Wire.ValidateIff | server-go/bus/wire.go:111-158 | The ordered flag tests accept exactly the well-formed frames: one pattern, a placement that matches the payload, more only on inline requests and replies, generation only with an arena payload, correlation zero exactly for notifications. |
| Wire.ValidateBits | server-go/bus/wire.go:111-158 | The acceptance and the four flag tests of the callers, over the individual bits of any 16-bit flag word. |
| Wire.PlacementInSlot | server-go/bus/wire.go:223-246 | The placement check with its wrapping 64-bit sum accepts an inline payload if and only if it lies between the header and the end of the slot. |
| FrameCodec.DecodeEncode | server-go/bus/wire.go:164-218 | Decoding any bytes that begin with the encoding of a frame gives that frame back if it is valid, and its validation error otherwise. |
| FrameCodec.EncodeDecode | server-go/bus/wire.go:164-218 | Re-encoding any accepted header reproduces its 64 bytes. |
| FrameCodec.DecodeInjective | server-go/bus/wire.go:191-218 | Two accepted buffers that decode alike have the same 64 header bytes. |
| FrameCodec.HeaderLayout | server-go/bus/wire.go:191-218 | A header is accepted for its magic and its validity alone, each field is read at its own offset, and which error means what. |
| FrameCodec.Encode | server-go/bus/wire.go:160-189 | Writes the 64 bytes of a valid frame at its place and nothing else; a short buffer or an invalid frame writes nothing. |
| Envelope.DecodeEnvelope | server-go/bus/module_protocol.go:48-95 | Decoding bytes that begin with the encoding of an envelope gives it back exactly when it is valid and its body is covered. |
| Envelope.EncodeDecoded | server-go/bus/module_protocol.go:58-95 | Re-encoding any accepted envelope reproduces its 40 bytes. |
| Envelope.EnvelopeLayout | server-go/bus/module_protocol.go:76-95 | An envelope is accepted for its magic, version, header length, validity and the presence of its body, and each field is read at its own offset. |
| Envelope.TrailingBytesDoNotMatter | server-go/bus/module_protocol.go:76-95 | The decoded envelope depends on its 40 bytes and on whether the declared body is there, on nothing behind it. |
| Envelope.Encode | server-go/bus/module_protocol.go:58-74 | Writes the 40 bytes of a valid envelope and nothing else; otherwise the buffer is unchanged. |
| Channel.SizeTestIsExact | server-go/bus/client.go:192-195 | The narrowing conversion in the size test loses nothing, because the slot test stands beside it. |
| Channel.EmitFrameIs | server-go/bus/client.go:203-211 | Which frame `emit` builds: the flag bits of its pattern, inline at byte 64 with its length when there is a payload, this client as the source, and zero for principal, sequence, time, destination and generation. |
| Channel.EmitFrameValidIff | server-go/bus/client.go:203-214 | Which frames `emit` builds pass validation, for every pattern, more flag, correlation and length. |
| Channel.FragmentsAreAccepted | server-go/bus/client.go:188-275 | On legal geometry a correlated frame within the budget is refused only for a full ring or a changed epoch. |
| Channel.EmitAcceptsIff | server-go/bus/client.go:188-220 | For all four patterns and every geometry: the client accepts exactly when it is attached, in its epoch, with room in the ring and a slot for a header, the payload within budget, slot and 2^20 bytes, a correlation unless it notifies, and more only on payloads of requests and replies; and which condition each error stands for. |
| Channel.SliceUnsafeIff | server-go/bus/client.go:299-302 | The bound of `Poll` lets a slice out of range through if and only if reference plus length lies between 2^64 and 2^64 plus the slot size. |
| Channel.FaultsIff | server-go/bus/client.go:290-302 | A poll faults at a slot exactly when the slot decodes and its bounds wrap. |
| Channel.PollCanFault | server-go/bus/client.go:299-302 | A valid frame, carried by a slot that decodes, at which a poll faults. |
| Channel.PollShows | server-go/bus/client.go:295-304 | What a poll makes of any slot that decodes: the payload wherever in the slot its frame says, a fault, or an empty payload for a frame that is not inline or leaves the slot. |
| Channel.PollCanShowHeader | server-go/bus/client.go:299-302 | A frame the placement check refuses, and whose two header bytes a poll hands out as payload. |
| Channel.PlacementVersusPoll | server-go/bus/wire.go:223-246 | Of the slices a poll takes without a fault, the placement check refuses exactly those that begin inside the header. |
| Channel.ReadBack | server-go/bus/client.go:295-304 | A slot `emit` filled is safe to poll and reads back as exactly the frame and payload sent. |
| Channel.VerdictEmittable | server-go/bus/client.go:188-220 | Whatever `emit` agrees to send is a frame that reads back. |
| Channel.Client.Emit | server-go/bus/client.go:188-220 | The exact verdict in the order of the tests; on success the outbound queue grows by one slot that carries the frame and payload; on any error the outbound memory is unchanged. |
| Channel.Client.Publish | server-go/bus/client.go:222-225 | The same for a notification, which has no correlation; by `EmitAcceptsIff` it is accepted whenever there is room and the payload fits. |
| Channel.Client.RequestFragment | server-go/bus/client.go:232-246 | The same for a request fragment; no correlation, or more on an empty payload, is an error that changes nothing. |
| Channel.Client.ReplyFragment | server-go/bus/client.go:253-267 | The same for a reply fragment. |
| Channel.Client.Cancel | server-go/bus/client.go:269-275 | The same for a cancel. |
| Channel.Client.Poll | server-go/bus/client.go:277-305 | On any inbound ring: commits the held slot once, then hands out the front of the queue, drops it when it does not decode, or faults at a slice out of range; an error leaves ring and hold as they were. |
| ChannelRuns.PolledIsSent | server-go/bus/client.go:188-305 | Over every sequence of sends and polls of slots that do not fault, the events polled are exactly those of a prefix of the slots sent, in order and once each, and the rest is still queued. |
| PacketRuns.PacketsArrive | server-go/bus/client.go:188-305 | When the i-th slot sent reads as the i-th packet, whoever sent it, nothing faults, and the packets polled are a prefix of the packets sent, in order and once each. |
| PacketRuns.SendOver | server-go/bus/client.go:188-275 | Sending a packet through a client gives the verdict of a port with the client's geometry at that moment; accepted, it is one more slot, which carries the packet and reads back; refused, nothing changes. |
| ChannelRuns.PolledIsSentInterleaved | server-go/bus/client.go:188-305 | The same under every interleaving of atomic steps: if the j-th slot sent carries a frame, the j-th slot taken reads as that frame and payload. |
| Fragments.PacketCrosses | server-go/bus/client.go:203-211 | A request, reply or cancel arrives as the pattern, more flag, kind, correlation and payload that were sent. |
| Fragments.FragmentReads | server-go/bus/module_caller.go:150-157 | A fragment decodes to its envelope and its body part. |
| Fragments.SplitConserves | server-go/bus/module_caller.go:140-162 | The parts join to the body, more is set on all but the last, and every payload fits the budget. |
| Fragments.SplitCount | server-go/bus/module_runtime.go:238-274 | The number of fragments is the length divided by the chunk, rounded up, and at least one. |
| Ports.SendFragment | server-go/bus/module_caller.go:150-159 | Sends exactly the filled prefix of the reused frame buffer, or fails with the verdict of that moment. |
| Ports.FragmentRefusals | server-go/bus/module_caller.go:140-162 | On legal geometry no fragment of a body is refused for anything but the ring or the epoch. |
| Caller.SendRequest | server-go/bus/module_caller.go:132-163 | Sends the fragments of the request in order, one attempt each; an error is the failure of the first one not accepted and leaves exactly those before it sent. |
| Caller.LengthTestIsExact | server-go/bus/module_caller.go:214-216 | The 32-bit sum of the reply loop never wraps, so the test is the true bound. |
| Caller.AwaitReply | server-go/bus/module_caller.go:169-223 | The outcome of waiting on any sequence of polls, which the next three rows spell out; a body never exceeds 16 MiB. |
| Caller.AwaitEnds | server-go/bus/module_caller.go:169-223 | A wait ends at the first poll it does not wait through, by what that poll is: a bus error, a context done, an expired deadline, a frame of kind 4 or 3 on the correlation whatever the kind of the call, a result with another status, or the last OK fragment, which gives the bytes of all of them or is refused above 16 MiB. |
| Caller.AwaitOverflows | server-go/bus/module_caller.go:214-217 | A fragment that takes the reply past 16 MiB ends the wait though more is to follow. |
| Caller.AwaitWaits | server-go/bus/module_caller.go:169-213 | While every poll is empty, for someone else or one more OK fragment, and all of it fits, the caller waits. |
| Caller.ReplyReassembles | server-go/bus/module_caller.go:165-223 | However the fragments of an OK reply are interleaved with other correlations, the body returned is the body that was split. |
| Caller.RefusalArrives | server-go/bus/module_caller.go:206-208 | A reply with another status reaches the caller as that status. |
| Caller.ReplyReturnedIff | server-go/bus/module_caller.go:187-201 | A complete OK reply is returned as its body if and only if the kind of the call is not one the host reserves. |
| Caller.ModuleCaller.Call | server-go/bus/module_caller.go:96-130 | Size guard, numbering, sending and waiting in one: what was sent, what is returned, and that a failed wait is followed by a cancel unless the client refuses it. |
| Caller.RequestReads | server-go/bus/module_caller.go:96-157 | Every packet of a call decodes to an OK invocation of the stage asked for, on the kind and the correlation of the call, with its trace, due at `now + deadline` modulo 2^64, or at 0 without a deadline. |
| Caller.SizeGuardIff | server-go/bus/module_caller.go:101-103 | The request guard compares after narrowing to 32 bits; it is the intended bound exactly for the lengths named. |
| Caller.GuardCanFail | server-go/bus/module_caller.go:101-103 | A request of 2^32 bytes passes the guard. |
| Caller.OversizedGoesOut | server-go/bus/module_caller.go:132-163 | On legal geometry the sending of a request of any length fails only for a full ring or a changed epoch. |
| RequestTails.OverflowDrops | server-go/bus/module_runtime.go:385-394 | The fragment that passes 16 MiB takes the whole assembly with it. |
| RequestTails.TailStarts | server-go/bus/module_runtime.go:375-427 | With its correlation unknown to the table, the last fragment of any request starts a job on itself alone. |
| RequestTails.WholeRequestIff | server-go/bus/module_runtime.go:375-427 | For a request offered fragment by fragment with a job slot and time left at the last: a job starts on exactly the request if and only if the first fragment found a table slot and the length is at most 16 MiB; otherwise a job that starts gets a proper end of it. |
| RuntimeIntake.IntakeMeans | server-go/bus/module_runtime.go:356-427 | What becomes of a request that names its kind's stage and continues what came before it: Internal for a full table, a body above 16 MiB or no free job, DeadlineExceeded when whole with 0 < deadline <= now, CapabilityAbsent without a handler, and otherwise it is kept or its job starts on the bytes gathered. In each case the whole next state. |
| RuntimeIntake.ForeignIsRefused | server-go/bus/module_runtime.go:356-374 | Any other request is answered InvalidRequest, with its stage or 1 and without its trace, and what was gathered on its correlation is dropped. |
| RuntimeIntake.StartedIsRequested | server-go/bus/module_runtime.go:345-427 | Over every run: a job started on a correlation with nothing gathered at the start of the run has a block of consecutive requests on it, all naming the stage of the job's kind and the job's deadline and trace, more on all but the last, that one handled before the deadline, and the body is their parts joined. |
| RuntimeIntake.CancelMeans | server-go/bus/module_runtime.go:346-352 | A cancel flags the job of its correlation, if one is open, drops what was gathered on it, and changes nothing else. |
| RuntimeIntake.CancelForgets | server-go/bus/module_runtime.go:346-352 | A job that starts on a correlation after a cancel for it runs on a whole request offered after that cancel. |
| RuntimeIntake.AnswerMeans | server-go/bus/module_runtime.go:196-221 | What a handler's return becomes: Cancelled when flagged, DeadlineExceeded when 0 < deadline <= now, Internal for a status above 5 or a body above 16 MiB, a refusal without its bytes, or the body. |
| RuntimeIntake.ReplyReads | server-go/bus/module_runtime.go:223-291 | Over every run: each packet of a job's reply decodes to a result with the reply's status on the job's kind, correlation, stage and trace, and without a deadline. |
| RuntimeInv.StepKeepsInv | server-go/bus/module_runtime.go:196-429 | Every step of the loop and of the handlers keeps the accounting invariant. |
| RuntimeInv.ReachableAccounting | server-go/bus/module_runtime.go:286-429 | In every reachable state running handlers plus waiting results are the open jobs, at most 16; at most 16 assemblies, none for an open job, none above 16 MiB; each work item is the one stored under its correlation. |
| RuntimeInv.SendNeverBlocks | server-go/bus/module_runtime.go:196-221 | A handler that is ready to send finds room in the results channel, even after the loop has returned. |
| RuntimeInv.TakeResult | server-go/bus/module_runtime.go:286-291 | Deleting a job by the correlation of its result removes that job and no other. |
| RuntimeHistory.Conservation | server-go/bus/module_runtime.go:303-427 | Over every run: requests handled are refusals plus fragments kept plus jobs started, and jobs started are jobs finished plus drained plus open. |
| RuntimeHistory.RepliesAreStreams | server-go/bus/module_runtime.go:223-275 | What was sent is the reply streams of the history one after the other, each of them whole while the loop runs. |
| RuntimeHistory.RepliesAreAnswers | server-go/bus/module_runtime.go:196-221 | Every reply of a job, of any status, is what an answer of its handler became at the last look at the cancel flag and the clock. |
| RuntimeHistory.OkReplyIsEarned | server-go/bus/module_runtime.go:196-221 | In particular an OK reply exists only for a job whose handler returned OK with that very body, unflagged and in time. |
| RuntimeJobs.JobHistory | server-go/bus/module_runtime.go:286-427 | Each job: one start, at most one answer, at most one end, finished or drained, and none without an answer; it is open exactly until it has ended. |
| RuntimeJobs.AnswersAgree | server-go/bus/module_runtime.go:196-221 | Two answers of one job are the same answer. |
| RuntimeJobs.ReplyNamesItsJob | server-go/bus/module_runtime.go:286-291 | A reply goes to the kind, correlation, stage and trace of its own job. |
| RuntimeJobs.ReturnIsLogged | server-go/bus/module_runtime.go:196-221 | What a handler returned in a run is in the history, with the flag and the lateness found. |
| RuntimeJobs.FlagsHaveCause | server-go/bus/module_runtime.go:207-219 | With no shutdown, no cancel for its correlation, and its handler in time, a job's answer is neither cancelled nor late. |
| RuntimeDrain.DrainProgress | server-go/bus/module_runtime.go:315-323 | While jobs remain in the drain someone can move: a blocking receive has a result or a live handler to wait for. |
| RuntimeDrain.DrainTerminates | server-go/bus/module_runtime.go:315-323 | The steps still owed fall by one with every draining step, and a run that cannot go on has no job left. |
| RuntimeDrain.DrainedAnswersAreCancelled | server-go/bus/module_runtime.go:315-323 | A handler that returns during the drain answers Cancelled. |
| RuntimeDrain.ShutdownDrains | server-go/bus/module_runtime.go:315-323 | From any reachable state at shutdown, at most 48 steps empty the jobs, however handlers are scheduled, and every answer given meanwhile is Cancelled. |
| RuntimeCancel.CancelIsFinal | server-go/bus/module_runtime.go:346-352 | A cancel that finds the handler running is final: in every continuation the job's reply says Cancelled and carries nothing. |
| RuntimeReplies.ValidateConfig | server-go/bus/module_runtime.go:112-128 | Accepts a configuration exactly when every field is set, there is a stage, no kind or stage is zero and no kind repeats; the table then lists exactly those stages. |
| RuntimeReplies.PolledRequestIsAddressed | server-go/bus/wire.go:140-158 | A request that passed the frame codec has a correlation. |
| RuntimeReplies.OwnRepliesAreSendable | server-go/bus/module_runtime.go:223-291 | In every run on such requests, each reply has a correlation and a valid envelope for any part of its body. |
| ReplyLoop.SendUntilDone | server-go/bus/module_runtime.go:248-271 | Sending one acceptable packet comes to exactly what its attempts meet, one moment each: out at the first room in the ring, given up at another epoch or at a context done after a refusal. |
| ReplyLoop.AttemptMeans | server-go/bus/module_runtime.go:248-271 | All attempts but the last were refused for a full ring and waited out, context and epoch standing; the last one met decides: sent, another epoch, or a context done. |
| ReplyLoop.AttemptsStop | server-go/bus/module_runtime.go:248-271 | Attempts stop only for a context done at the last moment they met, or for an epoch changed at it or at the look after the pause. |
| ReplyLoop.ReplyResult | server-go/bus/module_runtime.go:223-275 | The retrying fragment loop sends a prefix of the reply and returns no error exactly when it is all of it. With a correlation, a stage and legal geometry, error, packets sent and moments used are exactly those of its attempts. |
| RuntimeLoop.ModuleLoop.HandleRequestPacket | server-go/bus/module_runtime.go:353-427 | The loop body on a request packet, which updates the maps in place, is the step of the state machine, whose outcome `RuntimeIntake.IntakeMeans` and `ForeignIsRefused` state; on legal geometry, unless one of its attempts meets a done context or another epoch, its refusal goes out whole and the loop goes on. |
| RuntimeLoop.ModuleLoop.HandleEvent | server-go/bus/module_runtime.go:345-427 | The same for any packet, with cancels and packets that are not requests. |
| RuntimeLoop.ModuleLoop.FinishWork | server-go/bus/module_runtime.go:286-291 | Taking a result deletes its job and replies, as the machine does; unless an attempt meets a done context or another epoch, the reply goes out whole and the loop goes on. |
| RuntimeLoop.ModuleLoop.HandlerEnds | server-go/bus/module_runtime.go:196-221 | The checks after a handler returned are the machine's. |
| RuntimeLoop.ModuleLoop.HandlerSend | server-go/bus/module_runtime.go:220-221 | The send on the results channel, which always has room. |
| RuntimeLoop.ModuleLoop.BeginDrain | server-go/bus/module_runtime.go:315-319 | Visiting the open jobs in any order flags every one of them and no other. |
| RuntimeLoop.ModuleLoop.Drain | server-go/bus/module_runtime.go:320-324 | The receive loop, under any schedule and any answers of the handlers, ends with no job and no handler, after exactly the steps owed, and returns; it is a run of the machine. |
| RuntimeLoop.ModuleLoop.FinishAll | server-go/bus/module_runtime.go:303-314 | Under any schedule of the handlers, every result waiting at the top of a turn is finished, unless a reply fails. |
| RuntimeLoop.ModuleLoop.Turn | server-go/bus/module_runtime.go:301-427 | Under any schedule of the handlers, a turn finishes the waiting results first, then looks at the context, the epoch and one packet in that order. On legal geometry, unless one of its attempts meets a done context or another epoch, every reply it sent is whole, and the loop ends only for a done context, another epoch or a broken poll. |
| RuntimeLoop.ModuleLoop.Serve | server-go/bus/module_runtime.go:301-427 | The same over any number of turns; what they do together is a run of the machine. |
| CallFidelity.RequestStartsJob | server-go/bus/module_runtime.go:345-427 | However the fragments of a request are interleaved with other traffic, exactly one job starts, on exactly the request. |
| CallFidelity.OutIsReplies | server-go/bus/module_runtime.go:223-275 | What went out on a correlation is the reply streams of that correlation, whatever lies between. |
| CallFidelity.ReplyReturns | server-go/bus/module_caller.go:165-223 | The one reply of a job, gone out whole, gives the caller the job's result, and that is an answer of the job's handler. |
| CallFidelity.CallReturnsAnswer | server-go/bus/module_caller.go:91-223 | For any request up to 16 MiB and any two budgets: one job on the request's bytes, at most one reply, out whole when the job has ended and the loop still serves; then the job's handler has answered, and the caller gets what that answer became, body or status. |
| CallFidelity.PromptCallReturns | server-go/bus/module_caller.go:91-223 | If nothing cancels the call or shuts the module down, the handler is in time and the reply went out, the caller gets what the handler returned: its body if OK, its status otherwise whatever bytes came with it, and Internal for a status above 5 or a body above 16 MiB. |
| CallOverChannels.ChannelsCarryCall | server-go/bus/client.go:188-305 | A call over two channels, shared with whatever other packets, meets every premise of the call between perfect ends. |
| CallOverChannels.EndToEnd | server-go/bus/module_caller.go:91-223 | The call over two drained channels: one job on the request's bytes, and the caller gets what its handler answered. |
| CallOverChannels.PromptEndToEnd | server-go/bus/module_caller.go:91-223 | And what the handler returned, when nothing cancels it or shuts the module down and it is in time. |
| CallAlone.Feed | server-go/bus/module_runtime.go:345-427 | From any state with room, the fragments of any request fed one after the other start its job and change nothing else in flight. |
| CallAlone.UndisturbedCall | server-go/bus/module_caller.go:91-223 | For every request and response up to 16 MiB and every two budgets above 40 there is a run that meets the premises of `CallReturnsAnswer`, and the caller gets exactly the response. |
| CallAlone.UndisturbedOverChannels | server-go/bus/module_caller.go:91-223 | And over two channels, on every legal geometry. |
| Occurrences.GreedyIsMaximum | src/modules/tools/agent_tools_dispatch.c:352-356 | The leftmost non-overlapping scan counts at least as many matches as any set of pairwise disjoint occurrences. |
| Occurrences.MatchesAreSeparate | src/modules/tools/agent_tools_dispatch.c:352-356 | Its matches are themselves disjoint occurrences from left to right, so the count is the maximum. |
| Occurrences.LeftmostIsUnique | src/modules/tools/agent_tools_dispatch.c:382-395 | A text has one leftmost split at a string, the one the scan makes. |
| Occurrences.CountMeansUnique | src/modules/tools/include/aimee/tools/agent_tools.h:19-22 | A count of one means a unique occurrence, whatever the text, if and only if the string has no proper border. |
| EditFile.CountMatches | src/modules/tools/agent_tools_dispatch.c:352-356 | The counting pass counts the matches of the scan. |
| EditFile.ReplacedLength | src/modules/tools/agent_tools_dispatch.c:375-378 | Each match trades the old length for the new one. |
| EditFile.SizeIsExact | src/modules/tools/agent_tools_dispatch.c:375-378 | The allocation size, computed with wrapping arithmetic, is the exact size. |
| EditFile.ReplaceMatches | src/modules/tools/agent_tools_dispatch.c:375-402 | The replacing pass visits the same matches, never leaves the buffer and fills it to its last byte, the terminator. |
| EditFile.Edit | src/modules/tools/agent_tools_dispatch.c:311-407 | The text written, or the error, in the order of the checks; when the file can be read, what `EditMeans` says of its leftmost split. |
| EditFile.EditMeans | src/modules/tools/agent_tools_dispatch.c:352-402 | With nothing else in the way, and the text split leftmost at the old string: one piece is NotFound; two, or more with `replace_all`, are rejoined with the new string; more without it are Ambiguous, with the number of matches. |
| EditFile.EditReplacesPieces | src/modules/tools/agent_tools_dispatch.c:352-402 | A successful edit cuts the text at the leftmost split by the old string and joins the pieces with the new one; without `replace_all` there are two pieces. |
| EditFile.EditKeepsFileIff | src/modules/tools/agent_tools_dispatch.c:346-377 | The output is the whole file with pieces rejoined if and only if the file holds no NUL. |
| EditFile.PlainEditIff | src/modules/tools/agent_tools_dispatch.c:358-373 | Without `replace_all` the edit goes ahead exactly on a count of one; for a string without a border that is exactly one occurrence. |
| Chains.ReadingIsUnique | src/modules/tools/agent_tools.c:279-316 | A list of commands written out with operators is recovered from its tokens, and there is no other reading. |
| Chains.AcceptableIff | src/modules/tools/agent_tools.c:279-316 | The accepted token lists are exactly those that spell 1 to 32 nonempty allowed commands, free of operators, joined by allowed operators. |
| Chains.LimitNeverBinds | src/modules/tools/agent_tools.c:567-575 | With fewer than 64 tokens the limit of 32 commands refuses nothing. |
| Chains.Validate | src/modules/tools/agent_tools.c:279-316 | Returns a positive count if and only if the tokens are acceptable; starts, counts and operators then describe exactly the commands and operators of the text. All indexes stay in range. The workspace validator (lines 531-557) is the same loop with fewer operators. |
| ChainRuns.LoopIsActual | src/modules/tools/agent_tools.c:608-630 | What the executor loop does with any list, under any command behaviour: a skipped `&&` drops one command, and what that was piped to still runs. |
| ChainRuns.LoopAgreesIff | src/modules/tools/agent_tools.c:608-630 | The loop runs the same pipelines with the same final status as the recursive meaning of lists, for all command behaviours, if and only if no `&&` stands directly before a pipeline of several commands. |
| ChainRuns.EveryChainIsAList | src/modules/tools/agent_tools.c:608-630 | Every validated chain is the written form of a list. |
| ChainRuns.ChainAgreesIff | src/modules/tools/agent_tools.c:608-630 | The same agreement, by a condition on neighbouring operators. |
| ChainRuns.WorkspaceAgrees | src/modules/tools/agent_tools.c:670-677 | The workspace loop always has the meaning of the list. |
| ChainRuns.RunReadonly | src/modules/tools/agent_tools.c:608-630 | The read-only loop over indexes, with its inner search for the end of a pipeline. |
| ChainRuns.RunWorkspace | src/modules/tools/agent_tools.c:670-677 | The workspace loop over indexes. |
| ChainRuns.SpeltReads | src/modules/tools/agent_tools.c:279-316 | A chain is recovered from the tokens that spell it: commands free of operators, with `;`, `&&` or, where the rules know pipes, `|` between them. |
| ChainRuns.Guarded | src/modules/tools/agent_tools.c:559-687 | From tokens to status: refused exactly when there are 64 tokens or the validator says no, otherwise the run of the chain they spell. Where the tokens are a list written with `&&`, `;` and `|` between commands free of operators, it is refused exactly for 64 tokens or a command that is empty or not allowed, does what `Actual` says of the list, and has its meaning when no `&&` stands directly before a pipeline of several commands. |
| Captures.ReadInto | src/modules/tools/agent_tools.c:1058-1085 | One pipe's half of the loop body: the buffer holds the first bytes of its stream, whatever a read returns, and excess is discarded. |
| Captures.Capture | src/modules/tools/agent_tools.c:972-1123 | For every schedule: each buffer ends as the first min(read, 32768) bytes of its own stream with a NUL behind them, in bounds; and how the loop ended. |
| Captures.EndMeans | src/modules/tools/agent_tools.c:1015-1057 | The loop ends with both pipes closed, or else was cancelled exactly when a request to cancel was the first turn to stop it, and timed out for the clock or a failed select. |
| Captures.ScheduleDoesNotMatter | src/modules/tools/agent_tools.c:1015-1115 | Any two schedules that reach the end of both pipes without a failed read capture the same bytes. |

## Left out

- Caller.ModuleCaller.Call: the request length is unbounded here and the deadline is an unsigned duration; a negative one counts as none.
- Channel.Client.Poll: the returned payload is a copy of the borrowed bytes; that the borrowed bytes themselves do not change is `RingProtocol.BorrowedSlotIsStable`.
- EditFile.Edit: requires that the output fits the address space; beyond it the size expression would wrap.
- RuntimeLoop.ModuleLoop.Turn: handlers move here before, between and after the results of a turn and during the drain, not inside the handling of one packet; the state machine lets them move between any two of its steps.
- CallFidelity.CallReturnsAnswer: supposes a free assembly slot at the first fragment, a free job slot and the deadline not passed at the last, and no other packet on the correlation.
- CallOverChannels.EndToEnd: each direction is one channel from its first send to its last poll; that interleaved steps deliver the same slots is `ChannelRuns.PolledIsSentInterleaved`.
- Sockets, descriptors, mapping and attachment: a client starts attached, with two rings of its slot size.
- Memory ordering weaker than sequential consistency: Go's atomics are sequentially consistent.
- Clocks, sleeps and heartbeats: times, epoch changes and full rings are inputs, in any order; a port's list of moments is finite, and after it nothing is refused.
- The host between two clients and the arena lease table: one ring joins a sender to a receiver, and arena payloads are only validated.
- Pointers: work items are positions in a list and rings are separate arrays, so a slot is an offset and not a slice.
- The epoch word is a plain field, and the control-lost flag is not part of this model.
- `Request` and `Reply` of the client, which only call their fragment forms with no more to come.
- Logging and the text of error messages, handler failure details among them.
- Fork, exec, pipes between processes, `cd` and signals: running a command or a pipeline is an oracle over what ran before. A chain of one command, which the read-only executor runs without forking again, is a chain like any other.
- Splitting a line into tokens, the operator test and the predicates on single commands: they are parameters of `Chains.Rules`.
- Growing the capture buffers: they start at their final size, so that branch is never taken.
- The JSON around results, the exit code, the write-back of an edit and its diff, snapshots and path resolution.
- Anchored edits, whose engine is not in the repository, and the fixed tables of the tools module.

# Roletalk, verified

Roletalk connects peers over WebSocket. A peer offers roles; its units (the remote peers it is connected to) are
found by role through destinations, and talk by one-way messages, requests and binary streams. This project models
the protocol cores of the Go implementation in Dafny and proves what they keep over every run.

Each core comes in two parts. A state machine with one function per atomic step carries the invariants and the
results over all runs. Classes with the fields, loops and in-place updates of the Go code carry the code; the methods
that change protocol state are proved to take steps of the machine, one each (a whole broadcast takes several).
Verify with `dafny verify dfyconfig.toml`.

| file | what it models |
|---|---|
| `Numbers.dfy` | big-endian numbers of variable width: the encoding loop with its reversal, the decoding loop |
| `Frames.dfy` | every frame of the protocol with its parser, the dispatch on its first byte, payload types, stream headers |
| `StreamModel.dfy`, `StreamRuns.dfy` | a stream session as a state machine; credit, delivery and starvation in every run |
| `StreamEnds.dfy` | what `Read` and `Write` return in every run: the next bytes, the end put by the other side, the loss of the connection |
| `StreamBuffer.dfy` | how much the reader has to buffer, in every run: as meant, and as written |
| `StreamObjects.dfy` | channel, controller, `Writable`, `Readable` and the stream branch of the read loop, on actual bytes |
| `SharedConnection.dfy` | several stream sessions over one connection, in both directions, routed by the tables of the two units |
| `Correlations.dfy`, `Channels.dfy` | where numbers come from, and when both units give a stream the same one |
| `CallbackModel.dfy`, `Callbacks.dfy` | requests, waiters, timers, replies and the closing of a unit, interleaved in any way |
| `RequestReply.dfy` | a request and its answer as whole frames, from number to waiter; the same for requests that open a stream |
| `Handshake.dfy` | the authentication handshake: one side against anybody, and two honest peers |
| `IndexModel.dfy`, `DestinationIndex.dfy` | the index of destinations kept by one peer |
| `RoleBroadcast.dfy`, `RoleConvergence.dfy` | roles switched on and off, broadcast, delivered and reconciled, end to end |
| `ConnectionChoice.dfy` | which connection of a unit a message goes out on |
| `Addresses.dfy` | the two maps behind automatic reconnection |
| `Orders.dfy`, `Wrappers.dfy` | "any order", for loops over Go maps; optional values |

## Assumptions

A connection delivers whole messages in order (sections 5.4 and 5.6 of RFC 6455). HMAC (section 2 of RFC 2104) is an
arbitrary function of key and challenge. Timers, goroutines and map orders become free choices: a timer may fire at
any moment, also when its function was already waiting for the lock as the timer was stopped, a started goroutine may
take its step at any later moment, a loop over a map may take any order. Write outcomes, lock flags and the clock used
as a random number are parameters. Strings are byte or character sequences.

Both ends of a stream session are bound to the same connection. The source binds the requester to the connection its
request went out on and the responder to the one its answer went out on (unit_internal.go:80-90 and 106-116,
Contexts.go:179-192 and 242-248). With a single connection between two units these are the same. With redundant ones
they can differ; each end then sends on its own connection, and losing one of the two gives an error only to the end
bound to it.

The float expressions of the number codec are modelled as integer division. For values up to 2^53 - 1 the division
by a power of 256 only changes the exponent, so both give the same byte.

## What the code does differently from what it says or means

- A stream response is parsed with the channel width where the correlation width is meant (protocol.go:139-140). The
  payload is right exactly when both widths agree; `StreamResponsePanics` gives a reply that cannot be parsed at all.
  What is misread can close the connection, or the whole unit, instead of completing the request.
- `Write` adds the cumulative quota of the channel at every attempt and never takes it out (Contexts.go:355-358), and
  grants are issued in goroutines, several at a time (Contexts.go:280). Byte order, credit conservation and freedom
  from starvation hold for the code as written. A bound on unread bytes holds for the accounting that was meant. As
  written, it can be passed exactly from the moment a grant has reached the writer's channel, in every run; and even
  with each grant taken once, exactly when the reader has promised more than a quota and more than is unread. Neither
  way does any number bound the unread bytes.
- `Close` and `Destroy` overwrite the prefix that later frames go out under (Contexts.go:318, 393, 400). A `Write` after
  `Destroy` replaces the error text at the reader by its payload, and a grant still under way when the reader destroys
  the stream replaces the text at the writer by the bytes of its amount.
- The error of a rejected stream request is the whole body of the frame, numbers included, not its text
  (handler.go:124).
- Channels are numbered independently at both ends and the number a unit is sent is never looked at. Two units agree
  while sessions are opened one at a time and each is answered; openings that cross swap their channels.
- Numbers are produced without looking at the map of waiters: the type assertion at unit_internal.go:383 always
  fails. Uniqueness rests on the window of 2^53 numbers alone.
- A timer may fire before its waiter is registered (unit_internal.go:422-426); that request then has no timer left.
- `onClose` stops at the first waiter that ignores the closing (unit_internal.go:454); which waiters it completes
  then depends on the order of the map.
- `deleteUnit` stops at the first role without a destination (peer_internal.go:95), and a reconciliation that is late
  puts a deleted unit back. Destinations hold live units only, exactly while neither happens.
- `deleteUnit` removes whatever unit holds the id (peer_internal.go:90). `deleteConnection` can call it twice for one
  unit, and when its peer has come back in between, the second call takes the successor.
- The readme (readme.md:138-146) lets a peer without keys take part and picks a random common id. In the code a peer
  without keys never completes a handshake with a peer that has keys, and the first common id in local order is used.
- Broadcasts of the same peer may overlap and then list roles out of order. The list with the highest number wins;
  it is the active one when the broadcasts write to the receiver in the order in which they began.
- The second pass of `writeMsgToSomeConnection` gives up when it meets a connection that another goroutine has
  deleted (unit_internal.go:189-191), although others may still work.
- Connecting again to an address that is bound leaves the old connection behind in one of the two maps, so closing
  its unit by hand does not stop the reconnection.

## Model

| member | source | states |
|---|---|---|
| Numbers.Serialize | protocol.go:253-281 | for every value up to 2^53 - 1, negative ones included, the loop with the reversal ends in the minimal big-endian form (one byte for a negative value) |
| Numbers.ToNumber | protocol.go:283-299 | the decoding loop yields the positional value: of up to 8 bytes as a correlation, of up to 7 as a quota amount |
| Numbers.CorrelationRoundTrip | protocol.go:253-290 | every correlation takes 1 to 7 bytes, has no leading zero unless it is zero, and decodes to itself |
| Numbers.ValueBigEndian | protocol.go:253-299 | decoding inverts encoding on all natural numbers, and the encoding is canonical |
| Numbers.BigEndianValue | protocol.go:253-299 | re-encoding a decoded slice returns it exactly when it has no leading zero and is not empty |
| Numbers.IntRoundTrip | protocol.go:268-299 | a quota amount survives its frame exactly when it is not negative |
| Frames.OnewayRoundTrip | protocol.go:19-93 | a one-way message is parsed back to its fields exactly when role and event are shorter than 65536 bytes |
| Frames.RequestRoundTrip | protocol.go:31-105 | a request is parsed back to its fields exactly when role and event are shorter than 65536 bytes |
| Frames.OnewayParsedIff | protocol.go:81-93 | a body is parsed as a one-way message exactly when it is the serialization of one, and then into that one |
| Frames.RequestParsedIff | protocol.go:95-105 | a body that is parsed as a request is the serialization of that request exactly when its number has no leading zero |
| Frames.StreamRequestRoundTrip | protocol.go:46-124 | a stream request is parsed back to its fields exactly when role and event are shorter than 65536 bytes |
| Frames.ResponseRoundTrip | protocol.go:64-132 | every response is parsed back to its fields |
| Frames.StreamResponseRoundTrip | protocol.go:73-142 | the parser as written recovers a stream response exactly when both numbers are equally wide, runs off the frame exactly when the payload is too short for the wrong offset, and gets the numbers right otherwise; with the meant offset it always recovers it |
| Frames.StreamResponsePanics | protocol.go:134-142 | correlation 1, channel 256 and an empty payload: the reply cannot be parsed |
| Frames.DataRoundTrip | protocol.go:149-244 | a marked value is retrieved unchanged; marking what was retrieved gives the bytes back unless a null carries a payload or a boolean is not the single byte 0 or 1 |
| Frames.RequestDelivered | protocol.go:31-244 | role, event, correlation and typed payload of a request all arrive |
| Frames.MessageReceived | handler.go:24-36 | a one-way message as a whole frame: its first byte leads to the handler of messages, and role, event and payload arrive |
| Frames.RequestReceived | handler.go:37-56 | the same for a request, correlation included |
| Frames.StreamRequestReceived | handler.go:57-100 | the same for a stream request, which reaches the handler of its direction |
| Frames.AnswerReceived | handler.go:125-144 | the same for an answer, which is told from a rejection |
| Frames.CreateStreamPrefix | unit_internal.go:120-127 | the prefix is a fresh array of type byte, width, channel and flag |
| Frames.ReadStreamFrame | unit_internal.go:244-298 | reading piece by piece accepts a stream frame exactly when its width is 1 to 7 and it is long enough, and cuts it into channel, flag and payload |
| Frames.StreamFrameRoundTrip | unit_internal.go:120-264 | for every producible channel the width indexes a preallocated slice, and channel, flag and payload are read back |
| Frames.StreamFrameParsedIff | unit_internal.go:244-264 | an accepted stream frame is the prefix and payload of what it is taken for exactly when its channel has no leading zero |
| StreamRuns.SoundStep | Contexts.go:263-403 | every step of writer, reader, links, pending grants and connection keeps the whole invariant: credit at both ends, grants in flight, data in flight, end of stream |
| StreamRuns.CreditConservation | Contexts.go:276-387 | in every run of the code, reader credit plus bytes read is the quota plus grants issued; writer credit plus bytes written is the quota plus the quota seen at each attempt, so never less than granted at the last attempt |
| StreamRuns.ByteExactDelivery | Contexts.go:263-403 | in every run, bytes read, buffered and in flight are those written before the first `Close` or `Destroy`, in order; after a lost connection a prefix of them |
| StreamRuns.EndMeansAllReadIff | Contexts.go:272-291 | when `Read` reports the end, or the error of the writer, everything written has been read exactly when it had room or the buffer was empty |
| StreamRuns.EmptyReadSkipsData | Contexts.go:272-284 | with an empty destination the end can be reported past unread bytes |
| StreamRuns.IdleMeansCredit | Contexts.go:277-296 | with nothing buffered, in flight or pending, the writer holds at least the credit the reader still counts, which is positive |
| StreamRuns.NoCreditDeadlock | Contexts.go:263-389 | whenever the next attempt would wait in an error-free run of the code, there are unread bytes, an unfinished grant or a frame in flight |
| StreamRuns.StarvationEnds | Contexts.go:263-389 | from every error-free state, delivering, reading and finishing grants alone lead to an error-free state where an attempt goes out |
| StreamRuns.GrantAtMostRead | Contexts.go:277-296 | in every run a grant is positive and at most the bytes read so far |
| StreamRuns.CreditFloor | Contexts.go:277-281 | in every run the reader's credit and its launched grants stay at 10814 or more, 66 hundredths of the quota |
| StreamRuns.CreditFloorAttained | constants.go:60-61 | and that is where grants begin: one byte less and a grant that restores the quota is launched |
| StreamEnds.ReadReturnsNext | Contexts.go:263-291 | in every run `Read` returns the bytes written that follow those read before, as many as have arrived and there is room for; it waits exactly when it has room, nothing has arrived and the stream has no end |
| StreamEnds.WriteTellsIff | Contexts.go:348-389 | in every run an attempt waits exactly for want of credit, fails exactly with credit on a lost connection, and otherwise sends the whole payload, which then is what the reader is to get |
| StreamEnds.EndArrives | unit_internal.go:274-285 | in every run, once everything sent is delivered and read, `Read` ends with the last word of the writer, end of stream for `Close` and its text for `Destroy`, and waits while there is none |
| StreamEnds.RefusalArrives | Contexts.go:317-352 | in every run, once everything the reader sent is delivered, every attempt of `Write` is refused with the last word of the reader, and none while there is none |
| StreamEnds.CloseArrives | Contexts.go:392-396 | a closed stream ends cleanly at the reader, unless the writer destroys it as well |
| StreamEnds.DestroyArrives | Contexts.go:399-403 | a destroyed stream ends with the text given, unless the writer calls again |
| StreamEnds.DestroyRefuses | Contexts.go:317-321 | a stream the reader destroys refuses every `Write` with the text given, unless the reader destroys it again or a grant follows |
| StreamEnds.LateWriteReplacesText | Contexts.go:399-403 | a `Write` after `Destroy` replaces the text at the reader by its payload |
| StreamEnds.LateGrantReplacesText | Contexts.go:293-321 | a grant under way when the reader destroys the stream replaces the text at the writer by its amount |
| StreamEnds.LossEndsRead | streamController.go:93-105 | once the reading end has noticed the loss of the connection, `Read` returns what is buffered, then the loss, and never waits; it reports a loss only then |
| StreamEnds.LossEndsWrite | streamController.go:93-105 | an attempt of `Write` is refused with the loss of the connection exactly when the writing end has noticed it |
| StreamBuffer.BufferBound | Contexts.go:263-389 | in a run where each grant is credited before the next read, unread bytes stay below one quota plus one chunk plus the credit the writer took in excess of its grants |
| StreamBuffer.MeantBufferBound | Contexts.go:263-389 | with each grant taken once, unread bytes never exceed one quota plus one chunk minus one |
| StreamBuffer.BoundAttained | Contexts.go:348-389 | that bound is reached, for every chunk length, by a run that keeps it |
| StreamBuffer.AttemptWithinGrants | Contexts.go:355-358 | an attempt of the code takes no more than the grants delivered exactly when no earlier attempt has found a grant |
| StreamBuffer.ReadWithinQuota | Contexts.go:277-281 | a read keeps the reader's promise within one quota exactly when it launches no grant beside a waiting one |
| StreamBuffer.EachAttemptGains | Contexts.go:355-387 | any attempts of the code on their own: each gains the whole quota of the channel again, so credit plus bytes written grow by that quota per attempt |
| StreamBuffer.OverrunIff | Contexts.go:355-358 | after any run of the code without errors and with no write above a chunk, however its grants overlap, further such writes alone can pass the bound exactly when a grant has reached the writer's channel |
| StreamBuffer.NoBufferBoundAsWritten | Contexts.go:355-358 | for every chunk length, no number bounds the unread bytes of the code, even when every grant is credited before the next read |
| StreamBuffer.PromiseOverrunIff | Contexts.go:277-296 | with each grant taken once: after any run without errors, the bound can be passed before the next `Read` exactly when it is passed already, or the credit the reader counts plus its launched grants exceed both one quota and the unread bytes |
| StreamBuffer.NoBufferBoundWithGrantsPending | Contexts.go:277-281 | so with several grants pending, even each taken once, no number bounds the unread bytes either, for every chunk length |
| StreamObjects.StreamChannel.OnFrame | unit_internal.go:269-295 | a chunk is appended, a finish frame sets end of stream, an error frame its text, a quota frame adds its amount; nothing else changes, and other flags change nothing |
| StreamObjects.StreamController.CreateStream | streamController.go:34-42 | the next number is taken and mapped to a new, empty channel |
| StreamObjects.StreamController.BindConn | streamController.go:67-79 | the channel joins those bound to the connection |
| StreamObjects.StreamController.OnConnClosed | streamController.go:93-111 | exactly the channels bound to the connection get the error, in any order, and the connection is forgotten |
| StreamObjects.OverwriteFlag | Contexts.go:393-393 | the append lands in the prefix itself: same channel, new flag |
| StreamObjects.Writable.constructor | unit_internal.go:115-115 | the writing end starts with a prefix of its own, flag chunk, and a full quota |
| StreamObjects.Readable.constructor | unit_internal.go:89-89 | the reading end starts with a prefix of its own, flag quota, and a full quota |
| StreamObjects.Writable.Write | Contexts.go:348-389 | one attempt: error, wait, failed write or frame sent; the credit afterwards and the exact bytes on the wire |
| StreamObjects.Readable.Read | Contexts.go:263-291 | what is returned, what stays buffered, the credit, and the grant launched below the threshold |
| StreamObjects.Readable.AddQuotaCredit | Contexts.go:293-296 | the first half of a grant: the amount is added to the reader's credit |
| StreamObjects.Readable.AddQuotaSend | Contexts.go:296-313 | the second half: a frame with the current prefix and the encoded amount |
| StreamObjects.ServeStreamFrame | unit_internal.go:244-297 | a well-formed frame for a known channel changes that channel alone; any other frame drops the connection and changes none |
| StreamObjects.StreamController.CreateBound | unit_internal.go:79-90 | the next number, mapped to a new channel and bound to the connection; no channel gets two numbers |
| StreamObjects.NewWriter | unit_internal.go:105-117 | the writing end of a session: the next number, mapped to the channel of a new writer and bound to the connection |
| StreamObjects.NewReader | unit_internal.go:79-91 | the same for the reading end |
| StreamObjects.Session.Establish | unit_internal.go:79-117 | two controllers that agree on the next number, whatever channels they have, start a session in the initial state of the machine |
| StreamObjects.Session.Write | Contexts.go:348-389 | writing on real frames is the write step of the machine, with its result |
| StreamObjects.Session.Close | Contexts.go:392-396 | closing on real frames is the close step of the machine |
| StreamObjects.Session.DestroyWriter | Contexts.go:399-403 | destroying the writer on real frames is its step of the machine |
| StreamObjects.Session.Read | Contexts.go:263-291 | reading is the read step of the machine, with its result |
| StreamObjects.Session.Credit | Contexts.go:293-296 | crediting a grant is its step of the machine |
| StreamObjects.Session.SendGrant | Contexts.go:296-313 | sending a grant on real frames is its step of the machine |
| StreamObjects.Session.DestroyReader | Contexts.go:317-321 | destroying the reader on real frames is its step of the machine |
| StreamObjects.Session.DeliverDown | unit_internal.go:234-297 | delivering a frame to the reader is its step of the machine |
| StreamObjects.Session.DeliverUp | unit_internal.go:234-297 | delivering a frame to the writer is its step of the machine |
| StreamObjects.Session.WriterNotices | streamController.go:93-105 | the end of the connection, noticed by the unit that writes, is its step of the machine |
| StreamObjects.Session.ReaderNotices | streamController.go:93-105 | the same for the unit that reads |
| SharedConnection.TablesStep | unit_internal.go:234-297 | every event keeps it: each unit finds every session under its own number for it and nothing else, and a frame on its way carries a number of its sender |
| SharedConnection.EventProjects | unit_internal.go:234-297 | with the number of a frame looked up in the table of the unit that reads, each call and each delivery is, for a session with the same number at both ends, a step of its own and otherwise none, whatever the numbers of the other sessions |
| SharedConnection.SharingIsHarmless | unit_internal.go:234-297 | in every run of a shared connection, each session with the same number at both ends is in a state of a run of its own |
| SharedConnection.SharedDelivery | Contexts.go:263-403 | so such a session delivers byte for byte and conserves its credit, whatever the others do |
| SharedConnection.SharedNoDeadlock | Contexts.go:263-389 | and its writer, when it would wait, has something of its own session on the way |
| Correlations.CorrelationSource.Next | unit_internal.go:382-396 | the k-th number produced is k modulo 2^53 |
| Correlations.NthInjective | unit_internal.go:386-394 | numbers fewer than 2^53 takes apart differ, and they repeat exactly at multiples of 2^53 |
| Channels.ReachesOwnEndIff | Contexts.go:177-248 | for every interleaving of openings, answers and answers that cannot be written, the frames of either end reach the other end of the same session exactly when the answering unit had taken as many numbers as the opening one |
| Channels.SequentialAgreement | Contexts.go:177-192 | one session at a time, the channels agree exactly when the sessions for which only one unit took a number balance between the units |
| Channels.LockStep | Contexts.go:177-248 | when every session is answered before the next is opened, by whichever unit, even if some answers cannot be written, both number it alike and all frames reach the other end |
| Channels.CrossedOpenings | unit_internal.go:79-115 | two openings that cross on the wire swap their channels |
| Channels.Establish | streamController.go:34-42 | on the controllers themselves: the two numbers agree exactly when the counts taken agree modulo 2^53 |
| CallbackModel.SoundStep | unit_internal.go:419-461 | every event keeps the waiter map exact: registered requests without a callback, under their own numbers |
| CallbackModel.ExactlyOnce | unit_internal.go:419-461 | in every interleaving, timers that fire after they were stopped included, a request gets at most one callback, exactly one once its timer fired after registration, is in the map exactly while it has none, and can then still be ended by its timer exactly when that did not fire before registration |
| CallbackModel.CallbackIsFinal | unit_internal.go:435-461 | no event changes a callback once received |
| CallbackModel.GainsStep | unit_internal.go:419-461 | every event and every request: which callback it receives, if any, from its own timer, from an answer under a congruent number, or from the closing that gets to it |
| CallbackModel.EarlyTimerIsLost | unit_internal.go:422-430 | a timer that fires before registration leaves a waiter with no timer |
| CallbackModel.ResponseReaches | unit_internal.go:435-446 | a response completes the waiting request whose number is congruent to the one it carries, and nothing else |
| CallbackModel.NoMisdelivery | unit_internal.go:382-446 | a response to one of the last 2^53 - 1 requests completes no other request |
| CallbackModel.RegistrationIsFree | unit_internal.go:425-430 | registration never overwrites a waiter |
| CallbackModel.ShutSparesIgnoring | unit_internal.go:448-461 | closing the unit never completes a request that ignores it |
| CallbackModel.ShutIs | unit_internal.go:448-461 | with waiters of both kinds, in any order: a waiter gets the closing error and leaves the map exactly when no ignoring one comes at or before its place; everything else stays as it is |
| CallbackModel.ShutCompletes | unit_internal.go:448-461 | without an ignoring waiter every waiter visited gets the closing error and leaves the map |
| CallbackModel.ShutCompletesIff | unit_internal.go:452-460 | closing completes every waiter it should, whatever the order, exactly when the waiters are all of one kind |
| CallbackModel.ShutLeavesBehind | unit_internal.go:452-460 | with one waiter of each kind some order leaves everything as it is |
| RequestReply.ReplyCompletesItsRequest | handler.go:125-144 | as whole frames, there and back: the responder handles the very question asked; its reply or rejection completes the request that asked, if still waiting, and no other, with the very data or error text given; only a number that does not parse completes none and closes the connection |
| RequestReply.StreamAnswerCompletesIff | handler.go:101-124 | a request that opens a stream: the responder handles the very question asked, in the right direction, and learns the requester's channel; its answer completes that request, if still waiting, exactly when the bytes taken for the payload are acceptable, completes no other in any case, and otherwise closes connection or unit |
| RequestReply.EqualWidthsDeliver | protocol.go:134-142 | when correlation and channel are equally wide, the very answer given is the payload taken |
| RequestReply.StreamAnswerTells | handler.go:101-124 | then a reply brings the very data given, and a rejection the body of its frame, longer than its own text |
| RequestReply.NullAnswerClosesUnit | handler.go:15-20 | an empty answer to the first request under the responder's 256th channel closes the whole unit |
| Callbacks.Controller.Begin | unit_internal.go:419-424 | `prepare` up to its timer is the first step of a request, with the next number and an open waiter |
| Callbacks.Controller.Register | unit_internal.go:425-432 | the rest of `prepare` adds the waiter under a free number |
| Callbacks.Controller.Respond | unit_internal.go:435-446 | neither the send nor the close can block or panic; the one waiter is completed and removed |
| Callbacks.Controller.Fire | unit_internal.go:422-424 | a timer completes its own waiter, if it is still waiting |
| Callbacks.Controller.OnClose | unit_internal.go:448-461 | the loop is the closing step; the waiters that leave the map are exactly those it gets to before an ignoring one, each completed with the closing error, the others untouched |
| Handshake.AddedKeyComesLast | auth.go:144-184 | a key added later never displaces one: it is chosen only where no earlier key would be |
| Handshake.Peer.AddKey | auth.go:144-146 | after adding a key the peer chooses for every list of ids as before, and the added key only where it had none |
| Handshake.Peer.GenerateChallengeWithIds | auth.go:148-166 | the challenge lists the ids of all keys in order |
| Handshake.Peer.ProcessChallengeMsg | auth.go:168-188 | the two loops answer with the proof for the first local key whose id was offered, and refuse when there is none |
| Handshake.Peer.VerifyResponse | auth.go:196-211 | a proof is accepted exactly when it is the one of the first local entry for its id |
| Handshake.FirstCommonIsFirst | auth.go:173-184 | the key chosen is the first in local order with a common id, and none is chosen exactly when there is none |
| Handshake.SharedKeyProves | auth.go:168-211 | peers that share one key, and nothing else under its id, convince each other |
| Handshake.Session.Begin | auth.go:77-96 | with keys a challenge is sent, without keys a confirmation |
| Handshake.Session.HandleMessage | auth.go:98-140 | one turn of the loop is one step of the handshake |
| Handshake.Agreement | auth.go:70-141 | in every interleaving, once one side has succeeded the other has verified it, holds or will read its confirmation, and has not failed |
| Handshake.SuccessBindsTheOther | auth.go:70-141 | once one side has succeeded, no continuation makes the other fail |
| Handshake.RunsAreFinite | auth.go:77-140 | no run makes more than eight moves |
| Handshake.Outcome | auth.go:77-211 | when neither side can move, both have succeeded if neither has keys, or both have and each convinces the other; otherwise both have failed |
| Handshake.KeylessPeerIsRefused | auth.go:87-127 | a peer with keys and a peer without always end in failure at both ends |
| Handshake.TrustsIff | auth.go:70-211 | against anybody, whatever arrives and in whatever order: a peer succeeds exactly when some first messages hold a confirmation and, if it has keys, a response, with every response a valid proof of its own challenge and no message an error, a close or a challenge it has no key for; it fails exactly when it does not succeed and one is bad |
| IndexModel.StepKeeps | peer_internal.go:67-108 | every event keeps the index: ready exactly with units, and settled live units exactly in the destinations of their roles |
| IndexModel.IndexInvariant | peer_internal.go:67-108 | that invariant over every run of connections, role updates, reconciliations, lookups, deletions and closings |
| IndexModel.MembershipStep | peer_internal.go:67-102 | every event: who is in each destination afterwards, which destinations there are, and that they are ready exactly with units |
| IndexModel.UnitsStep | peer_internal.go:44-102 | every event: only an update changes roles, only a connection under a new id brings a unit, only a deletion takes one, and each connection and update owes one reconciliation |
| IndexModel.CloseTakesOut | Unit.go:25-29 | closing by hand takes the unit out of every destination, nobody else, and leaves a destination ready exactly when somebody else is in it |
| IndexModel.StaysOutIff | peer_internal.go:67-102 | a unit that is in no destination gets into one exactly by a reconciliation of it with a destination for one of its roles, or by the first lookup of one of its roles while it is live |
| IndexModel.ClosedStaysOut | Unit.go:25-29 | in every run a unit closed by hand stays out of every destination until one of these happens |
| IndexModel.OnlyLiveStepIff | peer_internal.go:67-102 | an event keeps every destination free of dead units exactly when, before it, it is not a reconciliation of a dead unit with a destination for one of its roles, nor a deletion of a live unit held by a destination its loop does not get to, nor a deletion of a replaced unit whose successor is in a destination |
| IndexModel.AlwaysOnlyLiveIff | peer_internal.go:67-102 | a run never shows a dead unit in a destination exactly when each of its events meets that condition, read off the state before it |
| IndexModel.ReadyMeansServed | destination_internal.go:21-42 | in such a run, once settled, a destination holds, of the units not closed by hand, exactly the live ones with its role, and, when none was closed, is ready exactly when there is one |
| IndexModel.WithdrawIs | peer_internal.go:92-98 | the loop of `deleteUnit` takes the unit out of the destinations before the first missing one, in the order of the visit, and changes nothing else |
| IndexModel.SettledDeletionIff | peer_internal.go:88-99 | deleting a settled live unit removes it everywhere, in every order, exactly when all its roles have a destination or none has |
| IndexModel.WithdrawsEverywhereIff | peer_internal.go:88-99 | `deleteUnit` removes a unit everywhere, whatever the order of its roles, exactly when it was nowhere, or every role has a destination and it was only in those |
| IndexModel.WithdrawLeavesBehind | peer_internal.go:92-98 | otherwise some order leaves it in a destination |
| IndexModel.LateReconcileRevives | peer_internal.go:67-102 | a run that ends with a ready destination and no live unit: connect, look up, delete, and only then the reconciliation of the connection |
| IndexModel.DeleteTakesOnlyIff | peer_internal.go:88-91 | deleting a unit leaves all others live exactly when no successor has taken its id |
| IndexModel.SecondDeleteTakesSuccessor | unit_internal.go:141-152 | a run in which deleting the same unit twice takes the unit that has come back under its id |
| DestinationIndex.Destination.AddUnit | destination_internal.go:21-30 | a unit is added once and the destination becomes ready |
| DestinationIndex.Destination.DeleteUnit | destination_internal.go:32-42 | a unit is removed, and the last one takes the ready flag along |
| DestinationIndex.Peer.Reconcile | peer_internal.go:67-86 | the two loops put the unit in exactly the destinations of its roles, in any order |
| DestinationIndex.Peer.OnNewUnitRoles | peer_internal.go:67-86 | a pending reconciliation is its step of the index |
| DestinationIndex.Peer.DeleteUnit | peer_internal.go:88-102 | the loop over the roles, with its early end, is the deletion step of the index |
| DestinationIndex.Peer.Expel | unit_internal.go:311-313 | the loop takes the unit out of every destination, nobody else, and clears the ready flag where it was the last |
| DestinationIndex.Peer.Close | Unit.go:25-29 | closing by hand is its step of the index, and no destination holds the unit afterwards |
| DestinationIndex.Peer.Fill | Peer.go:168-174 | the loop over the units fills a new destination with exactly those that have the role |
| DestinationIndex.Peer.Create | Peer.go:166-175 | a name without a destination gets a new one with exactly the units that have the role |
| DestinationIndex.Peer.GetDestination | Peer.go:159-179 | a lookup, creating the destination on first use, is its step of the index |
| DestinationIndex.Peer.AddConn | peer_internal.go:54-62 | a connection is its step of the index: a new unit only for an id that is not there yet, and a reconciliation in any case |
| DestinationIndex.Peer.ServeRoles | handler.go:145-165 | a newer number with a parsed list is the update step of the index; a newer number without one counts all the same, and a stale one changes nothing |
| RoleBroadcast.Role.Enable | Role.go:40-51 | the role is active afterwards, and a broadcast is launched exactly when it was not before; this is the switch step of the sender |
| RoleBroadcast.Role.Disable | Role.go:54-65 | the role is inactive afterwards, and a broadcast is launched exactly when it was active before; this is the switch step of the sender |
| RoleBroadcast.Peer.GetRole | Peer.go:143-155 | a role is created active on first use, which is a switch step too |
| RoleBroadcast.Peer.ListRoles | Peer.go:114-127 | the slice filled by index lists exactly the active roles, each once, and the index stays in range |
| RoleBroadcast.Peer.BroadcastRoles | peer_internal.go:16-31 | one message per unit, all with the roles active at the start, numbered consecutively after the last number used; on the sender it is a broadcast from beginning to end |
| RoleConvergence.SwitchSets | Role.go:40-65 | switching a role on makes it active and off inactive, whatever it was; no other role changes, and a broadcast is launched exactly when something has changed |
| RoleConvergence.LinksStep | handler.go:145-151 | every event, broadcasts in any order included, keeps numbers increasing and the unit at the receiver at the newest one delivered |
| RoleConvergence.OrderedStep | peer_internal.go:16-31 | with broadcasts that may overlap but write to the receiver in the order they began, every event keeps it: the last message still owed, or the newest one sent, lists the active roles once no broadcast is pending |
| RoleConvergence.IndexStep | handler.go:145-165 | every event keeps it: the receiver's units are the joined peers, with the roles of the newest message delivered |
| RoleConvergence.NewestWins | peer_internal.go:16-86 | every quiet run, broadcasts in any order included: a destination holds exactly the joined peers whose message with the highest number lists its name, and agrees with the active roles exactly when those messages do |
| RoleConvergence.Convergence | peer_internal.go:16-86 | with broadcasts that may overlap but write in the order they began, when all is quiet, the destination of any name holds exactly the joined peers with that role active and is ready exactly when there is one, whatever the order, duplication and loss of older messages |
| RoleConvergence.LastSwitchDecides | peer_internal.go:16-86 | the same from the events alone: a quiet destination holds a peer exactly when it has joined and its last switch of that role was on |
| RoleConvergence.Settling | peer_internal.go:16-86 | from every such run, broadcasts, deliveries and reconciliations alone lead to a quiet state where every destination holds exactly the peers that were serving |
| RoleConvergence.OverlapMisleads | peer_internal.go:16-24 | two broadcasts that write against the order they began can leave the receiver ready for a role nobody serves, with nothing left to do |
| ConnectionChoice.TurnsAreACut | unit_internal.go:185-188 | the rotation visits every omitted connection once: the list cut in two with the halves swapped |
| ConnectionChoice.ChooseIsOnePass | unit_internal.go:159-197 | both passes together are one pass over the unlocked connections, then over the locked ones from a random start |
| ConnectionChoice.ChoiceResult | unit_internal.go:159-197 | a connection is returned exactly when some write works, with one successful write, the last; an error means each connection was tried once and failed and none is left; the unit is deleted exactly when it loses its last connection |
| ConnectionChoice.SecondSucceedsIff | unit_internal.go:187-195 | with other goroutines deleting connections, the second pass succeeds exactly when a connection works and none before it was deleted |
| ConnectionChoice.ChoiceShrinks | unit_internal.go:141-207 | whatever other goroutines delete meanwhile, no connection comes back and the unit is deleted exactly when its last one has gone |
| ConnectionChoice.BreakGivesUp | unit_internal.go:189-191 | a message fails although an untried connection works |
| ConnectionChoice.Unit.DeleteConnection | unit_internal.go:141-152 | the connection goes, and the last one takes the unit with it |
| ConnectionChoice.Unit.WriteToConn | unit_internal.go:199-207 | a failed write deletes the connection |
| ConnectionChoice.Unit.FirstPass | unit_internal.go:160-179 | the pass over all connections writes to the unlocked ones until one works and collects the locked ones |
| ConnectionChoice.Unit.SecondPass | unit_internal.go:185-195 | the rotation over the locked ones is the second pass, with its early end |
| ConnectionChoice.Unit.WriteMsgToSomeConnection | unit_internal.go:159-197 | the two loops try the connections of the model in the same order, with the same result and the same connections left |
| Addresses.StoreLeadsBackIff | addressScheme.go:30-42 | storing keeps bound connections leading back to their address exactly when the connection is not bound elsewhere |
| Addresses.StoreNoStaleIff | addressScheme.go:30-42 | storing keeps the two maps in agreement exactly when the address is free or bound to that connection |
| Addresses.UnbindKeeps | addressScheme.go:51-59 | unbinding keeps the agreement and disturbs no other address |
| Addresses.DeleteKeeps | addressScheme.go:61-70 | deleting a unit forgets its addresses and connections and disturbs no other unit |
| Addresses.ResolvesAfterDeleteIff | addressScheme.go:44-70 | after the deletion a connection still leads to an address exactly when it did before and was not bound there to the unit |
| Addresses.OneAddressEach | addressScheme.go:30-70 | in every run that stores each connection once, no connection is bound to two addresses |
| Addresses.AddressAlone | addressScheme.go:30-70 | over any run an address ends as it would on its own: bound by the last store, unbound, or forgotten only when bound to a unit that is deleted |
| Addresses.ReservedIsRetried | Peer.go:79-109 | an address that was reserved is tried again, whatever else happens, until a connection to it is stored, so a failed first attempt is not the last |
| Addresses.ClosedForGood | unit_internal.go:153-156 | when no store hits a bound address, a connection that still leads to an address after the deletion is bound there to another unit |
| Addresses.EndReconnectsIff | unit_internal.go:153-156 | while the maps agree, the end of a connection reconnects an address exactly when it still leads there |
| Addresses.ConnectTwiceReconnects | Peer.go:79-98 | connecting twice to an address leaves a connection whose end reconnects it after its unit was closed by hand |
| Addresses.AddressScheme.StoreAddress | addressScheme.go:30-42 | it panics exactly when one of connection and unit is nil, and then stores nothing |
| Addresses.AddressScheme.StartReconnCycle | peer_internal.go:122-127 | it connects exactly to a known address that is not bound |
| Addresses.AddressScheme.ConnectionEnded | unit_internal.go:153-156 | the end of a connection unbinds its address and reconnects it if it is then free |
| Addresses.AddressScheme.UnbindAddress | addressScheme.go:51-59 | unbinding in place is the unbinding step |
| Addresses.AddressScheme.DeleteUnitOf | addressScheme.go:61-70 | the loop that deletes while it visits, in any order, is the deletion step |
| Addresses.AddressScheme.GetUnitMap | addressScheme.go:72-83 | exactly the bound addresses, each with its unit |

## Left out

- Numbers.Serialize: stated for values up to 2^53 - 1; above that the float quotient of the source rounds.
- Numbers.ToNumber: stated for slices of up to 8 bytes; longer ones overflow the conversion from float to integer, whose result Go leaves to the platform. Quota amounts are signed, so for them it is used for up to 7 bytes only.
- StreamObjects.Session.SendGrant: needs an amount of at most 2^53 - 1, for the same reason; `GrantAtMostRead` shows that every grant is, until 2^53 bytes have been read.
- StreamObjects.Readable.AddQuotaSend: the same.
- StreamObjects.StreamChannel.OnFrame: needs a quota payload of at most 7 bytes, as `ServeStreamFrame` does.
- StreamObjects.Session.Establish: both ends on one connection that is theirs alone. Several sessions on one connection are shown to be independent on the model; ends bound to different connections are not part of it.
- StreamObjects.ServeStreamFrame: needs a quota payload of at most 7 bytes, where the source's sum stays in range; no peer that follows the protocol sends a longer one.
- StreamObjects.Writable.Write: one attempt; waiting for a signal and calling itself again is the next attempt, at any later moment. A frame is written whole or not at all.
- StreamObjects.Readable.Read: draining the buffer and lowering the credit is one step; the source takes two locks in turn.
- StreamObjects.Session.WriterNotices: records that the end has noticed, not the text of the error; likewise `ReaderNotices`.
- StreamBuffer.MeantBufferBound: for the accounting that was meant, not for the code, where it is false; `OverrunIff` and `PromiseOverrunIff` say when.
- Channels.ReachesOwnEndIff: while each unit has taken fewer than 2^53 numbers.
- CallbackModel.ExactlyOnce: while no request stays unfinished, and no stopped timer waits for the lock, for 2^53 further ones.
- CallbackModel.NoMisdelivery: the same window, and responses within it.
- Callbacks.Controller.Respond: the text of an error and the context of a reply are not carried, only where the callback came from; `RequestReply` follows them up to this call.
- Handshake.Outcome: without timeouts and I/O errors; both sides follow the code.
- Handshake.TrustsIff: an empty message, on which the source runs off the slice, is not part of it; a confirmation always parses.
- DestinationIndex.Peer.OnNewUnitRoles: the roles of the unit do not change during the loop; the source reads them again for each destination.
- SharedConnection.SharingIsHarmless: for sessions numbered alike at both ends; `Channels` says when they are, and what crossed numbers do. A session is opened at both units at once, with numbers they have not given out.
- RoleConvergence.Convergence: broadcasts of one peer write to the receiver in the order in which they began; `NewestWins` is stated without that. Both: messages are handled one at a time, joined peers stay connected, and the roles told in a handshake are those of the moment of joining.
- ConnectionChoice.Unit.DeleteConnection: the stream errors and the reconnection it starts are modelled on their own, by `OnConnClosed` and `ConnectionEnded`.
- ConnectionChoice.Unit.WriteMsgToSomeConnection: other goroutines may delete connections before each attempt of the second pass, not during the first.
- Wake-ups through the signal channels: optional hints; the results are about credit and data, not about a goroutine being woken.
- Dialling, TLS, HTTP upgrade, listening, ping and pong, real time: foreign input and output.
- JSON, number formatting and parsing, complex numbers, version checks: library behaviour; the payload of a number is its text.
- The text of roles messages on the wire: they are values here, with a case for a list that cannot be parsed.
- Round-robin choice of a unit in a destination: the order of a Go map is unspecified, so only membership could be stated.
- Handlers, middleware, accessors, acquaint messages, names of data types, singleton creation: bookkeeping without protocol state.
- `busyMutex`, `unitConns`, `rangeConnForCloseFunc`: not used.

# Guardian messages, from wire to transaction

A Dafny model of the three Lido bots (depositor, pauser, unvetter): how guardian messages reach a bot,
how they are stored and selected, which transactions they become, and when the bots run. Paths below are
those of the bots' own repository.

| file | models |
|---|---|
| `MessageStorage.dfy` | the store and its list object, extended in place and rebound (`src/transport/msg_storage.py`) |
| `HandlerLoop.dfy`, `Selection.dfy` | a loop whose handlers act on some state and may stop it, shared by the three bots; picking elements out of a list |
| `Unvetter.dfy`, `Pauser.dfy` | the loops over the store's own list, whose handlers refresh or clear the store |
| `OnchainCursor.dfy` | the data-bus cursor over whole runs of polls |
| `Utf8.dfy`, `AbiCodec.dfy`, `EventParsers.dfy` | ABI encoding, the event parsers and their dispatch by order |
| `Text.dfy`, `OrderedDict.dfy`, `StompFrame.dfy`, `StompOctets.dfy`, `StompClient.dfy`, `RabbitProvider.dfy` | STOMP frames and their announced length, subscriptions, and the queue shared with the socket thread |
| `Messages.dfy`, `Bytes.dfy`, `CompactSignature.dfy` | messages, what signatures cover, hexadecimal text, the compact `vs` form |
| `Quorum.dfy`, `Sorting.dfy`, `DepositSender.dfy`, `Depositor.dfy`, `DepositorRuns.dfy`, `DepositorDaemon.dfy` | quorum, deposit call, choice of modules, relay flag, heartbeats, whole runs, one scheduled cycle |
| `WitnessSetting.dfy`, `DepositWitnesses.dfy`, `UnlistedWitnesses.dfy` | inputs on which a deposit call fails or misses the contract's conditions, and on which a bot sends a call signed by nobody on the list |
| `Executor.dfy` | the polling wait and the spacing of executions |
| `GasHistory.dfy` | the base fee history |

Conventions. A raised Python exception is a value (`Err`, `None`, `Raise`, `Throw`), and so are swallowed
ones. What the chain, the transports and the clock answer is a parameter (a "view"); a view indexed by a
number gives each read its own answer, and an optional field an answer that raises. Keccak, public key recovery
and checksum casing are the three functions of `Crypto`. Two facts are assumed of them, each where it is used:
`PrintsAddresses` (the checksum form of an address denotes that address) and, in `DepositSender.AcceptedIff`
alone, `BindsData` (no signature of this quorum recovers to a guardian over this call's data unless it was given
over them). The address and hashing libraries are taken to read `0x` or `0X` and then digits only (`IsHexText`);
Python's own `bytes.fromhex` skips blanks, and `from_hex_string_to_bytes` strips a lower-case `0x` only. `Filters`
holds the construction filters and the sign filter as functions, so that most statements hold for any;
`AreFilters` says that they are those of a `Crypto`. Heap objects are classes where the source shares or updates
them; every such method is tied to a function on values (`ExecutionOf` for the `Execute` of each bot), and
whole-run statements are lemmas about those functions. The classes `Storage`, `OnchainTransportProvider`, `Client`,
`RabbitProvider`, `DepositorBot` and `Executor` record their run in ghost fields, and their `Valid` says that the
other fields follow from it.

## What the proofs show about the code

- **The iterated list grows once.** Handlers refresh the store that owns the list being walked. The first
  refresh extends that very list, so the batch it fetches is handled in the same execution without having
  met the signature and relevance filters (`AppendedIsHandled`); later refreshes go to a fresh list. The loop ends
  at the first handler that raises in the store the earlier ones leave (`HandlerLoop.RunMeaning`). Of the calls an
  execution sends, those for received messages always recover to a listed guardian, those for appended ones exactly
  when one signed them (`CallsListed` of both bots); `UnlistedWitnesses` has executions whose call does not.
- **One unreadable message blocks a bot.** The schemas let a comma pass as a digit, an upper-case X and an odd
  number of digits, and do not ask an unvet message for its nonce. The sign filter raises exactly on valid messages
  with a comma in the signature half or, for unvet messages, no nonce or a byte string with a comma, an odd number
  of digits or `0X` (`Messages.SignRaisesIff`). Exactly these block (`BlocksIff` of each bot): once such a
  message is fetched or stored, it stays, and no later execution handles or sends anything (`BlockedForGood`). Only
  queued messages can be like that, not those from the data bus (`EventParsers.BusMessageReadable`). An unvet
  message that a listed guardian signed for an unknown module stops receiving too (`Unvetter.ReceivingRaisesIff`).
- **One malformed message loses a batch.** An address with a comma or a line feed behind passes the schema, and so
  does an `app` entry that is not an object; exactly these make the construction filters throw
  (`Messages.IntakeThrowsIff`). Then nothing of the batch is ever stored (`MalformedLosesBatch`), although the queue
  has been popped or the cursor moved.
- **Old pauses stop new handlers.** Under the new contract an execution none of whose answers raises handles everything
  exactly when no message finds its module paused while a signed pause without a module id is there
  (`Pauser.HandlesAllIff`).
- **Delivery from the data bus.** Exactly the logs from the first fetching block to the cursor are delivered,
  a log twice exactly if its block is a cursor value already left behind. Heads may even go back. Before the
  first delivery, a run of polls with rising heads loses nothing, for any logs, exactly when successive answered
  heads are at most 257 blocks apart; failed calls in between do not matter (`LossFreeIff`).
- **STOMP.** Printing then parsing restores a frame exactly when the command is stripped and has no line feed,
  no header holds a colon or line feed, and the body has no line feed. The content-length that is added counts
  characters where STOMP 1.1 counts octets: right exactly for ASCII bodies, too small for one accented letter
  (`StompOctets`). Of repeated header lines the last one counts (`LastLineCounts`).
- **Parser order.** The event id is never compared. Each bot's order is still right for every encodable message,
  exactly when its version field is UTF-8. Otherwise a later parser may read its first words as another message: a
  pause of one module as a pause without a module id, whenever that id decodes as text (`FallsThrough`).
- **Compact signatures.** Unpacking a packed pair gives it back exactly when `s` is below two to the 255.
- **Unvet signatures** cover the concatenation of the two byte strings, not where the first one ends.
- **Quorums** are grouped by block hash alone, so votes that agree on nothing else make a quorum
  (`DepositWitnesses.Disagreement`); when signatures bind their data, the deposit contract accepts them
  exactly when the whole quorum agrees with its first message on number, hash, root, module and nonce.
  The payload sent is that of the last vote of whichever guardian was the first to vote for the selected hash
  (`CallIsDecidingVote`); its nonce may be ahead of the one read (`NonceIff`, `DepositWitnesses.NonceAhead`).
  A quorum of verified messages gives a call exactly when that vote writes its hash and root with a lower-case `0x`
  (`CallFromFirst`, `DepositWitnesses.UpperPrefix`).
- **Rabbit queue.** Bodies are served newest first. A fetch loses what it has already popped exactly when
  the connection flag is dropped midway (`LostIff`, `LossWitness`), and the flag is dropped exactly when two readings
  of the wall clock, taken at successive reconnections, are less than five seconds apart (`FlagIff`). As seven
  seconds are slept between two readings, that takes a clock that is set back: under any other the flag stays true,
  no fetch raises and nothing is lost (`NothingLost`). So the check for two failures within five seconds never fires.
- **Subscriptions.** An automatically named subscription keeps its callback exactly as long as nobody unsubscribes
  its id or subscribes that id with another callback (`KeepsItsCallback`). A headers dictionary that its caller
  passes in twice does the latter (`ReusedHeaders`); the one caller in the repository passes none.
- **Gas history.** The pages meet without gap or repeat, and the cut to 7200 fees a day removes the newest
  fees, between k + 1 and k + 1024 of them after k requests.
- **Executor.** The comment on the wait timeout speaks of five slots; the code waits 32 slots or four a block.
  That limit suffices as long as blocks come every 47 seconds. The expected block advances in every cycle
  exactly when at least one block lies between executions.

## Model

| member | source | states |
|---|---|---|
| MessageStorage.Storage.GetMessagesAndActualize | src/transport/msg_storage.py:47-52 | the list object the caller may hold is extended in place by what every transport yielded up to the first failure; only a refresh that raises nowhere rebinds the field, to a fresh list of what the filter keeps |
| MessageStorage.Storage.ClearAll | src/transport/msg_storage.py:54-58 | clearing rebinds the field and leaves the list object untouched |
| MessageStorage.ReceiveMeaning | src/transport/msg_storage.py:28-49 | a batch yields exactly the messages the construction filters accept, in order and as often as they occur; it fails exactly when one of them throws |
| MessageStorage.GatherMeaning | src/transport/msg_storage.py:48-50 | a refresh receives the transports' batches one after another, up to the first that cannot be read or filtered; it is complete exactly when there is none |
| MessageStorage.ArrivedIsYielded | src/transport/msg_storage.py:48-50 | what arrives is exactly what the construction filters make of the messages the transports yield |
| MessageStorage.ActualizeMeaning | src/transport/msg_storage.py:51 | actualizing raises exactly when the filter raises on some message, and otherwise keeps exactly the messages it is for, in order and as often as they occur |
| MessageStorage.StoreHoldsSurvivors | src/transport/msg_storage.py:47-58 | over every run the store holds, in arrival order, exactly the received messages that passed every filter applied since they arrived, with no clear in between |
| MessageStorage.StorageHoldsSurvivors | src/transport/msg_storage.py:7-58 | the same of the store object at any moment of its own history |
| MessageStorage.DroppedForGood | src/transport/msg_storage.py:51-58 | however a run goes on, the stored list is the one it would be had an occurrence once dropped never arrived |
| MessageStorage.RaisesForGood | src/transport/msg_storage.py:47-52 | a message on which the filters raise stays stored from its refresh on, and every refresh from then on raises |
| Messages.IntakeMeaning | src/metrics/transport_message_metrics.py:10-46 | intake refuses exactly pings, throws exactly on an app entry that is not an object or, unless it is a ping, a malformed address, and changes nothing but the casing of the address, to the canonical form of the same address |
| Messages.CanonicalInjective | src/transport/msg_types/ping.py:24-26 | canonical addresses are equal as keys exactly when they denote the same address |
| Messages.ChecksumIdempotent | src/transport/msg_types/ping.py:24-26 | normalising twice is normalising once, and keeps the address |
| Messages.SignedIsCanonical | src/transport/msg_types/common.py:22-38 | a message that passes the sign filter has decodable fields, a matching signature and a canonical address |
| Messages.SignedRecovers | src/cryptography/verify_signature.py:49-60 | a contract hashing the signed bytes of a passed message recovers its guardian |
| Messages.RecoversListedIff | src/transport/msg_types/common.py:22-38 | over a message's signed bytes a listed guardian is recovered exactly when the sign filter would keep it under some listed address |
| Messages.ReadableIff | src/transport/msg_types/base.py:7 | of the signature halves that match the schema's hash pattern exactly those without a comma can be read |
| Messages.DecodableIff | src/transport/msg_types/base.py:9 | of the byte strings that match the schema's pattern exactly those with a comma, an odd number of digits or an upper-case X cannot be decoded |
| Messages.SignRaisesIff | src/transport/msg_types/common.py:22-101 | on a message its schema lets through the sign filter raises exactly when it is a ping, the signature half holds a comma, or an unvet message has no nonce or an undecodable byte string |
| Messages.CommaIsValid | src/transport/msg_types/base.py:11-20 | a signature half stays valid when a digit is replaced by a comma, and makes its message unreadable |
| Messages.NoNonceIsValid | src/transport/msg_types/unvet.py:11-23 | an unvet message stays valid without its nonce, and is then unreadable |
| Messages.IdsAreValid | src/transport/msg_types/unvet.py:11-23 | an unvet message stays valid with one odd digit or an upper-case X in its operator ids, and is then unreadable |
| Messages.IntakeThrowsIff | src/transport/msg_types/base.py:8 | on a message its schema lets through the construction filters throw exactly when its app entry is not an object or it is no ping and its address holds a comma or ends with a line feed |
| Messages.MalformedLosesBatch | src/transport/msg_storage.py:48-50 | after one such message the whole run is that in which its transport had failed, so nothing of its batch is ever stored |
| Messages.StoredFits | src/transport/msg_storage.py:47-58 | over every run in which the transports yield valid messages of one kind, and pings, all stored messages are of that kind and fit its schema |
| Messages.RefreshRaisesIff | src/transport/msg_storage.py:47-52 | a refresh that signs first raises exactly when a transport cannot be read or filtered, some message is unreadable, or the second filter raises on a signed one |
| Messages.UnreadableBlocks | src/transport/msg_storage.py:47-52 | one unreadable message makes this and every later refresh that signs first raise, and stays stored |
| HandlerLoop.RunMeaning | src/bots/unvetter.py:86-87 | the one way a handler loop ends: at the first message whose handler stops it in the state the earlier handlers leave, or after all, in the state of the handlers started |
| Messages.AttestLayout | src/transport/msg_types/common.py:74-77 | the bytes a deposit message is signed over: prefix, block number, block hash, deposit root, module id and nonce, a word each |
| Messages.UnvetLayout | src/transport/msg_types/common.py:90-101 | those of an unvet message: prefix, block number, block hash, module id, nonce, then the bytes of its operator ids and vetted keys |
| Messages.PauseLayout | src/transport/msg_types/common.py:80-87 | those of a pause message: prefix, block number and, if it has one, the module id |
| Messages.AttestDataInjective | src/transport/msg_types/common.py:74-77 | an attest signature binds prefix, number, hash, root, module and nonce, and nothing is ambiguous |
| Messages.UnvetDataCovers | src/transport/msg_types/common.py:90-101 | an unvet signature binds the numbers and the hash, but of the two byte strings exactly their concatenation |
| Messages.PauseDataInjective | src/transport/msg_types/common.py:80-87 | pause signatures with and without a module id never collide |
| Unvetter.UnvetterBot.HandleAll | src/bots/unvetter.py:86-87 | the loop over the growing list ends and is the run of the handlers on the received messages followed by the batch of the first in-loop refresh: how many return, whether the next one raises, the calls, the store operations and the stored messages are that run's |
| Unvetter.UnvetterBot.Execute | src/bots/unvetter.py:77-118 | one execution: version 1 does nothing; a read that raises comes before the transports; a receive that raises handles nothing; otherwise the result, calls, operations and store are those of the run of the handlers |
| Unvetter.ExecutionMeaning | src/bots/unvetter.py:77-118 | an execution returns True for the old version, or when every handler returns; otherwise it raises, having handled all messages up to the first whose handler does not |
| Unvetter.UnvetterBot.SendUnvetMessage | src/bots/unvetter.py:120-157 | a handler first refreshes the store, extending the list object it held, and sends only after that; it raises exactly on an unread nonce, a raising refresh, undecodable fields, an unread limit or, within the limit, a message without nonce or a raising check or send |
| Unvetter.UnvetterBot.PrepareTransportBus | src/bots/unvetter.py:41-75 | the store is built once and kept |
| Unvetter.HandlerKeeps | src/bots/unvetter.py:159-167 | after a handler's refresh the store holds exactly the signed messages of other modules or of a nonce not yet passed |
| Unvetter.HandlerRaisesIff | src/bots/unvetter.py:159-167 | on valid messages the refresh raises exactly when a transport cannot be read or filtered, or a message is unreadable, unless it is for the same module and a nonce already passed |
| Unvetter.SubmitMeaning | src/bots/unvetter.py:129-157 | a call is sent exactly when both byte strings decode, the limit is read and allows the operators, the nonce is there and the check succeeds, and names exactly the fields of the message; True is a successful send, False too many operators, a failed check or a failed send, everything else raises |
| Unvetter.HandleMeaning | src/bots/unvetter.py:120-157 | a handler sends only behind a refresh that did not raise, and raises exactly when the refresh or the submission does |
| Unvetter.CallIsSigned | src/bots/unvetter.py:129-155 | for a signed message the call carries exactly the signed fields, so the contract recovers the guardian, and it never exceeds the operator limit |
| Unvetter.AllVouchedIff | src/bots/unvetter.py:82-118 | the received messages are exactly those stored or fetched that a listed guardian signed, for a known module and a nonce not passed; all handled ones are such exactly when nothing was received or the first handler is yielded no other |
| Unvetter.AppendedIsHandled | src/bots/unvetter.py:86-87 | behind the received messages exactly what the construction filters make of all messages yielded to the first handler is handled, from any transports |
| Unvetter.CallsListed | src/bots/unvetter.py:82-157 | every call an execution sends was submitted for one handled message; it recovers to a listed guardian exactly when that message was received or a listed guardian signed it; one for a received message names a known module and a nonce not passed |
| Unvetter.CallsInOrder | src/bots/unvetter.py:82-157 | the calls of the started handlers are those of the messages that are refreshed and submitted, one for each, in their order |
| UnlistedWitnesses.UnlistedUnvet | src/bots/unvetter.py:82-157 | two valid messages make an execution send an unvetting that recovers to no listed guardian |
| Unvetter.ReceivingRaisesIff | src/bots/unvetter.py:91-118 | on valid messages receiving raises exactly when a transport cannot be read or filtered, or a message is unreadable or signed by a listed guardian for an unknown module |
| Unvetter.BlocksIff | src/bots/unvetter.py:91-118 | a message makes every receiving that meets it raise, whatever else is stored and answered, exactly when it is unreadable |
| Unvetter.BlockedForGood | src/bots/unvetter.py:77-118 | from the first execution that meets an unreadable message on, every execution handles and sends nothing and keeps the message, and raises unless the contract is old |
| Pauser.PauserBot.HandleAll | src/bots/pauser.py:78-81 | the loop ends and is the run of the handlers on the received messages, followed by the batch of the first handler that refreshes, if any does; under the old contract the list never changes |
| Pauser.PauserBot.Execute | src/bots/pauser.py:73-102 | one execution: a read that raises comes before the transports; a receive that raises handles nothing; otherwise the result, calls, operations and store are those of the run of the handlers |
| Pauser.ExecutionMeaning | src/bots/pauser.py:73-81 | an execution returns True exactly when everything can be read and every handler returns; otherwise it raises, having handled all messages up to the first whose handler does not |
| Pauser.PauserBot.SendPauseMessage | src/bots/pauser.py:104-147 | the store is refreshed or cleared exactly when the target is paused already, and a call is sent only otherwise; which reads, checks and sends raise |
| Pauser.LegacyHandlesReceived | src/bots/pauser.py:135-139 | clearing never changes what an execution handles |
| Pauser.HandlerKeeps | src/bots/pauser.py:149-151 | after the refresh for a paused module exactly the signed messages of other modules remain |
| Pauser.AllVouchedIff | src/bots/pauser.py:73-102 | the received messages are exactly those stored or fetched that a listed guardian signed for a block within the validity period; all handled ones are such exactly when the handler that makes the list grow, if there is one, is yielded no other |
| Pauser.SendMeaning | src/bots/pauser.py:104-147 | a pause is sent exactly when the target is not paused and the message names no module under the old contract, or names one under the new and its check succeeds; what True and False mean; everything else raises |
| Pauser.HandleMeaning | src/bots/pauser.py:104-151 | for a paused target a handler clears the store under the old contract and refreshes it under the new; otherwise it leaves the store alone and sends its call, if any; when it raises |
| Pauser.CallIsSigned | src/bots/pauser.py:115-147 | a signed message is sent as the running contract version hashes it, and only while its target is not paused |
| Pauser.GrowsAt | src/bots/pauser.py:78-122 | behind the received messages exactly what the construction filters make of the batch of the first handler that finds its module paused is handled |
| Pauser.CallsListed | src/bots/pauser.py:73-147 | every call an execution sends was sent for one handled message; it recovers to a listed guardian exactly when that message was received or a listed guardian signed it; one for a received message names a block within the validity period |
| Pauser.CallsInOrder | src/bots/pauser.py:78-147 | the calls of the started handlers are those of the messages that pause, one for each, in their order |
| UnlistedWitnesses.UnlistedPause | src/bots/pauser.py:73-133 | two valid messages for different modules make an execution send a pause that recovers to no listed guardian |
| Pauser.ReceivingRaisesIff | src/bots/pauser.py:73-102 | on valid messages receiving raises exactly when a transport cannot be read or filtered, or a message is unreadable |
| Pauser.BlocksIff | src/bots/pauser.py:73-102 | a message makes every receiving that meets it raise, whatever else is stored and answered, exactly when it is unreadable |
| Pauser.BlockedForGood | src/bots/pauser.py:73-102 | from the first execution that meets an unreadable message on, every execution raises, handles and sends nothing, and keeps the message |
| Pauser.HandlesAllIff | src/bots/pauser.py:78-151 | under the new contract, when no answer raises, an execution handles all messages exactly when none finds its module paused while a signed message without a module id was received or arrives |
| OnchainCursor.OnchainTransportProvider.FetchMessages | src/transport/msg_providers/onchain_transport.py:341-376 | one poll: which logs it returns, when it raises, that the cursor moves only on a non-empty answer, and that cursor and delivered logs are those of all polls so far |
| OnchainCursor.AdvancesForward | src/transport/msg_providers/onchain_transport.py:343-360 | the cursor never goes back, even when heads do |
| OnchainCursor.StartMeaning | src/transport/msg_providers/onchain_transport.py:343 | the first fetch that brings something starts 256 blocks below its head, or at the first block of the chain |
| OnchainCursor.InRangeInOrder | src/transport/msg_providers/onchain_transport.py:350-360 | a fetch brings exactly the logs of its blocks, in chain order and as often as they occur |
| OnchainCursor.DeliveredCount | src/transport/msg_providers/onchain_transport.py:341-376 | exact multiplicity of every log over every run: none outside the blocks from the start to the cursor, twice exactly on a cursor value left behind, once otherwise |
| OnchainCursor.DeliveredExactly | src/transport/msg_providers/onchain_transport.py:341-376 | the delivered set is exactly the matching logs of those blocks |
| OnchainCursor.CaughtUp | src/transport/msg_providers/onchain_transport.py:356-360 | a successful poll at head h leaves nothing up to h undelivered, even if the cursor rests |
| OnchainCursor.NothingSkipped | src/transport/msg_providers/onchain_transport.py:342-346 | with successful initial heads at most 257 apart everything from the first window on is delivered, whatever calls failed |
| OnchainCursor.WideGapLoses | src/transport/msg_providers/onchain_transport.py:343 | two answered heads further apart, anywhere in a run, lose a log for good, however the run goes on |
| OnchainCursor.LossFreeIff | src/transport/msg_providers/onchain_transport.py:343-346 | for every run of polls with rising heads, 257 is the exact bound on their gaps under which no set of logs loses any |
| EventParsers.OwnParserReads | src/transport/msg_providers/onchain_transport.py:97-287 | each parser reads back exactly what was ABI-encoded for it, the dynamic unvet tuple included |
| EventParsers.EventDataSurvives | src/transport/msg_providers/onchain_transport.py:97-104 | the log's byte string argument carries the encoded message unchanged |
| EventParsers.SignedFieldsSurvive | src/transport/msg_providers/onchain_transport.py:131-309 | a parsed message is verified over exactly the fields that were encoded |
| EventParsers.BusMessageReadable | src/transport/msg_providers/onchain_transport.py:131-240 | a message built from event data fits its schema, is never unreadable and never makes a construction filter throw |
| EventParsers.VersionSurvivesIff | src/transport/msg_providers/onchain_transport.py:41-42 | a zero-padded version comes back exactly when it does not end in NUL |
| EventParsers.TooShort | src/transport/msg_providers/onchain_transport.py:104 | a parser raises on data shorter than its words, whatever offsets it holds |
| AbiCodec.ReadBytesIff | src/transport/msg_providers/onchain_transport.py:97-104 | a byte string is read exactly where its encoding stands, its padding included |
| EventParsers.DispatchIff | src/transport/msg_providers/onchain_transport.py:385-398 | in each bot's order an encoded message of a supported kind reaches its own parser exactly when its version is UTF-8 |
| EventParsers.FallsThrough | src/transport/msg_providers/onchain_transport.py:385-398 | what each bot makes of an encoded message whose version is not UTF-8: a shorter pause, a ping, or nothing |
| EventParsers.SmallIdDecodes | src/transport/msg_providers/onchain_transport.py:41-42 | the word of a module id below 128 is valid UTF-8, so such a pause does become the shorter one |
| EventParsers.ParseLog | src/transport/msg_providers/onchain_transport.py:385-398 | the result is that of the first parser that does not raise, or nothing |
| Utf8.DecodesIff | src/transport/msg_providers/onchain_transport.py:41-42 | exactly the encodings of strings decode |
| Utf8.PaddedVersionIff | src/transport/msg_providers/onchain_transport.py:41-42 | stripping NULs undoes padding exactly for texts that do not end in NUL |
| Bytes.DigitMeaning | src/utils/bytes.py:4-7 | the sixteen digits are read in either case, and no other character is |
| Bytes.HexStringRoundTrip | src/utils/bytes.py:4-11 | from bytes to text and back is the identity |
| Bytes.HexTextRoundTripIff | src/utils/bytes.py:4-11 | from text to bytes and back is the identity exactly on lower-case digits behind 0x |
| CompactSignature.ComputeVs | src/cryptography/verify_signature.py:35-46 | the byte array updated by one OR equals the word with the parity in its top bit; invalid v, invalid hex and an empty s raise |
| CompactSignature.SplitWord | src/cryptography/verify_signature.py:24-32 | masking and shifting a 32-byte word split off its top bit |
| CompactSignature.RecoverComputeIff | src/cryptography/verify_signature.py:24-46 | recover undoes compute exactly when s is below two to the 255 |
| CompactSignature.ComputeRecover | src/cryptography/verify_signature.py:24-46 | compute undoes recover on every 32-byte vs, down to the text when it is lower case |
| StompFrame.Str | src/transport/msg_providers/stomp/frame.py:15-27 | the collected lines are the frame's text |
| StompFrame.WireFormat | src/transport/msg_providers/stomp/frame.py:15-27 | the text is the command, a line for each header with a colon, and a blank line, each with a line feed, then the body and a NUL |
| StompFrame.UnmarshallSingle | src/transport/msg_providers/stomp/frame.py:29-49 | the header loop computes the parse, with its errors and the lone line feed |
| StompFrame.RoundTrip | src/transport/msg_providers/stomp/frame.py:15-53 | a clean frame comes back with its command and body, its headers extended by content-length exactly when the body is non-empty and the header missing |
| StompFrame.ParsesLines | src/transport/msg_providers/stomp/frame.py:30-49 | a frame with any header lines, repeated ones included, is parsed with its command, its body and the dictionary the lines leave |
| StompFrame.LastLineCounts | src/transport/msg_providers/stomp/frame.py:43-44 | of repeated header lines the last one counts |
| Text.StripMeaning | src/transport/msg_providers/stomp/frame.py:36 | stripping cuts off spaces at both ends, and nothing else |
| StompFrame.RoundTripIff | src/transport/msg_providers/stomp/frame.py:15-53 | cleanness is the exact condition of the round trip |
| StompFrame.ParsedIsClean | src/transport/msg_providers/stomp/frame.py:30-49 | whatever parses is clean and repeats no header |
| StompFrame.PrintParsed | src/transport/msg_providers/stomp/frame.py:51-53 | printing what was parsed from a clean frame gives the identical text |
| StompFrame.PrintedFrameEnds | src/transport/msg_providers/stomp/frame.py:39-47 | the header scan of any printed frame stays inside the text |
| StompOctets.LengthSent | src/transport/msg_providers/stomp/frame.py:18-24 | the content-length sent is the caller's own or, for a body and no such header, the number of its characters |
| Text.DecimalReads | src/transport/msg_providers/stomp/frame.py:24 | the digits printed stand for the number, without a superfluous zero |
| StompOctets.ContentLengthIff | src/transport/msg_providers/stomp/frame.py:23-24 | the content-length that is added is the number of octets exactly when the body is ASCII |
| StompOctets.ContentLengthTooSmall | src/transport/msg_providers/stomp/frame.py:23-24 | one accented letter is announced as one octet and sent as two |
| StompClient.Client.Subscribe | src/transport/msg_providers/stomp/client.py:159-177 | which id is used and registered, the frame sent, and that the caller's own headers dictionary is completed in place |
| StompClient.Client.Unsubscribe | src/transport/msg_providers/stomp/client.py:179-181 | an unknown channel raises and sends nothing; a known one is removed and announced |
| StompClient.Client.OnMessage | src/transport/msg_providers/stomp/client.py:59-101 | the reaction to every incoming text, errors included; the client becomes connected exactly by a CONNECTED frame, and nothing else changes |
| StompClient.ReactsToCommand | src/transport/msg_providers/stomp/client.py:66-101 | over printed clean frames: CONNECTED connects, RECEIPT is ignored, ERROR is reported, any other command but MESSAGE is unknown |
| StompClient.RoutesMessage | src/transport/msg_providers/stomp/client.py:72-92 | a MESSAGE without a subscription raises, one that is not live is left unrouted, a live one reaches its callback with the body intact or, without a message id, raises |
| StompClient.ReactsToText | src/transport/msg_providers/stomp/client.py:59-64 | a lone line feed is ignored; exactly the texts that do not parse are bad frames |
| StompClient.CompletedSays | src/transport/msg_providers/stomp/client.py:163-170 | the frame names the id under which the callback is registered, the destination, and the default acknowledgement mode |
| StompClient.ReusedHeaders | src/transport/msg_providers/stomp/client.py:160-170 | a dictionary used for a second subscribe hands over the first one's id and replaces its callback |
| StompClient.AutoIdIsFresh | src/transport/msg_providers/stomp/client.py:163-171 | over every run the next automatic id is live only if a caller supplied that very text |
| StompClient.KeepsItsCallback | src/transport/msg_providers/stomp/client.py:159-181 | an automatically named subscription keeps its own callback at every later point of a run exactly when no later operation unsubscribes its id or subscribes it with another callback |
| StompClient.MessageReachesCallback | src/transport/msg_providers/stomp/client.py:72-92 | a printed MESSAGE frame for a live subscription reaches its own callback with its body |
| RabbitProvider.RabbitProvider.FetchMessages | src/transport/msg_providers/rabbit.py:77-95 | under any interleaving with the socket thread every body stays in exactly one place; at most a thousand are returned, fewer only with an empty queue; bodies are lost only to a lost connection |
| RabbitProvider.RabbitProvider.ReceiveMessage | src/transport/msg_providers/rabbit.py:88-95 | one pop from the end, nothing from an empty queue, an error on a lost connection |
| RabbitProvider.RabbitProvider.OnMessage | src/transport/msg_providers/rabbit.py:48-50 | the body of a delivered frame is appended |
| RabbitProvider.FetchConserves | src/transport/msg_providers/rabbit.py:77-98 | queue and popped bodies after a fetch are the queue before it and what was appended during it |
| RabbitProvider.PopsEnd | src/transport/msg_providers/rabbit.py:77-95 | how a fetch can end |
| RabbitProvider.LostIff | src/transport/msg_providers/rabbit.py:77-95 | a fetch loses bodies exactly when the flag is true at its start, two readings that are too close first occur at a later pop, and there was a body to pop before each earlier one |
| RabbitProvider.LossWitness | src/transport/msg_providers/rabbit.py:59-95 | one popped body is lost when a reconnection right behind it reads a clock that was set back |
| RabbitProvider.RabbitProvider.RecreateClient | src/transport/msg_providers/rabbit.py:59-68 | a reading less than five seconds after the last one drops the flag; every reading becomes the last one |
| RabbitProvider.FlagIff | src/transport/msg_providers/rabbit.py:59-68 | the flag is dropped exactly when two successive readings are less than five seconds apart |
| RabbitProvider.NothingLost | src/transport/msg_providers/rabbit.py:59-98 | over every run under a clock that is never set back the flag stays true, no fetch raises, and every body is queued or was returned |
| RabbitProvider.UndisturbedFetch | src/transport/msg_providers/rabbit.py:80-93 | an undisturbed fetch takes the newest thousand, newest first |
| Quorum.SelectQuorum | src/bots/depositor.py:192-215 | the two loops compute the selection |
| Quorum.GroupedLookup | src/bots/depositor.py:193-195 | the nested dictionary holds each guardian's last message under its block hash |
| Quorum.SelectionMeaning | src/bots/depositor.py:192-215 | nothing is selected exactly when no hash has the required number of guardians; otherwise the last message of each guardian of the first-appearing hash that has, in the order of their first votes, never empty |
| Quorum.FirstOfQuorum | src/bots/depositor.py:192-210 | the first message of the quorum is the last vote of the guardian who was the first to vote for its hash |
| DepositSender.DistinctAscending | src/blockchain/deposit_strategy/deposit_transaction_sender.py:25-29 | sorting a quorum of different guardians orders them by strictly ascending address value |
| DepositSender.CallFromFirst | src/blockchain/deposit_strategy/deposit_transaction_sender.py:39-55 | a non-empty quorum of checked messages gives a call exactly when its first message writes hash and root with a lower-case 0x; the call has that message's payload |
| DepositSender.SamePayloadAccepted | src/blockchain/deposit_strategy/deposit_transaction_sender.py:25-55 | when the quorum has one payload the contract recovers exactly its guardians, in strictly ascending order |
| DepositSender.AcceptedIff | src/blockchain/deposit_strategy/deposit_transaction_sender.py:39-55 | when the quorum's signatures bind their data, the contract accepts its call exactly when the quorum has one payload |
| DepositWitnesses.Disagreement | src/bots/depositor.py:192-210 | two checked votes for one block hash under different numbers are selected and sent, and the contract refuses the signatures |
| Sorting.SortIsStable | src/bots/depositor.py:284-287 | the sorted list is ascending, a permutation, and stable |
| OrderedDict.LookupPut | src/bots/depositor.py:193-195 | writing a key of a dictionary is read back, and leaves every other key as it was |
| Depositor.QuorumMembers | src/bots/depositor.py:181-244 | the messages grouped are exactly those stored or just received that pass signature, guardian, age, root, module and nonce checks |
| Depositor.ModuleMessagesInOrder | src/bots/depositor.py:184-186 | they are grouped in the order of the store and as often as it holds them |
| Depositor.QuorumFoundIff | src/bots/depositor.py:177-215 | a quorum is missing exactly when, among those messages, no block hash has the required number of guardians |
| Depositor.SelectionToTransaction | src/blockchain/deposit_strategy/deposit_transaction_sender.py:25-55 | a selection from checked messages that agree under one block hash gives a call exactly when its first message is written with lower-case prefixes, and then: one payload, signed by every included guardian; distinct listed guardians in strictly ascending order, at least the required number; the root read in the same cycle for a block not past the head |
| Depositor.QuorumToTransaction | src/bots/depositor.py:177-262 | the same from the store on, of whatever quorum the bot returns |
| Depositor.CallIsDecidingVote | src/bots/depositor.py:192-210 | for every quorum the call carries the payload of the last vote of the guardian who was the first to vote for the selected hash |
| Depositor.NonceIff | src/bots/depositor.py:242-244 | for every quorum the call carries the nonce read exactly when the last vote of the first voter for the selected hash does |
| DepositWitnesses.NonceAhead | src/bots/depositor.py:242-244 | a vote with a nonce ahead of the one read becomes a call with that nonce |
| DepositWitnesses.UpperPrefix | src/blockchain/deposit_strategy/deposit_transaction_sender.py:39-43 | a verified vote whose hash is written with an upper-case X makes a quorum from which no call can be built |
| Depositor.TakeUntilFirstHealthy | src/bots/depositor.py:317-327 | a prefix that ends with the only healthy module in it; empty exactly when none is healthy |
| Depositor.ChoiceMeaning | src/bots/depositor.py:281-309 | the modules chosen are the start of the digests sorted by active validators; the last one may be deposited to, has keys and a fresh heartbeat, no earlier one does, and no such module has fewer active validators; none exactly when no digest's module is such; heartbeat lookups never miss |
| Depositor.RelayAlternates | src/bots/depositor.py:163-167 | a send without the relay comes exactly after a failed one with it |
| Depositor.RelayCounts | src/bots/depositor.py:163-167 | failed sends with the relay and sends without it are equally many, up to one pending |
| Depositor.HeartbeatIsLatest | src/bots/depositor.py:68-69 | heartbeats that do not go back leave the latest of construction and all quorums seen |
| DepositorRuns.HeartbeatInRun | src/bots/depositor.py:264-279 | over every run of executions under a clock that does not go back, each module's heartbeat is the latest of construction and the executions that saw a quorum for it |
| DepositorRuns.HealthyIff | src/bots/depositor.py:298-309 | over every such run a module is taken for healthy exactly when it may be deposited to, has keys, and the bot started or an execution saw a quorum for it within the retention window |
| DepositorRuns.ChosenInRun | src/bots/depositor.py:264-327 | so an execution chooses none exactly when no module of the answer is such, and otherwise the modules in order of active validators up to the first one |
| Depositor.GatherAppends | src/bots/depositor.py:272-279 | gathering adds heartbeats only, all at the one time read before the loop, for listed modules |
| Depositor.BeatsInOrder | src/bots/depositor.py:272-279 | the turns of the gathering loop leave a heartbeat for each of them that reads its gas price and then finds a quorum in the store the earlier ones leave, in their order, and no other |
| Depositor.GatherStores | src/bots/depositor.py:274-279 | so does a gathering turn, unless the gas price cannot be read; it stops the loop exactly when that or the quorum raises |
| DepositorRuns.BeatsOfExecution | src/bots/depositor.py:272-279 | an execution's heartbeats are the earlier ones and one for each module it sees a quorum for |
| Depositor.AllowedInOrder | src/bots/depositor.py:266-270 | the turns are for the listed modules, in the order of the router's answer and as often as it names them |
| Depositor.DepositorBot.GetQuorum | src/bots/depositor.py:177-215 | the quorum is that of the refreshed store and never an empty list |
| Depositor.DepositorBot.GatherQuorums | src/bots/depositor.py:272-279 | heartbeats and store are those of the gathering loop, up to the first exception, the gas price read included |
| Depositor.DepositorBot.GetPreferredModules | src/bots/depositor.py:264-296 | the modules are chosen by the heartbeats just gathered |
| Depositor.DepositorBot.DepositToModule | src/bots/depositor.py:149-170 | one attempt: when it raises, when a call is built and sent, over which route, how the flag changes, and the store it leaves |
| Depositor.DepositorBot.Execute | src/bots/depositor.py:105-123 | one execution: state, calls and result are those of gathering, choosing and trying the chosen modules; balances or module ids that cannot be read end it before |
| Depositor.PreferredIff | src/bots/depositor.py:264-296 | a choice is made exactly when module ids and digests can be read and every listed module's turn reads its gas price and builds its quorum without an exception |
| Depositor.ExecutionResult | src/bots/depositor.py:105-123 | without a choice an execution raises, without a module chosen it returns True, and otherwise what its last attempt does |
| Depositor.TriesInOrder | src/bots/depositor.py:114-123 | the chosen modules are tried in order, each on the store and relay flag the earlier ones leave; every attempt but the last returned False, and the loop stops at the first that did not |
| Depositor.ReachedIff | src/bots/depositor.py:114-123 | a chosen module is reached exactly when the attempts on all earlier ones returned False |
| Depositor.CallsInOrder | src/bots/depositor.py:114-170 | the calls of the loop are those of the attempts that were ready, one for each, in their order |
| Depositor.OneSuccess | src/bots/depositor.py:114-123 | at most the last completed send succeeds, and exactly when the loop returns True; trying modules adds no heartbeat |
| Depositor.ExecutionMeaning | src/bots/depositor.py:105-123 | False is returned exactly when a module was chosen and no attempt succeeded |
| Depositor.ExecutionSends | src/bots/depositor.py:105-170 | the same of a whole execution, which has none when something raised before the choice |
| Depositor.ExecutionCalls | src/bots/depositor.py:105-170 | every call of an execution was built by one of its attempts from the messages stored at that moment, and is faithful when these agree under each block hash |
| Depositor.QuorumRaisesIff | src/bots/depositor.py:177-262 | on valid messages building a quorum raises exactly when a transport cannot be read or filtered, or a message is unreadable |
| Depositor.BlocksIff | src/bots/depositor.py:177-262 | a message makes every quorum that meets it raise, whatever else is stored and answered, exactly when it is unreadable |
| DepositorRuns.BlockedForGood | src/bots/depositor.py:105-123 | once an unreadable message is stored, every later execution sends nothing and keeps it, and raises if some module is allowed |
| Depositor.AttemptMeaning | src/bots/depositor.py:149-170 | an attempt builds a call exactly when deposits are allowed, gas price and amount are fine, and the quorum read gives it; True is a successful send, False a failed one or, with every answer there, a check or quorum missing; everything else raises |
| Depositor.AttemptStores | src/bots/depositor.py:149-262 | an attempt leaves the store it refreshed: exactly the messages, stored or arrived, that pass signature, guardian, age and root checks, or all of them when the refresh raises; it leaves the store alone when its first read raises |
| DepositorDaemon.RunCycle | src/blockchain/executor.py:47-64 | unless the wait ends the daemon, the bot is run once, and its state, calls and result are those of that execution; the one-block retry is taken exactly when a module was chosen and no attempt succeeded, or an exception was swallowed |
| Executor.Executor.WaitUntilNextBlock | src/blockchain/executor.py:66-89 | the polling loop, its faults and its timeout; a returned block is due and becomes the expected one |
| Executor.Executor.WaitForNewBlockAndExecute | src/blockchain/executor.py:47-64 | one cycle with swallowed and fatal exceptions, and the next expected block |
| Executor.PollMeaning | src/blockchain/executor.py:74-89 | the reads of one wait: each finds the head behind, the next comes five seconds later, or twelve for every block that must appear before the target; the last one decides how the wait ends |
| Executor.NeverOvershoots | src/blockchain/executor.py:74-89 | at one block a slot, a wait that starts behind returns exactly the target, within five seconds of its appearance |
| Executor.EndsInTime | src/blockchain/executor.py:67-89 | a wait for a block at most k ahead ends within k block gaps and one poll, if these fit in the limit |
| Executor.LimitSuffices | src/blockchain/executor.py:67-73 | the code's own limit is enough for every number of blocks between executions while blocks come every 47 seconds |
| Executor.LimitIs | src/blockchain/executor.py:67-89 | a target that appears after 48 seconds a block between executions, or 384 if that is more, is a timeout; one that appears more than five seconds earlier is obtained |
| Executor.Spacing | src/blockchain/executor.py:47-64 | over every run two cycles that obtained blocks are at least the steps between them apart |
| Executor.AdvancesIff | src/blockchain/executor.py:58-62 | the expected block advances in every cycle exactly when N is at least one |
| GasHistory.FetchGasFeeHistory | src/blockchain/deposit_strategy/gas_price_calculator.py:31-45 | the pages join to one unbroken range, oldest first, cut to its oldest part; it fails exactly when a request would go below the first block |
| GasHistory.FullHistory | src/blockchain/deposit_strategy/gas_price_calculator.py:35-45 | on a long chain exactly 7200 fees a day of consecutive blocks, with k + 1 to k + 1024 newest ones dropped |
| GasHistory.CompleteIff | src/blockchain/deposit_strategy/gas_price_calculator.py:41-45 | on a chain that answers every request the history is complete exactly when the chain has that many blocks; on one too short for the last page it starts with the first block |

## Left out

- DepositorDaemon.RunCycle: a bot that runs out of its cycle time or loses its provider, which stops the daemon; `Executor.WaitForNewBlockAndExecute` has both.
- Depositor.DepositorBot.GetQuorum: a nonce or quorum size that cannot be read after the refresh; reads before it that raise are answers of the attempt or of the gathering turn.
- StompClient.Client.Subscribe: the function it also returns, which reads the id from the caller's dictionary when it is called.
- Messages are values: the source overwrites the address inside a message dictionary; each dictionary is reachable only from the store, and aliasing between two dictionaries is not captured.
- Schema validation and JSON decoding: batches hold messages that have passed the schemas, whose patterns are `Messages.SchemaValid`; fields no schema mentions and no bot reads are left out.
- A pause message's module id or an unvet message's nonce that is there but not an integer, which the schemas admit: such a message fails verification, but a handler's refresh may raise on the nonce before that.
- EventParsers.OwnParserReads: the decoder's additional rejection of offsets that point outside the data or into the head is not modelled; it concerns only data that no encoder produces.
- Executor.Executor.WaitUntilNextBlock: reading the head takes no time, and the alarm interrupts sleeps only.
- Executor.LimitSuffices: for gaps above 47 seconds `EndsInTime` gives the condition instead.
- Numbers of 2 to the 256 or more in a message count as failing verification.
- Metrics, logging, the health check server and environment variables; of the balance checks only that they may raise.
- The choice of strategy, gas price and deposit amount checks: their answers are inputs of an attempt.
- Transaction building beyond the call's arguments, checking and sending: an input of an attempt, one of success, failure and exception.
- WebSocket connection, subscribing again and thread start: the socket thread appears as appended bodies and as the clock readings of its reconnections; each client closes at most once.
- A second store or queue in one process, which would share the class-level list.
- Percentiles and rounding of the gas price.
- Freshness of contract reads and caching: each view is read once where the source reads it.

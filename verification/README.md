# Models and proofs of the wassupweb utility layer

A Dafny model of the stateful and arithmetic core of `wassupweb`: app-state sync, the buffered event emitter, the
reporting-token filter, media range download and streaming encryption, Noise framing, the transactional key store,
pre-key allocation, the keyed mutex, the retry cache and the Crockford encoder. Code that changes things step by step
is written as classes and loops and proved equal to a specification function or a step system; what the source
promises is then proved of those, for all inputs, all runs and all reachable states.

Cryptography, base64, JSON and protobuf classes are arbitrary functions, constrained only by the laws a theorem names
(`Crypto.Lawful`, `Aead.Lawful`): decryption undoes encryption, and parsing undoes rendering. Digests have their
length in their type. Dictionaries are finite maps, or sequences of entries where their order matters. Clocks,
randomness, servers and failing stores are parameters, so every theorem holds for all of them.

| file | what it models |
|---|---|
| `Common.dfy` | bytes, optional values, flattening, big-endian numbers |
| `LtHash.dfy`, `AppStateSync.dfy`, `AppStateLaws.dfy` | the LT-hash, patches and snapshots, and the laws of both |
| `AppStateContents.dfy` | what decoding hands out, and exactly what validation lets through |
| `Resync.dfy` | the resync loop over collections |
| `EventBuffer.dfy`, `EventEmitter.dfy` | the event buffer as a step system, and the emitter object |
| `EventInvariants.dfy`, `EventEffects.dfy` | its reachable states, and what each event does to what is buffered |
| `EventRefinement.dfy`, `EventChats.dfy` | what listeners that keep messages, or chats, can tell |
| `ReportingToken.dfy`, `ReportingLaws.dfy` | varints, the wire parser, and the extraction's normal form |
| `ReportingContents.dfy` | the wire format, and the extraction's output record by record |
| `MediaStream.dfy` | CBC, padding, streaming encryption, ranged download |
| `NoiseFraming.dfy` | nonces, frames, the streaming deframer |
| `KeyStore.dfy`, `PreKeys.dfy` | transactions over a key store, and pre-key ids |
| `KeyedMutex.dfy`, `RetryCache.dfy`, `Crockford.dfy` | locks per key, the LRU cache with time to live, base 32 |

## Where the code does not do what it is for

Each of these is a theorem, with the exact condition where there is one.

- Encoding an OP_REMOVE writes the removed index back (`chat_utils.py:187`): the returned state is consistent with its
  own hash only if the dead value MAC expands to zero in all lanes, and never equals the decoded state
  (`EncodeKeepsConsistency`, `EncodeThenDecode`; `RemovalLeavesStray` and `RemovalBreaksEncodedState` under any primitives).
- An update that carries another message's `key`, as the one for a revoked message does, renames a message that takes
  it while buffered: the listener is given it under the new key only. An update is seen as emitted exactly when it keeps
  the key or no buffered message takes it (`UpdateExactly` for every buffer, `BufferedUpdateSeen` for every run,
  `UpdatedWhileBuffered` and `UnbufferedUpdateSeen` from the start).
- `messages.delete` for a whole chat is accepted while buffering and forgotten, which is right exactly when no message
  of the chat would be seen (`DeleteAllExactly`, `WholeChatDeletionSeen`; `DeletedChatSurvives` is a run that differs).
- An upsert after a buffered upsert, update or delete of the same key is seen differently, except exactly when nothing
  in the buffer bears on it (`UpsertExactly` for every buffer, `BufferedUpsertSeen` for every run;
  `UpsertAfterDeleteIsLost` is a run in which the message never arrives).
- A chat update forgets a buffered deletion of its chat, whatever its condition says: a chat the listener knows is then
  still known after the flush, which raw events would have removed. It happens exactly when the listener knows the chat
  and its deletion is buffered (`ChatStepExactly`, `UpdateRevivesExactly`; `DeletedChatRevived` is a run that differs).
- A message id with a comma can make two keys one text (`KeysToldApart` without commas, `CommaConfuses`).
- An unconditional chat update is among what the next flush hands out exactly when no conditional update waits for its
  chat; otherwise it becomes conditional (`UnconditionalUpdateHandedOut`, `UnconditionalUpdateWaits`).
- A ranged download with an end behind the plaintext hands out padding bytes, exactly if it asks for any
  (`EndBeyondPlaintext`); without an end, a start just behind the padding fails (`StartBehindPlaintext`).
- A pre-key deleted in a transaction that has not read it stays (`UnseenDeletionIsLost`); with no commit attempts
  allowed mutations are dropped and success is reported (`NoAttemptsDropMutations`).
- Nonces repeat after 2^32 frames (`NonceRepeats`), and a payload of 2^24 bytes or more is framed with a wrong length
  (`FrameReadBack`).

## Model

| member | source | states |
|---|---|---|
| LtHash.SubtractThenAdd | wassupweb/utils/lt_hash.py:24-47 | every lane of the result is the fitted base lane minus the sum of the subtracted expansions plus the sum of the added ones, modulo 256, reduced once at the end |
| LtHash.FoldValue | wassupweb/utils/lt_hash.py:37-45 | one value touches each of the 128 lanes once, subtracting or adding its expansion |
| LtHash.LanesAreDigests | wassupweb/utils/lt_hash.py:18-22 | the 128 lanes of an expansion are two 64-byte digests end to end, over the value followed by the bytes 0 and 1 |
| AppStateSync.ExpandKeys | wassupweb/utils/chat_utils.py:49-63 | the loop expands key data into at least 160 bytes whose first five 32-byte pieces are the five keys, in order |
| AppStateSync.LtHashGenerator.constructor | wassupweb/utils/chat_utils.py:80-84 | an empty stored hash starts as 128 zero bytes, with nothing yet added or subtracted |
| AppStateSync.LtHashGenerator.Mix | wassupweb/utils/chat_utils.py:86-102 | a removal without a previous entry fails and changes nothing; otherwise the map and both value lists move by exactly one mutation |
| AppStateSync.LtHashGenerator.FinishHash | wassupweb/utils/chat_utils.py:104-106 | the hash is the start hash shifted by everything collected |
| AppStateSync.DecodeSyncdMutations | wassupweb/utils/chat_utils.py:191-259 | the looped, key-caching decoder gives the result or the first error of a fold without a cache, and leaves the caller's state as it was |
| AppStateSync.DecodePatches | wassupweb/utils/chat_utils.py:432-495 | patches are applied to a private copy, in order, with patch and snapshot MAC checks; on any error the caller's state is untouched |
| AppStateSync.DecodeSyncdSnapshot | wassupweb/utils/chat_utils.py:389-429 | a snapshot is decoded from a new state carrying its version, with the same checks and error cases |
| AppStateSync.MixSingle | wassupweb/utils/chat_utils.py:160-164 | a generator used for one mutation |
| AppStateSync.EncodeSyncdPatch | wassupweb/utils/chat_utils.py:123-188 | the patch and the returned state, error cases included, with the map written once more after mixing |
| AppStateLaws.MapTotalRemove | wassupweb/utils/lt_hash.py:36-47 | a lane's sum over a map does not depend on the order in which entries are taken |
| AppStateLaws.FinishByTotals | wassupweb/utils/chat_utils.py:86-106 | whatever mutations were mixed, the finished hash depends on the start hash and the two maps alone |
| AppStateLaws.HashAfterTwice | wassupweb/utils/chat_utils.py:449-475 | going through an intermediate map gives the hash of going straight |
| AppStateLaws.DecodeMutationsSplits | wassupweb/utils/chat_utils.py:191-259 | decoding succeeds exactly when every mutation passes its own checks and every removal has something to remove; then hash and map are those of the mixed map |
| AppStateLaws.DecodePatchConsistent | wassupweb/utils/chat_utils.py:262-298 | a decoded patch keeps the hash equal to the lane sums of its map, SET and REMOVE alike |
| AppStateLaws.DecodeAllConsistent | wassupweb/utils/chat_utils.py:449-475 | so does any list of patches |
| AppStateLaws.DecodeSnapshotConsistent | wassupweb/utils/chat_utils.py:396-411 | every decoded snapshot has a hash equal to the lane sums of its map, of 128 bytes, under its own version |
| AppStateLaws.ReachableConsistent | wassupweb/utils/chat_utils.py:389-495 | the invariant holds after every run of snapshots and patches, failing ones included |
| AppStateLaws.SameMapSameHash | wassupweb/utils/lt_hash.py:36-47 | two consistent states with the same map have the same hash |
| AppStateLaws.PatchesAsOneList | wassupweb/utils/chat_utils.py:449-475 | a list of patches decodes to the lanes and map of the one list of all their mutations, from a hash of any length and with or without MAC validation; without it, it decodes exactly when that does |
| AppStateLaws.ValidationOnlyRejects | wassupweb/utils/chat_utils.py:224-237 | what passes MAC validation decodes to the very same state and mutations without it |
| AppStateContents.OpensExactly | wassupweb/utils/chat_utils.py:214-247 | with validation a mutation opens exactly when its key is known, its content MAC matches, its content decrypts and parses, and its index MAC matches |
| AppStateContents.OpensUncheckedExactly | wassupweb/utils/chat_utils.py:214-247 | without validation a key, a blob and a readable content are enough |
| AppStateContents.PatchValidatesExactly | wassupweb/utils/chat_utils.py:262-298 | with validation a patch decodes exactly when its MAC signs it, every mutation opens, every removal has something to remove, and the snapshot MAC signs the state it leads to |
| AppStateContents.SnapshotValidatesExactly | wassupweb/utils/chat_utils.py:389-429 | with validation a snapshot decodes exactly when every record opens, no removal lacks its entry, and its MAC signs the state of its records |
| AppStateContents.ValueMacsAre | wassupweb/utils/chat_utils.py:268-280 | the value MACs a patch MAC is over are the last 32 bytes of each mutation's blob, in order |
| AppStateLaws.RecuttingPatches | wassupweb/utils/chat_utils.py:449-475 | cutting the same mutations into other consecutive patches gives the same lanes and map where both decode, and the same success where MACs, which sign the cut, are not looked at; the stored hash bytes agree exactly unless one cut is empty and the hash it leaves is not of 128 bytes |
| AppStateLaws.MinimumDecidesDelivery | wassupweb/utils/chat_utils.py:462-475 | the minimum version changes neither state nor errors, and patches up to it hand out no mutations |
| AppStateContents.MutationsDeliver | wassupweb/utils/chat_utils.py:239-259 | of one list of mutations the last action of every index is handed out, on top of what was there, or nothing is where delivery is off |
| AppStateContents.PatchesDeliver | wassupweb/utils/chat_utils.py:449-475 | after a list of patches decodes, each index a patch above the minimum version opened maps to the action of the last such mutation, and every other index keeps what it had |
| AppStateContents.SnapshotDelivers | wassupweb/utils/chat_utils.py:396-411 | a decoded snapshot above the minimum version hands out the last action of each index its records open to, and otherwise nothing |
| AppStateLaws.MacInputSeparates | wassupweb/utils/chat_utils.py:66-73 | two records are signed over the same bytes exactly when key id, content and kind of operation agree |
| AppStateLaws.SnapshotInputSeparates | wassupweb/utils/chat_utils.py:111-112 | two snapshots are signed over the same bytes exactly when hash, version and collection name agree |
| AppStateContents.PatchInputSeparates | wassupweb/utils/chat_utils.py:115-116 | two patches whose value MACs have 32 bytes and whose collection names are shorter are signed over the same bytes exactly when snapshot MAC, value MACs, version and name agree |
| AppStateLaws.PermutingMutations | wassupweb/utils/chat_utils.py:86-106 | mutations on distinct indices may come in any order: same success, hash and map |
| AppStateLaws.SnapshotReplaysState | wassupweb/utils/chat_utils.py:389-411 | replaying the live records of a consistent state as a snapshot, in any order, gives back its very hash and map |
| AppStateLaws.EncodedMutationOpens | wassupweb/utils/chat_utils.py:149-185 | the mutation inside a freshly built patch passes the content and index MAC checks and decrypts to the action encoded |
| AppStateLaws.EncodeThenDecode | wassupweb/utils/chat_utils.py:123-188 | decoding a freshly built patch from the same state with all four MAC checks on succeeds with the encoder's version and hash, and in the encoder's map exactly when the operation is not a removal |
| AppStateContents.EncodedActionDelivered | wassupweb/utils/chat_utils.py:123-188 | decoding a freshly built patch above the minimum version, all checks on, hands out exactly the encoded action under its index |
| AppStateLaws.EncodedState | wassupweb/utils/chat_utils.py:160-187 | the encoder's hash is that of the mixed map, its map is the mixed map with the index written once more |
| AppStateLaws.StrayEntry | wassupweb/utils/chat_utils.py:187 | adding an entry the hash does not know keeps a state consistent exactly when the entry expands to zero in every lane |
| AppStateLaws.EncodeKeepsConsistency | wassupweb/utils/chat_utils.py:160-188 | a locally encoded state is consistent exactly when it did not remove, or the dead value MAC expands to nothing |
| AppStateLaws.RemovalLeavesStray | wassupweb/utils/chat_utils.py:160-188 | under any primitives, key and iv, removing the only index of a consistent state returns the hash of the empty map with a map that still has it, consistent exactly when the removal's value MAC expands to nothing |
| AppStateLaws.RemovalBreaksEncodedState | wassupweb/utils/chat_utils.py:187-188 | so under primitives as lawful as any there is a consistent state whose encoded removal returns an inconsistent one |
| Resync.ConsistencyKept | wassupweb/socket/chats.py:285-314 | the LT-hash invariant is kept by the decoders as the loop calls them and by cloning |
| Resync.HandleItemKeeps | wassupweb/socket/chats.py:285-332 | whatever property decoding keeps, every state written while an item is handled has, the snapshot's too when its patches fail; what is stored is what was written last |
| Resync.HandleItemWrites | wassupweb/socket/chats.py:281-334 | an item fails exactly when its snapshot or then its patches do not decode; it writes each decoded state as the decoder returned it, then a removal if it failed, and hands out each decoded part's mutations |
| Resync.HandleItemStores | wassupweb/socket/chats.py:285-314 | an item without error leaves stored the state its patches decoded to from a clone of the snapshot's state or else from the working state, or the snapshot's state if it has no patches, and a clone of it to work on |
| Resync.CloneIsFaithful | wassupweb/socket/chats.py:105-110 | a clone has the version, map and lanes of the original |
| Resync.RoundStores | wassupweb/socket/chats.py:241-314 | an answered request without error leaves stored what its parts decode to from a clone of what was stored before, or from a new state |
| Resync.HandleItemEffect | wassupweb/socket/chats.py:285-334 | a decoded item costs no attempt and stays open just when more is announced; a failed one costs one, leaves nothing stored, and stays open just when the error can be recovered from below the limit |
| Resync.FollowEnds | wassupweb/socket/chats.py:237-334 | every collection ends closed after at most MAX_SYNC_ATTEMPTS failures, with nothing stored if its last answer failed and that answer's state if it decoded, and every state it wrote on the way has whatever property decoding keeps |
| Resync.RoundProgress | wassupweb/socket/chats.py:241-334 | each round lowers the lexicographic measure of failures still allowed, then batches still announced |
| Resync.ResyncLoop.BeginRound | wassupweb/socket/chats.py:245-264 | every open collection gets a clone of its stored state or a new state, and its first version is remembered once |
| Resync.ResyncLoop.TakeItem | wassupweb/socket/chats.py:281-334 | one item changes the entries of its own collection only, as the handler says, and its mutations are merged into those of the call |
| Resync.ResyncLoop.TakeResponse | wassupweb/socket/chats.py:280-334 | the loop over a response serves each listed collection once and no other |
| Resync.ResyncLoop.RunRound | wassupweb/socket/chats.py:241-334 | a round plays each open collection's own round and leaves closed ones alone |
| Resync.ResyncLoop.Run | wassupweb/socket/chats.py:237-334 | the loop ends with no collection open, each having followed the course it has by itself |
| Resync.ResyncAppState | wassupweb/socket/chats.py:237-334 | from consistent stored states every state written on the way is consistent and the store holds what was written last; a collection whose latest answer decoded holds that answer's state, one whose latest answer failed holds none; the mutations returned are those decoded for the collections |
| EventEmitter.BufferableEventEmitter.Buffer | wassupweb/utils/event_buffer.py:92-101 | the buffering step of the step system, the count starting at one |
| EventEmitter.BufferableEventEmitter.KeepBack | wassupweb/utils/event_buffer.py:126-133 | the loop over chat updates moves out exactly the conditional ones and leaves the rest in order |
| EventEmitter.BufferableEventEmitter.Flush | wassupweb/utils/event_buffer.py:108-143 | listeners are given the consolidated rest, which `EventChats.FlushHandsOut` lists, the buffer keeps only the conditional chat updates, and nothing happens when not buffering |
| EventEmitter.BufferableEventEmitter.Emit | wassupweb/utils/event_buffer.py:172-201 | buffered upserts of another type go out first, buffering or not; then the event is taken in or handed on |
| EventEmitter.BufferableEventEmitter.AppendEvent | wassupweb/utils/event_buffer.py:214-425 | each kind of event is folded into the buffer item by item |
| EventEmitter.BufferableEventEmitter.AppendMessage | wassupweb/utils/event_buffer.py:341-362 | an upsert takes over an earlier one's timestamp and any waiting update, which leaves the buffer, and keeps the place of its key |
| EventEmitter.BufferableEventEmitter.AppendUpdate | wassupweb/utils/event_buffer.py:365-377 | a buffered message that is not empty takes the update in place, and its chat's unread count falls if it was read; otherwise the update waits, merged with earlier ones |
| EventEmitter.BufferableEventEmitter.CountReadMessage | wassupweb/utils/event_buffer.py:445-464 | the chat's waiting update, or else its upsert, loses one unread message in place, and its count when none is left |
| EventEmitter.BufferableEventEmitter.AppendDeletes | wassupweb/utils/event_buffer.py:379-388 | each key is recorded once and its upserts and updates are dropped |
| EventEmitter.BufferableEventEmitter.AppendChat | wassupweb/utils/event_buffer.py:258-274 | a chat upsert is merged or stored, takes in the update waiting for it if its condition holds, and undoes a deletion |
| EventEmitter.BufferableEventEmitter.AbsorbUpdate | wassupweb/utils/event_buffer.py:428-442 | the update waiting for a chat is merged under it and removed, dropped, or left, as its condition says |
| EventEmitter.BufferableEventEmitter.AppendChatUpdate | wassupweb/utils/event_buffer.py:276-296 | a chat update is merged, kept waiting or dropped by its condition, and undoes a deletion in all three cases |
| EventEmitter.BufferableEventEmitter.AppendChatDeletes | wassupweb/utils/event_buffer.py:298-304 | the deleted chats' upserts and updates leave the buffer, in whatever order the ids come |
| EventInvariants.AppendChatsOk | wassupweb/utils/event_buffer.py:258-304 | every chat event keeps chats under their ids and deleted chats without upserts or updates, and leaves messages alone |
| EventInvariants.AppendMessagesOk | wassupweb/utils/event_buffer.py:338-388 | every message event keeps one type for all upserts and upserts apart from updates |
| EventInvariants.FlushSplits | wassupweb/utils/event_buffer.py:126-133 | each chat update is on exactly one side: kept if conditional, handed out if not |
| EventInvariants.NextKeeps | wassupweb/utils/event_buffer.py:92-201 | every step keeps the buffer's invariant |
| EventInvariants.ReachableStates | wassupweb/utils/event_buffer.py:172-201 | after any run: one type for all buffered upserts, upserts and updates disjoint at every key but that of a message without fields, deleted chats with neither upsert nor update, and nothing but conditional chat updates held while not buffering |
| EventInvariants.FlushCarriesOver | wassupweb/utils/event_buffer.py:126-141 | in every reachable state a flush hands out every chat update but exactly the conditional ones it keeps, and a flush straight after hands out none |
| EventInvariants.CountsBufferings | wassupweb/utils/event_buffer.py:92-113 | over any run the buffer count is the number of bufferings since the last flush, and events are held back while it is positive |
| EventInvariants.UnbufferedPassesOn | wassupweb/utils/event_buffer.py:172-201 | in every reachable state that is not buffering an event is handed out as it came, alone, and nothing is kept of it |
| EventInvariants.NotBufferablePassesOn | wassupweb/utils/event_buffer.py:194-201 | an event that cannot be buffered is handed out as it came in every state |
| EventEffects.MessageStored | wassupweb/utils/event_buffer.py:341-362 | field by field an upserted message is stored under a waiting update, then an earlier upsert's timestamp, as notify if either upsert is; no other message changes |
| EventInvariants.UnconditionalUpdateHandedOut | wassupweb/utils/event_buffer.py:283-292 | an unconditional update of a chat without an upsert is handed out by the next flush exactly when no conditional one waits for the chat, and is held with that one otherwise; with an upsert it goes into the upsert |
| EventInvariants.UnconditionalUpdateWaits | wassupweb/utils/event_buffer.py:288-292 | two updates in a row, the first one waiting for its condition: the second is held under that condition |
| EventEffects.UpdateByVerdict | wassupweb/utils/event_buffer.py:276-296 | a chat update by its condition: undecided it replaces what waits, failed it is dropped, met it goes field by field into the upsert or over what waits; a buffered deletion of the chat is undone in every case |
| EventEffects.MergedUnread | wassupweb/utils/event_buffer.py:535-546 | the unread count of a merge in all cases: counts add up, marks as unread count as none, replace a count, and are cleared by what has no count |
| EventEffects.UnreadCountsAdd | wassupweb/utils/event_buffer.py:539-544 | over any number of merges unread counts add up |
| EventEffects.ArriveThenRead | wassupweb/utils/event_buffer.py:445-464 | a message that arrives and is read leaves its chat's count as it was, a zero being dropped |
| EventEffects.ReadingLowersCount | wassupweb/utils/event_buffer.py:365-377 | an update that marks another's buffered message as read takes one from its chat's count, in the waiting update if there is one and else in the upsert; nothing else of any chat changes, and no other message update changes a chat |
| EventEffects.UpsertTakesWaitingUpdate | wassupweb/utils/event_buffer.py:258-273 | an upserted chat, already buffered or not, takes in the update waiting for it if the condition holds: later fields win, the update's fill in, counts add up, and update and deletion are gone |
| EventEffects.UpsertLeavesUpdate | wassupweb/utils/event_buffer.py:258-274 | a chat upserted without taking an update in is stored over the earlier upsert; the waiting update stays if its condition cannot be told and goes if it fails; the deletion is undone |
| EventEffects.KeysToldApart | wassupweb/utils/event_buffer.py:549-550 | two message keys whose ids have no comma have the same text exactly when chat, id and sender side agree |
| EventEffects.CommaConfuses | wassupweb/utils/event_buffer.py:549-550 | two different keys with one text, an id having a comma |
| EventChats.FlushHandsOut | wassupweb/utils/event_buffer.py:481-503 | a flush hands out an event exactly if it carries, in order, all that is buffered of its kind and not nothing, one event of each kind |
| EventChats.FlushedChats | wassupweb/utils/event_buffer.py:108-143 | in every reachable state, what a flush makes of each chat of a listener: gone if deleted, as buffered if upserted, with its unconditional update merged in if it has one, otherwise as it was; no chat is in two of the flush's events |
| EventChats.ChatStepExactly | wassupweb/utils/event_buffer.py:92-201 | one step changes whether a listener will know a chat after the next flush as the raw event does, except exactly when an update brings back a known chat whose deletion is buffered |
| EventChats.BufferingKeepsChats | wassupweb/utils/event_buffer.py:92-201 | over every run without such an update the listener knows, whenever nothing is buffered, the very chats a listener to raw events knows |
| EventChats.UpdateRevivesExactly | wassupweb/utils/event_buffer.py:276-296 | after such a run, a buffered update and a flush leave a chat known as raw events do exactly when it is not one that the listener knows and whose deletion is buffered |
| EventChats.DeletedChatRevived | wassupweb/utils/event_buffer.py:294-304 | a known chat deleted and then updated while buffering: raw events remove it, the listener keeps it |
| EventRefinement.DeliverAt | wassupweb/utils/event_buffer.py:493-503 | what delivering a buffer does to one key: its upsert or what was there, then its update, then its deletion |
| EventRefinement.ConsolidatedDelivers | wassupweb/utils/event_buffer.py:467-503 | a listener given the consolidated events in order ends in the delivered store |
| EventRefinement.UntouchedExactly | wassupweb/utils/event_buffer.py:343-353 | the buffer leaves an upserted message as it came exactly when an earlier upsert's timestamp and a waiting update's fields are in it already |
| EventRefinement.UpsertExactly | wassupweb/utils/event_buffer.py:338-362 | in any keyed buffer, buffering an upsert means what emitting it does exactly when its key has no buffered delete and the buffer leaves it as it came |
| EventRefinement.BufferedUpsertSeen | wassupweb/utils/event_buffer.py:172-201 | after any tame run that ends in buffering, an upsert of any type and a flush leave the store of raw events exactly when the upsert is tame in what early emission leaves buffered |
| EventRefinement.UpsertAfterDeleteIsLost | wassupweb/utils/event_buffer.py:379-388 | a message deleted and upserted again while buffering: raw events keep it, the listener never gets it |
| EventRefinement.UpdateExact | wassupweb/utils/event_buffer.py:365-377 | buffering an update that keeps the key, or that no buffered message takes, always means what emitting it does |
| EventRefinement.DeleteExact | wassupweb/utils/event_buffer.py:379-388 | buffering a deletion of keys always means what emitting it does |
| EventRefinement.UpdateExactly | wassupweb/utils/event_buffer.py:365-377 | in any keyed buffer, an update is seen as emitted exactly when it keeps the key or no buffered message takes it |
| EventRefinement.DeleteAllExactly | wassupweb/utils/event_buffer.py:379-388 | for any listener and buffer, deleting a whole chat means the same buffered and emitted exactly when no message of the chat would be seen; the buffer stays as it was |
| EventRefinement.EarlyDelivery | wassupweb/utils/event_buffer.py:174-192 | sending buffered upserts out early changes nothing in what delivering the buffer leads to |
| EventRefinement.StepInStep | wassupweb/utils/event_buffer.py:92-201 | every tame step keeps the listener plus the buffer where the listener of raw events is |
| EventRefinement.BufferingRefinesEmission | wassupweb/utils/event_buffer.py:172-201 | over every tame run, with key-changing updates that no buffered message takes and whole-chat deletions of chats without messages among them, delivering what is buffered gives the store of raw events in order, and when not buffering the listener has it |
| EventRefinement.WholeChatDeletionSeen | wassupweb/utils/event_buffer.py:379-388 | after any tame run that ends in buffering, a whole-chat deletion and a flush leave the store of raw events exactly when those had left no message of the chat |
| EventRefinement.DeletedChatSurvives | wassupweb/utils/event_buffer.py:379-388 | a message buffered from the start and its chat deleted: raw events leave nothing, the listener keeps the message |
| EventRefinement.BufferedUpdateSeen | wassupweb/utils/process_message.py:314-322 | after any tame run that ends in buffering, an update and a flush leave the store of raw events exactly when the update keeps the key or no buffered message takes it |
| EventRefinement.UnbufferedUpdateSeen | wassupweb/utils/process_message.py:314-322 | an update of a message that is not buffered, a revocation among others, is always seen as emitted |
| EventRefinement.PlayUndeleted | wassupweb/utils/event_buffer.py:379-388 | after any tame run no message is buffered and deleted at once |
| EventRefinement.UpdatedWhileBuffered | wassupweb/utils/event_buffer.py:365-377 | so a message upserted, updated and flushed from the start reaches an empty listener as emitted exactly when the update keeps its key |
| EventRefinement.DisciplinedIsTame | wassupweb/utils/event_buffer.py:338-388 | a run whose buffers each see a key upserted at most once, before any update or delete of it, and no key-changing update after that, is tame |
| EventRefinement.DisciplinedBufferingRefinesEmission | wassupweb/utils/event_buffer.py:172-201 | for every such run, early emissions followed by a final flush leave the listener with the store of raw events in order |
| ReportingToken.DecodeVarint | wassupweb/utils/reporting_utils.py:104-117 | the shifting loop reads what the recursive reading of at most six bytes reads, or refuses with it |
| ReportingToken.EncodeVarint | wassupweb/utils/reporting_utils.py:120-127 | the loop writes the shortest varint of the low 32 bits |
| ReportingToken.VarintRoundTrip | wassupweb/utils/reporting_utils.py:104-127 | a 32-bit number written and read back, whatever follows, gives the number and its length |
| ReportingToken.WriteIsShortest | wassupweb/utils/reporting_utils.py:120-127 | no readable varint of a number at least as large is shorter than the one written |
| ReportingContents.VarintIs | wassupweb/utils/reporting_utils.py:104-117 | a varint is read from up to six bytes, the first below 128 its last, as the number their groups of seven bits spell, and refused exactly when none of the six is below 128 |
| ReportingToken.ReadIsLocal | wassupweb/utils/reporting_utils.py:104-117 | reading depends on the bytes it consumes only |
| ReportingToken.CompileSmall | wassupweb/utils/reporting_utils.py:63-70 | compiling a field table with protobuf field numbers gives a configuration with such numbers, at every depth |
| ReportingContents.CompileFinds | wassupweb/utils/reporting_utils.py:63-70 | a field number is configured exactly when it is listed |
| ReportingContents.CompileTakesLast | wassupweb/utils/reporting_utils.py:63-70 | the last entry for a field number gives its mark and its children |
| ReportingToken.ParseField | wassupweb/utils/reporting_utils.py:134-218 | field number, wire type, payload start and end of the field at an index, or failure |
| ReportingToken.ParseIsLocal | wassupweb/utils/reporting_utils.py:134-216 | a field parses the same in front of any other bytes |
| ReportingContents.WireFormat | wassupweb/utils/reporting_utils.py:158-216 | behind a tag come a varint, eight bytes, four bytes, or a length and that many bytes, by the wire type; too few bytes or another type is a failure |
| ReportingToken.TakePiece | wassupweb/utils/reporting_utils.py:158-216 | what one field contributes: nothing, its bytes, or its own extraction wrapped again; fields marked `m` recurse even without children and can fail |
| ReportingToken.CollectPieces | wassupweb/utils/reporting_utils.py:130-218 | the loop gathers the pieces of all fields in order, or fails where the recursive parser does |
| ReportingToken.ExtractReportingTokenContent | wassupweb/utils/reporting_utils.py:130-223 | the pieces sorted stably by field number and joined |
| ReportingLaws.PiecesAppend | wassupweb/utils/reporting_utils.py:133-216 | data that parses keeps its pieces when more data follows |
| ReportingLaws.WrapFits | wassupweb/utils/reporting_utils.py:207-210 | a nested field written again is no longer than it was, however its tag and length were encoded |
| ReportingLaws.ExtractFits | wassupweb/utils/reporting_utils.py:158-223 | the output is never longer than the input |
| ReportingLaws.SortIsStable | wassupweb/utils/reporting_utils.py:222 | sorting keeps the order inside every field |
| ReportingLaws.SortedUnique | wassupweb/utils/reporting_utils.py:222-223 | a sorted list is determined by what it holds, in order, for each field |
| ReportingLaws.ExtractIdempotent | wassupweb/utils/reporting_utils.py:130-223 | for input under 2^32 bytes and field numbers under 2^29, a successful output extracts to itself under the same configuration |
| ReportingContents.ExtractsExactly | wassupweb/utils/reporting_utils.py:130-223 | on any list of records under 2^32 bytes: it succeeds exactly when every payload it opens can be filtered, and the output is a list of records sorted by field with, of each configured leaf, the very records it had, of each message field its records with their payloads filtered and the empty ones dropped, and nothing of other fields |
| ReportingLaws.OrderAndUnknownsDoNotMatter | wassupweb/utils/reporting_utils.py:158-223 | record lists that agree field by field on the configured fields extract to the same bytes or both fail |
| ReportingLaws.ExtractableIsRecords | wassupweb/utils/reporting_utils.py:133-218 | whatever extracts is a list of records end to end, so the law above is about all of it |
| MediaStream.EncryptedStream | wassupweb/utils/messages_media.py:405-459 | for every cut of the input into chunks the file, its MAC, both hashes and the length are the same function of the whole plaintext, or the length limit is exceeded |
| MediaStream.UploadParts | wassupweb/utils/messages_media.py:405-459 | the file is whole blocks that decrypt to the padded plaintext, then ten bytes of the MAC over iv and blocks; the hashes are of plaintext and file, the length is the plaintext's |
| MediaStream.Padder.Update | wassupweb/utils/messages_media.py:429 | the padder gives out whole blocks and keeps less than one |
| MediaStream.CbcEncryptor.Update | wassupweb/utils/messages_media.py:411-431 | encrypting continues from the last ciphertext block |
| MediaStream.DecryptEncrypt | wassupweb/utils/messages_media.py:411-412 | CBC decryption undoes encryption |
| MediaStream.CbcBlockAt | wassupweb/utils/messages_media.py:411-412 | each ciphertext block is the cipher of its plaintext block combined with the ciphertext block before it, or the iv, as section 6.2 of NIST SP 800-38A says |
| MediaStream.XorByteAt | wassupweb/utils/messages_media.py:411-412 | the combination is exclusive or, binary digit by binary digit |
| MediaStream.DecryptSlice | wassupweb/utils/messages_media.py:548-557 | any run of whole blocks decrypts by itself with the block before it as the iv |
| MediaStream.UnpadSplit | wassupweb/utils/messages_media.py:555-570 | holding the last block back and unpadding it alone is unpadding the whole |
| MediaStream.UnpadExactly | wassupweb/utils/messages_media.py:559-570 | whole blocks unpad to a plaintext exactly when they are its padding |
| MediaStream.PlanIsAligned | wassupweb/utils/messages_media.py:492-505 | every position planned is a block boundary, one block behind the data to come when an iv is borrowed |
| MediaStream.RangeSink.PushBytes | wassupweb/utils/messages_media.py:529-541 | of the bytes given, exactly those between the requested positions are kept |
| MediaStream.DownloadEncryptedContent | wassupweb/utils/messages_media.py:526-572 | the imperative decryption of one response computes the window of its decrypted, unpadded blocks, or fails on bad padding |
| MediaStream.ResponseIsBlocks | wassupweb/utils/messages_media.py:509-513 | the bytes asked for, cut to a multiple of 16, are whole ciphertext blocks, the MAC never among them |
| MediaStream.DecryptedResponse | wassupweb/utils/messages_media.py:548-557 | with the borrowed iv they decrypt to the padded plaintext from the planned position on |
| MediaStream.DownloadIsSlice | wassupweb/utils/messages_media.py:487-572 | for start, end, both or neither within the plaintext, the download is exactly that slice of it |
| MediaStream.EndBeyondPlaintext | wassupweb/utils/messages_media.py:487-541 | with an end given, and a start anywhere before it or none, the server has the range unless it starts over a block behind the ciphertext, and the download is the clipped slice of the padded plaintext, right exactly when nothing is asked for within the padding |
| MediaStream.StartBehindPlaintext | wassupweb/utils/messages_media.py:487-572 | with a start behind the plaintext and no end, nothing comes, the download fails when the start's block is the one behind the padding, and further on there is no range |
| MediaStream.UploadThenDownload | wassupweb/utils/messages_media.py:543-575 | a download without a range sends no range header and gives the plaintext of the uploaded file, the MAC falling to the cut |
| NoiseFraming.NonceRepeats | wassupweb/utils/noise_handler.py:17-23 | two counters share a nonce exactly when they agree modulo 2^32 |
| NoiseFraming.IvLayout | wassupweb/utils/noise_handler.py:17-23 | a nonce is eight zero bytes and the low 32 bits of the counter, big-endian |
| NoiseFraming.HeaderRoundTrip | wassupweb/utils/noise_handler.py:243-253 | the three length bytes are read back as the length modulo 2^24 |
| NoiseFraming.FrameReadBack | wassupweb/utils/noise_handler.py:232-257 | a payload comes back from its frame exactly when it is under 2^24 bytes |
| NoiseFraming.TransportState.Encrypt | wassupweb/utils/noise_handler.py:33-36 | the n-th message is sealed under nonce n |
| NoiseFraming.TransportState.Decrypt | wassupweb/utils/noise_handler.py:38-41 | the n-th frame is opened under nonce n, the counter moving even on failure |
| NoiseFraming.NoiseHandler.EncodeFrame | wassupweb/utils/noise_handler.py:232-247 | the intro goes out once, in front of the first frame; the write counter moves by one and the read counter not at all |
| NoiseFraming.NoiseHandler.EncodeAll | wassupweb/utils/noise_handler.py:232-247 | messages sent one after the other make the stream of their frames under consecutive nonces |
| NoiseFraming.NoiseHandler.DecodeFrame | wassupweb/utils/noise_handler.py:249-278 | complete frames are delivered in order, the rest stays buffered, and a frame that fails to open ends the call |
| NoiseFraming.NoiseHandler.DecodeChunks | wassupweb/utils/noise_handler.py:270-278 | chunks handed over one by one go through the deframer in order |
| NoiseFraming.ProcessResumes | wassupweb/utils/noise_handler.py:249-268 | what is left after processing continues, with new data, as the whole would have |
| NoiseFraming.FailureStays | wassupweb/utils/noise_handler.py:261-263 | a failure is final, whatever data follows |
| NoiseFraming.BadFrameStops | wassupweb/utils/noise_handler.py:249-268 | behind frames that open, one that does not is taken off and uses up its nonce, what came before it is delivered, and what follows stays buffered |
| NoiseFraming.ChunkingDoesNotMatter | wassupweb/utils/noise_handler.py:270-278 | however a stream is cut, the same messages come out with the same buffer and counter |
| NoiseFraming.PartialRoundTrip | wassupweb/utils/noise_handler.py:232-278 | of a stream received in part exactly the whole frames are delivered, and only an incomplete one is buffered |
| NoiseFraming.RoundTrip | wassupweb/utils/noise_handler.py:232-278 | messages sent as frames and received in any chunks come back in order, with nothing left over and the counters equal |
| NoiseFraming.PlainRoundTrip | wassupweb/utils/noise_handler.py:249-278 | before there is a transport frames are delivered as they were sent, in any chunks |
| KeyStore.InMemorySignalKeyStore.Set | wassupweb/utils/auth_utils.py:36-46 | the loop writes values and deletes on None: the store is overlaid with the update |
| KeyStore.TransactionStore.Get | wassupweb/utils/auth_utils.py:144-156 | inside a transaction only missing keys are fetched, and the answer is the cache's |
| KeyStore.TransactionStore.SetDirect | wassupweb/utils/auth_utils.py:158-177 | dropping deletions of absent pre-keys first leaves the same store as writing all |
| KeyStore.TransactionStore.SetStaged | wassupweb/utils/auth_utils.py:178-194 | pre-key deletions count only for keys live in the cache; everything else goes to cache and mutations |
| KeyStore.TransactionStore.Transaction | wassupweb/utils/auth_utils.py:202-235 | a raising body leaves the store unchanged; otherwise the mutations are committed, retried after failures, and the context is gone in every case |
| KeyStore.WriteAgrees | wassupweb/utils/pre_key_manager.py:71-78 | a write keeps the transaction's view equal to direct execution exactly when it deletes no live pre-key that the cache lacks |
| KeyStore.StagedFollowsDirect | wassupweb/utils/auth_utils.py:144-194 | along any run of such writes the reads are those of direct execution |
| KeyStore.CommitSucceeds | wassupweb/utils/auth_utils.py:218-228 | after any partial failures one success leaves exactly the base overlaid with the mutations |
| KeyStore.CommitExactly | wassupweb/utils/auth_utils.py:218-228 | a commit succeeds exactly when one of the attempts it may make does, or it may make none |
| KeyStore.CommitFails | wassupweb/utils/auth_utils.py:223-225 | a commit that gives up has written some of the mutations and nothing else |
| KeyStore.TransactionRefinesDirect | wassupweb/utils/auth_utils.py:144-235 | a committed transaction has read the same values and leaves the same store as direct execution, for all runs without pre-keys and all whose pre-key deletions it has seen |
| KeyStore.NoAttemptsDropMutations | wassupweb/utils/auth_utils.py:218-230 | with no attempts allowed success is reported and the mutations are lost, harmlessly only if they change nothing |
| KeyStore.UnseenDeletionIsLost | wassupweb/utils/pre_key_manager.py:71-77 | a live pre-key deleted unseen goes in direct execution and stays in a transaction |
| PreKeys.GenerateOrGetPreKeys | wassupweb/utils/signal.py:36-48 | the loop makes keys for exactly the ids of the range that do not exist yet |
| PreKeys.AnswerIsComplete | wassupweb/utils/signal.py:161-178 | in every safe state a request answers exactly its count of consecutive ids, none handed out before, old keys unchanged |
| PreKeys.CommitStores | wassupweb/utils/signal.py:161-178 | a committed request stores every key it answers, leaves all other keys as they were and moves both counters behind the batch |
| PreKeys.RollbackLeaves | wassupweb/utils/signal.py:161-178 | a rolled-back request moves the counters all the same and stores some of its new keys at most |
| PreKeys.CommittedUntilConsumed | wassupweb/utils/signal.py:161-178 | over any run every key of a committed batch stays stored, as answered, until it is consumed |
| PreKeys.NextIsSafe | wassupweb/utils/signal.py:161-178 | requests, rolled back or not, and consumption keep first-unuploaded at most next with every id between stored, and never move first-unuploaded back |
| PreKeys.RunIsSafe | wassupweb/socket/socket.py:947-962 | so does every run |
| PreKeys.IdsHandedOutOnce | wassupweb/socket/messages_recv.py:1084-1109 | over every run no id is in two batches, although transactions roll back after the credentials advanced |
| PreKeys.PreKeyAllocator.GetNextPreKeys | wassupweb/utils/signal.py:161-178 | the imperative allocator takes the step of the state machine and answers the whole batch, stored if it commits |
| KeyedMutex.LockTable.Get | wassupweb/utils/make_mutex.py:29-34 | the lock given is the key's one, made if absent, with one more reference |
| KeyedMutex.LockTable.Release | wassupweb/utils/make_mutex.py:36-41 | one reference less, both entries gone with the last |
| KeyedMutex.NextKeeps | wassupweb/utils/make_mutex.py:29-52 | every step of every call keeps counts, sharing and ownership of locks |
| KeyedMutex.MutualExclusion | wassupweb/utils/make_mutex.py:43-52 | over every interleaving, cancellations included, two calls are never in the critical section of one key |
| KeyedMutex.EntersExactlyWhenFree | wassupweb/utils/make_mutex.py:43-52 | over every interleaving a waiting call may enter exactly while no call is in the critical section of its key |
| KeyedMutex.ExitLetsIn | wassupweb/utils/make_mutex.py:43-52 | a call that leaves its critical section lets any one waiting for the key in |
| KeyedMutex.CountsUsers | wassupweb/utils/make_mutex.py:29-41 | the reference count is the number of calls between acquire and release, a lock exists exactly while it is positive, and all of them share it |
| KeyedMutex.NothingLeaks | wassupweb/utils/make_mutex.py:36-41 | when no call is in flight no entry is left |
| RetryCache.TtlOrderedCache.PurgeExpired | wassupweb/utils/message_retry_manager.py:58-64 | exactly the expired items go, in place, and none without a time to live |
| RetryCache.TtlOrderedCache.EvictIfNeeded | wassupweb/utils/message_retry_manager.py:66-70 | the oldest items go until the limit is met |
| RetryCache.TtlOrderedCache.Set | wassupweb/utils/message_retry_manager.py:72-78 | the step of the list specification, after which the limit holds |
| RetryCache.TtlOrderedCache.Get | wassupweb/utils/message_retry_manager.py:80-89 | the step of the list specification and its answer, checked against the clock a second time |
| RetryCache.EvictedKeys | wassupweb/utils/message_retry_manager.py:66-70 | an item evicted had at least as many other keys touched after it as are kept |
| RetryCache.CacheAgreesWithMap | wassupweb/utils/message_retry_manager.py:48-93 | after any run under a monotone clock the size is within the limit, a get answers nothing but the last value set that is neither deleted nor expired, and does answer it if fewer than the limit of other keys were touched since |
| RetryCache.GetRefreshesRecencyOnly | wassupweb/utils/message_retry_manager.py:80-89 | a get makes its key the most recent and leaves its expiry as it was |
| RetryCache.MessageRetryManager.IncrementRetryCount | wassupweb/utils/message_retry_manager.py:176-180 | one more than the count alive in the cache, stored with a new expiry |
| RetryCache.MessageRetryManager.HasExceededMaxRetries | wassupweb/utils/message_retry_manager.py:182-186 | true exactly when the count alive has reached the maximum; the lookup leaves the cache as any get does |
| RetryCache.MessageRetryManager.MarkRetryDone | wassupweb/utils/message_retry_manager.py:188-198 | once marked done, successfully or not, a message has no count, whenever it is asked for |
| RetryCache.DoneForgets | wassupweb/utils/message_retry_manager.py:91-93 | a deleted key is never answered, and every other key is answered as before |
| RetryCache.StoredIsAnswered | wassupweb/utils/message_retry_manager.py:176-183 | a count just stored is answered exactly until it expires |
| RetryCache.OthersLeaveAlone | wassupweb/utils/message_retry_manager.py:58-93 | what is done to other keys leaves a live key's value and expiry as they were, in a cache without an item limit |
| RetryCache.IncrementsAreCounted | wassupweb/utils/message_retry_manager.py:176-186 | n increments of a message within one time to live, whatever happens to other messages between them, count as n |
| Crockford.BytesToCrockford | wassupweb/utils/generics.py:386-398 | the loop over an accumulator that is never cut spells all bits in order, padded to a whole symbol, with ceil(8n/5) symbols |
| Crockford.DecodeEncode | wassupweb/utils/generics.py:386-398 | reading the symbols as base-32 digits and dropping the pad bits gives the bytes back, for every byte string |

## Left out

- AES, HMAC, HKDF, SHA-2, base64, JSON and protobuf classes are arbitrary functions with the laws named above; where a
  theorem speaks of a lost or changed byte it holds for every choice of them.
- App-state index keys: the base64 text of an index MAC is an injective renaming, and the MAC itself is the key here.
- External patch downloads, the options passed to them, and the clearing of their mutation lists are not modelled.
- `mutation_keys` is used for real values only; a patch whose records lack a key id, blob or version reads as one with
  empty or zero parts.
- AppStateLaws.ReachableConsistent: speaks of decoding only, because an encoded OP_REMOVE breaks the invariant, as
  AppStateLaws.EncodeKeepsConsistency says exactly.
- `app_patch`, which persists an encoded state, is not modelled; the state it persists is the one EncodeSyncdPatch returns.
- Resync: the request node, a response that names collections nobody asked for or fails as a whole, the transaction
  around the loop and the processing of the returned mutations are left out; which errors carry status 404 or are type errors is a
  parameter. That each response covers what was asked and that batches between failures are finite is assumed of the
  server (`Finite`).
- Event buffer: history sets, contacts, groups, reactions and receipts are left out; only the branches for messages
  and chats are modelled, with `historySets` empty.
- Event buffer: timers, `create_buffered_function` and the scheduling of listeners are left out; a flush is one step
  that may happen at any time and its consolidated events reach listeners in order, before any later event.
- Event buffer: dictionaries are values, so sharing of message and chat objects between an event and the buffer is not
  captured; a `key` that is not a dictionary, an `id` that is not text and an upsert whose type is given as None are not
  modelled; the ids of one chat deletion have no order.
- EventRefinement.BufferingRefinesEmission: is about the message store of a listener.
- EventChats.BufferingKeepsChats: is about which chats a listener knows; the fields of a chat are compared with those
  buffered (`EventChats.FlushedChats`), not with raw events, since merging unread counts is not replacing.
- EventRefinement.UpdateExactly: leaves out, only where a buffered message takes the update, a message deleted and
  buffered at once, which no tame run reaches, and a listener that holds the very result under the old key beforehand,
  where the two stores may agree by chance.
- EventRefinement.UpsertExactly: leaves out, only where a waiting update renames the upserted message, a listener that
  holds that very message beforehand, where the two stores may agree by chance.
- Event conditions and the test whether a message counts as unread are parameters (`Env`).
- Reporting: the field table itself is not repeated; the theorems hold for every configuration with field numbers
  under 2^29, and the table's are under 100. The HMAC over the extraction is not modelled.
- Media: on download the MAC is not looked at, as in the source; files, HTTP and the partition of the output into
  chunks are left out. A server that honours byte ranges answers as section 14.1.2 of RFC 9110 says.
- Noise: the handshake, certificates, node decoding and the branch that waits for the transport, which cannot be
  entered between two awaits, are left out. A frame that fails to open ends the call.
- Key store: keys are flat pairs of kind and id; a key absent from an answer and one answered as None read the same.
  A transaction whose writes were all skipped counts as having no mutations, where the source still calls the store
  with empty groups. Nested transactions run in the outer one and need no member. Locks, other writers and the caching
  store are not modelled.
- Pre-keys: a key pair is a function of its id; the upload itself is not modelled.
- KeyedMutex: the order in which waiting calls get a lock is left open, and the guard makes each table operation one step.
- Retry cache: clock readings are parameters, two for each operation; the other state of the retry manager is left
  out, and marking a retry done stands for success and failure alike, which differ in statistics only.
- Identity links, LID mapping, the caching key store, stanza building and the transport have no members here.

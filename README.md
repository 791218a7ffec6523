# A verified model of the non-blocking-buffer library

The library `Non-blocking-Buffers/nbb.c` connects processes through pairs of
shared-memory ring buffers, one per direction. It has five parts, and the
model covers all of them in one process:

- **Ring buffer (single producer, single consumer).** Each direction has:
  - two pairs of 16-bit counters, advanced in two steps so the other side can
    see that an operation is in progress;
  - a table of `BUFFER_SIZE` `(offset, size)` descriptors;
  - a data arena of `PAGE_SIZE` bytes.
- **Delay buffer.** One per slot. The signal handler appends received data
  at its tail, and the application reads from its head.
- **Slot registry.** The table of channels with:
  - their owners and callbacks;
  - the peer table, which records a pid and a name per slot;
  - routing a message to a named peer.
- **Drain.** The signal handler `nbb_recv_data` visits the slots from 1 on and
  stops at the first slot not in use. It reads at most one item from each
  slot it visits. When the scratch buffer then starts with the 7 bytes of the
  handshake tag, the item registers the peer and fires the new-connection
  callback. Otherwise the item counts as data: it is queued in the slot's
  delay buffer and fires the new-data callback. The tag test compares 7 bytes
  whatever the item's length, so an item shorter than the tag is judged
  together with bytes that earlier items left in the scratch buffer.
- **Text formats.** The requests sent to the nameserver, the handshake sent
  to a service, and how the replies are split into tokens and read as
  numbers.

Each C operation that changes state in place is modelled as a method, and
each method is proved against a function on values:

- `RingBuffer.Buffer` holds the counters, descriptor array and arena of one
  direction. Its methods are proved against `InsertSpec`, `ReadSpec` and
  `ReadIntoSpec` on a `BufferState`.
- `DelayBuffers.DelayBuffer` is proved against `TakeSpec` and sequence
  concatenation.
- `NbbRegistry.Registry` owns the per-slot objects, the channel table and the
  peer table. Each of its methods states its effect on a value snapshot,
  `View()`, as one of the table functions of `NbbSlots` or `NbbDispatch`.

The lemmas about those functions state what the library promises:

- the full and empty checks;
- the three-way placement rule;
- first-in, first-out order on an idle buffer;
- the slot rules for open and close;
- owner-scoped setters;
- how the drain classifies and routes items;
- the handshake round trip.

The following are parameters of the model:

- The nameserver's pair of ids and the number of slots. They come from
  `constants.h`, which is not part of this model.
- Whether a shared-memory segment was got and attached, and whether it was
  removed. These are boolean inputs.
- A process signalled by a write. It is returned as the pid the signal goes
  to.
- A callback invoked by the drain. It is returned as an event.
- A failed C `assert` that depends on data from the peer or on internal
  routing. It is an explicit outcome: `aborted` in the drain and
  `AssertionFailure` in `nbb_send`.
- An `assert` on the caller's own arguments. It is a precondition.

Where the code and its comments disagree, the model follows the code:

- The write-count exclusion compares 8 bytes.
- `nbb_write_bytes` discards the result of the insert.
- The drain's handshake flag, once set, stays set for the rest of the same
  call.
- After a wrap to offset 0, the next insert appends without checking the
  unread items further on, so it can overwrite one of them.
- An emptied buffer can refuse a large item, because the wrap test reads a
  descriptor the consumer has already passed.

Each of these is stated as a lemma.

## Model

| member | source | states |
|---|---|---|
| `NbbTypes.Wrap16` | Non-blocking-Buffers/nbb.h:121-124 | storing an `int` into an `unsigned short` keeps values below 2^16, differs by a multiple of 2^16 and keeps parity |
| `NbbTypes.CounterRangeFitsBufferSize` | Non-blocking-Buffers/nbb.h:44-49 | the full distance `2·BUFFER_SIZE` is below half the 16-bit counter range, and every arena offset of `PAGE_SIZE` fits an `unsigned short` |
| `NbbTypes.Code` | Non-blocking-Buffers/nbb.h:63-70 | the six status codes are the distinct integers 0..5, only `OK` is 0, and the code determines the status |
| `NbbTypes.NoPeer` | Non-blocking-Buffers/nbb.h:87-90 | the zeroed peer record has a name that fits `MAX_NAME_SIZE` |
| `RingBuffer.Placement` | Non-blocking-Buffers/nbb.c:626-649 | offset 0 for the first item; otherwise right after the previous item whenever that ends strictly before the arena's end, the append being tried first; otherwise 0 when the oldest unacknowledged item starts beyond the size; otherwise no place; after the first item, a place found always leaves the item ending strictly before the arena's end |
| `RingBuffer.ProducerDistance` | Non-blocking-Buffers/nbb.c:613 | the producer's counter distance lies strictly between −2^16 and 2^16, and is negative exactly when the last update counter has wrapped below the ack counter |
| `RingBuffer.ConsumerDistance` | Non-blocking-Buffers/nbb.c:699 | the consumer's counter distance lies strictly between −2^16 and 2^16, and is negative exactly when the update counter has wrapped below the last ack counter |
| `RingBuffer.WriteAt` | Non-blocking-Buffers/nbb.c:655 | after the copy the arena holds the payload at `[offset, offset+size)` and every other byte is as before |
| `RingBuffer.InsertSpec` | Non-blocking-Buffers/nbb.c:600-671 | `BUFFER_FULL` at distance `2·BUFFER_SIZE` and `BUFFER_FULL_CONSUMER_READING` at `2·BUFFER_SIZE−1`, with nothing changed; OK exactly when neither holds and a place exists; on OK the payload is at the place, the descriptor at `last_update/2` is `(offset,size)`, all other descriptors, arena bytes and ack counters are kept and both update counters are 2 higher mod 2^16 |
| `RingBuffer.ReadSpec` | Non-blocking-Buffers/nbb.c:673-716 | `BUFFER_EMPTY` when the update counter equals the last ack, `BUFFER_EMPTY_PRODUCER_INSERTING` at distance 1, with nothing changed; otherwise the bytes the descriptor at `last_ack/2` names, and both ack counters 2 higher, nothing else changed |
| `RingBuffer.ReadIntoSpec` | Non-blocking-Buffers/nbb.c:721-766 | the outcomes and counter effects of `ReadSpec`, the item copied into the caller's buffer with the rest kept; an item not strictly shorter than the buffer fails the `assert` with the ack counter left odd |
| `RingBuffer.ClearedIsEmpty` | Non-blocking-Buffers/nbb.c:435-441 | a zeroed region with its `data_size` set is a well-formed buffer with no item and no insert in progress |
| `RingBuffer.ReaderDefersDuringInsert` | Non-blocking-Buffers/nbb.c:699-701 | while an insert is half done (odd update counter) on an empty buffer, a read reports `BUFFER_EMPTY_PRODUCER_INSERTING` and changes nothing |
| `RingBuffer.ProducerDefersDuringRead` | Non-blocking-Buffers/nbb.c:617-619 | while a read is half done on a full buffer, an insert reports `BUFFER_FULL_CONSUMER_READING` and changes nothing |
| `RingBuffer.ReadFreesOneSlot` | Non-blocking-Buffers/nbb.c:613-615 | a full buffer refuses an insert, accepts a read, and after the read is one item short of full |
| `RingBuffer.FirstItemSkipsSizeCheck` | Non-blocking-Buffers/nbb.c:631-632 | while the last update counter is 0 the item goes to offset 0 whatever its size |
| `RingBuffer.Buffer.constructor` | Non-blocking-Buffers/nbb.h:119-134 | a new direction is the cleared state, in fresh arrays |
| `RingBuffer.Buffer.Clear` | Non-blocking-Buffers/nbb.c:435-441 | the `memset` and `data_size` setting of an attach leave the cleared state |
| `RingBuffer.Buffer.CopyIn` | Non-blocking-Buffers/nbb.c:655 | the `memcpy` of the item leaves the arena as `WriteAt` of the old arena: the item at the offset, every other byte kept |
| `RingBuffer.Buffer.Insert` | Non-blocking-Buffers/nbb.c:600-664 | the status and the new counters, descriptors and arena are those of `InsertSpec` on the old state, through the odd in-progress phase |
| `RingBuffer.Buffer.Read` | Non-blocking-Buffers/nbb.c:673-716 | the status, the item and the new state are those of `ReadSpec` on the old state |
| `RingBuffer.Buffer.ReadInto` | Non-blocking-Buffers/nbb.c:721-766 | the status, size, abort and the new state and caller buffer are those of `ReadIntoSpec` |
| `RingBufferFifo.PlacementOnLayout` | Non-blocking-Buffers/nbb.c:634-649 | with items laid back to back from 0 and none read, the next item is placed right after the run exactly when it ends before the arena's end, and nowhere otherwise |
| `RingBufferFifo.InsertStep` | Non-blocking-Buffers/nbb.c:613-664 | one more insert on such a layout is accepted exactly when the run still fits, and then extends the layout |
| `RingBufferFifo.InsertAllLayout` | Non-blocking-Buffers/nbb.c:600-671 | from an idle buffer a run of inserts is accepted in full exactly when there are at most `BUFFER_SIZE` items and, unless there is only one (whose size is never checked), the whole run ends strictly before the arena's end; the items then lie back to back from offset 0 |
| `RingBufferFifo.ReadStep` | Non-blocking-Buffers/nbb.c:695-713 | one read from the layout returns the oldest unread item and keeps the layout |
| `RingBufferFifo.ReadAllLayout` | Non-blocking-Buffers/nbb.c:673-716 | reading the layout returns the unread items in order |
| `RingBufferFifo.InsertThenReadInOrder` | Non-blocking-Buffers/nbb.c:600-716 | on an idle buffer, an accepted run of items reads back item for item in insertion order with exact sizes, and then the buffer is empty |
| `RingBufferFifo.FullAfterBufferSizeItems` | Non-blocking-Buffers/nbb.c:613-615 | after `BUFFER_SIZE` accepted inserts with no read, the next insert is refused with `BUFFER_FULL` and changes nothing |
| `RingBufferFifo.WrapOverwritesUnreadItem` | Non-blocking-Buffers/nbb.c:634-642 | items of 8000 and 8300 bytes, one read, then 100 and 10000 bytes: the wrap puts the 100-byte item at offset 0, the unchecked append after it puts the last item at 100..10100, over the unread second item, whose read then returns bytes of the last |
| `RingBufferFifo.StaleDescriptorRefusesInsert` | Non-blocking-Buffers/nbb.c:634-649 | after one 16000-byte item is written into an idle 16384-byte buffer whose next descriptor still holds offset 0, and read back, the buffer reports empty, yet every insert of 384 bytes or more is refused with `BUFFER_FULL` and changes nothing |
| `DelayBuffers.TakeSpec` | Non-blocking-Buffers/nbb.c:530-544 | reading up to `size` bytes takes `min(size, len)` bytes from the head, and those bytes followed by what remains are the old content |
| `DelayBuffers.AppendThenTakeInOrder` | Non-blocking-Buffers/nbb.c:516-598 | appending A then B and reading |A| bytes yields A, and the next read yields B |
| `DelayBuffers.TakeTwice` | Non-blocking-Buffers/nbb.c:530-546 | two reads return the same bytes and leave the same rest as one read of the combined size |
| `DelayBuffers.DelayBuffer.constructor` | Non-blocking-Buffers/nbb.h:136-142 | the zero-initialised static entry holds nothing and has no room |
| `DelayBuffers.DelayBuffer.Reset` | Non-blocking-Buffers/nbb.c:473-476 | the reset done at open leaves an empty buffer with `1<<20` bytes of room |
| `DelayBuffers.DelayBuffer.Append` | Non-blocking-Buffers/nbb.c:567-598 | the content becomes the old content followed by the bytes, the capacity unchanged |
| `DelayBuffers.DelayBuffer.Take` | Non-blocking-Buffers/nbb.c:516-547 | returns `min(size, len)`, copies those head bytes into the caller's buffer and leaves the rest of it, and the content left is what follows them |
| `NbbText.CStr` | Non-blocking-Buffers/nbb.c:356-366 | the C string a buffer holds is its prefix up to the first NUL |
| `NbbText.Word` | Non-blocking-Buffers/nbb.c:360-363 | a `strtok` token is the longest prefix without a space |
| `NbbText.Tokens` | Non-blocking-Buffers/nbb.c:360-363 | every `strtok` token is non-empty and holds no space; a non-empty text without spaces is one token; a text of spaces only has none |
| `NbbText.SkipSpace` | Non-blocking-Buffers/nbb.c:143 | `atoi` skips the leading white space: what is left is a suffix of the text, every byte skipped is white space, and what is left does not start with white space |
| `NbbText.LeadingDigits` | Non-blocking-Buffers/nbb.c:143 | `atoi` reads the longest prefix of digits: a prefix of the text, all digits, followed by a non-digit or by the end |
| `NbbText.Atoi` | Non-blocking-Buffers/nbb.c:362 | after the leading white space: a minus sign gives minus the value of the digits that follow it, a plus sign the value of the digits that follow it, and otherwise the value of the leading digits, whatever follows them; the result is negative only after a minus sign, and with neither sign nor digit it is 0 |
| `NbbText.Itoa` | Non-blocking-Buffers/nbb.c:106-107 | the `%d` text of a non-negative number is a non-empty run of digits |
| `NbbText.AtoiItoa` | Non-blocking-Buffers/nbb.c:106-107 | `atoi` of the `%d` text of a number is the number |
| `NbbText.TokensJoin` | Non-blocking-Buffers/nbb.c:141-151 | splitting words joined by single spaces returns the words |
| `NbbText.ServiceRequest` | Non-blocking-Buffers/nbb.c:106-115 | the service request splits into tag, name, channel count and pid, and the last two read back as the numbers |
| `NbbText.ClientRequest` | Non-blocking-Buffers/nbb.c:179-181 | the client request splits into tag and service name |
| `NbbText.Handshake` | Non-blocking-Buffers/nbb.c:226-231 | the handshake starts with the 7 tag bytes followed by a space |
| `NbbText.ParseHandshake` | Non-blocking-Buffers/nbb.c:360-366 | no pid exactly when there are fewer than two tokens, and otherwise the pid is `atoi` of the second; no name exactly when there are just two; with a third token, the name is accepted exactly when that token fits `MAX_NAME_SIZE`, as the `assert` demands, and the name is that token |
| `NbbText.HandshakeRoundTrip` | Non-blocking-Buffers/nbb.c:226-231 | parsing the handshake built from a pid and a name returns that pid and that name |
| `NbbText.HandshakeKeepsFirstWord` | Non-blocking-Buffers/nbb.c:360-366 | for a client name with spaces, the peer is registered under its first word only |
| `NbbText.ExcludedFromWriteCount` | Non-blocking-Buffers/nbb.c:666 | the 8-byte comparison holds exactly when the item starts with the 7 tag bytes and either ends there or continues with a NUL |
| `NbbText.ExcludedIsBareTag` | Non-blocking-Buffers/nbb.c:666-668 | the 8-byte comparison excludes a C-string item from the write count exactly when it is the bare tag |
| `NbbText.HandshakeCountedAsWritten` | Non-blocking-Buffers/nbb.c:354 | a handshake the drain recognises by its 7 bytes is still counted as written data |
| `NbbText.ParseReservation` | Non-blocking-Buffers/nbb.c:128-151 | `NAMESERVER_CHANNEL_FULL` exactly when the reply is that text; otherwise one `(id, id + conv)` pair per token up to the number of channels asked for, complete exactly when enough tokens came |
| `NbbText.ParseLookup` | Non-blocking-Buffers/nbb.c:190-217 | no reply exactly when nothing came; the unknown-service text gives `UnknownService` and the busy text `ServiceBusy`; any other reply connects exactly when it has two tokens and is otherwise a missing field; a connect opens `(id + conv, id)` from the first token and takes the service pid from the second |
| `NbbText.ComplementaryIds` | Non-blocking-Buffers/nbb.c:144 | a client given an id the service reserved writes where the service reads and reads where it writes |
| `NbbSlots.FreeSlotFrom` | Non-blocking-Buffers/nbb.c:500-511 | the lowest slot not in use, or -1 exactly when every slot is in use |
| `NbbSlots.OpenSlot` | Non-blocking-Buffers/nbb.c:411-416 | the slot an open uses is -1 or a valid index |
| `NbbSlots.OpenOn` | Non-blocking-Buffers/nbb.c:405-479 | an open keeps the peer table and the scratch buffer and returns -1 or a valid slot |
| `NbbSlots.NameserverOpensSlotZero` | Non-blocking-Buffers/nbb.c:411-413 | the nameserver's pair of ids always opens slot 0 and marks it in use |
| `NbbSlots.OpenTakesLowestFreeSlot` | Non-blocking-Buffers/nbb.c:414-421 | any other open takes the lowest free slot, and returns -1 with nothing changed exactly when all slots are in use |
| `NbbSlots.OpenResetsSlot` | Non-blocking-Buffers/nbb.c:443-476 | a successful open sets both ids, zeroes both counts, marks the slot in use, replaces the owner only when one is given, keeps the callbacks, leaves both directions with nothing pending and the delay buffer empty with `1<<20` bytes of room, and leaves every other slot as it was |
| `NbbSlots.OpenFailureKeepsWriteSide` | Non-blocking-Buffers/nbb.c:427-457 | a failed read attach changes nothing; a failed write attach returns -1 with only the read half set up |
| `NbbSlots.CloseOn` | Non-blocking-Buffers/nbb.c:482-498 | a close keeps the table shape |
| `NbbSlots.CloseFreesSlot` | Non-blocking-Buffers/nbb.c:486-497 | a close returns 0 exactly when both segments were removed, and then only clears `in_use`; a failed close returns -1 and leaves the tables as they were, the slot still marked in use (the detach it makes first is not modelled); other slots are kept |
| `NbbSlots.CloseThenOpenReusesSlot` | Non-blocking-Buffers/nbb.c:496-511 | when every lower slot is in use, the next open after closing a slot takes that slot again |
| `NbbSlots.WithNewConnection` | Non-blocking-Buffers/nbb.c:251-268 | the new-connection setter keeps the number of slots |
| `NbbSlots.WithNewData` | Non-blocking-Buffers/nbb.c:270-285 | the new-data setter keeps the number of slots |
| `NbbSlots.WithOwner` | Non-blocking-Buffers/nbb.c:287-301 | `nbb_set_owner` keeps the number of slots |
| `NbbSlots.SettersStayScoped` | Non-blocking-Buffers/nbb.c:258-267 | the setters change only slots from 1 on that are in use and owned by the tag, and there only the callback (and argument) fields |
| `NbbSlots.SettersIdempotent` | Non-blocking-Buffers/nbb.c:251-285 | setting the same callback twice is the same as setting it once |
| `NbbSlots.OwnerScopesSetters` | Non-blocking-Buffers/nbb.c:287-301 | after `nbb_set_owner` on a live slot, the setters for that owner reach the slot |
| `NbbSlots.WriteCounted` | Non-blocking-Buffers/nbb.c:666-668 | only `write_count` changes; a refused insert and the bare tag leave the channel as it was; any accepted item, binary or not, adds its size less one unless the 8-byte comparison excludes it; for a C string that is every item but the tag |
| `NbbSlots.InsertOn` | Non-blocking-Buffers/nbb.c:600-671 | an insert on a slot keeps the table shape |
| `NbbSlots.InsertCountsPayload` | Non-blocking-Buffers/nbb.c:600-668 | for any item, binary ones included, the write count grows by its size less one exactly on an accepted insert that the 8-byte comparison does not exclude, which for a C string means anything but the bare tag; a refused insert changes nothing; other slots are kept |
| `NbbSlots.ReadOn` | Non-blocking-Buffers/nbb.c:673-716 | a read on a slot keeps the table shape |
| `NbbSlots.WriteBytesOn` | Non-blocking-Buffers/nbb.c:303-318 | a write keeps the table shape |
| `NbbSlots.DestinationFrom` | Non-blocking-Buffers/nbb.c:325-330 | the search stops at the first live slot whose peer has the name, or at the end |
| `NbbSlots.Destination` | Non-blocking-Buffers/nbb.c:325-332 | the slot `nbb_send` passes on lies between 1 and the number of slots |
| `NbbSlots.SendOn` | Non-blocking-Buffers/nbb.c:320-333 | a send keeps the table shape |
| `NbbSlots.SendReachesFirstNamedPeer` | Non-blocking-Buffers/nbb.c:320-333 | a send goes to the first live slot from 1 on whose peer has the name, inserts there and signals that peer |
| `NbbSlots.SendToUnknownPeerFails` | Non-blocking-Buffers/nbb.c:307-312 | with no such peer, a non-empty send fails the range `assert` and an empty one returns 0, changing nothing |
| `NbbSlots.WriteBytesHidesRefusal` | Non-blocking-Buffers/nbb.c:314-317 | a refused insert still returns 0 and signals the peer |
| `NbbSlots.ReadBytesOn` | Non-blocking-Buffers/nbb.c:516-547 | a read of bytes keeps the table shape |
| `NbbSlots.FlushOn` | Non-blocking-Buffers/nbb.c:567-598 | a flush keeps the table shape |
| `NbbSlots.ReadBytesConservesCount` | Non-blocking-Buffers/nbb.c:533-544 | at most `size` and at most the available bytes are returned, returned bytes and the rest make up the old content, `read_count` plus what remains is conserved, other slots are kept |
| `NbbSlots.FlushThenReadInOrder` | Non-blocking-Buffers/nbb.c:516-598 | flushing A then B into an empty delay buffer, reads of |A| and |B| bytes return A and then B and empty it |
| `NbbDispatch.DrainSlot` | Non-blocking-Buffers/nbb.c:351-396 | one pass reads at most one item, keeps or advances the read buffer, queues at most that item and only when no handshake has been seen, fires at most one callback for this slot (a new-connection one once the flag is set), never clears the flag, and fires nothing when it aborts |
| `NbbDispatch.AfterSlot` | Non-blocking-Buffers/nbb.c:349-399 | a pass changes neither the channel table, the write buffers nor the capacities |
| `NbbDispatch.DrainFrom` | Non-blocking-Buffers/nbb.c:349-399 | the drain changes neither the channel table, the write buffers nor the capacities |
| `NbbDispatch.Drain` | Non-blocking-Buffers/nbb.c:349-399 | the drain from slot 1 keeps the channel table, the write buffers and the capacities; it leaves slot 0 and every slot from the first unused one on as they were; it reads each ring buffer at most once and appends at most the item read to each delay buffer; the callbacks fire in increasing slot order, for visited slots only |
| `NbbDispatch.DrainFromStep` | Non-blocking-Buffers/nbb.c:349 | the drain stops at the end or at an unused slot, and otherwise is one pass followed by the drain from the next slot unless the pass aborted |
| `NbbDispatch.FirstUnused` | Non-blocking-Buffers/nbb.c:349 | the first slot from `i` on that is not in use, or the end |
| `NbbDispatch.DrainStopsAtFirstUnused` | Non-blocking-Buffers/nbb.c:349 | the drain leaves every slot before its start and from the first unused one on as it was |
| `NbbDispatch.DrainReadsAtMostOnce` | Non-blocking-Buffers/nbb.c:351 | each read buffer is left as it was, advanced by exactly one read, or stopped mid-read |
| `NbbDispatch.DrainAfterHandshake` | Non-blocking-Buffers/nbb.c:370-375 | once the flag is set, the rest of the drain queues no data and fires only new-connection callbacks |
| `NbbDispatch.DrainKeepsNamesFitting` | Non-blocking-Buffers/nbb.c:365-366 | every stored peer name still fits `MAX_NAME_SIZE` after a drain |
| `NbbDispatch.DrainAppendsAtMostOneItem` | Non-blocking-Buffers/nbb.c:373-375 | each delay buffer is left as it was or extended by the one item read from its slot |
| `NbbDispatch.DrainEventsInSlotOrder` | Non-blocking-Buffers/nbb.c:349-399 | the callbacks fire in increasing slot order, only for slots the drain visits |
| `NbbDispatch.HandshakeIsCString` | Non-blocking-Buffers/nbb.c:226-231 | a handshake holds no NUL byte |
| `NbbDispatch.CStrOfTerminated` | Non-blocking-Buffers/nbb.c:356 | a C string followed by the NUL the drain writes reads back as itself |
| `NbbDispatch.StartsWithTag` | Non-blocking-Buffers/nbb.c:354 | the 7-byte `memcmp` holds exactly when the buffer's first 7 bytes are the tag bytes |
| `NbbDispatch.HandshakeRegistersPeer` | Non-blocking-Buffers/nbb.c:354-370 | a handshake item records the sender's pid and name for the slot, is not queued, sets the flag, leaves the tag at the start of the scratch buffer and fires the new-connection callback if set |
| `NbbDispatch.TaggedItemRegistersPeer` | Non-blocking-Buffers/nbb.c:354-389 | any item whose scratch buffer starts with the tag and parses into a pid and a name, whatever its sign, spacing or extra tokens, stores that pid and name for the slot, is not queued, raises the flag and fires the new-connection callback if set |
| `NbbDispatch.TaggedItemWithoutNameAborts` | Non-blocking-Buffers/nbb.c:354-366 | a tagged item that lacks a pid, lacks a name or has a name too long for `MAX_NAME_SIZE` stops the program: it is consumed, nothing is queued or called, the delay buffer is kept, and the peer keeps its old record except that the pid is stored when there is one |
| `NbbDispatch.OversizedItemAborts` | Non-blocking-Buffers/nbb.c:750-758 | an item of at least the scratch buffer's size fails the `assert` of `nbb_read_item_r`: the program stops with the ack counter left odd, nothing is queued or called, and the peer, delay buffer, scratch buffer and flag are as they were |
| `NbbDispatch.NothingReadKeepsSlot` | Non-blocking-Buffers/nbb.c:351-353 | a read that reports an empty buffer or an insert in progress leaves the slot's ring buffer, peer, delay buffer, the scratch buffer and the flag as they were, and calls nothing |
| `NbbDispatch.ScratchAfterRead` | Non-blocking-Buffers/nbb.c:351-352 | an item shorter than the scratch buffer is read without the abort and lands at its front, the rest of the buffer as it was |
| `NbbDispatch.LongItemJudgedByItself` | Non-blocking-Buffers/nbb.c:354 | for an item of at least 7 bytes the tag test depends only on the item's own first 7 bytes |
| `NbbDispatch.StaleTagCompletesPrefix` | Non-blocking-Buffers/nbb.c:354 | over a scratch buffer that starts with the tag, any proper prefix of the tag passes the tag test |
| `NbbDispatch.TagPrefixHasNoPid` | Non-blocking-Buffers/nbb.c:356-362 | a proper prefix of the tag, terminated, parses as a handshake without a pid token |
| `NbbDispatch.StaleTagParsesWithoutPid` | Non-blocking-Buffers/nbb.c:351-362 | a short item that stale scratch bytes make look tagged is read without the abort and parses without a pid token |
| `NbbDispatch.ShortItemCompletedByStaleTag` | Non-blocking-Buffers/nbb.c:351-362 | such an item is consumed and stops the program: nothing is queued, the peer is kept and no callback fires |
| `NbbDispatch.DataIsQueued` | Non-blocking-Buffers/nbb.c:373-395 | an item whose scratch buffer fails the tag test, read with the flag clear, is appended to the delay buffer and fires the new-data callback if set, the peer unchanged |
| `NbbDispatch.DataAfterHandshakeIsDropped` | Non-blocking-Buffers/nbb.c:370-389 | such an item after a handshake in the same call is consumed but not queued, and fires the new-connection callback instead |
| `NbbDispatch.ConnectionCallbackFires` | Non-blocking-Buffers/nbb.c:387-389 | a handshake on a slot whose new-connection callback was set fires exactly that callback with its argument |
| `NbbDispatch.DataCallbackFires` | Non-blocking-Buffers/nbb.c:393-395 | an item that fails the tag test on a slot whose new-data callback was set fires exactly that callback |
| `NbbDispatch.RoomForAfterSlot` | Non-blocking-Buffers/nbb.c:349-399 | a pass of the drain on one slot leaves the room of every later slot unchanged |
| `NbbRegistry.Registry.constructor` | Non-blocking-Buffers/nbb.h:93-110 | the static tables: every slot unused, every peer empty, every delay buffer empty with no room |
| `NbbRegistry.Registry.FreeSlot` | Non-blocking-Buffers/nbb.c:500-511 | the loop returns `FreeSlotFrom` of the channel table |
| `NbbRegistry.Registry.Open` | Non-blocking-Buffers/nbb.c:405-479 | the slot and the new tables are those of `OpenOn` on the old tables |
| `NbbRegistry.Registry.AttachRead` | Non-blocking-Buffers/nbb.c:427-443 | the read buffer is cleared, the read id set and the read count zeroed, nothing else changed |
| `NbbRegistry.Registry.AttachWrite` | Non-blocking-Buffers/nbb.c:448-476 | the write buffer is cleared, the write id set, the count zeroed, the slot in use, the owner replaced if given, the delay buffer emptied with `1<<20` bytes of room, nothing else changed |
| `NbbRegistry.Registry.Close` | Non-blocking-Buffers/nbb.c:482-498 | the result and the new tables are those of `CloseOn` |
| `NbbRegistry.Registry.SetOwner` | Non-blocking-Buffers/nbb.c:287-301 | the new tables are `WithOwner` of the old ones |
| `NbbRegistry.Registry.SetCbNewConnection` | Non-blocking-Buffers/nbb.c:251-268 | the loop's tables are `WithNewConnection` of the old ones |
| `NbbRegistry.Registry.SetCbNewData` | Non-blocking-Buffers/nbb.c:270-285 | the loop's tables are `WithNewData` of the old ones |
| `NbbRegistry.Registry.InsertItem` | Non-blocking-Buffers/nbb.c:600-671 | the status and the new tables are those of `InsertOn` |
| `NbbRegistry.Registry.ReadItem` | Non-blocking-Buffers/nbb.c:673-716 | the status, item and new tables are those of `ReadOn` |
| `NbbRegistry.Registry.WriteBytes` | Non-blocking-Buffers/nbb.c:303-318 | the result, the signalled pid and the new tables are those of `WriteBytesOn` |
| `NbbRegistry.Registry.Send` | Non-blocking-Buffers/nbb.c:320-333 | the result, the signalled pid and the new tables are those of `SendOn` on the old tables |
| `NbbRegistry.Registry.ReadBytes` | Non-blocking-Buffers/nbb.c:516-547 | the count, the bytes copied into the caller's buffer (the rest of it kept) and the new tables are those of `ReadBytesOn` |
| `NbbRegistry.Registry.Flush` | Non-blocking-Buffers/nbb.c:567-598 | the new tables are `FlushOn` of the old ones |
| `NbbRegistry.Registry.ReadIntoScratch` | Non-blocking-Buffers/nbb.c:352 | the status, size, abort and the new read buffer and scratch buffer are those of `ReadIntoSpec` |
| `NbbRegistry.Registry.TerminateScratch` | Non-blocking-Buffers/nbb.c:356 | the NUL lands at the given index of the scratch buffer, nothing else changed |
| `NbbRegistry.Registry.SetPeer` | Non-blocking-Buffers/nbb.c:362-366 | the peer entry is replaced, nothing else changed |
| `NbbRegistry.Registry.Deliver` | Non-blocking-Buffers/nbb.c:373-395 | with the flag clear the received bytes are flushed and the new-data callback fires; with it set nothing is queued and the new-connection callback fires |
| `NbbRegistry.Registry.DrainSlotInPlace` | Non-blocking-Buffers/nbb.c:351-396 | one pass on a live slot performs `DrainSlot` in place: the new tables are `AfterSlot`, and the events, abort and flag are the pass's |
| `NbbRegistry.Registry.ReceiveData` | Non-blocking-Buffers/nbb.c:336-403 | the tables, callbacks and abort after the loop are those of `Drain` on the old tables |
| `NbbRegistry.Registry.BytesAvailable` | Non-blocking-Buffers/nbb.c:549-553 | the length of the slot's delay content |
| `NbbRegistry.Registry.BytesRead` | Non-blocking-Buffers/nbb.c:555-559 | the slot's read count |
| `NbbRegistry.Registry.BytesWritten` | Non-blocking-Buffers/nbb.c:561-565 | the slot's write count |

## Left out

- These are parameters, not modelled:
  - shared-memory get, attach, detach and remove, beyond the two success flags on open and close;
  - semaphores;
  - the PID file;
  - `kill`;
  - `signal`.
- Which segment a buffer lives in is not modelled. Every slot owns its two directions from the start, and an attach zeroes them in place.
- The nameserver exchange in `nbb_nameserver_connect`, `nbb_init_service` and `nbb_connect_service` is I/O apart from the request and reply formats, which are modelled. Left out:
  - the unbounded spin on the reply;
  - the opening of each reserved channel;
  - the copy of the service name into the peer table.
- `nbb_set_handle_events`, `nbb_handle_events` and `nbb_print_timestamp` are a bare function-pointer hook and clock output.
- The values of `constants.h` are parameters of the model, since that file is not part of this model. This covers the nameserver's ids, `SERVICE_MAX_CHANNELS`, `READ_WRITE_CONV` and the reply texts.
- Other processes running at the same time are not modelled. The odd in-progress counter states appear only as the intermediate states of one call, together with the lemmas `ReaderDefersDuringInsert` and `ProducerDefersDuringRead`.
- `malloc`, `calloc` and `free` are modelled as fresh sequences. The model does not zero a delay buffer's content when the slot is reopened: only its length and capacity are reset, and this is not observable.
- `strtok` writes NUL bytes into the scratch buffer while parsing a handshake. The model parses a copy, so those writes are not modelled.
- `NbbRegistry.Registry.ReceiveData`: the C loop tests `channel_list[i].in_use` before `i < SERVICE_MAX_CHANNELS`, which reads one entry past the table when every slot is in use. The model tests the bound first.
- `NbbRegistry.Registry.ReceiveData` and `NbbRegistry.Registry.DrainSlotInPlace` require that each live slot's delay buffer has room for the item it would receive. `nbb_flush_shm` makes no capacity check (its growth code is compiled out), so in C a longer run of data writes past the block.
- `NbbRegistry.Registry.Flush` and `DelayBuffers.DelayBuffer.Append` require room for the same reason.
- `RingBuffer.InsertSpec`, `RingBuffer.Buffer.Insert`, `NbbSlots.InsertOn`, `NbbSlots.InsertCountsPayload` and `NbbRegistry.Registry.InsertItem` require that the very first item fits the arena (`InsertFits` on a slot). C copies it at offset 0 without a size check and would write past the data page.
- `NbbSlots.WriteBytesOn`, `NbbSlots.SendOn`, `NbbRegistry.Registry.WriteBytes` and `NbbRegistry.Registry.Send` carry the same requirement for the slot they reach.
- `NbbRegistry.Registry.ReadBytes` requires the caller's buffer to lie outside the registry and to hold at least `size` bytes. The C `memcpy` demands the same of its caller.
- `NbbSlots.InsertOn` and `NbbSlots.ReadBytesOn` keep `write_count` and `read_count` as unbounded integers. The 32-bit `int` overflow of the C counters is not modelled.
- `NbbRegistry.Registry.InsertItem`, `NbbRegistry.Registry.ReadItem` and `NbbRegistry.Registry.WriteBytes` require the slot to be in use; `WriteBytes` only for a non-empty message, which C returns from before it touches the slot. On a slot never opened, or closed, C dereferences a NULL or detached segment pointer (the `shmdt` calls at nbb.c:486 and nbb.c:491), and the model does not capture that fault.
- `NbbSlots.InsertCountsPayload` and `NbbSlots.WriteCounted` count `size - 1` bytes as C does. The library's own senders pass `strlen` of the text, without its NUL (nbb.c:50 and nbb.c:237), so every item the library sends, handshakes included, is counted one byte short.
- `NbbText.Atoi` returns the unbounded value of the digits. C `atoi` is undefined when the value does not fit an `int`, as a peer's pid text at nbb.c:362 may not, and the model does not bound it.
- `NbbText.ExcludedFromWriteCount` reads the byte after the item as its NUL terminator. The 8-byte `memcmp` at nbb.c:666 can read beyond a shorter item that has no terminator, and the model does not capture that over-read.
- `RingBufferFifo.InsertThenReadInOrder` states first-in, first-out order only from an idle buffer and before the arena wraps. In general it fails. After the wrap places an item at offset 0, the next insert takes the append branch (nbb.c:634-635), which checks only the arena's end and not the unread items that lie further on, so it can overwrite one of them. `RingBufferFifo.WrapOverwritesUnreadItem` exhibits a concrete run.
- The C 16-bit counter distances are computed after integer promotion, not mod 2^16, and the model follows the C. So the full and empty checks are exact only before the counters wrap. They are modelled as written, and the FIFO lemmas start from an idle buffer.
- `NbbText.ServiceRequest`, `NbbText.Handshake`, `NbbText.HandshakeRoundTrip`, `NbbText.HandshakeKeepsFirstWord`, `NbbText.HandshakeTokens`, `NbbText.HandshakeCountedAsWritten`, `NbbDispatch.HandshakeIsCString`, `NbbDispatch.HandshakeRegistersPeer` and `NbbDispatch.ConnectionCallbackFires` require the pid's decimal text to fit `PID_MAX_STRLEN` (5) digits. C prints `getpid()` into a stack array of `PID_MAX_STRLEN + 1` bytes (nbb.c:93 and nbb.c:210), assuming 16-bit pids (nbb.c:13); a pid of 6 or more digits overflows that array, and the model does not capture the overflow.
- `NbbSlots.CloseOn`, `NbbSlots.CloseFreesSlot` and `NbbRegistry.Registry.Close`: a failed close is modelled as changing nothing. In C, `nbb_close_channel` detaches the read segment before the first removal test (nbb.c:486) and the write segment before the second (nbb.c:491), so a failed close leaves a slot marked in use whose segments are detached; the next drain pass (nbb.c:351) or insert on that slot faults, while the model reads and writes it as before.
- `NbbDispatch.Drain`, `NbbDispatch.DrainFrom` and `NbbRegistry.Registry.ReceiveData` return the callbacks as events after the loop. C calls `new_conn` and `new_data` in the middle of the loop (nbb.c:388 and nbb.c:394), before later slots are read. The drain's results (write buffers unchanged, at most one item appended per delay buffer, the stop at the first slot not in use in the initial table) hold only for callbacks that leave the library's tables alone; a callback that calls `nbb_read_bytes`, `nbb_write_bytes` or `nbb_close_channel` is not modelled.
- Debug `PRINTF` output is left out.

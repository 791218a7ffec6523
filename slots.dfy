/**
 * The slot registry of Non-blocking-Buffers/nbb.c on values: finding a
 * free slot, the bookkeeping of opening and closing a channel, the
 * owner-scoped callback setters, `nbb_set_owner`, routing a message to a
 * named peer, and the per-slot item and byte operations. `Tables` is a
 * snapshot of the process-local tables (`channel_list`, `connected_nodes`,
 * `delay_buffers`), of the ring buffers of every slot and of the
 * signal-handler buffer. Each operation maps a `Tables` snapshot to the
 * next one; the class `Registry` performs the same steps in place and is
 * proved against these functions.
 */
module NbbSlots {
  import opened NbbTypes
  import opened RingBuffer
  import opened DelayBuffers
  import opened NbbText

  /** The result of a call that either returns or stops the program on a failed `assert`. */
  datatype Outcome<T> = Returned(value: T) | AssertionFailure

  /** Size of the static buffer the drain reads into (`signal_handler_buffer_size`, `1<<14`). */
  const SCRATCH_SIZE: nat := 0x4000

  /** All the state the library keeps, as values, one entry per slot. */
  datatype Tables = Tables(
    channels: seq<Channel>,
    peers: seq<ConnectedNode>,
    readBufs: seq<BufferState>,
    writeBufs: seq<BufferState>,
    delays: seq<seq<byte>>,
    capacities: seq<int>,
    scratch: seq<byte>)

  /** Every table has one entry per slot, every ring buffer is well formed, and the scratch buffer has its size. */
  predicate Shaped(t: Tables)
  {
    && |t.peers| == |t.channels|
    && |t.readBufs| == |t.channels|
    && |t.writeBufs| == |t.channels|
    && |t.delays| == |t.channels|
    && |t.capacities| == |t.channels|
    && |t.scratch| == SCRATCH_SIZE
    && (forall k :: 0 <= k < |t.readBufs| ==> WellFormed(t.readBufs[k]))
    && (forall k :: 0 <= k < |t.writeBufs| ==> WellFormed(t.writeBufs[k]))
  }

  // ----- nbb_free_channel_slot -----

  /** The lowest slot from `i` on that is not in use, or -1 when there is none. */
  function FreeSlotFrom(chs: seq<Channel>, i: nat): (k: int)
    requires i <= |chs|
    ensures k == -1 || i <= k < |chs|
    ensures k == -1 <==> forall j :: i <= j < |chs| ==> chs[j].inUse
    ensures k >= 0 ==> !chs[k].inUse && forall j :: i <= j < k ==> chs[j].inUse
    decreases |chs| - i
  {
    if i == |chs| then -1
    else if !chs[i].inUse then i
    else FreeSlotFrom(chs, i + 1)
  }

  // ----- nbb_open_channel / nbb_close_channel -----

  /** The slot an open would use: 0 for the nameserver's pair of ids, otherwise the lowest free one. */
  function OpenSlot(chs: seq<Channel>, nsRead: int, nsWrite: int, readId: int, writeId: int): (k: int)
    requires |chs| >= 1
    ensures -1 <= k < |chs|
  {
    if readId == nsWrite && writeId == nsRead then 0 else FreeSlotFrom(chs, 0)
  }

  datatype Opened = Opened(slot: int, tables: Tables)

  /**
   * The bookkeeping of `nbb_open_channel`. `readAttached` and
   * `writeAttached` say whether getting and attaching the read and the
   * write segment succeeded. A failure on the read side changes nothing; a
   * failure on the write side leaves the read half set up and the slot's
   * liveness as it was. On success both ring buffers are zeroed, the
   * counters reset, the slot marked in use, the owner replaced when one is
   * given, and the delay buffer emptied with its full capacity.
   */
  function OpenOn(t: Tables, nsRead: int, nsWrite: int, owner: Option<seq<byte>>,
                  readId: int, writeId: int, readAttached: bool, writeAttached: bool): (r: Opened)
    requires Shaped(t) && |t.channels| >= 1
    ensures Shaped(r.tables) && |r.tables.channels| == |t.channels|
    ensures r.tables.peers == t.peers && r.tables.scratch == t.scratch
    ensures -1 <= r.slot < |t.channels|
  {
    hide Cleared;
    ClearedIsEmpty();
    var slot := OpenSlot(t.channels, nsRead, nsWrite, readId, writeId);
    if slot == -1 || !readAttached then Opened(-1, t)
    else
      var c := t.channels[slot].(readId := readId, readCount := 0);
      var half := t.(channels := t.channels[slot := c], readBufs := t.readBufs[slot := Cleared()]);
      if !writeAttached then Opened(-1, half)
      else
        var c' := c.(writeId := writeId, writeCount := 0, inUse := true,
                     owner := if owner.Some? then owner else c.owner);
        Opened(slot, half.(channels := half.channels[slot := c'],
                           writeBufs := half.writeBufs[slot := Cleared()],
                           delays := half.delays[slot := []],
                           capacities := half.capacities[slot := DELAY_CAPACITY]))
  }

  /** Slot `j` has the same channel entry, ring buffers and delay buffer in `t` and `u`. */
  predicate SameSlot(t: Tables, u: Tables, j: nat)
    requires Shaped(t) && Shaped(u) && |u.channels| == |t.channels| && j < |t.channels|
  {
    && u.channels[j] == t.channels[j]
    && u.readBufs[j] == t.readBufs[j]
    && u.writeBufs[j] == t.writeBufs[j]
    && u.delays[j] == t.delays[j]
    && u.capacities[j] == t.capacities[j]
  }

  /** The nameserver's pair of ids always opens slot 0, whether or not that slot is in use. */
  lemma NameserverOpensSlotZero(t: Tables, nsRead: int, nsWrite: int, owner: Option<seq<byte>>)
    requires Shaped(t) && |t.channels| >= 1
    ensures var r := OpenOn(t, nsRead, nsWrite, owner, nsWrite, nsRead, true, true);
            r.slot == 0 && r.tables.channels[0].inUse
  {
  }

  /**
   * Any other pair of ids takes the lowest free slot; when every slot is in
   * use the open fails and nothing changes.
   */
  lemma OpenTakesLowestFreeSlot(t: Tables, nsRead: int, nsWrite: int, owner: Option<seq<byte>>,
                                readId: int, writeId: int)
    requires Shaped(t) && |t.channels| >= 1
    requires !(readId == nsWrite && writeId == nsRead)
    ensures var r := OpenOn(t, nsRead, nsWrite, owner, readId, writeId, true, true);
            && (r.slot == -1 <==> forall k :: 0 <= k < |t.channels| ==> t.channels[k].inUse)
            && (r.slot >= 0 ==> !t.channels[r.slot].inUse && forall k :: 0 <= k < r.slot ==> t.channels[k].inUse)
            && (r.slot == -1 ==> r.tables == t)
  {
  }

  /**
   * A successful open gives the slot its ids, zero statistics, liveness, the
   * owner when one is given, empty ring buffers and an empty delay buffer
   * with its full capacity; the callbacks are kept and no other slot changes.
   */
  lemma OpenResetsSlot(t: Tables, nsRead: int, nsWrite: int, owner: Option<seq<byte>>,
                       readId: int, writeId: int)
    requires Shaped(t) && |t.channels| >= 1
    requires OpenOn(t, nsRead, nsWrite, owner, readId, writeId, true, true).slot >= 0
    ensures var r := OpenOn(t, nsRead, nsWrite, owner, readId, writeId, true, true);
            var k := r.slot;
            var c := r.tables.channels[k];
            && c.readId == readId && c.writeId == writeId
            && c.readCount == 0 && c.writeCount == 0 && c.inUse
            && c.owner == (if owner.Some? then owner else t.channels[k].owner)
            && c.newConn == t.channels[k].newConn && c.newData == t.channels[k].newData
            && c.arg == t.channels[k].arg
            && ConsumerDistance(r.tables.readBufs[k]) == 0 && ProducerDistance(r.tables.writeBufs[k]) == 0
            && r.tables.delays[k] == [] && r.tables.capacities[k] == DELAY_CAPACITY
            && forall j :: 0 <= j < |t.channels| && j != k ==> SameSlot(t, r.tables, j)
  {
    hide Cleared;
    ClearedIsEmpty();
  }

  /**
   * A failed open returns -1. When the read segment fails nothing changes;
   * when only the write segment fails, the read half of the slot is set up
   * but its liveness, write side and delay buffer are as they were.
   */
  lemma OpenFailureKeepsWriteSide(t: Tables, nsRead: int, nsWrite: int, owner: Option<seq<byte>>,
                                  readId: int, writeId: int, writeAttached: bool)
    requires Shaped(t) && |t.channels| >= 1
    ensures OpenOn(t, nsRead, nsWrite, owner, readId, writeId, false, writeAttached) == Opened(-1, t)
    ensures var k := OpenSlot(t.channels, nsRead, nsWrite, readId, writeId);
            var r := OpenOn(t, nsRead, nsWrite, owner, readId, writeId, true, false);
            && r.slot == -1
            && (k >= 0 ==>
                  && r.tables.channels[k] == t.channels[k].(readId := readId, readCount := 0)
                  && r.tables.readBufs[k] == Cleared()
                  && r.tables.writeBufs == t.writeBufs && r.tables.delays == t.delays
                  && forall j :: 0 <= j < |t.channels| && j != k ==> SameSlot(t, r.tables, j))
  {
  }

  datatype Closed = Closed(result: int, tables: Tables)

  /**
   * The bookkeeping of `nbb_close_channel`: when removing either segment
   * fails the call returns -1 with the slot still in use; otherwise the slot
   * is marked free and 0 is returned.
   */
  function CloseOn(t: Tables, slot: nat, readRemoved: bool, writeRemoved: bool): (r: Closed)
    requires Shaped(t) && slot < |t.channels|
    ensures Shaped(r.tables) && |r.tables.channels| == |t.channels|
  {
    if !readRemoved || !writeRemoved then Closed(-1, t)
    else Closed(0, t.(channels := t.channels[slot := t.channels[slot].(inUse := false)]))
  }

  /** Closing frees exactly that slot, and only when both segments were removed. */
  lemma CloseFreesSlot(t: Tables, slot: nat, readRemoved: bool, writeRemoved: bool)
    requires Shaped(t) && slot < |t.channels|
    ensures var r := CloseOn(t, slot, readRemoved, writeRemoved);
            && (r.result == 0 <==> readRemoved && writeRemoved)
            && (r.result == 0 ==> !r.tables.channels[slot].inUse)
            && (r.result != 0 ==> r.tables == t)
            && forall j :: 0 <= j < |t.channels| && j != slot ==> SameSlot(t, r.tables, j)
  {
  }

  /**
   * Closing a slot below which every slot is in use, then opening another
   * pair of ids, hands out that same slot again.
   */
  lemma {:induction false} CloseThenOpenReusesSlot(t: Tables, slot: nat, nsRead: int, nsWrite: int,
                                                   owner: Option<seq<byte>>, readId: int, writeId: int)
    requires Shaped(t) && 1 <= |t.channels| && slot < |t.channels|
    requires forall k :: 0 <= k < slot ==> t.channels[k].inUse
    requires !(readId == nsWrite && writeId == nsRead)
    ensures var closed := CloseOn(t, slot, true, true).tables;
            OpenOn(closed, nsRead, nsWrite, owner, readId, writeId, true, true).slot == slot
  {
    var closed := CloseOn(t, slot, true, true).tables;
    var k := FreeSlotFrom(closed.channels, 0);
    assert !closed.channels[slot].inUse;
    assert forall j :: 0 <= j < slot ==> closed.channels[j].inUse;
    assert k != -1;
    assert k == slot;
  }

  // ----- nbb_set_cb_new_connection / nbb_set_cb_new_data / nbb_set_owner -----

  /** A slot the setters touch for `owner`: in use and tagged with exactly that owner. */
  predicate OwnedBy(c: Channel, owner: seq<byte>)
  {
    c.inUse && c.owner == Some(owner)
  }

  /** The table after `nbb_set_cb_new_connection(owner, fn, arg)`; slot 0 is skipped. */
  function WithNewConnection(chs: seq<Channel>, owner: seq<byte>, fn: Callback, arg: int): (r: seq<Channel>)
    ensures |r| == |chs|
  {
    seq(|chs|, k requires 0 <= k < |chs| =>
      if 1 <= k && OwnedBy(chs[k], owner) then chs[k].(newConn := Some(fn), arg := arg) else chs[k])
  }

  /** The table after `nbb_set_cb_new_data(owner, fn)`; slot 0 is skipped. */
  function WithNewData(chs: seq<Channel>, owner: seq<byte>, fn: Callback): (r: seq<Channel>)
    ensures |r| == |chs|
  {
    seq(|chs|, k requires 0 <= k < |chs| =>
      if 1 <= k && OwnedBy(chs[k], owner) then chs[k].(newData := Some(fn)) else chs[k])
  }

  /** The table after `nbb_set_owner(slot, owner)`. */
  function WithOwner(chs: seq<Channel>, slot: nat, owner: seq<byte>): (r: seq<Channel>)
    requires slot < |chs|
    ensures |r| == |chs|
  {
    chs[slot := chs[slot].(owner := Some(owner))]
  }

  /**
   * The setters change only in-use slots from 1 on whose owner is `owner`,
   * and of those only the callback (and argument) fields; every other slot,
   * slot 0 included, is unchanged.
   */
  lemma SettersStayScoped(chs: seq<Channel>, owner: seq<byte>, fn: Callback, arg: int)
    ensures forall k :: 0 <= k < |chs| && (k == 0 || !OwnedBy(chs[k], owner)) ==>
              WithNewConnection(chs, owner, fn, arg)[k] == chs[k] && WithNewData(chs, owner, fn)[k] == chs[k]
    ensures forall k :: 1 <= k < |chs| && OwnedBy(chs[k], owner) ==>
              && WithNewConnection(chs, owner, fn, arg)[k].newConn == Some(fn)
              && WithNewConnection(chs, owner, fn, arg)[k].arg == arg
              && WithNewConnection(chs, owner, fn, arg)[k].(newConn := chs[k].newConn, arg := chs[k].arg) == chs[k]
              && WithNewData(chs, owner, fn)[k].newData == Some(fn)
              && WithNewData(chs, owner, fn)[k].(newData := chs[k].newData) == chs[k]
  {
  }

  /** Setting the same callback twice is the same as setting it once. */
  lemma SettersIdempotent(chs: seq<Channel>, owner: seq<byte>, fn: Callback, arg: int)
    ensures WithNewConnection(WithNewConnection(chs, owner, fn, arg), owner, fn, arg) == WithNewConnection(chs, owner, fn, arg)
    ensures WithNewData(WithNewData(chs, owner, fn), owner, fn) == WithNewData(chs, owner, fn)
  {
  }

  /** Tagging an in-use slot with an owner brings it into the reach of that owner's setters. */
  lemma OwnerScopesSetters(chs: seq<Channel>, slot: nat, owner: seq<byte>, fn: Callback, arg: int)
    requires 1 <= slot < |chs| && chs[slot].inUse
    ensures WithNewConnection(WithOwner(chs, slot, owner), owner, fn, arg)[slot].newConn == Some(fn)
    ensures WithNewData(WithOwner(chs, slot, owner), owner, fn)[slot].newData == Some(fn)
  {
  }

  // ----- nbb_insert_item / nbb_read_item on a slot -----

  /** `write_count` after an insert: the payload less its NUL, unless the insert failed or the item is the bare tag. */
  function WriteCounted(c: Channel, st: Status, item: seq<byte>): (r: Channel)
    ensures r == c.(writeCount := r.writeCount)
    ensures st != Ok ==> r == c
    ensures item == HANDSHAKE_TAG ==> r == c
    ensures st == Ok && IsCString(item) && item != HANDSHAKE_TAG ==> r.writeCount == c.writeCount + |item| - 1
    ensures st == Ok ==> r.writeCount == c.writeCount + (if ExcludedFromWriteCount(item) then 0 else |item| - 1)
  {
    if st == Ok && !ExcludedFromWriteCount(item) then c.(writeCount := c.writeCount + |item| - 1) else c
  }

  /** The memory-safety condition of an insert on a slot: the first item must fit the arena. */
  predicate InsertFits(t: Tables, slot: nat, item: seq<byte>)
    requires Shaped(t) && slot < |t.channels|
  {
    t.writeBufs[slot].lastUpdate == 0 ==> |item| <= |t.writeBufs[slot].arena|
  }

  datatype SlotInsert = SlotInsert(status: Status, tables: Tables)

  /** `nbb_insert_item` on a slot's write buffer, with the write statistics. */
  function InsertOn(t: Tables, slot: nat, item: seq<byte>): (r: SlotInsert)
    requires Shaped(t) && slot < |t.channels| && InsertFits(t, slot, item)
    ensures Shaped(r.tables) && |r.tables.channels| == |t.channels|
  {
    var ins := InsertSpec(t.writeBufs[slot], item);
    SlotInsert(ins.status, t.(writeBufs := t.writeBufs[slot := ins.state],
                              channels := t.channels[slot := WriteCounted(t.channels[slot], ins.status, item)]))
  }

  /**
   * The write count grows by the item's length less one exactly when the
   * insert succeeds and the 8-byte comparison does not exclude the item
   * (for a C string: unless it is the bare tag); nothing else in the table
   * changes, and a failed insert changes nothing at all.
   */
  lemma InsertCountsPayload(t: Tables, slot: nat, item: seq<byte>)
    requires Shaped(t) && slot < |t.channels| && InsertFits(t, slot, item)
    ensures var r := InsertOn(t, slot, item);
            && r.status == InsertSpec(t.writeBufs[slot], item).status
            && r.tables.channels[slot].writeCount
               == t.channels[slot].writeCount + (if r.status == Ok && !ExcludedFromWriteCount(item) then |item| - 1 else 0)
            && (IsCString(item) ==>
                  r.tables.channels[slot].writeCount
                  == t.channels[slot].writeCount + (if r.status == Ok && item != HANDSHAKE_TAG then |item| - 1 else 0))
            && r.tables.channels[slot].(writeCount := t.channels[slot].writeCount) == t.channels[slot]
            && (r.status != Ok ==> r.tables == t)
            && forall j :: 0 <= j < |t.channels| && j != slot ==> SameSlot(t, r.tables, j)
  {
    if IsCString(item) {
      ExcludedIsBareTag(item);
    }
    var r := InsertOn(t, slot, item);
    if r.status != Ok {
      assert r.tables.writeBufs == t.writeBufs;
      assert r.tables.channels == t.channels;
    }
  }

  datatype SlotRead = SlotRead(status: Status, item: seq<byte>, tables: Tables)

  /** `nbb_read_item` on a slot's read buffer. */
  function ReadOn(t: Tables, slot: nat): (r: SlotRead)
    requires Shaped(t) && slot < |t.channels|
    ensures Shaped(r.tables) && |r.tables.channels| == |t.channels|
  {
    var rd := ReadSpec(t.readBufs[slot]);
    SlotRead(rd.status, rd.item, t.(readBufs := t.readBufs[slot := rd.state]))
  }

  // ----- nbb_write_bytes / nbb_send -----

  datatype Written = Written(result: Outcome<int>, signalled: Option<int>, tables: Tables)

  /**
   * `nbb_write_bytes`: an empty message returns 0 at once; a slot out of
   * range fails the assertion; otherwise the item is inserted, the peer's
   * pid is signalled, and 0 is returned whatever the insert reported.
   */
  function WriteBytesOn(t: Tables, slot: int, msg: seq<byte>): (r: Written)
    requires Shaped(t)
    requires 0 <= slot < |t.channels| ==> InsertFits(t, slot, msg)
    ensures Shaped(r.tables) && |r.tables.channels| == |t.channels|
  {
    if |msg| == 0 then Written(Returned(0), None, t)
    else if !(0 <= slot < |t.channels|) then Written(AssertionFailure, None, t)
    else Written(Returned(0), Some(t.peers[slot].pid), InsertOn(t, slot, msg).tables)
  }

  /** Slot `k` is a live channel to the peer called `dest`. */
  predicate Addressed(c: Channel, p: ConnectedNode, dest: seq<byte>)
  {
    c.inUse && p.name == dest
  }

  /** The lowest slot from `i` on addressed to `dest`, or the number of slots. */
  function DestinationFrom(chs: seq<Channel>, peers: seq<ConnectedNode>, dest: seq<byte>, i: nat): (k: nat)
    requires |peers| == |chs| && i <= |chs|
    ensures i <= k <= |chs|
    ensures k < |chs| ==> Addressed(chs[k], peers[k], dest)
    ensures forall j :: i <= j < k ==> !Addressed(chs[j], peers[j], dest)
    decreases |chs| - i
  {
    if i == |chs| then i
    else if Addressed(chs[i], peers[i], dest) then i
    else DestinationFrom(chs, peers, dest, i + 1)
  }

  /** The slot `nbb_send` picks: the search starts at 1 because slot 0 is the nameserver's. */
  function Destination(t: Tables, dest: seq<byte>): (k: nat)
    requires Shaped(t) && |t.channels| >= 1
    ensures 1 <= k <= |t.channels|
  {
    DestinationFrom(t.channels, t.peers, dest, 1)
  }

  /** `nbb_send`: `nbb_write_bytes` on the slot the destination routes to. */
  function SendOn(t: Tables, dest: seq<byte>, msg: seq<byte>): (r: Written)
    requires Shaped(t) && |t.channels| >= 1
    requires Destination(t, dest) < |t.channels| ==> InsertFits(t, Destination(t, dest), msg)
    ensures Shaped(r.tables) && |r.tables.channels| == |t.channels|
  {
    WriteBytesOn(t, Destination(t, dest), msg)
  }

  /**
   * A message is delivered to the lowest live slot named `dest`: it is
   * inserted there, that peer is signalled and 0 is returned.
   */
  lemma SendReachesFirstNamedPeer(t: Tables, dest: seq<byte>, msg: seq<byte>, k: nat)
    requires Shaped(t) && 1 <= k < |t.channels|
    requires Addressed(t.channels[k], t.peers[k], dest)
    requires forall j :: 1 <= j < k ==> !Addressed(t.channels[j], t.peers[j], dest)
    requires InsertFits(t, k, msg) && |msg| > 0
    ensures Destination(t, dest) == k
    ensures SendOn(t, dest, msg) == Written(Returned(0), Some(t.peers[k].pid), InsertOn(t, k, msg).tables)
  {
  }

  /** A non-empty message to a name no live slot from 1 on carries stops the program. */
  lemma SendToUnknownPeerFails(t: Tables, dest: seq<byte>, msg: seq<byte>)
    requires Shaped(t) && |t.channels| >= 1
    requires forall j :: 1 <= j < |t.channels| ==> !Addressed(t.channels[j], t.peers[j], dest)
    ensures Destination(t, dest) == |t.channels|
    ensures SendOn(t, dest, msg) == if |msg| == 0 then Written(Returned(0), None, t) else Written(AssertionFailure, None, t)
  {
  }

  /**
   * A write that the ring buffer refuses still reports success and still
   * signals the peer; the message is lost and the tables are unchanged.
   */
  lemma WriteBytesHidesRefusal(t: Tables, slot: nat, msg: seq<byte>)
    requires Shaped(t) && slot < |t.channels| && InsertFits(t, slot, msg) && |msg| > 0
    requires InsertSpec(t.writeBufs[slot], msg).status != Ok
    ensures WriteBytesOn(t, slot, msg) == Written(Returned(0), Some(t.peers[slot].pid), t)
  {
    var r := InsertOn(t, slot, msg);
    assert r.tables.writeBufs == t.writeBufs;
    assert r.tables.channels == t.channels;
  }

  // ----- nbb_read_bytes / nbb_flush_shm -----

  datatype BytesRead = BytesRead(count: nat, bytes: seq<byte>, tables: Tables)

  /** `nbb_read_bytes`: takes up to `size` bytes from the head of the slot's delay buffer and counts them. */
  function ReadBytesOn(t: Tables, slot: nat, size: nat): (r: BytesRead)
    requires Shaped(t) && slot < |t.channels|
    ensures Shaped(r.tables) && |r.tables.channels| == |t.channels|
  {
    var tk := TakeSpec(t.delays[slot], size);
    BytesRead(tk.count, tk.bytes, t.(delays := t.delays[slot := tk.rest],
                                     channels := t.channels[slot := t.channels[slot].(readCount := t.channels[slot].readCount + tk.count)]))
  }

  /** `nbb_flush_shm`: appends the bytes at the tail of the slot's delay buffer. */
  function FlushOn(t: Tables, slot: nat, data: seq<byte>): (r: Tables)
    requires Shaped(t) && slot < |t.channels|
    ensures Shaped(r) && |r.channels| == |t.channels|
  {
    t.(delays := t.delays[slot := t.delays[slot] + data])
  }

  /**
   * Reading bytes moves them from the delay buffer to the read statistics:
   * `read_count` plus the bytes still available is unchanged, at most
   * `size` bytes are taken, and other slots are untouched.
   */
  lemma ReadBytesConservesCount(t: Tables, slot: nat, size: nat)
    requires Shaped(t) && slot < |t.channels|
    ensures var r := ReadBytesOn(t, slot, size);
            && r.count <= size && r.count <= |t.delays[slot]|
            && r.tables.channels[slot].readCount + |r.tables.delays[slot]| == t.channels[slot].readCount + |t.delays[slot]|
            && r.bytes + r.tables.delays[slot] == t.delays[slot]
            && forall j :: 0 <= j < |t.channels| && j != slot ==> SameSlot(t, r.tables, j)
  {
  }

  /** Bytes flushed one after the other come out of `nbb_read_bytes` in the same order. */
  lemma FlushThenReadInOrder(t: Tables, slot: nat, a: seq<byte>, b: seq<byte>)
    requires Shaped(t) && slot < |t.channels| && t.delays[slot] == []
    ensures var u := FlushOn(FlushOn(t, slot, a), slot, b);
            var first := ReadBytesOn(u, slot, |a|);
            && first.bytes == a
            && ReadBytesOn(first.tables, slot, |b|).bytes == b
            && ReadBytesOn(first.tables, slot, |b|).tables.delays[slot] == []
  {
    AppendThenTakeInOrder([], a, b);
    assert [] + a + b == a + b;
    var u := FlushOn(FlushOn(t, slot, a), slot, b);
    assert u.delays[slot] == [] + a + b;
  }
}

/**
 * One direction of a channel: the wait-free single-producer single-consumer
 * ring buffer of `nbb_insert_item`, `nbb_read_item` and `nbb_read_item_r`
 * (Non-blocking-Buffers/nbb.c) over the header layout of `struct buffer`
 * (Non-blocking-Buffers/nbb.h).
 *
 * `BufferState` is a value snapshot of the header page and the data page;
 * `InsertSpec`, `ReadSpec` and `ReadIntoSpec` say what one call does to it,
 * and the class `Buffer` performs the calls in place on arrays.
 */
module RingBuffer {
  import opened NbbTypes

  /** Header counters, descriptor array and data arena of one direction. */
  datatype BufferState = BufferState(
    ack: u16,
    lastAck: u16,
    update: u16,
    lastUpdate: u16,
    dataSize: u16,
    items: seq<ChannelItem>,
    arena: seq<byte>)

  /** A descriptor names bytes inside an arena of `len` bytes. */
  predicate InArena(d: ChannelItem, len: nat)
  {
    d.offset as int + d.size as int <= len
  }

  /**
   * The shape every reachable state has: a full descriptor array, an arena
   * of `dataSize` bytes, descriptors inside it, and the two counters each
   * side keeps for itself even (each side only ever adds 2 to them).
   */
  predicate WellFormed(s: BufferState)
  {
    && |s.items| == BUFFER_SIZE
    && |s.arena| == s.dataSize as int
    && s.lastUpdate as int % 2 == 0
    && s.lastAck as int % 2 == 0
    && forall k :: 0 <= k < |s.items| ==> InArena(s.items[k], |s.arena|)
  }

  /**
   * The producer's view of the distance, after C integer promotion (no
   * reduction mod 2^16): once the update counter has wrapped below the ack
   * counter the distance is negative, never the full distance.
   */
  function ProducerDistance(s: BufferState): (r: int)
    ensures -(COUNTER_RANGE as int) < r < COUNTER_RANGE
    ensures r < 0 <==> s.lastUpdate < s.ack
  {
    s.lastUpdate as int - s.ack as int
  }

  /**
   * The consumer's view of the distance, after C integer promotion: once
   * the update counter has wrapped below the last ack the distance is
   * negative, so the buffer counts as neither empty nor half written.
   */
  function ConsumerDistance(s: BufferState): (r: int)
    ensures -(COUNTER_RANGE as int) < r < COUNTER_RANGE
    ensures r < 0 <==> s.update < s.lastAck
  {
    s.update as int - s.lastAck as int
  }

  /** The descriptor a counter value designates. */
  function SlotOf(c: u16): (k: nat)
    ensures k < BUFFER_SIZE
  {
    (c as int / 2) % BUFFER_SIZE
  }

  /** The descriptor written just before counter value `c`. */
  function PrevSlotOf(c: u16): (k: nat)
    requires c as int >= 2
    ensures k < BUFFER_SIZE
    ensures (k + 1) % BUFFER_SIZE == SlotOf(c)
  {
    (c as int / 2 - 1) % BUFFER_SIZE
  }

  /** An even counter value `2 * j` designates descriptor `j` while `j` is below `BUFFER_SIZE`. */
  lemma SlotOfEven(c: u16, j: nat)
    requires c as int == 2 * j && j < BUFFER_SIZE
    ensures SlotOf(c) == j
  {
    assert c as int / 2 == j;
  }

  /** The descriptor before the even counter value `2 * j` is `j - 1`, for `j` up to `BUFFER_SIZE`. */
  lemma PrevSlotOfEven(c: u16, j: nat)
    requires c as int == 2 * j && 0 < j <= BUFFER_SIZE
    ensures PrevSlotOf(c) == j - 1
  {
    assert c as int / 2 == j;
  }

  /** The oldest unacknowledged descriptor. */
  function Oldest(s: BufferState): ChannelItem
    requires WellFormed(s)
  {
    s.items[SlotOf(s.lastAck)]
  }

  /** The bytes a descriptor names. */
  function BytesOf(s: BufferState, d: ChannelItem): (r: seq<byte>)
    requires InArena(d, |s.arena|)
    ensures |r| == d.size as int
  {
    s.arena[d.offset as int .. d.offset as int + d.size as int]
  }

  /** First arena position after a descriptor's bytes. */
  function End(d: ChannelItem): nat
  {
    d.offset as int + d.size as int
  }

  /** What `memset` followed by setting `data_size` leaves in a freshly attached region. */
  function Cleared(): BufferState
  {
    BufferState(0, 0, 0, 0, PAGE_SIZE as u16,
                seq(BUFFER_SIZE, _ => ChannelItem(0, 0)), seq(PAGE_SIZE, _ => 0))
  }

  /** A freshly cleared region is a well-formed, empty buffer. */
  lemma ClearedIsEmpty()
    ensures WellFormed(Cleared())
    ensures ProducerDistance(Cleared()) == 0 && ConsumerDistance(Cleared()) == 0
  {
  }

  /** `data` copied over `arena` at `offset`. */
  function WriteAt(arena: seq<byte>, offset: nat, data: seq<byte>): (r: seq<byte>)
    requires offset + |data| <= |arena|
    ensures |r| == |arena|
    ensures r[offset .. offset + |data|] == data
    ensures forall k :: 0 <= k < |arena| && !(offset <= k < offset + |data|) ==> r[k] == arena[k]
  {
    arena[..offset] + data + arena[offset + |data|..]
  }

  /**
   * The three-way placement rule: offset 0 for the very first item (its
   * size is not checked), else right after the previous item when that
   * leaves the end of the arena free, else offset 0 when the oldest
   * unacknowledged item starts beyond the new item's size, else nowhere.
   */
  function Placement(s: BufferState, size: nat): (r: Option<nat>)
    requires WellFormed(s)
    ensures s.lastUpdate == 0 ==> r == Some(0)
    ensures r.Some? && s.lastUpdate != 0 ==> r.value + size < |s.arena|
    ensures s.lastUpdate != 0 && End(s.items[PrevSlotOf(s.lastUpdate)]) + size < |s.arena| ==>
              r == Some(End(s.items[PrevSlotOf(s.lastUpdate)]))
    ensures s.lastUpdate != 0 && End(s.items[PrevSlotOf(s.lastUpdate)]) + size >= |s.arena|
            && Oldest(s).offset as int > size ==>
              r == Some(0)
    ensures r.None? <==>
              s.lastUpdate != 0
              && End(s.items[PrevSlotOf(s.lastUpdate)]) + size >= |s.arena|
              && Oldest(s).offset as int <= size
  {
    if s.lastUpdate == 0 then Some(0)
    else
      var prev := s.items[PrevSlotOf(s.lastUpdate)];
      if End(prev) + size < s.dataSize as int then Some(End(prev))
      else if Oldest(s).offset as int > size then Some(0)
      else None
  }

  /** The state in the middle of an insert: the update counter is odd. */
  function Writing(s: BufferState): BufferState
  {
    s.(update := Wrap16(s.lastUpdate as int + 1))
  }

  /** The state in the middle of a read: the ack counter is odd. */
  function Reading(s: BufferState): BufferState
  {
    s.(ack := Wrap16(s.lastAck as int + 1))
  }

  datatype Inserted = Inserted(status: Status, state: BufferState)

  /** One call of `nbb_insert_item` on this direction. */
  function InsertSpec(s: BufferState, item: seq<byte>): (r: Inserted)
    requires WellFormed(s)
    requires s.lastUpdate == 0 ==> |item| <= |s.arena|
    ensures WellFormed(r.state) && r.state.dataSize == s.dataSize
    ensures r.status == Ok || r.status == BufferFull || r.status == BufferFullConsumerReading
    ensures r.status != Ok ==> r.state == s
    ensures ProducerDistance(s) == 2 * BUFFER_SIZE ==> r.status == BufferFull
    ensures ProducerDistance(s) == 2 * BUFFER_SIZE - 1 ==> r.status == BufferFullConsumerReading
    ensures r.status == Ok <==>
              && ProducerDistance(s) != 2 * BUFFER_SIZE
              && ProducerDistance(s) != 2 * BUFFER_SIZE - 1
              && Placement(s, |item|).Some?
    ensures r.status == Ok ==>
              var off := Placement(s, |item|).value;
              && off + |item| <= |s.arena|
              && r.state.arena[off .. off + |item|] == item
              && (forall k :: 0 <= k < |s.arena| && !(off <= k < off + |item|) ==>
                    r.state.arena[k] == s.arena[k])
              && r.state.items[SlotOf(s.lastUpdate)] == ChannelItem(off as u16, |item| as u16)
              && (forall k :: 0 <= k < BUFFER_SIZE && k != SlotOf(s.lastUpdate) ==>
                    r.state.items[k] == s.items[k])
              && r.state.lastUpdate as int == (s.lastUpdate as int + 2) % COUNTER_RANGE
              && r.state.update == r.state.lastUpdate
              && r.state.ack == s.ack && r.state.lastAck == s.lastAck
  {
    if ProducerDistance(s) == 2 * BUFFER_SIZE then Inserted(BufferFull, s)
    else if ProducerDistance(s) == 2 * BUFFER_SIZE - 1 then Inserted(BufferFullConsumerReading, s)
    else
      match Placement(s, |item|)
      case None => Inserted(BufferFull, s)
      case Some(off) =>
        var next := Wrap16(s.lastUpdate as int + 2);
        Inserted(Ok, s.(update := next, lastUpdate := next,
                        arena := WriteAt(s.arena, off, item),
                        items := s.items[SlotOf(s.lastUpdate) := ChannelItem(off as u16, |item| as u16)]))
  }

  datatype ReadOut = ReadOut(status: Status, item: seq<byte>, state: BufferState)

  /** One call of `nbb_read_item` on this direction. */
  function ReadSpec(s: BufferState): (r: ReadOut)
    requires WellFormed(s)
    ensures WellFormed(r.state)
    ensures r.status == Ok || r.status == BufferEmpty || r.status == BufferEmptyProducerInserting
    ensures ConsumerDistance(s) == 0 ==> r == ReadOut(BufferEmpty, [], s)
    ensures ConsumerDistance(s) == 1 ==> r == ReadOut(BufferEmptyProducerInserting, [], s)
    ensures r.status == Ok <==> ConsumerDistance(s) != 0 && ConsumerDistance(s) != 1
    ensures r.status == Ok ==>
              && r.item == BytesOf(s, Oldest(s))
              && |r.item| == Oldest(s).size as int
              && r.state.lastAck as int == (s.lastAck as int + 2) % COUNTER_RANGE
              && r.state.ack == r.state.lastAck
              && r.state == s.(ack := r.state.ack, lastAck := r.state.lastAck)
  {
    if s.update == s.lastAck then ReadOut(BufferEmpty, [], s)
    else if ConsumerDistance(s) == 1 then ReadOut(BufferEmptyProducerInserting, [], s)
    else
      var next := Wrap16(s.lastAck as int + 2);
      ReadOut(Ok, BytesOf(s, Oldest(s)), s.(ack := next, lastAck := next))
  }

  datatype ReadIntoOut = ReadIntoOut(status: Status, size: nat, aborted: bool, state: BufferState, dest: seq<byte>)

  /**
   * One call of `nbb_read_item_r`, copying into a caller buffer `dest`. An
   * item that does not fit strictly (its size plus the NUL the drain adds)
   * fails the `assert` after the first ack step: `aborted` is set and the
   * ack counter is left odd.
   */
  function ReadIntoSpec(s: BufferState, dest: seq<byte>): (r: ReadIntoOut)
    requires WellFormed(s)
    requires |dest| > 0
    ensures WellFormed(r.state)
    ensures |r.dest| == |dest|
    ensures r.aborted <==> ReadSpec(s).status == Ok && |ReadSpec(s).item| >= |dest|
    ensures r.aborted ==> r.state == Reading(s) && r.dest == dest
    ensures !r.aborted ==>
              && r.status == ReadSpec(s).status
              && r.state == ReadSpec(s).state
              && r.size == |ReadSpec(s).item| < |dest|
              && r.dest[..r.size] == ReadSpec(s).item
              && r.dest[r.size..] == dest[r.size..]
  {
    if s.update == s.lastAck then ReadIntoOut(BufferEmpty, 0, false, s, dest)
    else if ConsumerDistance(s) == 1 then ReadIntoOut(BufferEmptyProducerInserting, 0, false, s, dest)
    else
      var d := Oldest(s);
      if d.size as int >= |dest| then ReadIntoOut(Ok, 0, true, Reading(s), dest)
      else
        var next := Wrap16(s.lastAck as int + 2);
        ReadIntoOut(Ok, d.size as int, false, s.(ack := next, lastAck := next), WriteAt(dest, 0, BytesOf(s, d)))
  }

  /** A reader that has caught up and looks in the middle of an insert defers: it sees the odd phase. */
  lemma ReaderDefersDuringInsert(s: BufferState)
    requires WellFormed(s)
    requires s.lastAck == s.lastUpdate
    ensures WellFormed(Writing(s))
    ensures ReadSpec(Writing(s)) == ReadOut(BufferEmptyProducerInserting, [], Writing(s))
  {
  }

  /** A producer that looks at a full buffer in the middle of a read is told the consumer is reading. */
  lemma ProducerDefersDuringRead(s: BufferState, item: seq<byte>)
    requires WellFormed(s)
    requires s.lastUpdate == 0 ==> |item| <= |s.arena|
    requires s.lastUpdate as int - s.lastAck as int == 2 * BUFFER_SIZE
    ensures WellFormed(Reading(s))
    ensures InsertSpec(Reading(s), item) == Inserted(BufferFullConsumerReading, Reading(s))
  {
  }

  /** A full, quiescent buffer refuses an insert; one read frees exactly one descriptor. */
  lemma ReadFreesOneSlot(s: BufferState, item: seq<byte>)
    requires WellFormed(s)
    requires s.lastUpdate == 0 ==> |item| <= |s.arena|
    requires s.ack == s.lastAck && s.update == s.lastUpdate
    requires ProducerDistance(s) == 2 * BUFFER_SIZE
    ensures InsertSpec(s, item) == Inserted(BufferFull, s)
    ensures ReadSpec(s).status == Ok
    ensures ProducerDistance(ReadSpec(s).state) == 2 * (BUFFER_SIZE - 1)
  {
  }

  /** The size check is skipped for the first item: it is placed at 0 whatever its size. */
  lemma FirstItemSkipsSizeCheck(s: BufferState, size: nat)
    requires WellFormed(s)
    requires s.lastUpdate == 0
    ensures Placement(s, size) == Some(0)
  {
  }

  /** The header and data page of one direction, updated in place. */
  class Buffer {
    var ack: u16
    var lastAck: u16
    var update: u16
    var lastUpdate: u16
    const dataSize: u16
    const items: array<ChannelItem>
    const arena: array<byte>

    /** The objects this direction occupies. */
    function Repr(): set<object>
    {
      {this, items, arena}
    }

    function State(): BufferState
      reads this, items, arena
    {
      BufferState(ack, lastAck, update, lastUpdate, dataSize, items[..], arena[..])
    }

    ghost predicate Valid()
      reads this, items, arena
    {
      WellFormed(State()) && dataSize as int == PAGE_SIZE
    }

    /** A zeroed region of one header page and one data page. */
    constructor ()
      ensures Valid() && State() == Cleared()
      ensures fresh(items) && fresh(arena)
    {
      ack, lastAck, update, lastUpdate := 0, 0, 0, 0;
      dataSize := PAGE_SIZE as u16;
      items := new ChannelItem[BUFFER_SIZE](_ => ChannelItem(0, 0));
      arena := new byte[PAGE_SIZE](_ => 0);
      new;
      assert forall k :: 0 <= k < items.Length ==> InArena(items[k], arena.Length);
      assert items[..] == Cleared().items;
      assert arena[..] == Cleared().arena;
    }

    /** `memset` of the whole region and `data_size := PAGE_SIZE`, as done when a channel is opened. */
    method Clear()
      requires Valid()
      modifies this, items, arena
      ensures Valid() && State() == Cleared()
    {
      ack, lastAck, update, lastUpdate := 0, 0, 0, 0;
      forall k | 0 <= k < items.Length {
        items[k] := ChannelItem(0, 0);
      }
      forall k | 0 <= k < arena.Length {
        arena[k] := 0;
      }
      assert forall k :: 0 <= k < items.Length ==> InArena(items[k], arena.Length);
      assert items[..] == Cleared().items;
      assert arena[..] == Cleared().arena;
    }

    /**
     * `nbb_insert_item` on this direction. Only the first branch writes
     * without a size check, so only there must the caller keep the item
     * within the arena.
     */
    method Insert(item: seq<byte>) returns (st: Status)
      requires Valid()
      requires lastUpdate == 0 ==> |item| <= arena.Length
      modifies this, items, arena
      ensures Valid()
      ensures Inserted(st, State()) == InsertSpec(old(State()), item)
    {
      ghost var s := State();
      var tempAc := ack;
      if lastUpdate as int - tempAc as int == 2 * BUFFER_SIZE {
        return BufferFull;
      }
      if lastUpdate as int - tempAc as int == 2 * BUFFER_SIZE - 1 {
        return BufferFullConsumerReading;
      }
      var offset: nat;
      if lastUpdate == 0 {
        offset := 0;
      } else {
        var prev := items[(lastUpdate as int / 2 - 1) % BUFFER_SIZE];
        if prev.offset as int + prev.size as int + |item| < dataSize as int {
          offset := prev.offset as int + prev.size as int;
        } else if items[(lastAck as int / 2) % BUFFER_SIZE].offset as int > |item| {
          offset := 0;
        } else {
          return BufferFull;
        }
      }
      assert Placement(s, |item|) == Some(offset);
      assert offset + |item| <= arena.Length <= PAGE_SIZE;
      // First step: a write is in progress (odd phase).
      update := Wrap16(lastUpdate as int + 1);
      assert State() == Writing(s);
      CopyIn(offset, item);
      items[(lastUpdate as int / 2) % BUFFER_SIZE] := ChannelItem(offset as u16, |item| as u16);
      assert items[..] == s.items[SlotOf(s.lastUpdate) := ChannelItem(offset as u16, |item| as u16)];
      // Second step: the write is complete (even phase).
      update := Wrap16(lastUpdate as int + 2);
      lastUpdate := update;
      st := Ok;
      ghost var w := WriteAt(s.arena, offset, item);
      ghost var next := Wrap16(s.lastUpdate as int + 2);
      assert State() == s.(update := next, lastUpdate := next, arena := w,
                           items := s.items[SlotOf(s.lastUpdate) := ChannelItem(offset as u16, |item| as u16)]);
      assert State() == InsertSpec(s, item).state;
    }

    /** The `memcpy` of an accepted insert: `item` lands in the arena at `offset`. */
    method CopyIn(offset: nat, item: seq<byte>)
      requires offset + |item| <= arena.Length
      modifies arena
      ensures arena[..] == WriteAt(old(arena[..]), offset, item)
    {
      ghost var w := WriteAt(arena[..], offset, item);
      forall j | offset <= j < offset + |item| {
        arena[j] := item[j - offset];
      }
      forall k | 0 <= k < arena.Length
        ensures arena[k] == w[k]
      {
        if offset <= k < offset + |item| {
          assert w[offset .. offset + |item|][k - offset] == item[k - offset];
        }
      }
    }

    /** `nbb_read_item` on this direction; the returned item is a fresh copy. */
    method Read() returns (st: Status, item: seq<byte>)
      requires Valid()
      modifies this
      ensures Valid()
      ensures ReadOut(st, item, State()) == ReadSpec(old(State()))
    {
      ghost var s := State();
      var tempUc := update;
      if tempUc == lastAck {
        return BufferEmpty, [];
      }
      if tempUc as int - lastAck as int == 1 {
        return BufferEmptyProducerInserting, [];
      }
      // First step: a read is in progress (odd phase).
      ack := Wrap16(lastAck as int + 1);
      assert State() == Reading(s);
      var d := items[(lastAck as int / 2) % BUFFER_SIZE];
      item := arena[d.offset as int .. d.offset as int + d.size as int];
      // Second step: the read is complete (even phase).
      ack := Wrap16(lastAck as int + 2);
      lastAck := ack;
      st := Ok;
    }

    /** `nbb_read_item_r` on this direction: copies into `dest`, whose length is `max_size`. */
    method ReadInto(dest: array<byte>) returns (st: Status, size: nat, aborted: bool)
      requires Valid()
      requires dest.Length > 0
      requires dest != arena
      modifies this, dest
      ensures Valid()
      ensures ReadIntoOut(st, size, aborted, State(), dest[..]) == ReadIntoSpec(old(State()), old(dest[..]))
    {
      ghost var s := State();
      ghost var d0 := dest[..];
      var tempUc := update;
      size, aborted := 0, false;
      if tempUc == lastAck {
        return BufferEmpty, 0, false;
      }
      if tempUc as int - lastAck as int == 1 {
        return BufferEmptyProducerInserting, 0, false;
      }
      ack := Wrap16(lastAck as int + 1);
      var d := items[(lastAck as int / 2) % BUFFER_SIZE];
      if d.size as int >= dest.Length {
        // The `tmp->size < max_size` assertion fails; the ack counter stays odd.
        assert State() == Reading(s);
        return Ok, 0, true;
      }
      forall k | 0 <= k < d.size as int {
        dest[k] := arena[d.offset as int + k];
      }
      size := d.size as int;
      ack := Wrap16(lastAck as int + 2);
      lastAck := ack;
      st := Ok;
      assert dest[..] == WriteAt(d0, 0, BytesOf(s, d));
      assert State() == ReadIntoSpec(s, d0).state;
    }
  }
}

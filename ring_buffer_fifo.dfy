/**
 * Sequences of calls on one ring-buffer direction (Non-blocking-Buffers/nbb.c,
 * `nbb_insert_item` and `nbb_read_item`): on a buffer whose counters are
 * all zero, items inserted one after the other are laid out back to back
 * in the arena, and reading them returns them in insertion order with their
 * exact sizes. A second part exhibits how the wrap to offset 0 can place a
 * later item over one that has not been read yet.
 */
module RingBufferFifo {
  import opened NbbTypes
  import opened RingBuffer

  /** Sum of the sizes of a list of items. */
  function TotalSize(xs: seq<seq<byte>>): nat
  {
    if xs == [] then 0 else TotalSize(xs[..|xs| - 1]) + |xs[|xs| - 1]|
  }

  /** Arena position of the `j`-th item when the items lie back to back from offset 0. */
  function Offset(xs: seq<seq<byte>>, j: nat): nat
    requires j <= |xs|
  {
    TotalSize(xs[..j])
  }

  /** Counters all zero: nothing was ever inserted or read. */
  predicate Idle(s: BufferState)
  {
    WellFormed(s) && s.ack == 0 && s.lastAck == 0 && s.update == 0 && s.lastUpdate == 0
  }

  /**
   * Every item fits its insertion: at most `BUFFER_SIZE` of them, and unless
   * there is only one (whose size is never checked) the whole run ends
   * strictly before the end of the arena.
   */
  predicate Fits(xs: seq<seq<byte>>, len: nat)
  {
    |xs| <= BUFFER_SIZE && (|xs| <= 1 || TotalSize(xs) < len)
  }

  /** `nbb_insert_item` for each item in turn, stopping at the first refusal. */
  function InsertAll(s: BufferState, xs: seq<seq<byte>>): (r: Inserted)
    requires WellFormed(s)
    requires forall j :: 0 <= j < |xs| ==> |xs[j]| <= |s.arena|
    ensures WellFormed(r.state) && r.state.dataSize == s.dataSize
  {
    if xs == [] then Inserted(Ok, s)
    else
      var p := InsertAll(s, xs[..|xs| - 1]);
      if p.status != Ok then p else InsertSpec(p.state, xs[|xs| - 1])
  }

  datatype ReadMany = ReadMany(status: Status, items: seq<seq<byte>>, state: BufferState)

  /** `nbb_read_item` `n` times, stopping at the first call that returns no item. */
  function ReadAll(s: BufferState, n: nat): (r: ReadMany)
    requires WellFormed(s)
    ensures WellFormed(r.state)
    decreases n
  {
    if n == 0 then ReadMany(Ok, [], s)
    else
      var r := ReadSpec(s);
      if r.status != Ok then ReadMany(r.status, [], r.state)
      else
        var rest := ReadAll(r.state, n - 1);
        ReadMany(rest.status, [r.item] + rest.items, rest.state)
  }

  /**
   * The shape of an idle buffer after the items `xs` were inserted and the
   * first `r` of them read: item `j` is described by descriptor `j` and
   * lies at `Offset(xs, j)` in the arena.
   */
  predicate Layout(s: BufferState, xs: seq<seq<byte>>, r: nat)
  {
    Counters(s, xs, r) && Descriptors(s.items, xs) && Bytes(s.arena, xs)
  }

  /** The counters of `Layout`: `|xs|` items inserted, `r` read, no call in progress. */
  predicate Counters(s: BufferState, xs: seq<seq<byte>>, r: nat)
  {
    && WellFormed(s)
    && r <= |xs| <= BUFFER_SIZE
    && s.lastUpdate as int == 2 * |xs| && s.update == s.lastUpdate
    && s.lastAck as int == 2 * r && s.ack == s.lastAck
    && Offset(xs, |xs|) <= |s.arena|
  }

  /** The descriptors of `Layout`: descriptor `j` names item `j`'s place. */
  predicate Descriptors(items: seq<ChannelItem>, xs: seq<seq<byte>>)
  {
    forall j :: 0 <= j < |xs| ==> j < |items| && items[j].offset as int == Offset(xs, j) && items[j].size as int == |xs[j]|
  }

  /** The arena of `Layout`: item `j`'s bytes are at its place. */
  predicate Bytes(arena: seq<byte>, xs: seq<seq<byte>>)
  {
    forall j :: 0 <= j < |xs| ==> Offset(xs, j) + |xs[j]| <= |arena| && arena[Offset(xs, j) .. Offset(xs, j) + |xs[j]|] == xs[j]
  }

  lemma {:induction false} TotalSizeMonotone(xs: seq<seq<byte>>, j: nat)
    requires j <= |xs|
    ensures TotalSize(xs[..j]) <= TotalSize(xs)
    decreases |xs|
  {
    if j < |xs| {
      var p := xs[..|xs| - 1];
      assert xs[..j] == p[..j];
      TotalSizeMonotone(p, j);
    } else {
      assert xs[..j] == xs;
    }
  }

  /** Consecutive offsets differ by the size of the item between them. */
  lemma OffsetStep(xs: seq<seq<byte>>, j: nat)
    requires j < |xs|
    ensures Offset(xs, j + 1) == Offset(xs, j) + |xs[j]|
  {
    assert xs[..j + 1][..j] == xs[..j];
  }

  /** Every item of a layout ends at or before the end of the run. */
  lemma ItemWithinRun(xs: seq<seq<byte>>, j: nat)
    requires j < |xs|
    ensures Offset(xs, j) + |xs[j]| <= TotalSize(xs)
  {
    OffsetStep(xs, j);
    TotalSizeMonotone(xs, j + 1);
  }

  /** Arena bytes that an insert does not overwrite keep every earlier slice. */
  lemma SliceKept(a: seq<byte>, b: seq<byte>, lo: nat, hi: nat, w: nat)
    requires lo <= hi <= w <= |a| == |b|
    requires forall k :: 0 <= k < w ==> b[k] == a[k]
    ensures b[lo .. hi] == a[lo .. hi]
  {
    assert forall k :: 0 <= k < hi - lo ==> b[lo .. hi][k] == a[lo .. hi][k];
  }

  /** The first insert into an idle buffer is accepted at offset 0. */
  lemma InsertFirst(s: BufferState, x: seq<byte>)
    requires Layout(s, [], 0)
    requires |x| <= |s.arena|
    ensures InsertSpec(s, x).status == Ok
    ensures Layout(InsertSpec(s, x).state, [x], 0)
  {
    assert Placement(s, |x|) == Some(0);
    var xs := [x];
    assert Offset(xs, 0) == 0 by { assert xs[..0] == []; }
    assert Offset(xs, 1) == |x| by { assert xs[..1] == xs; assert xs[..1][..0] == []; }
  }

  /** On a non-empty layout with nothing read, the next item goes right after the last one, or nowhere. */
  lemma PlacementOnLayout(s: BufferState, p: seq<seq<byte>>, size: nat)
    requires Counters(s, p, 0) && Descriptors(s.items, p)
    requires 0 < |p|
    ensures Placement(s, size) == if TotalSize(p) + size < |s.arena| then Some(TotalSize(p)) else None
  {
    hide Placement;
    var last := |p| - 1;
    PrevSlotOfEven(s.lastUpdate, |p|);
    SlotOfEven(s.lastAck, 0);
    var prev := s.items[last];
    assert prev.offset as int == Offset(p, last) && prev.size as int == |p[last]|;
    assert s.items[0].offset as int == Offset(p, 0);
    OffsetStep(p, last);
    assert Offset(p, last + 1) == TotalSize(p) by { assert p[..last + 1] == p; }
    assert Offset(p, 0) == 0 by { assert p[..0] == []; }
    hide Counters, Descriptors, Offset, TotalSize;
    assert End(prev) == TotalSize(p);
    assert Oldest(s).offset == 0;
  }

  /** Writing the next item right after a run keeps the bytes of the run. */
  lemma AppendBytes(a: seq<byte>, b: seq<byte>, p: seq<seq<byte>>, x: seq<byte>)
    requires Bytes(a, p)
    requires |b| == |a| && TotalSize(p) + |x| <= |a|
    requires b[TotalSize(p) .. TotalSize(p) + |x|] == x
    requires forall k :: 0 <= k < TotalSize(p) ==> b[k] == a[k]
    ensures Bytes(b, p + [x])
  {
    var xs := p + [x];
    OffsetAll(p);
    hide Offset, TotalSize;
    forall j | 0 <= j < |xs|
      ensures Offset(xs, j) + |xs[j]| <= |b| && b[Offset(xs, j) .. Offset(xs, j) + |xs[j]|] == xs[j]
    {
      OffsetAppend(p, x, j);
      if j < |p| {
        assert xs[j] == p[j];
        ItemWithinRun(p, j);
        assert a[Offset(p, j) .. Offset(p, j) + |p[j]|] == p[j];
        SliceKept(a, b, Offset(p, j), Offset(p, j) + |p[j]|, TotalSize(p));
      } else {
        assert xs[j] == x;
      }
    }
  }

  /** The run of all items ends at their total size. */
  lemma OffsetAll(p: seq<seq<byte>>)
    ensures Offset(p, |p|) == TotalSize(p)
  {
    assert p[..|p|] == p;
  }

  /** Appending an item leaves the offsets of the items before it unchanged. */
  lemma OffsetAppend(p: seq<seq<byte>>, x: seq<byte>, j: nat)
    requires j <= |p|
    ensures Offset(p + [x], j) == Offset(p, j)
  {
    assert (p + [x])[..j] == p[..j];
  }

  /** Describing the next item in the next descriptor keeps the descriptors of the run. */
  lemma AppendDescriptors(a: seq<ChannelItem>, b: seq<ChannelItem>, p: seq<seq<byte>>, x: seq<byte>)
    requires Descriptors(a, p)
    requires |b| == |a| && |p| < |a|
    requires b[|p|].offset as int == TotalSize(p) && b[|p|].size as int == |x|
    requires forall k :: 0 <= k < |p| ==> b[k] == a[k]
    ensures Descriptors(b, p + [x])
  {
    var xs := p + [x];
    assert xs[..|p|] == p;
    forall j | 0 <= j < |xs|
      ensures j < |b| && b[j].offset as int == Offset(xs, j) && b[j].size as int == |xs[j]|
    {
      if j < |p| {
        assert xs[..j] == p[..j];
      }
    }
  }

  /** An accepted append keeps the layout of the items before it. */
  lemma AppendKeepsLayout(s: BufferState, p: seq<seq<byte>>, x: seq<byte>)
    requires Layout(s, p, 0)
    requires 0 < |p| < BUFFER_SIZE
    requires TotalSize(p) + |x| < |s.arena|
    ensures InsertSpec(s, x).status == Ok
    ensures Layout(InsertSpec(s, x).state, p + [x], 0)
  {
    AppendEffect(s, p, x);
    LayoutAfterAppend(s, InsertSpec(s, x).state, p, x);
  }

  /** A state that holds the run `p` and then `x` right after it has the layout of `p + [x]`. */
  lemma LayoutAfterAppend(s: BufferState, t: BufferState, p: seq<seq<byte>>, x: seq<byte>)
    requires Layout(s, p, 0)
    requires |p| < BUFFER_SIZE && TotalSize(p) + |x| < |s.arena|
    requires WellFormed(t) && |t.arena| == |s.arena|
    requires t.arena[TotalSize(p) .. TotalSize(p) + |x|] == x
    requires forall k :: 0 <= k < TotalSize(p) ==> t.arena[k] == s.arena[k]
    requires t.items[|p|].offset as int == TotalSize(p) && t.items[|p|].size as int == |x|
    requires forall k :: 0 <= k < |p| ==> t.items[k] == s.items[k]
    requires t.lastUpdate as int == 2 * (|p| + 1) && t.update == t.lastUpdate
    requires t.ack == s.ack && t.lastAck == s.lastAck
    ensures Layout(t, p + [x], 0)
  {
    var xs := p + [x];
    assert Counters(s, p, 0) && Descriptors(s.items, p) && Bytes(s.arena, p);
    assert TotalSize(xs) == TotalSize(p) + |x| by { assert xs[..|xs| - 1] == p; }
    OffsetAll(xs);
    hide Descriptors, Bytes, Offset, TotalSize;
    AppendDescriptors(s.items, t.items, p, x);
    AppendBytes(s.arena, t.arena, p, x);
    assert Counters(t, xs, 0);
  }

  /** What an accepted append does to the counters, the descriptors and the arena of a layout. */
  lemma AppendEffect(s: BufferState, p: seq<seq<byte>>, x: seq<byte>)
    requires Counters(s, p, 0) && Descriptors(s.items, p)
    requires 0 < |p| < BUFFER_SIZE
    requires TotalSize(p) + |x| < |s.arena|
    ensures var r := InsertSpec(s, x);
            && r.status == Ok
            && r.state.arena[TotalSize(p) .. TotalSize(p) + |x|] == x
            && (forall k :: 0 <= k < TotalSize(p) ==> r.state.arena[k] == s.arena[k])
            && r.state.items[|p|].offset as int == TotalSize(p) && r.state.items[|p|].size as int == |x|
            && (forall k :: 0 <= k < |p| ==> r.state.items[k] == s.items[k])
            && r.state.lastUpdate as int == 2 * (|p| + 1) && r.state.update == r.state.lastUpdate
            && r.state.ack == s.ack && r.state.lastAck == s.lastAck
  {
    hide Placement;
    PlacementOnLayout(s, p, |x|);
    SlotOfEven(s.lastUpdate, |p|);
    hide Counters, Descriptors;
  }

  /** One more insert on a layout with nothing read: accepted exactly when the run still fits. */
  lemma InsertStep(s: BufferState, p: seq<seq<byte>>, x: seq<byte>)
    requires Layout(s, p, 0)
    requires |x| <= |s.arena|
    ensures InsertSpec(s, x).status == Ok <==> Fits(p + [x], |s.arena|)
    ensures InsertSpec(s, x).status == Ok ==> Layout(InsertSpec(s, x).state, p + [x], 0)
  {
    var xs := p + [x];
    assert xs[..|p|] == p;
    assert TotalSize(xs) == TotalSize(p) + |x|;
    if |p| == BUFFER_SIZE {
      assert ProducerDistance(s) == 2 * BUFFER_SIZE;
    } else if |p| == 0 {
      assert p == [] && xs == [x];
      InsertFirst(s, x);
    } else if TotalSize(p) + |x| < |s.arena| {
      AppendKeepsLayout(s, p, x);
    } else {
      PlacementOnLayout(s, p, |x|);
    }
  }

  /**
   * From an idle buffer, a run of inserts is accepted in full exactly when
   * the run fits, and then the items are laid out back to back.
   */
  lemma {:induction false} InsertAllLayout(s: BufferState, xs: seq<seq<byte>>)
    requires Idle(s)
    requires forall j :: 0 <= j < |xs| ==> |xs[j]| <= |s.arena|
    ensures InsertAll(s, xs).status == Ok <==> Fits(xs, |s.arena|)
    ensures InsertAll(s, xs).status == Ok ==> Layout(InsertAll(s, xs).state, xs, 0)
    decreases |xs|
  {
    if xs == [] {
      assert Layout(s, xs, 0);
    } else {
      var p := xs[..|xs| - 1];
      var x := xs[|xs| - 1];
      assert xs == p + [x];
      InsertAllLayout(s, p);
      var q := InsertAll(s, p);
      if q.status == Ok {
        InsertStep(q.state, p, x);
      } else {
        TotalSizeMonotone(xs, |p|);
        assert TotalSize(xs) == TotalSize(p) + |x|;
      }
    }
  }

  /** One read from a layout returns the oldest unread item and keeps the layout. */
  lemma ReadStep(s: BufferState, xs: seq<seq<byte>>, r: nat)
    requires Layout(s, xs, r)
    requires r < |xs|
    ensures ReadSpec(s).status == Ok && ReadSpec(s).item == xs[r]
    ensures Layout(ReadSpec(s).state, xs, r + 1)
  {
    assert ConsumerDistance(s) == 2 * (|xs| - r);
    SlotOfEven(s.lastAck, r);
    var one := ReadSpec(s);
    assert one.state.items == s.items && one.state.arena == s.arena;
  }

  /** Reading from a layout returns the unread items in order and leaves the buffer empty. */
  lemma {:induction false} ReadAllLayout(s: BufferState, xs: seq<seq<byte>>, r: nat)
    requires Layout(s, xs, r)
    ensures ReadAll(s, |xs| - r).status == Ok
    ensures ReadAll(s, |xs| - r).items == xs[r..]
    ensures Layout(ReadAll(s, |xs| - r).state, xs, |xs|)
    decreases |xs| - r
  {
    if r < |xs| {
      var n := |xs| - r;
      ReadStep(s, xs, r);
      ReadAllStep(s, n);
      var one := ReadSpec(s);
      hide Layout, ReadSpec, ReadAll;
      ReadAllLayout(one.state, xs, r + 1);
      assert xs[r..] == [xs[r]] + xs[r + 1..];
    } else {
      assert xs[r..] == [];
    }
  }

  /** One unfolding of `ReadAll` after a successful read. */
  lemma ReadAllStep(s: BufferState, n: nat)
    requires WellFormed(s) && n > 0 && ReadSpec(s).status == Ok
    ensures var rest := ReadAll(ReadSpec(s).state, n - 1);
            ReadAll(s, n) == ReadMany(rest.status, [ReadSpec(s).item] + rest.items, rest.state)
  {
  }

  /**
   * On an idle buffer, a run of items that was accepted in full reads back
   * item for item, in insertion order and with the exact sizes; afterwards
   * the buffer reports it is empty.
   */
  lemma InsertThenReadInOrder(s: BufferState, xs: seq<seq<byte>>)
    requires Idle(s)
    requires forall j :: 0 <= j < |xs| ==> |xs[j]| <= |s.arena|
    requires InsertAll(s, xs).status == Ok
    ensures ReadAll(InsertAll(s, xs).state, |xs|).status == Ok
    ensures ReadAll(InsertAll(s, xs).state, |xs|).items == xs
    ensures ReadSpec(ReadAll(InsertAll(s, xs).state, |xs|).state).status == BufferEmpty
  {
    InsertAllLayout(s, xs);
    var full := InsertAll(s, xs).state;
    ReadAllLayout(full, xs, 0);
    var drained := ReadAll(full, |xs|).state;
    assert Counters(drained, xs, |xs|);
    assert ConsumerDistance(drained) == 0;
    assert xs[0..] == xs;
  }

  /** With nothing read, the insert after `BUFFER_SIZE` accepted ones is refused as full. */
  lemma FullAfterBufferSizeItems(s: BufferState, xs: seq<seq<byte>>, x: seq<byte>)
    requires Idle(s)
    requires forall j :: 0 <= j < |xs| ==> |xs[j]| <= |s.arena|
    requires |xs| == BUFFER_SIZE
    requires InsertAll(s, xs).status == Ok
    ensures InsertAll(s, xs).state.lastUpdate as int == 2 * BUFFER_SIZE
    ensures InsertSpec(InsertAll(s, xs).state, x) == Inserted(BufferFull, InsertAll(s, xs).state)
  {
    InsertAllLayout(s, xs);
  }

  /** Stage one of `WrapOverwritesUnreadItem`: A and B inserted, A read. */
  lemma WrapSetup(s: BufferState, a: seq<byte>, b: seq<byte>)
    requires Idle(s) && |s.arena| == PAGE_SIZE
    requires |a| == 8000 && |b| == 8300
    ensures InsertAll(s, [a, b]).status == Ok
    ensures var t := ReadSpec(InsertAll(s, [a, b]).state);
            && t.status == Ok && t.item == a
            && t.state.lastUpdate == 4 && t.state.update == 4 && t.state.lastAck == 2 && t.state.ack == 2
            && t.state.items[1] == ChannelItem(8000, 8300)
  {
    var xs := [a, b];
    assert xs[..1] == [a] && [a][..0] == [] && xs[..0] == [];
    assert TotalSize([a]) == 8000;
    assert TotalSize(xs) == 16300;
    InsertAllLayout(s, xs);
    ReadStep(InsertAll(s, xs).state, xs, 0);
    assert Offset(xs, 1) == 8000;
  }

  /** Stage two: C does not fit after B, and B starts beyond C's size, so C wraps to offset 0. */
  lemma WrapStep(t: BufferState, c: seq<byte>)
    requires WellFormed(t) && |t.arena| == PAGE_SIZE
    requires t.lastUpdate == 4 && t.update == 4 && t.lastAck == 2 && t.ack == 2
    requires t.items[1] == ChannelItem(8000, 8300)
    requires |c| == 100
    ensures var u := InsertSpec(t, c);
            && u.status == Ok
            && u.state.lastUpdate == 6 && u.state.update == 6 && u.state.lastAck == 2 && u.state.ack == 2
            && u.state.items[1] == ChannelItem(8000, 8300) && u.state.items[2] == ChannelItem(0, 100)
  {
    PrevSlotOfEven(t.lastUpdate, 2);
    SlotOfEven(t.lastUpdate, 2);
    SlotOfEven(t.lastAck, 1);
    assert Placement(t, 100) == Some(0);
  }

  /** Stage three: D fits after C, so it is placed at offset 100 and covers the start of B. */
  lemma OverlapStep(u: BufferState, d: seq<byte>)
    requires WellFormed(u) && |u.arena| == PAGE_SIZE
    requires u.lastUpdate == 6 && u.update == 6 && u.lastAck == 2 && u.ack == 2
    requires u.items[1] == ChannelItem(8000, 8300) && u.items[2] == ChannelItem(0, 100)
    requires |d| == 10000
    ensures var v := InsertSpec(u, d);
            && v.status == Ok
            && v.state.lastUpdate == 8 && v.state.update == 8 && v.state.lastAck == 2 && v.state.ack == 2
            && v.state.items[1] == ChannelItem(8000, 8300) && v.state.items[3] == ChannelItem(100, 10000)
            && v.state.arena[100 .. 10100] == d
  {
    PrevSlotOfEven(u.lastUpdate, 3);
    SlotOfEven(u.lastUpdate, 3);
    assert Placement(u, 10000) == Some(100);
  }

  /** Stage four: the read that should return B returns D's bytes where the two overlap. */
  lemma ReadOverlapped(v: BufferState, d: seq<byte>)
    requires WellFormed(v) && |v.arena| == PAGE_SIZE
    requires v.update == 8 && v.lastAck == 2
    requires v.items[1] == ChannelItem(8000, 8300)
    requires |d| == 10000 && v.arena[100 .. 10100] == d
    ensures ReadSpec(v).status == Ok && |ReadSpec(v).item| == 8300
    ensures ReadSpec(v).item[..2100] == d[7900..]
  {
    SlotOfEven(v.lastAck, 1);
    var item := ReadSpec(v).item;
    assert item == v.arena[8000 .. 16300];
    assert item[..2100] == v.arena[8000 .. 10100];
    assert v.arena[8000 .. 10100] == v.arena[100 .. 10100][7900..];
  }

  /**
   * The placement rule checks the head room against the oldest unread item
   * only when it wraps to offset 0; the following insert appends after the
   * wrapped item without looking at unread items further on. Here A (8000
   * bytes) and B (8300 bytes) are inserted into an idle 16384-byte arena and
   * A is read; C (100 bytes) then wraps to offset 0, and D (10000 bytes) is
   * placed at offset 100, over the first 2100 bytes of the unread B. The
   * next read, which should return B, returns D's bytes at those positions.
   */
  lemma WrapOverwritesUnreadItem(s: BufferState, a: seq<byte>, b: seq<byte>, c: seq<byte>, d: seq<byte>)
    requires Idle(s) && |s.arena| == PAGE_SIZE
    requires |a| == 8000 && |b| == 8300 && |c| == 100 && |d| == 10000
    ensures InsertAll(s, [a, b]).status == Ok
    ensures var s2 := ReadSpec(InsertAll(s, [a, b]).state);
            var s3 := InsertSpec(s2.state, c);
            var s4 := InsertSpec(s3.state, d);
            var s5 := ReadSpec(s4.state);
            && s2.status == Ok && s2.item == a
            && s3.status == Ok && s3.state.items[2] == ChannelItem(0, 100)
            && s4.status == Ok && s4.state.items[3] == ChannelItem(100, 10000)
            && s5.status == Ok && |s5.item| == |b|
            && s5.item[..2100] == d[7900..]
  {
    WrapSetup(s, a, b);
    var s2 := ReadSpec(InsertAll(s, [a, b]).state);
    WrapStep(s2.state, c);
    var s3 := InsertSpec(s2.state, c);
    OverlapStep(s3.state, d);
    ReadOverlapped(InsertSpec(s3.state, d).state, d);
  }

  /**
   * An emptied buffer can still refuse an item: the wrap test looks at the
   * descriptor after the last one written, which the consumer has passed
   * but which still holds what was there before (offset 0 after `Cleared`).
   * After a 16000-byte item is written into such an idle buffer and read,
   * the buffer is empty, yet every item of 384 bytes or more is refused:
   * the append test fails and the stale offset 0 leaves no head room.
   */
  lemma StaleDescriptorRefusesInsert(s: BufferState, a: seq<byte>, x: seq<byte>)
    requires Idle(s) && |s.arena| == PAGE_SIZE && s.items[1].offset == 0
    requires |a| == 16000 && |x| >= 384
    ensures InsertSpec(s, a).status == Ok
    ensures var s1 := InsertSpec(s, a).state;
            var s2 := ReadSpec(s1);
            && s2.status == Ok && s2.item == a
            && ReadSpec(s2.state).status == BufferEmpty
            && InsertSpec(s2.state, x) == Inserted(BufferFull, s2.state)
  {
    FirstItemSkipsSizeCheck(s, |a|);
    SlotOfEven(s.lastUpdate, 0);
    var s1 := InsertSpec(s, a).state;
    assert s1.items[0] == ChannelItem(0, 16000) && s1.items[1].offset == 0;
    assert s1.arena[0 .. 16000] == a;
    hide InsertSpec;
    var s2 := ReadSpec(s1);
    assert s2.status == Ok && s2.item == a;
    EmptiedAfterOne(s2.state, x);
  }

  /**
   * The state `StaleDescriptorRefusesInsert` reaches: one item of 16000
   * bytes written at 0 and read, the next descriptor still at offset 0.
   */
  lemma EmptiedAfterOne(s: BufferState, x: seq<byte>)
    requires WellFormed(s) && |s.arena| == PAGE_SIZE && |x| >= 384
    requires s.ack == 2 && s.lastAck == 2 && s.update == 2 && s.lastUpdate == 2
    requires s.items[0] == ChannelItem(0, 16000) && s.items[1].offset == 0
    ensures ReadSpec(s).status == BufferEmpty
    ensures InsertSpec(s, x) == Inserted(BufferFull, s)
  {
    SlotOfEven(s.lastAck, 1);
    PrevSlotOfEven(s.lastUpdate, 1);
    assert Placement(s, |x|) == None;
  }
}

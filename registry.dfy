/**
 * The process-wide tables of Non-blocking-Buffers/nbb.c updated in place:
 * `channel_list`, `connected_nodes` and `delay_buffers`, with the two ring
 * buffers attached to every slot and the signal handler's static buffer.
 * Every method is proved against the matching function on `Tables`
 * snapshots, through `View`.
 */
module NbbRegistry {
  import opened NbbTypes
  import opened RingBuffer
  import opened DelayBuffers
  import opened NbbText
  import opened NbbDispatch
  import opened NbbSlots

  /** Every buffer is valid, lies inside `R`, and no two buffers share an object. */
  ghost predicate BuffersOwned(bs: seq<Buffer>, R: set<object>)
    reads R
  {
    && (forall k :: 0 <= k < |bs| ==> bs[k].Repr() <= R && bs[k].Valid())
    && (forall j, k :: 0 <= j < |bs| && 0 <= k < |bs| && j != k ==> bs[j].Repr() !! bs[k].Repr())
  }

  /** Every delay buffer is valid, lies inside `R`, and no two share an object. */
  ghost predicate DelaysOwned(ds: seq<DelayBuffer>, R: set<object>)
    reads R
  {
    && (forall k :: 0 <= k < |ds| ==> ds[k].Repr() <= R && ds[k].Valid())
    && (forall j, k :: 0 <= j < |ds| && 0 <= k < |ds| && j != k ==> ds[j].Repr() !! ds[k].Repr())
  }

  lemma BuffersOwnedExtend(bs: seq<Buffer>, R: set<object>, b: Buffer)
    requires BuffersOwned(bs, R) && b.Valid() && b.Repr() !! R
    ensures BuffersOwned(bs + [b], R + b.Repr())
  {
    var bs' := bs + [b];
    forall j, k | 0 <= j < |bs'| && 0 <= k < |bs'| && j != k
      ensures bs'[j].Repr() !! bs'[k].Repr()
    {
      if j < |bs| && k < |bs| {
        assert bs'[j] == bs[j] && bs'[k] == bs[k];
      }
    }
  }

  lemma DelaysOwnedExtend(ds: seq<DelayBuffer>, R: set<object>, d: DelayBuffer)
    requires DelaysOwned(ds, R) && d.Valid() && d.Repr() !! R
    ensures DelaysOwned(ds + [d], R + d.Repr())
  {
    var ds' := ds + [d];
    forall j, k | 0 <= j < |ds'| && 0 <= k < |ds'| && j != k
      ensures ds'[j].Repr() !! ds'[k].Repr()
    {
      if j < |ds| && k < |ds| {
        assert ds'[j] == ds[j] && ds'[k] == ds[k];
      }
    }
  }

  /** Allocates `count` zeroed ring buffers, each in new memory. */
  method NewBuffers(count: nat) returns (bs: seq<Buffer>, ghost R: set<object>)
    ensures |bs| == count && fresh(R) && BuffersOwned(bs, R)
  {
    bs, R := [], {};
    while |bs| < count
      invariant |bs| <= count && fresh(R) && BuffersOwned(bs, R)
    {
      var b := new Buffer();
      BuffersOwnedExtend(bs, R, b);
      bs, R := bs + [b], R + b.Repr();
    }
  }

  /** Allocates `count` zero-initialised delay buffers, each in new memory. */
  method NewDelays(count: nat) returns (ds: seq<DelayBuffer>, ghost R: set<object>)
    ensures |ds| == count && fresh(R) && DelaysOwned(ds, R)
    ensures forall k :: 0 <= k < count ==> ds[k].Content() == [] && ds[k].capacity == 0
  {
    ds, R := [], {};
    while |ds| < count
      invariant |ds| <= count && fresh(R) && DelaysOwned(ds, R)
      invariant forall k :: 0 <= k < |ds| ==> ds[k].Content() == [] && ds[k].capacity == 0
    {
      var d := new DelayBuffer();
      DelaysOwnedExtend(ds, R, d);
      ds, R := ds + [d], R + d.Repr();
    }
  }

  /** The value of every buffer of `bs[..k]`, in order. */
  ghost function States(bs: seq<Buffer>, R: set<object>, k: nat): (r: seq<BufferState>)
    requires k <= |bs| && BuffersOwned(bs, R)
    reads R
    ensures |r| == k
    ensures forall j :: 0 <= j < k ==> r[j] == bs[j].State()
  {
    if k == 0 then [] else States(bs, R, k - 1) + [bs[k - 1].State()]
  }

  /** The stored bytes of every delay buffer of `ds[..k]`, in order. */
  ghost function Contents(ds: seq<DelayBuffer>, R: set<object>, k: nat): (r: seq<seq<byte>>)
    requires k <= |ds| && DelaysOwned(ds, R)
    reads R
    ensures |r| == k
    ensures forall j :: 0 <= j < k ==> r[j] == ds[j].Content()
  {
    if k == 0 then [] else Contents(ds, R, k - 1) + [ds[k - 1].Content()]
  }

  /** The room of every delay buffer of `ds[..k]`, in order. */
  ghost function Capacities(ds: seq<DelayBuffer>, R: set<object>, k: nat): (r: seq<int>)
    requires k <= |ds| && DelaysOwned(ds, R)
    reads R
    ensures |r| == k
    ensures forall j :: 0 <= j < k ==> r[j] == ds[j].capacity
  {
    if k == 0 then [] else Capacities(ds, R, k - 1) + [ds[k - 1].capacity]
  }

  /** A sequence that differs from `a` only at `k`, where it holds `v`, is `a[k := v]`. */
  lemma SeqUpdate<T>(a: seq<T>, b: seq<T>, k: nat, v: T)
    requires |a| == |b| && k < |a| && b[k] == v
    requires forall j :: 0 <= j < |a| && j != k ==> b[j] == a[j]
    ensures b == a[k := v]
  {
  }

  /** The library's state in one process, with `n` slots (`SERVICE_MAX_CHANNELS`). */
  class Registry {
    const n: nat
    const nameserverRead: int
    const nameserverWrite: int
    const readBufs: seq<Buffer>
    const writeBufs: seq<Buffer>
    const delays: seq<DelayBuffer>
    const scratch: array<byte>
    var channels: seq<Channel>
    var peers: seq<ConnectedNode>
    ghost const ReadRepr: set<object>
    ghost const WriteRepr: set<object>
    ghost const DelayRepr: set<object>

    /** The objects behind the tables: read buffers, write buffers, delay buffers and the scratch buffer. */
    ghost function Repr(): set<object>
    {
      ReadRepr + WriteRepr + DelayRepr + {scratch}
    }

    /**
     * One entry per slot in every table, all objects distinct and valid,
     * and every stored peer name short enough for its fixed array.
     */
    ghost predicate Valid()
      reads this, Repr()
    {
      && n >= 1
      && |readBufs| == n && |writeBufs| == n && |delays| == n
      && |channels| == n && |peers| == n
      && scratch.Length == SCRATCH_SIZE
      && BuffersOwned(readBufs, ReadRepr) && BuffersOwned(writeBufs, WriteRepr) && DelaysOwned(delays, DelayRepr)
      && ReadRepr !! WriteRepr && ReadRepr !! DelayRepr && WriteRepr !! DelayRepr
      && scratch !in ReadRepr && scratch !in WriteRepr && scratch !in DelayRepr
      && this !in ReadRepr && this !in WriteRepr && this !in DelayRepr
      && AllNamesFit(peers)
    }

    /** The tables as values. */
    ghost function View(): (t: Tables)
      requires Valid()
      reads this, Repr()
      ensures Shaped(t) && |t.channels| == n
      ensures t.channels == channels && t.peers == peers && t.scratch == scratch[..]
      ensures forall j :: 0 <= j < n ==>
                && t.readBufs[j] == readBufs[j].State()
                && t.writeBufs[j] == writeBufs[j].State()
                && t.delays[j] == delays[j].Content()
                && t.capacities[j] == delays[j].capacity
    {
      Tables(channels, peers, States(readBufs, ReadRepr, n), States(writeBufs, WriteRepr, n),
             Contents(delays, DelayRepr, n), Capacities(delays, DelayRepr, n), scratch[..])
    }

    /** The objects of slot `k`: its two ring buffers and its delay buffer. */
    ghost function SlotRepr(k: nat): set<object>
      requires k < |readBufs| && k < |writeBufs| && k < |delays|
    {
      readBufs[k].Repr() + writeBufs[k].Repr() + delays[k].Repr()
    }

    /** A step that changes only the channel and peer tables and the scratch buffer keeps the registry valid. */
    twostate lemma ReframeTables()
      requires old(Valid()) && unchanged(Repr() - {scratch})
      requires |channels| == n && |peers| == n && AllNamesFit(peers)
      ensures Valid()
      ensures View() == old(View()).(channels := channels, peers := peers, scratch := scratch[..])
    {
    }

    /** Changing only read buffer `k` keeps the other read buffers, and their values, as they were. */
    twostate lemma ReadReframe(k: nat)
      requires old(Valid()) && k < n
      requires unchanged(ReadRepr - readBufs[k].Repr()) && readBufs[k].Valid()
      ensures BuffersOwned(readBufs, ReadRepr)
      ensures States(readBufs, ReadRepr, n) == old(States(readBufs, ReadRepr, n))[k := readBufs[k].State()]
    {
      forall j | 0 <= j < n && j != k
        ensures unchanged(readBufs[j].Repr())
      {
        assert readBufs[j].Repr() !! readBufs[k].Repr();
      }
      assert BuffersOwned(readBufs, ReadRepr);
      SeqUpdate(old(States(readBufs, ReadRepr, n)), States(readBufs, ReadRepr, n), k, readBufs[k].State());
    }

    /** Changing only write buffer `k` keeps the other write buffers, and their values, as they were. */
    twostate lemma WriteReframe(k: nat)
      requires old(Valid()) && k < n
      requires unchanged(WriteRepr - writeBufs[k].Repr()) && writeBufs[k].Valid()
      ensures BuffersOwned(writeBufs, WriteRepr)
      ensures States(writeBufs, WriteRepr, n) == old(States(writeBufs, WriteRepr, n))[k := writeBufs[k].State()]
    {
      forall j | 0 <= j < n && j != k
        ensures unchanged(writeBufs[j].Repr())
      {
        assert writeBufs[j].Repr() !! writeBufs[k].Repr();
      }
      assert BuffersOwned(writeBufs, WriteRepr);
      SeqUpdate(old(States(writeBufs, WriteRepr, n)), States(writeBufs, WriteRepr, n), k, writeBufs[k].State());
    }

    /** Changing only delay buffer `k` keeps the other delay buffers, and their contents, as they were. */
    twostate lemma DelayReframe(k: nat)
      requires old(Valid()) && k < n
      requires unchanged(DelayRepr - delays[k].Repr()) && delays[k].Valid()
      ensures DelaysOwned(delays, DelayRepr)
      ensures Contents(delays, DelayRepr, n) == old(Contents(delays, DelayRepr, n))[k := delays[k].Content()]
      ensures Capacities(delays, DelayRepr, n) == old(Capacities(delays, DelayRepr, n))[k := delays[k].capacity]
    {
      forall j | 0 <= j < n && j != k
        ensures unchanged(delays[j].Repr())
      {
        assert delays[j].Repr() !! delays[k].Repr();
      }
      assert DelaysOwned(delays, DelayRepr);
      SeqUpdate(old(Contents(delays, DelayRepr, n)), Contents(delays, DelayRepr, n), k, delays[k].Content());
      SeqUpdate(old(Capacities(delays, DelayRepr, n)), Capacities(delays, DelayRepr, n), k, delays[k].capacity);
    }

    /**
     * A step that changes only the objects of slot `k`, the scratch buffer
     * and the tables' own fields keeps the registry valid, and its view
     * changes only at slot `k` and in those fields.
     */
    twostate lemma Reframe(k: nat)
      requires old(Valid()) && k < n
      requires unchanged(Repr() - SlotRepr(k) - {scratch})
      requires |channels| == n && |peers| == n && AllNamesFit(peers)
      requires readBufs[k].Valid() && writeBufs[k].Valid() && delays[k].Valid()
      ensures Valid()
      ensures View() == old(View()).(channels := channels, peers := peers,
                                     readBufs := old(View()).readBufs[k := readBufs[k].State()],
                                     writeBufs := old(View()).writeBufs[k := writeBufs[k].State()],
                                     delays := old(View()).delays[k := delays[k].Content()],
                                     capacities := old(View()).capacities[k := delays[k].capacity],
                                     scratch := scratch[..])
    {
      ReadReframe(k);
      WriteReframe(k);
      DelayReframe(k);
    }

    /** A step confined to read buffer `k`, the scratch buffer and the tables' own fields. */
    twostate lemma ReframeRead(k: nat)
      requires old(Valid()) && k < n
      requires unchanged(Repr() - readBufs[k].Repr() - {scratch})
      requires |channels| == n && |peers| == n && AllNamesFit(peers)
      requires readBufs[k].Valid()
      ensures Valid()
      ensures View() == old(View()).(channels := channels, peers := peers,
                                     readBufs := old(View()).readBufs[k := readBufs[k].State()],
                                     scratch := scratch[..])
    {
      ReadReframe(k);
    }

    /** A step confined to write buffer `k` and the tables' own fields. */
    twostate lemma ReframeWrite(k: nat)
      requires old(Valid()) && k < n
      requires unchanged(Repr() - writeBufs[k].Repr())
      requires |channels| == n && |peers| == n && AllNamesFit(peers)
      requires writeBufs[k].Valid()
      ensures Valid()
      ensures View() == old(View()).(channels := channels, peers := peers,
                                     writeBufs := old(View()).writeBufs[k := writeBufs[k].State()])
    {
      WriteReframe(k);
    }

    /** A step confined to delay buffer `k` and the tables' own fields. */
    twostate lemma ReframeDelay(k: nat)
      requires old(Valid()) && k < n
      requires unchanged(Repr() - delays[k].Repr())
      requires |channels| == n && |peers| == n && AllNamesFit(peers)
      requires delays[k].Valid()
      ensures Valid()
      ensures View() == old(View()).(channels := channels, peers := peers,
                                     delays := old(View()).delays[k := delays[k].Content()],
                                     capacities := old(View()).capacities[k := delays[k].capacity])
    {
      DelayReframe(k);
    }

    /**
     * The zero-initialised static tables of a process: no slot in use, no
     * peers, and delay buffers with neither data nor room.
     */
    constructor (slots: nat, nsRead: int, nsWrite: int)
      requires slots >= 1
      ensures Valid() && fresh(Repr())
      ensures n == slots && nameserverRead == nsRead && nameserverWrite == nsWrite
      ensures channels == seq(slots, _ => EmptyChannel())
      ensures peers == seq(slots, _ => NoPeer())
      ensures forall k :: 0 <= k < n ==> delays[k].Content() == [] && delays[k].capacity == 0
    {
      var rs, RR := NewBuffers(slots);
      var ws, WR := NewBuffers(slots);
      var ds, DR := NewDelays(slots);
      var sc := new byte[SCRATCH_SIZE](_ => 0);
      n, nameserverRead, nameserverWrite := slots, nsRead, nsWrite;
      readBufs, writeBufs, delays, scratch := rs, ws, ds, sc;
      channels := seq(slots, _ => EmptyChannel());
      peers := seq(slots, _ => NoPeer());
      ReadRepr, WriteRepr, DelayRepr := RR, WR, DR;
    }

    /** `nbb_free_channel_slot`: the lowest slot not in use, or -1. */
    method FreeSlot() returns (slot: int)
      requires Valid()
      ensures slot == FreeSlotFrom(channels, 0)
    {
      var i := 0;
      while i < n
        invariant 0 <= i <= n
        invariant forall k :: 0 <= k < i ==> channels[k].inUse
      {
        if !channels[i].inUse {
          return i;
        }
        i := i + 1;
      }
      return -1;
    }

    /** The registry part of `nbb_close_channel`. */
    method Close(slot: int, readRemoved: bool, writeRemoved: bool) returns (result: int)
      requires Valid() && 0 <= slot < n
      modifies this
      ensures Valid()
      ensures Closed(result, View()) == CloseOn(old(View()), slot, readRemoved, writeRemoved)
    {
      if !readRemoved || !writeRemoved {
        return -1;
      }
      channels := channels[slot := channels[slot].(inUse := false)];
      ReframeTables();
      return 0;
    }

    /** `nbb_set_owner`. */
    method SetOwner(slot: int, owner: seq<byte>)
      requires Valid() && 0 <= slot < n
      modifies this
      ensures Valid()
      ensures View() == old(View()).(channels := WithOwner(old(channels), slot, owner))
    {
      channels := channels[slot := channels[slot].(owner := Some(owner))];
      ReframeTables();
    }

    /** `nbb_set_cb_new_connection`: visits slots 1 on and sets the callback where the owner matches. */
    method SetCbNewConnection(owner: seq<byte>, fn: Callback, arg: int)
      requires Valid()
      modifies this
      ensures Valid()
      ensures View() == old(View()).(channels := WithNewConnection(old(channels), owner, fn, arg))
    {
      var i := 1;
      while i < n
        invariant 1 <= i <= n
        invariant |channels| == n
        invariant forall k :: 0 <= k < n ==>
                    channels[k] == if k < i then WithNewConnection(old(channels), owner, fn, arg)[k] else old(channels)[k]
        invariant peers == old(peers)
      {
        if channels[i].inUse && channels[i].owner.Some? && channels[i].owner.value == owner {
          channels := channels[i := channels[i].(newConn := Some(fn), arg := arg)];
        }
        i := i + 1;
      }
      assert channels == WithNewConnection(old(channels), owner, fn, arg);
      ReframeTables();
    }

    /** `nbb_set_cb_new_data`: visits slots 1 on and sets the callback where the owner matches. */
    method SetCbNewData(owner: seq<byte>, fn: Callback)
      requires Valid()
      modifies this
      ensures Valid()
      ensures View() == old(View()).(channels := WithNewData(old(channels), owner, fn))
    {
      var i := 1;
      while i < n
        invariant 1 <= i <= n
        invariant |channels| == n
        invariant forall k :: 0 <= k < n ==>
                    channels[k] == if k < i then WithNewData(old(channels), owner, fn)[k] else old(channels)[k]
        invariant peers == old(peers)
      {
        if channels[i].inUse && channels[i].owner.Some? && channels[i].owner.value == owner {
          channels := channels[i := channels[i].(newData := Some(fn))];
        }
        i := i + 1;
      }
      assert channels == WithNewData(old(channels), owner, fn);
      ReframeTables();
    }

    /**
     * The registry part of `nbb_open_channel`; `readAttached` and
     * `writeAttached` say whether getting and attaching each segment
     * succeeded.
     */
    method Open(owner: Option<seq<byte>>, readId: int, writeId: int, readAttached: bool, writeAttached: bool)
      returns (slot: int)
      requires Valid()
      modifies this, Repr()
      ensures Valid()
      ensures Opened(slot, View()) ==
              OpenOn(old(View()), nameserverRead, nameserverWrite, owner, readId, writeId, readAttached, writeAttached)
    {
      hide Cleared, AllNamesFit, States, Contents, Capacities;
      ghost var t0 := View();
      var k;
      if readId == nameserverWrite && writeId == nameserverRead {
        k := 0;
      } else {
        k := FreeSlot();
      }
      assert k == OpenSlot(t0.channels, nameserverRead, nameserverWrite, readId, writeId);
      if k == -1 || !readAttached {
        return -1;
      }
      AttachRead(k, readId);
      if !writeAttached {
        return -1;
      }
      AttachWrite(k, writeId, owner);
      slot := k;
    }

    /** The read half of opening slot `k`: a cleared read buffer, the read id and a zero read count. */
    method AttachRead(k: nat, readId: int)
      requires Valid() && k < n
      modifies this, readBufs[k].Repr()
      ensures Valid()
      ensures View() == old(View()).(channels := old(channels)[k := old(channels)[k].(readId := readId, readCount := 0)],
                                     readBufs := old(View()).readBufs[k := Cleared()])
    {
      hide Cleared, AllNamesFit, States, Contents, Capacities;
      readBufs[k].Clear();
      channels := channels[k := channels[k].(readId := readId, readCount := 0)];
      ReframeRead(k);
    }

    /**
     * The write half of opening slot `k`: a cleared write buffer, the write
     * id, a zero write count, the slot in use, the owner if one is given,
     * and an empty delay buffer with its full room.
     */
    method AttachWrite(k: nat, writeId: int, owner: Option<seq<byte>>)
      requires Valid() && k < n
      modifies this, writeBufs[k].Repr(), delays[k].Repr()
      ensures Valid()
      ensures var c := old(channels)[k];
              View() == old(View()).(channels := old(channels)[k := c.(writeId := writeId, writeCount := 0, inUse := true,
                                                                        owner := if owner.Some? then owner else c.owner)],
                                     writeBufs := old(View()).writeBufs[k := Cleared()],
                                     delays := old(View()).delays[k := []],
                                     capacities := old(View()).capacities[k := DELAY_CAPACITY])
    {
      hide Cleared, AllNamesFit, States, Contents, Capacities;
      writeBufs[k].Clear();
      var c := channels[k];
      channels := channels[k := c.(writeId := writeId, writeCount := 0, inUse := true,
                                   owner := if owner.Some? then owner else c.owner)];
      delays[k].Reset();
      Reframe(k);
    }

    /** `nbb_insert_item` on a slot, with its write statistics. */
    method InsertItem(slot: int, item: seq<byte>) returns (st: Status)
      requires Valid() && 0 <= slot < n && channels[slot].inUse && InsertFits(View(), slot, item)
      modifies this, writeBufs[slot].Repr()
      ensures Valid()
      ensures SlotInsert(st, View()) == InsertOn(old(View()), slot, item)
    {
      hide InsertSpec, AllNamesFit, States, Contents, Capacities;
      ghost var t0 := View();
      ghost var ins := InsertSpec(t0.writeBufs[slot], item);
      st := writeBufs[slot].Insert(item);
      assert st == ins.status && writeBufs[slot].State() == ins.state;
      if st == Ok && !ExcludedFromWriteCount(item) {
        channels := channels[slot := channels[slot].(writeCount := channels[slot].writeCount + |item| - 1)];
      }
      assert channels == t0.channels[slot := WriteCounted(t0.channels[slot], st, item)];
      ReframeWrite(slot);
      assert View() == t0.(writeBufs := t0.writeBufs[slot := ins.state], channels := channels);
    }

    /** `nbb_read_item` on a slot. */
    method ReadItem(slot: int) returns (st: Status, item: seq<byte>)
      requires Valid() && 0 <= slot < n && channels[slot].inUse
      modifies readBufs[slot]
      ensures Valid()
      ensures SlotRead(st, item, View()) == ReadOn(old(View()), slot)
    {
      hide ReadSpec, AllNamesFit, States, Contents, Capacities;
      ghost var t0 := View();
      ghost var rd := ReadSpec(t0.readBufs[slot]);
      st, item := readBufs[slot].Read();
      assert st == rd.status && item == rd.item && readBufs[slot].State() == rd.state;
      ReframeRead(slot);
      assert View() == t0.(readBufs := t0.readBufs[slot := rd.state]);
    }

    /**
     * `nbb_write_bytes`; `signalled` is the pid the signal is sent to. The
     * insert's result is not passed on.
     */
    method WriteBytes(slot: int, msg: seq<byte>) returns (result: Outcome<int>, signalled: Option<int>)
      requires Valid() && (0 <= slot < n ==> InsertFits(View(), slot, msg))
      requires |msg| > 0 && 0 <= slot < n ==> channels[slot].inUse
      modifies this, Repr()
      ensures Valid()
      ensures Written(result, signalled, View()) == WriteBytesOn(old(View()), slot, msg)
    {
      if |msg| == 0 {
        return Returned(0), None;
      }
      if !(0 <= slot < n) {
        return AssertionFailure, None;
      }
      var _ := InsertItem(slot, msg);
      return Returned(0), Some(peers[slot].pid);
    }

    /** `nbb_send`: finds the first live slot from 1 on whose peer is `dest`, then writes there. */
    method Send(dest: seq<byte>, msg: seq<byte>) returns (result: Outcome<int>, signalled: Option<int>)
      requires Valid()
      requires Destination(View(), dest) < n ==> InsertFits(View(), Destination(View(), dest), msg)
      modifies this, Repr()
      ensures Valid()
      ensures Written(result, signalled, View()) == SendOn(old(View()), dest, msg)
    {
      var i := 1;
      while i < n && !(channels[i].inUse && peers[i].name == dest)
        invariant 1 <= i <= n
        invariant forall j :: 1 <= j < i ==> !Addressed(channels[j], peers[j], dest)
      {
        i := i + 1;
      }
      assert i == Destination(View(), dest);
      result, signalled := WriteBytes(i, msg);
    }

    /**
     * `nbb_read_bytes`: copies up to `size` bytes from the slot's delay
     * buffer into `buf` and returns how many.
     */
    method ReadBytes(slot: int, buf: array<byte>, size: int) returns (count: int)
      requires Valid() && 0 <= slot < n && 0 <= size <= buf.Length && buf !in Repr()
      modifies this, delays[slot].Repr(), buf
      ensures Valid()
      ensures var r := ReadBytesOn(old(View()), slot, size);
              && count == r.count
              && buf[..count] == r.bytes
              && buf[count..] == old(buf[count..])
              && View() == r.tables
    {
      hide TakeSpec, AllNamesFit, States, Contents, Capacities;
      ghost var t0 := View();
      ghost var tk := TakeSpec(t0.delays[slot], size);
      count := delays[slot].Take(buf, size);
      assert count == tk.count && delays[slot].Content() == tk.rest;
      channels := channels[slot := channels[slot].(readCount := channels[slot].readCount + count)];
      ReframeDelay(slot);
      assert View() == t0.(delays := t0.delays[slot := tk.rest], channels := channels);
    }

    /** `nbb_flush_shm`: appends `data` to the slot's delay buffer, which must have room for it. */
    method Flush(slot: int, data: seq<byte>)
      requires Valid() && 0 <= slot < n
      requires |View().delays[slot]| + |data| <= View().capacities[slot]
      modifies delays[slot].Repr()
      ensures Valid()
      ensures View() == FlushOn(old(View()), slot, data)
    {
      hide AllNamesFit, States, Contents, Capacities;
      ghost var t0 := View();
      delays[slot].Append(data);
      ReframeDelay(slot);
      assert View() == t0.(delays := t0.delays[slot := t0.delays[slot] + data]);
    }

    /** The `nbb_read_item_r` of the drain: slot `i`'s next item into the scratch buffer. */
    method ReadIntoScratch(i: nat) returns (st: Status, size: nat, aborted: bool)
      requires Valid() && i < n
      modifies readBufs[i].Repr(), scratch
      ensures Valid()
      ensures var rd := ReadIntoSpec(old(View()).readBufs[i], old(scratch[..]));
              && st == rd.status && size == rd.size && aborted == rd.aborted
              && View() == old(View()).(readBufs := old(View()).readBufs[i := rd.state], scratch := rd.dest)
    {
      hide ReadIntoSpec, AllNamesFit, States, Contents, Capacities;
      ghost var t0 := View();
      st, size, aborted := readBufs[i].ReadInto(scratch);
      ReframeRead(i);
      assert View() == t0.(readBufs := t0.readBufs[i := readBufs[i].State()], scratch := scratch[..]);
    }

    /** The NUL the drain writes after a received handshake. */
    method TerminateScratch(at: nat)
      requires Valid() && at < SCRATCH_SIZE
      modifies scratch
      ensures Valid()
      ensures View() == old(View()).(scratch := old(scratch[..])[at := NUL])
    {
      hide AllNamesFit, States, Contents, Capacities;
      scratch[at] := NUL;
      ReframeTables();
    }

    /** The drain storing the pid and name of slot `i`'s peer. */
    method SetPeer(i: nat, p: ConnectedNode)
      requires Valid() && i < n && NameFits(p.name)
      modifies this
      ensures Valid()
      ensures View() == old(View()).(peers := old(peers)[i := p])
    {
      hide States, Contents, Capacities;
      peers := peers[i := p];
      ReframeTables();
    }

    /**
     * The end of a pass that read `size` bytes into the scratch buffer: the
     * append to the delay buffer unless the flag is raised, then the
     * callback the flag selects, if one is set.
     */
    method Deliver(i: nat, flag: bool, size: nat) returns (events: seq<Event>)
      requires Valid() && i < n && size <= SCRATCH_SIZE
      requires !flag ==> |View().delays[i]| + size <= View().capacities[i]
      modifies delays[i].Repr()
      ensures Valid()
      ensures View() == if flag then old(View()) else FlushOn(old(View()), i, old(scratch[..size]))
      ensures var c := channels[i];
              events == if flag then (if c.newConn.Some? then [NewConnection(i, c.newConn.value, c.arg)] else [])
                        else (if c.newData.Some? then [NewData(i, c.newData.value)] else [])
    {
      if !flag {
        Flush(i, scratch[..size]);
      }
      var c := channels[i];
      if flag {
        events := if c.newConn.Some? then [NewConnection(i, c.newConn.value, c.arg)] else [];
      } else {
        events := if c.newData.Some? then [NewData(i, c.newData.value)] else [];
      }
    }

    /**
     * One pass of the loop of `nbb_recv_data` on live slot `i`, with the
     * handshake flag as left by the slots before: it performs `DrainSlot` in
     * place and returns the callbacks called, whether the program stopped,
     * and the new flag.
     */
    method DrainSlotInPlace(i: nat, handshake: bool) returns (events: seq<Event>, aborted: bool, flag: bool)
      requires Valid() && 1 <= i < n && channels[i].inUse && RoomFor(View(), i)
      modifies this, readBufs[i].Repr(), delays[i].Repr(), scratch
      ensures Valid()
      ensures var t := old(View());
              var s := DrainSlot(i, t.channels[i], t.readBufs[i], t.scratch, t.peers[i], t.delays[i], handshake);
              && View() == AfterSlot(t, i, s)
              && events == s.events && aborted == s.aborted && flag == s.handshake
    {
      hide States, Contents, Capacities, ReadIntoSpec, ReadSpec, Reading, ParseHandshake, CStr;
      ghost var t0 := View();
      ghost var rd := ReadIntoSpec(t0.readBufs[i], t0.scratch);
      ghost var s := DrainSlot(i, t0.channels[i], t0.readBufs[i], t0.scratch, t0.peers[i], t0.delays[i], handshake);
      var st, size, ab := ReadIntoScratch(i);
      ghost var t1 := View();
      if ab || st != Ok {
        assert s == SlotStep(rd.state, rd.dest, t0.peers[i], t0.delays[i], handshake, [], ab);
        assert t1 == AfterSlot(t0, i, s);
        return [], ab, handshake;
      }
      var tagged := scratch[..|HANDSHAKE_TAG|] == HANDSHAKE_TAG;
      assert tagged == StartsWithTag(rd.dest);
      hide StartsWithTag;
      if tagged {
        TerminateScratch(size);
        ghost var t2 := View();
        var parsed := ParseHandshake(CStr(scratch[..]));
        if parsed.NoPid? {
          assert s == SlotStep(rd.state, t2.scratch, t0.peers[i], t0.delays[i], handshake, [], true);
          assert t2 == AfterSlot(t0, i, s);
          return [], true, handshake;
        }
        if !parsed.Named? {
          SetPeer(i, peers[i].(pid := parsed.pid));
          assert s == SlotStep(rd.state, t2.scratch, t0.peers[i].(pid := parsed.pid), t0.delays[i], handshake, [], true);
          assert View() == AfterSlot(t0, i, s);
          return [], true, handshake;
        }
        SetPeer(i, ConnectedNode(parsed.pid, parsed.name));
      }
      ghost var t3 := View();
      flag := handshake || tagged;
      if !flag {
        assert t3.delays == t0.delays && rd.dest[..size] == ReadSpec(t0.readBufs[i]).item;
      }
      events := Deliver(i, flag, size);
      aborted := false;
      assert s == SlotStep(rd.state, t3.scratch, t3.peers[i], View().delays[i], flag, events, false);
      assert View() == AfterSlot(t0, i, s);
    }

    /**
     * `nbb_recv_data`, the handler of the signal a peer sends after writing:
     * from slot 1 on, while the slot is in use, one pass of the drain per
     * slot. Returns the callbacks called, in order, and whether the program
     * stopped on a failed assertion.
     */
    method ReceiveData() returns (events: seq<Event>, aborted: bool)
      requires Valid()
      requires forall k :: 1 <= k < n ==> RoomFor(View(), k)
      modifies this, Repr()
      ensures Valid()
      ensures Drained(View(), events, aborted) == Drain(old(View()))
    {
      hide DrainSlot, DrainFrom, RoomFor, ReadSpec, States, Contents, Capacities;
      hide KeptOutside, ReadAtMostOnce, AppendedAtMostOnce, InSlotOrder, FirstUnused;
      var i, handshake := 1, false;
      events, aborted := [], false;
      while i < n && channels[i].inUse
        invariant 1 <= i <= n && Valid()
        invariant Drain(old(View())) ==
                  var r := DrainFrom(View(), i, handshake);
                  Drained(r.tables, events + r.events, r.aborted)
        invariant forall k :: i <= k < n ==> RoomFor(View(), k)
        decreases n - i
      {
        ghost var t := View();
        DrainFromStep(t, i, handshake);
        var evs, ab, flag := DrainSlotInPlace(i, handshake);
        ghost var u := View();
        ghost var rest := DrainFrom(u, i + 1, flag);
        if ab {
          assert Drain(old(View())) == Drained(u, events + evs, true);
          events, aborted := events + evs, true;
          return;
        }
        assert events + (evs + rest.events) == (events + evs) + rest.events;
        RoomForAfterSlot(t, i, DrainSlot(i, t.channels[i], t.readBufs[i], t.scratch, t.peers[i], t.delays[i], handshake));
        events, handshake := events + evs, flag;
        i := i + 1;
      }
      DrainFromStep(View(), i, handshake);
      assert events + [] == events;
    }

    /** `nbb_bytes_available`: the number of received bytes not yet read on the slot. */
    function BytesAvailable(slot: int): (r: int)
      requires Valid() && 0 <= slot < n
      reads this, Repr()
      ensures r == |View().delays[slot]|
    {
      delays[slot].len
    }

    /** `nbb_bytes_read`: the bytes handed out by `nbb_read_bytes` on the slot since it was opened. */
    function BytesRead(slot: int): (r: int)
      requires Valid() && 0 <= slot < n
      reads this, Repr()
      ensures r == View().channels[slot].readCount
    {
      channels[slot].readCount
    }

    /** `nbb_bytes_written`: the payload bytes inserted on the slot since it was opened. */
    function BytesWritten(slot: int): (r: int)
      requires Valid() && 0 <= slot < n
      reads this, Repr()
      ensures r == View().channels[slot].writeCount
    {
      channels[slot].writeCount
    }
  }
}

/**
 * The drain step of `nbb_recv_data` (Non-blocking-Buffers/nbb.c) on values:
 * `DrainSlot` is what the handler does for one slot of a `Tables` snapshot,
 * and `DrainFrom` runs it over the slots from a given one on. The lemmas
 * at the end connect the drain with the slot operations: which callback a
 * setter makes the drain call, and the room the delay buffers need. The
 * class `Registry` performs the same steps in place and is proved against
 * `DrainFrom`.
 */
module NbbDispatch {
  import opened NbbTypes
  import opened RingBuffer
  import opened NbbText
  import opened NbbSlots

  /** A callback the library calls: `new_conn(slot, arg)` or `new_data(slot)`. */
  datatype Event =
    | NewConnection(slot: nat, cb: Callback, arg: int)
    | NewData(slot: nat, cb: Callback)

  /** The memcmp of the drain: the first 7 bytes of the scratch buffer are the tag. */
  function StartsWithTag(b: seq<byte>): (r: bool)
    ensures r <==> |b| >= |HANDSHAKE_TAG| && forall k :: 0 <= k < |HANDSHAKE_TAG| ==> b[k] == HANDSHAKE_TAG[k]
  {
    |b| >= |HANDSHAKE_TAG| && b[..|HANDSHAKE_TAG|] == HANDSHAKE_TAG
  }

  /** What one slot's pass of the drain leaves behind. */
  datatype SlotStep = SlotStep(
    read: BufferState,
    scratch: seq<byte>,
    peer: ConnectedNode,
    delay: seq<byte>,
    handshake: bool,
    events: seq<Event>,
    aborted: bool)

  /**
   * One pass of the drain loop on slot `i`: one `nbb_read_item_r` into the
   * scratch buffer; an item whose scratch buffer starts with the tag is
   * parsed as a handshake (the pid and name are stored, and the flag is
   * raised for the rest of the call); otherwise, unless the flag is already
   * raised, the item is appended to the delay buffer. The matching callback
   * is then called. A missing token or a name too long stops the program.
   */
  function DrainSlot(i: nat, ch: Channel, read: BufferState, scratch: seq<byte>,
                     peer: ConnectedNode, delay: seq<byte>, handshake: bool): (r: SlotStep)
    requires WellFormed(read) && |scratch| > |HANDSHAKE_TAG|
    ensures WellFormed(r.read) && |r.scratch| == |scratch|
    ensures r.read == read || r.read == ReadSpec(read).state || r.read == Reading(read)
    ensures handshake ==> r.handshake
    ensures r.aborted ==> r.events == []
    ensures NameFits(peer.name) ==> NameFits(r.peer.name)
    ensures r.delay == delay || (!r.handshake && r.delay == delay + ReadSpec(read).item)
    ensures |r.events| <= 1
    ensures forall e :: e in r.events ==> e.slot == i
    ensures r.handshake ==> forall e :: e in r.events ==> e.NewConnection?
  {
    var rd := ReadIntoSpec(read, scratch);
    if rd.aborted then SlotStep(rd.state, rd.dest, peer, delay, handshake, [], true)
    else if rd.status != Ok then SlotStep(rd.state, rd.dest, peer, delay, handshake, [], false)
    else
      var tagged := StartsWithTag(rd.dest);
      var sc := if tagged then rd.dest[rd.size := NUL] else rd.dest;
      var parsed := ParseHandshake(CStr(sc));
      if tagged && parsed.NoPid? then SlotStep(rd.state, sc, peer, delay, handshake, [], true)
      else if tagged && !parsed.Named? then SlotStep(rd.state, sc, peer.(pid := parsed.pid), delay, handshake, [], true)
      else
        var flag := handshake || tagged;
        var peer' := if tagged then ConnectedNode(parsed.pid, parsed.name) else peer;
        var delay' := if flag then delay else delay + rd.dest[..rd.size];
        var events :=
          if flag then (if ch.newConn.Some? then [NewConnection(i, ch.newConn.value, ch.arg)] else [])
          else (if ch.newData.Some? then [NewData(i, ch.newData.value)] else []);
        SlotStep(rd.state, sc, peer', delay', flag, events, false)
  }

  /** The tables after slot `i`'s pass. */
  function AfterSlot(t: Tables, i: nat, s: SlotStep): (u: Tables)
    requires Shaped(t) && i < |t.channels|
    requires WellFormed(s.read) && |s.scratch| == SCRATCH_SIZE
    ensures Shaped(u) && u.channels == t.channels && u.writeBufs == t.writeBufs && u.capacities == t.capacities
  {
    t.(peers := t.peers[i := s.peer], readBufs := t.readBufs[i := s.read],
       delays := t.delays[i := s.delay], scratch := s.scratch)
  }

  datatype Drained = Drained(tables: Tables, events: seq<Event>, aborted: bool)

  /**
   * The drain loop from slot `i` on, with the handshake flag as left by
   * the slots before: it stops at the last slot, at the first slot not in
   * use, or when the program is stopped. `events` are the callbacks called
   * from slot `i` on, in order.
   */
  function DrainFrom(t: Tables, i: nat, handshake: bool): (r: Drained)
    requires Shaped(t) && 1 <= i <= |t.channels|
    ensures Shaped(r.tables)
    ensures r.tables.channels == t.channels && r.tables.writeBufs == t.writeBufs
    ensures r.tables.capacities == t.capacities
    decreases |t.channels| - i
  {
    if i == |t.channels| || !t.channels[i].inUse then Drained(t, [], false)
    else
      var s := DrainSlot(i, t.channels[i], t.readBufs[i], t.scratch, t.peers[i], t.delays[i], handshake);
      var u := AfterSlot(t, i, s);
      if s.aborted then Drained(u, s.events, true)
      else
        var rest := DrainFrom(u, i + 1, s.handshake);
        Drained(rest.tables, s.events + rest.events, rest.aborted)
  }

  /** One call of the signal handler, from slot 1 (slot 0 is the nameserver's). */
  function Drain(t: Tables): (r: Drained)
    requires Shaped(t) && |t.channels| >= 1
    ensures Shaped(r.tables)
    ensures r.tables.channels == t.channels && r.tables.writeBufs == t.writeBufs
    ensures r.tables.capacities == t.capacities
    ensures KeptOutside(t, r.tables, 1, FirstUnused(t.channels, 1))
    ensures ReadAtMostOnce(t, r.tables) && AppendedAtMostOnce(t, r.tables)
    ensures InSlotOrder(r.events, 1, FirstUnused(t.channels, 1))
  {
    DrainStopsAtFirstUnused(t, 1, false);
    DrainReadsAtMostOnce(t, 1, false);
    DrainAppendsAtMostOneItem(t, 1, false);
    DrainEventsInSlotOrder(t, 1, false);
    DrainFrom(t, 1, false)
  }

  /** One unfolding of `DrainFrom`, for proofs that keep its definition out of sight. */
  lemma DrainFromStep(t: Tables, i: nat, handshake: bool)
    requires Shaped(t) && 1 <= i <= |t.channels|
    ensures i == |t.channels| || !t.channels[i].inUse ==> DrainFrom(t, i, handshake) == Drained(t, [], false)
    ensures i < |t.channels| && t.channels[i].inUse ==>
              var s := DrainSlot(i, t.channels[i], t.readBufs[i], t.scratch, t.peers[i], t.delays[i], handshake);
              var u := AfterSlot(t, i, s);
              DrainFrom(t, i, handshake) ==
                if s.aborted then Drained(u, s.events, true)
                else
                  var rest := DrainFrom(u, i + 1, s.handshake);
                  Drained(rest.tables, s.events + rest.events, rest.aborted)
  {
    hide DrainSlot;
  }

  /** The first slot from `i` on that is not in use, or the number of slots. */
  function FirstUnused(chs: seq<Channel>, i: nat): (k: nat)
    requires i <= |chs|
    ensures i <= k <= |chs|
    ensures k < |chs| ==> !chs[k].inUse
    ensures forall j :: i <= j < k ==> chs[j].inUse
    decreases |chs| - i
  {
    if i == |chs| || !chs[i].inUse then i else FirstUnused(chs, i + 1)
  }

  /** Slot `j`'s ring buffer, peer and delay buffer are the same in `t` and `r`. */
  predicate SlotKept(t: Tables, r: Tables, j: nat)
    requires Shaped(t) && Shaped(r) && |r.channels| == |t.channels| && j < |t.channels|
  {
    r.readBufs[j] == t.readBufs[j] && r.peers[j] == t.peers[j] && r.delays[j] == t.delays[j]
  }

  /** Every slot outside `[lo, hi)` is kept. */
  predicate KeptOutside(t: Tables, r: Tables, lo: nat, hi: nat)
    requires Shaped(t) && Shaped(r) && |r.channels| == |t.channels|
  {
    forall j :: 0 <= j < |t.channels| && (j < lo || hi <= j) ==> SlotKept(t, r, j)
  }

  /** Each ring buffer is as it was, advanced by exactly one read, or stopped in the middle of one. */
  predicate ReadAtMostOnce(t: Tables, r: Tables)
    requires Shaped(t) && Shaped(r) && |r.channels| == |t.channels|
  {
    forall j :: 0 <= j < |t.channels| ==>
      || r.readBufs[j] == t.readBufs[j]
      || r.readBufs[j] == ReadSpec(t.readBufs[j]).state
      || r.readBufs[j] == Reading(t.readBufs[j])
  }

  /** Each delay buffer is unchanged or has the item its ring buffer held appended. */
  predicate AppendedAtMostOnce(t: Tables, r: Tables)
    requires Shaped(t) && Shaped(r) && |r.channels| == |t.channels|
  {
    forall j :: 0 <= j < |t.channels| ==>
      r.delays[j] == t.delays[j] || r.delays[j] == t.delays[j] + ReadSpec(t.readBufs[j]).item
  }

  predicate AllNamesFit(ps: seq<ConnectedNode>)
  {
    forall k :: 0 <= k < |ps| ==> NameFits(ps[k].name)
  }

  predicate AllNewConnections(es: seq<Event>)
  {
    forall k :: 0 <= k < |es| ==> es[k].NewConnection?
  }

  /** The events are for slots in `[lo, hi)`, in strictly increasing slot order. */
  predicate InSlotOrder(es: seq<Event>, lo: nat, hi: nat)
  {
    && (forall k :: 0 <= k < |es| ==> lo <= es[k].slot < hi)
    && (forall k, l :: 0 <= k < l < |es| ==> es[k].slot < es[l].slot)
  }

  /**
   * The drain touches only the slots it visits: those before `i` and those
   * from the first unused slot on keep their ring buffer, peer and delay
   * buffer, whatever the items.
   */
  lemma {:induction false} DrainStopsAtFirstUnused(t: Tables, i: nat, handshake: bool)
    requires Shaped(t) && 1 <= i <= |t.channels|
    ensures KeptOutside(t, DrainFrom(t, i, handshake).tables, i, FirstUnused(t.channels, i))
    decreases |t.channels| - i
  {
    hide DrainSlot, DrainFrom;
    DrainFromStep(t, i, handshake);
    var r := DrainFrom(t, i, handshake);
    if i < |t.channels| && t.channels[i].inUse {
      var s := DrainSlot(i, t.channels[i], t.readBufs[i], t.scratch, t.peers[i], t.delays[i], handshake);
      var u := AfterSlot(t, i, s);
      if s.aborted {
        assert r.tables == u;
      } else {
        var rest := DrainFrom(u, i + 1, s.handshake);
        assert r.tables == rest.tables;
        assert FirstUnused(t.channels, i) == FirstUnused(u.channels, i + 1);
        DrainStopsAtFirstUnused(u, i + 1, s.handshake);
        assert KeptOutside(u, rest.tables, i + 1, FirstUnused(t.channels, i));
        forall j | 0 <= j < |t.channels| && (j < i || FirstUnused(t.channels, i) <= j)
          ensures SlotKept(t, r.tables, j)
        {
          assert SlotKept(u, rest.tables, j);
        }
      }
    } else {
      assert r.tables == t;
    }
  }

  /** The drain reads at most one item per slot per call. */
  lemma {:induction false} DrainReadsAtMostOnce(t: Tables, i: nat, handshake: bool)
    requires Shaped(t) && 1 <= i <= |t.channels|
    ensures ReadAtMostOnce(t, DrainFrom(t, i, handshake).tables)
    decreases |t.channels| - i
  {
    hide DrainSlot, DrainFrom, ReadSpec, Reading;
    DrainFromStep(t, i, handshake);
    var r := DrainFrom(t, i, handshake);
    if i < |t.channels| && t.channels[i].inUse {
      var s := DrainSlot(i, t.channels[i], t.readBufs[i], t.scratch, t.peers[i], t.delays[i], handshake);
      var u := AfterSlot(t, i, s);
      if s.aborted {
        assert r.tables == u;
      } else {
        var rest := DrainFrom(u, i + 1, s.handshake);
        assert r.tables == rest.tables;
        DrainReadsAtMostOnce(u, i + 1, s.handshake);
        DrainStopsAtFirstUnused(u, i + 1, s.handshake);
        assert SlotKept(u, rest.tables, i);
        forall j | 0 <= j < |t.channels|
          ensures || r.tables.readBufs[j] == t.readBufs[j]
                  || r.tables.readBufs[j] == ReadSpec(t.readBufs[j]).state
                  || r.tables.readBufs[j] == Reading(t.readBufs[j])
        {
          if j != i {
            assert u.readBufs[j] == t.readBufs[j];
          }
        }
      }
    } else {
      assert r.tables == t;
    }
  }

  /**
   * Once the flag is raised it is never cleared: after a handshake, no
   * later slot of the same call has its item appended to its delay buffer,
   * and every callback called is a new-connection callback.
   */
  lemma {:induction false} DrainAfterHandshake(t: Tables, i: nat)
    requires Shaped(t) && 1 <= i <= |t.channels|
    ensures DrainFrom(t, i, true).tables.delays == t.delays
    ensures AllNewConnections(DrainFrom(t, i, true).events)
    decreases |t.channels| - i
  {
    hide DrainSlot, DrainFrom;
    DrainFromStep(t, i, true);
    var r := DrainFrom(t, i, true);
    if i < |t.channels| && t.channels[i].inUse {
      var s := DrainSlot(i, t.channels[i], t.readBufs[i], t.scratch, t.peers[i], t.delays[i], true);
      var u := AfterSlot(t, i, s);
      assert u.delays == t.delays;
      assert AllNewConnections(s.events) by {
        forall k | 0 <= k < |s.events| ensures s.events[k].NewConnection? {
          assert s.events[k] in s.events;
        }
      }
      if s.aborted {
        assert r == Drained(u, s.events, true);
      } else {
        var rest := DrainFrom(u, i + 1, s.handshake);
        assert r == Drained(rest.tables, s.events + rest.events, rest.aborted);
        DrainAfterHandshake(u, i + 1);
      }
    } else {
      assert r == Drained(t, [], false);
    }
  }

  /** Peer names stored by the drain always fit the fixed name array. */
  lemma {:induction false} DrainKeepsNamesFitting(t: Tables, i: nat, handshake: bool)
    requires Shaped(t) && 1 <= i <= |t.channels|
    requires AllNamesFit(t.peers)
    ensures AllNamesFit(DrainFrom(t, i, handshake).tables.peers)
    decreases |t.channels| - i
  {
    hide DrainSlot, DrainFrom;
    DrainFromStep(t, i, handshake);
    var r := DrainFrom(t, i, handshake);
    if i < |t.channels| && t.channels[i].inUse {
      var s := DrainSlot(i, t.channels[i], t.readBufs[i], t.scratch, t.peers[i], t.delays[i], handshake);
      var u := AfterSlot(t, i, s);
      assert NameFits(s.peer.name);
      assert AllNamesFit(u.peers);
      if s.aborted {
        assert r.tables == u;
      } else {
        assert r.tables == DrainFrom(u, i + 1, s.handshake).tables;
        DrainKeepsNamesFitting(u, i + 1, s.handshake);
      }
    } else {
      assert r.tables == t;
    }
  }

  /** Each delay buffer grows by at most the one item its slot's ring buffer held. */
  lemma {:induction false} DrainAppendsAtMostOneItem(t: Tables, i: nat, handshake: bool)
    requires Shaped(t) && 1 <= i <= |t.channels|
    ensures AppendedAtMostOnce(t, DrainFrom(t, i, handshake).tables)
    decreases |t.channels| - i
  {
    hide DrainSlot, DrainFrom, ReadSpec, Reading;
    DrainFromStep(t, i, handshake);
    var r := DrainFrom(t, i, handshake);
    if i < |t.channels| && t.channels[i].inUse {
      var s := DrainSlot(i, t.channels[i], t.readBufs[i], t.scratch, t.peers[i], t.delays[i], handshake);
      var u := AfterSlot(t, i, s);
      if s.aborted {
        assert r.tables == u;
        assert AppendedAtMostOnce(u, u);
        AppendedAfterSlot(t, i, s, u);
      } else {
        var rest := DrainFrom(u, i + 1, s.handshake);
        assert r.tables == rest.tables;
        DrainAppendsAtMostOneItem(u, i + 1, s.handshake);
        DrainStopsAtFirstUnused(u, i + 1, s.handshake);
        AppendedAfterSlot(t, i, s, rest.tables);
      }
    } else {
      assert r.tables == t;
    }
  }

  /** One slot's pass followed by passes that keep that slot. */
  lemma AppendedAfterSlot(t: Tables, i: nat, s: SlotStep, w: Tables)
    requires Shaped(t) && i < |t.channels|
    requires WellFormed(s.read) && |s.scratch| == SCRATCH_SIZE
    requires s.delay == t.delays[i] || s.delay == t.delays[i] + ReadSpec(t.readBufs[i]).item
    requires Shaped(w) && |w.channels| == |t.channels|
    requires AppendedAtMostOnce(AfterSlot(t, i, s), w)
    requires SlotKept(AfterSlot(t, i, s), w, i)
    ensures AppendedAtMostOnce(t, w)
  {
    var u := AfterSlot(t, i, s);
    forall j | 0 <= j < |t.channels|
      ensures w.delays[j] == t.delays[j] || w.delays[j] == t.delays[j] + ReadSpec(t.readBufs[j]).item
    {
      if j != i {
        assert u.delays[j] == t.delays[j] && u.readBufs[j] == t.readBufs[j];
      }
    }
  }

  /** Every callback the drain calls is for a slot it visits, in increasing slot order. */
  lemma {:induction false} DrainEventsInSlotOrder(t: Tables, i: nat, handshake: bool)
    requires Shaped(t) && 1 <= i <= |t.channels|
    ensures InSlotOrder(DrainFrom(t, i, handshake).events, i, FirstUnused(t.channels, i))
    decreases |t.channels| - i
  {
    hide DrainSlot, DrainFrom;
    DrainFromStep(t, i, handshake);
    var r := DrainFrom(t, i, handshake);
    if i < |t.channels| && t.channels[i].inUse {
      var s := DrainSlot(i, t.channels[i], t.readBufs[i], t.scratch, t.peers[i], t.delays[i], handshake);
      var u := AfterSlot(t, i, s);
      var hi := FirstUnused(t.channels, i);
      if s.aborted {
        assert r.events == [];
      } else {
        var rest := DrainFrom(u, i + 1, s.handshake);
        assert r.events == s.events + rest.events;
        assert hi == FirstUnused(u.channels, i + 1);
        DrainEventsInSlotOrder(u, i + 1, s.handshake);
        EventsOfSlot(s.events, i);
        ConcatInSlotOrder(s.events, rest.events, i, hi);
      }
    } else {
      assert r.events == [];
    }
  }

  /** The callbacks of one slot's pass: at most one, for that slot. */
  lemma EventsOfSlot(es: seq<Event>, i: nat)
    requires |es| <= 1 && forall e :: e in es ==> e.slot == i
    ensures InSlotOrder(es, i, i + 1)
  {
    if |es| == 1 {
      assert es[0] in es;
    }
  }

  lemma ConcatInSlotOrder(a: seq<Event>, b: seq<Event>, i: nat, hi: nat)
    requires i < hi
    requires InSlotOrder(a, i, i + 1) && InSlotOrder(b, i + 1, hi)
    ensures InSlotOrder(a + b, i, hi)
  {
    var c := a + b;
    forall k | 0 <= k < |c|
      ensures i <= c[k].slot < hi
      ensures k < |a| ==> c[k].slot == i
      ensures k >= |a| ==> c[k].slot > i
    {
      if k < |a| {
        assert c[k] == a[k];
      } else {
        assert c[k] == b[k - |a|];
      }
    }
    forall k, l | 0 <= k < l < |c|
      ensures c[k].slot < c[l].slot
    {
      if k >= |a| {
        assert c[k] == b[k - |a|] && c[l] == b[l - |a|];
      }
    }
  }

  /** A handshake text has no NUL byte, so the C string read back from it is all of it. */
  lemma HandshakeIsCString(pid: nat, name: seq<byte>)
    requires |Itoa(pid)| <= PID_MAX_STRLEN
    requires IsWord(name)
    ensures IsCString(Handshake(pid, name))
  {
    var h := Handshake(pid, name);
    var p := Itoa(pid);
    assert h == HANDSHAKE_TAG + [SPACE] + p + [SPACE] + name;
    forall k | 0 <= k < |h|
      ensures h[k] != NUL
    {
      if k < |HANDSHAKE_TAG| {
        assert h[k] == HANDSHAKE_TAG[k];
      } else if k == |HANDSHAKE_TAG| {
        assert h[k] == SPACE;
      } else if k < |HANDSHAKE_TAG| + 1 + |p| {
        assert h[k] == p[k - |HANDSHAKE_TAG| - 1];
        assert IsDigit(p[k - |HANDSHAKE_TAG| - 1]);
      } else if k == |HANDSHAKE_TAG| + 1 + |p| {
        assert h[k] == SPACE;
      } else {
        assert h[k] == name[k - |HANDSHAKE_TAG| - 2 - |p|];
      }
    }
  }

  /** A C string followed by a NUL reads back as itself, whatever follows. */
  lemma {:induction false} CStrOfTerminated(s: seq<byte>, rest: seq<byte>)
    requires IsCString(s)
    ensures CStr(s + [NUL] + rest) == s
    decreases |s|
  {
    if s != [] {
      assert (s + [NUL] + rest)[1..] == s[1..] + [NUL] + rest;
      CStrOfTerminated(s[1..], rest);
    }
  }

  /**
   * A client's handshake waiting on a slot registers the client: its pid
   * and name are stored in the peer record, nothing is appended to the
   * delay buffer, the flag is raised and the new-connection callback, if
   * any, is called for that slot.
   */
  lemma HandshakeRegistersPeer(i: nat, ch: Channel, read: BufferState, scratch: seq<byte>,
                               peer: ConnectedNode, delay: seq<byte>, handshake: bool, pid: nat, name: seq<byte>)
    requires WellFormed(read) && |scratch| == SCRATCH_SIZE
    requires |Itoa(pid)| <= PID_MAX_STRLEN && IsWord(name) && NameFits(name)
    requires ReadSpec(read).status == Ok && ReadSpec(read).item == Handshake(pid, name)
    requires |Handshake(pid, name)| < SCRATCH_SIZE
    ensures var r := DrainSlot(i, ch, read, scratch, peer, delay, handshake);
            && !r.aborted && r.handshake
            && r.read == ReadSpec(read).state
            && r.peer == ConnectedNode(pid, name)
            && r.delay == delay
            && StartsWithTag(r.scratch)
            && r.events == if ch.newConn.Some? then [NewConnection(i, ch.newConn.value, ch.arg)] else []
  {
    var h := Handshake(pid, name);
    var rd := ReadIntoSpec(read, scratch);
    assert rd.dest[..|h|] == h;
    assert rd.dest[..|HANDSHAKE_TAG|] == h[..|HANDSHAKE_TAG|];
    assert StartsWithTag(rd.dest);
    var sc := rd.dest[rd.size := NUL];
    assert sc == h + [NUL] + sc[|h| + 1..];
    HandshakeIsCString(pid, name);
    CStrOfTerminated(h, sc[|h| + 1..]);
    HandshakeRoundTrip(pid, name);
    assert sc[..|HANDSHAKE_TAG|] == h[..|HANDSHAKE_TAG|];
  }

  /**
   * What a successful read leaves in the scratch buffer: the item, over
   * the bytes earlier items left there.
   */
  lemma ScratchAfterRead(read: BufferState, scratch: seq<byte>)
    requires WellFormed(read) && |scratch| == SCRATCH_SIZE
    requires ReadSpec(read).status == Ok && |ReadSpec(read).item| < SCRATCH_SIZE
    ensures !ReadIntoSpec(read, scratch).aborted && ReadIntoSpec(read, scratch).status == Ok
    ensures ReadIntoSpec(read, scratch).dest == WriteAt(scratch, 0, ReadSpec(read).item)
  {
    var item := ReadSpec(read).item;
    var rd := ReadIntoSpec(read, scratch);
    var w := WriteAt(scratch, 0, item);
    forall k | 0 <= k < |w|
      ensures rd.dest[k] == w[k]
    {
      if k < |item| {
        assert rd.dest[..|item|][k] == item[k];
        assert w[0 .. |item|][k] == item[k];
      } else {
        assert rd.dest[|item|..][k - |item|] == scratch[|item|..][k - |item|];
      }
    }
  }

  /** An item of at least 7 bytes is judged by its own bytes, whatever the scratch buffer held. */
  lemma LongItemJudgedByItself(scratch: seq<byte>, item: seq<byte>)
    requires |HANDSHAKE_TAG| <= |item| <= |scratch|
    ensures StartsWithTag(WriteAt(scratch, 0, item)) <==> item[..|HANDSHAKE_TAG|] == HANDSHAKE_TAG
  {
    var w := WriteAt(scratch, 0, item);
    assert w[..|HANDSHAKE_TAG|] == w[0 .. |item|][..|HANDSHAKE_TAG|];
  }

  /**
   * A scratch buffer a handshake left behind turns any proper prefix of
   * the tag (such as the 2 bytes `**`) into a tagged buffer.
   */
  lemma StaleTagCompletesPrefix(scratch: seq<byte>, item: seq<byte>)
    requires |scratch| == SCRATCH_SIZE && StartsWithTag(scratch)
    requires |item| < |HANDSHAKE_TAG| && item == HANDSHAKE_TAG[..|item|]
    ensures StartsWithTag(WriteAt(scratch, 0, item))
  {
    var w := WriteAt(scratch, 0, item);
    forall k | 0 <= k < |HANDSHAKE_TAG|
      ensures w[k] == HANDSHAKE_TAG[k]
    {
      if k < |item| {
        assert w[0 .. |item|][k] == item[k];
      } else {
        assert scratch[..|HANDSHAKE_TAG|][k] == HANDSHAKE_TAG[k];
      }
    }
    assert w[..|HANDSHAKE_TAG|] == HANDSHAKE_TAG;
  }

  /**
   * The tag test compares 7 bytes whatever the item's size, so a shorter
   * item is judged together with the bytes earlier items left in the
   * scratch buffer (a handshake leaves the tag there). When those bytes
   * complete the tag, the item is parsed as a handshake without a pid and
   * the program stops: the item is consumed, nothing is queued and no
   * callback is called.
   */
  lemma ShortItemCompletedByStaleTag(i: nat, ch: Channel, read: BufferState, scratch: seq<byte>,
                                     peer: ConnectedNode, delay: seq<byte>, handshake: bool)
    requires WellFormed(read) && |scratch| == SCRATCH_SIZE
    requires ReadSpec(read).status == Ok && |ReadSpec(read).item| < |HANDSHAKE_TAG|
    requires StartsWithTag(WriteAt(scratch, 0, ReadSpec(read).item))
    ensures var r := DrainSlot(i, ch, read, scratch, peer, delay, handshake);
            && r.aborted && r.events == []
            && r.read == ReadSpec(read).state
            && r.peer == peer && r.delay == delay
  {
    StaleTagParsesWithoutPid(read, scratch);
    hide ReadSpec, ReadIntoSpec, StartsWithTag, ParseHandshake, CStr;
  }

  /** The short item of `ShortItemCompletedByStaleTag`, read into the scratch buffer, has no second token. */
  lemma StaleTagParsesWithoutPid(read: BufferState, scratch: seq<byte>)
    requires WellFormed(read) && |scratch| == SCRATCH_SIZE
    requires ReadSpec(read).status == Ok && |ReadSpec(read).item| < |HANDSHAKE_TAG|
    requires StartsWithTag(WriteAt(scratch, 0, ReadSpec(read).item))
    ensures var rd := ReadIntoSpec(read, scratch);
            && !rd.aborted && rd.status == Ok && rd.state == ReadSpec(read).state
            && StartsWithTag(rd.dest)
            && ParseHandshake(CStr(rd.dest[rd.size := NUL])).NoPid?
  {
    var item := ReadSpec(read).item;
    ScratchAfterRead(read, scratch);
    var rd := ReadIntoSpec(read, scratch);
    var w := WriteAt(scratch, 0, item);
    assert rd.dest == w && rd.size == |item|;
    hide ReadSpec, ReadIntoSpec;
    assert item == HANDSHAKE_TAG[..|item|] by {
      assert item == w[0 .. |item|];
      assert w[..|HANDSHAKE_TAG|] == HANDSHAKE_TAG;
    }
    var sc := rd.dest[rd.size := NUL];
    assert sc == item + [NUL] + sc[|item| + 1..];
    TagPrefixHasNoPid(item, sc[|item| + 1..]);
  }

  /** A proper prefix of the tag, terminated, is a handshake text without a pid. */
  lemma TagPrefixHasNoPid(item: seq<byte>, rest: seq<byte>)
    requires |item| < |HANDSHAKE_TAG| && item == HANDSHAKE_TAG[..|item|]
    ensures ParseHandshake(CStr(item + [NUL] + rest)).NoPid?
  {
    forall k | 0 <= k < |item|
      ensures item[k] != SPACE && item[k] != NUL
    {
      assert item[k] == HANDSHAKE_TAG[k];
    }
    CStrOfTerminated(item, rest);
    assert |Tokens(item)| <= 1;
  }

  /**
   * An item that the tag test takes for data, read while the flag is down,
   * is data: it is appended to the delay buffer, the peer record is left
   * alone and the new-data callback, if any, is called for that slot.
   */
  lemma DataIsQueued(i: nat, ch: Channel, read: BufferState, scratch: seq<byte>,
                     peer: ConnectedNode, delay: seq<byte>)
    requires WellFormed(read) && |scratch| == SCRATCH_SIZE
    requires ReadSpec(read).status == Ok && |ReadSpec(read).item| < SCRATCH_SIZE
    requires !StartsWithTag(WriteAt(scratch, 0, ReadSpec(read).item))
    ensures var r := DrainSlot(i, ch, read, scratch, peer, delay, false);
            && !r.aborted && !r.handshake
            && r.read == ReadSpec(read).state
            && r.peer == peer
            && r.delay == delay + ReadSpec(read).item
            && r.events == if ch.newData.Some? then [NewData(i, ch.newData.value)] else []
  {
    ScratchAfterRead(read, scratch);
  }

  /**
   * After a handshake earlier in the same call, even an item the tag test
   * takes for data is treated as a handshake: it is consumed but dropped, and the new-connection
   * callback is called for its slot.
   */
  lemma DataAfterHandshakeIsDropped(i: nat, ch: Channel, read: BufferState, scratch: seq<byte>,
                                    peer: ConnectedNode, delay: seq<byte>)
    requires WellFormed(read) && |scratch| == SCRATCH_SIZE
    requires ReadSpec(read).status == Ok && |ReadSpec(read).item| < SCRATCH_SIZE
    requires !StartsWithTag(WriteAt(scratch, 0, ReadSpec(read).item))
    ensures var r := DrainSlot(i, ch, read, scratch, peer, delay, true);
            && !r.aborted && r.handshake
            && r.read == ReadSpec(read).state
            && r.peer == peer
            && r.delay == delay
            && r.events == if ch.newConn.Some? then [NewConnection(i, ch.newConn.value, ch.arg)] else []
  {
    ScratchAfterRead(read, scratch);
  }

  /**
   * Any item whose scratch buffer passes the tag test and parses into a
   * pid and a name registers that peer, whatever its pid, its name or the
   * tokens after them: it is consumed, not queued, the flag is raised and
   * the new-connection callback, if any, is called for that slot.
   */
  lemma TaggedItemRegistersPeer(i: nat, ch: Channel, read: BufferState, scratch: seq<byte>,
                                peer: ConnectedNode, delay: seq<byte>, handshake: bool)
    requires WellFormed(read) && |scratch| == SCRATCH_SIZE
    requires ReadSpec(read).status == Ok && |ReadSpec(read).item| < SCRATCH_SIZE
    requires StartsWithTag(WriteAt(scratch, 0, ReadSpec(read).item))
    requires ParseHandshake(CStr(WriteAt(scratch, 0, ReadSpec(read).item)[|ReadSpec(read).item| := NUL])).Named?
    ensures var p := ParseHandshake(CStr(WriteAt(scratch, 0, ReadSpec(read).item)[|ReadSpec(read).item| := NUL]));
            var r := DrainSlot(i, ch, read, scratch, peer, delay, handshake);
            && !r.aborted && r.handshake
            && r.read == ReadSpec(read).state
            && r.peer == ConnectedNode(p.pid, p.name)
            && r.delay == delay
            && r.events == if ch.newConn.Some? then [NewConnection(i, ch.newConn.value, ch.arg)] else []
  {
    ScratchAfterRead(read, scratch);
  }

  /**
   * A tagged item that lacks the pid, lacks the name or carries a name too
   * long for the peer record stops the program: `atoi(NULL)`, `strlen(NULL)`
   * or the failed `assert`. The item is consumed and nothing is queued or
   * called; the pid is stored first whenever there is one.
   */
  lemma TaggedItemWithoutNameAborts(i: nat, ch: Channel, read: BufferState, scratch: seq<byte>,
                                    peer: ConnectedNode, delay: seq<byte>, handshake: bool)
    requires WellFormed(read) && |scratch| == SCRATCH_SIZE
    requires ReadSpec(read).status == Ok && |ReadSpec(read).item| < SCRATCH_SIZE
    requires StartsWithTag(WriteAt(scratch, 0, ReadSpec(read).item))
    requires !ParseHandshake(CStr(WriteAt(scratch, 0, ReadSpec(read).item)[|ReadSpec(read).item| := NUL])).Named?
    ensures var p := ParseHandshake(CStr(WriteAt(scratch, 0, ReadSpec(read).item)[|ReadSpec(read).item| := NUL]));
            var r := DrainSlot(i, ch, read, scratch, peer, delay, handshake);
            && r.aborted && r.events == []
            && r.read == ReadSpec(read).state
            && r.peer == (if p.NoPid? then peer else peer.(pid := p.pid))
            && r.delay == delay
  {
    ScratchAfterRead(read, scratch);
  }

  /**
   * An item that does not fit the scratch buffer with its NUL fails the
   * `assert` of `nbb_read_item_r`: the program stops with the ack counter
   * left odd, and the peer, the delay buffer and the scratch buffer are as
   * they were.
   */
  lemma OversizedItemAborts(i: nat, ch: Channel, read: BufferState, scratch: seq<byte>,
                            peer: ConnectedNode, delay: seq<byte>, handshake: bool)
    requires WellFormed(read) && |scratch| == SCRATCH_SIZE
    requires ReadSpec(read).status == Ok && |ReadSpec(read).item| >= SCRATCH_SIZE
    ensures var r := DrainSlot(i, ch, read, scratch, peer, delay, handshake);
            r == SlotStep(Reading(read), scratch, peer, delay, handshake, [], true)
  {
  }

  /** A slot with nothing to read, or whose producer is mid-insert, is passed over unchanged. */
  lemma NothingReadKeepsSlot(i: nat, ch: Channel, read: BufferState, scratch: seq<byte>,
                             peer: ConnectedNode, delay: seq<byte>, handshake: bool)
    requires WellFormed(read) && |scratch| == SCRATCH_SIZE
    requires ReadSpec(read).status != Ok
    ensures var r := DrainSlot(i, ch, read, scratch, peer, delay, handshake);
            r == SlotStep(read, scratch, peer, delay, handshake, [], false)
  {
    var rd := ReadIntoSpec(read, scratch);
    assert rd.dest == rd.dest[..0] + rd.dest[0..];
  }

  // ----- the drain and the slot operations -----

  /**
   * A connection callback set for the owner of slot `i` is the one the
   * drain calls, with the argument given, when a handshake arrives there.
   */
  lemma ConnectionCallbackFires(i: nat, chs: seq<Channel>, owner: seq<byte>, fn: Callback, arg: int,
                                read: BufferState, scratch: seq<byte>, peer: ConnectedNode, delay: seq<byte>,
                                handshake: bool, pid: nat, name: seq<byte>)
    requires 1 <= i < |chs| && OwnedBy(chs[i], owner)
    requires WellFormed(read) && |scratch| == SCRATCH_SIZE
    requires |Itoa(pid)| <= PID_MAX_STRLEN && IsWord(name) && NameFits(name)
    requires ReadSpec(read).status == Ok && ReadSpec(read).item == Handshake(pid, name)
    requires |Handshake(pid, name)| < SCRATCH_SIZE
    ensures DrainSlot(i, WithNewConnection(chs, owner, fn, arg)[i], read, scratch, peer, delay, handshake).events
            == [NewConnection(i, fn, arg)]
  {
    HandshakeRegistersPeer(i, WithNewConnection(chs, owner, fn, arg)[i], read, scratch, peer, delay, handshake, pid, name);
  }

  /**
   * A data callback set for the owner of slot `i` is the one the drain
   * calls when a data item arrives there before any handshake.
   */
  lemma DataCallbackFires(i: nat, chs: seq<Channel>, owner: seq<byte>, fn: Callback,
                          read: BufferState, scratch: seq<byte>, peer: ConnectedNode, delay: seq<byte>)
    requires 1 <= i < |chs| && OwnedBy(chs[i], owner)
    requires WellFormed(read) && |scratch| == SCRATCH_SIZE
    requires ReadSpec(read).status == Ok && |ReadSpec(read).item| < SCRATCH_SIZE
    requires !StartsWithTag(WriteAt(scratch, 0, ReadSpec(read).item))
    ensures DrainSlot(i, WithNewData(chs, owner, fn)[i], read, scratch, peer, delay, false).events
            == [NewData(i, fn)]
  {
    DataIsQueued(i, WithNewData(chs, owner, fn)[i], read, scratch, peer, delay);
  }

  /**
   * The delay buffer of a live slot has room for the item its ring buffer
   * would hand the drain (the append does not check capacity).
   */
  predicate RoomFor(t: Tables, k: nat)
    requires Shaped(t) && k < |t.channels|
  {
    var rd := ReadSpec(t.readBufs[k]);
    t.channels[k].inUse && rd.status == Ok && |rd.item| < SCRATCH_SIZE ==>
      |t.delays[k]| + |rd.item| <= t.capacities[k]
  }

  /** One slot's pass of the drain leaves the room of every later slot as it was. */
  lemma RoomForAfterSlot(t: Tables, i: nat, s: SlotStep)
    requires Shaped(t) && i < |t.channels|
    requires WellFormed(s.read) && |s.scratch| == SCRATCH_SIZE
    requires forall k :: i < k < |t.channels| ==> RoomFor(t, k)
    ensures forall k :: i < k < |t.channels| ==> RoomFor(AfterSlot(t, i, s), k)
  {
    var u := AfterSlot(t, i, s);
    forall k | i < k < |t.channels|
      ensures RoomFor(u, k)
    {
      assert RoomFor(t, k);
      assert u.readBufs[k] == t.readBufs[k] && u.delays[k] == t.delays[k];
    }
  }
}

/**
 * Data layout of the non-blocking-buffer library: sizing constants, the
 * status codes, item descriptors, peer records and the per-slot channel
 * bookkeeping (Non-blocking-Buffers/nbb.h).
 */
module NbbTypes {

  /** An `unsigned short`: the ring-buffer counters and descriptor fields. */
  newtype u16 = x: int | 0 <= x < 0x1_0000

  /** An `unsigned char` / `char`: payload bytes and C strings. */
  newtype byte = x: int | 0 <= x < 0x100

  datatype Option<T> = None | Some(value: T)

  /** Number of item descriptors per direction. */
  const BUFFER_SIZE: nat := 256 * 4

  /** Size of one shared page: the header page and the data arena each have this size. */
  const PAGE_SIZE: nat := 4096 * 4

  /** Capacity of a peer name, terminating NUL included. */
  const MAX_NAME_SIZE: nat := 128

  /** Number of values an `unsigned short` can hold. */
  const COUNTER_RANGE: nat := 0x1_0000

  /** The value an `int` takes once it is stored into an `unsigned short`. */
  function Wrap16(x: int): (r: u16)
    ensures 0 <= x < COUNTER_RANGE ==> r as int == x
    ensures (x - r as int) % COUNTER_RANGE == 0
    ensures r as int % 2 == x % 2
  {
    (x % COUNTER_RANGE) as u16
  }

  /** The counters are 16 bits wide, and a full cycle of descriptors fits in them with room to spare. */
  lemma CounterRangeFitsBufferSize()
    ensures 2 * BUFFER_SIZE < COUNTER_RANGE / 2
    ensures BUFFER_SIZE <= (COUNTER_RANGE - 1) / 2
    ensures PAGE_SIZE < COUNTER_RANGE
  {
  }

  /** Return codes of the ring-buffer and channel operations. */
  datatype Status =
    | Ok
    | BufferFull
    | BufferFullConsumerReading
    | BufferEmpty
    | BufferEmptyProducerInserting
    | ShmError

  /** The integer each status has in the C enumeration. */
  function Code(s: Status): (c: nat)
    ensures c < 6
    ensures c == 0 <==> s == Ok
    ensures FromCode(c) == Some(s)
  {
    match s
    case Ok => 0
    case BufferFull => 1
    case BufferFullConsumerReading => 2
    case BufferEmpty => 3
    case BufferEmptyProducerInserting => 4
    case ShmError => 5
  }

  /** The status an integer return value stands for, if any. */
  function FromCode(c: int): Option<Status>
  {
    if c == 0 then Some(Ok)
    else if c == 1 then Some(BufferFull)
    else if c == 2 then Some(BufferFullConsumerReading)
    else if c == 3 then Some(BufferEmpty)
    else if c == 4 then Some(BufferEmptyProducerInserting)
    else if c == 5 then Some(ShmError)
    else None
  }

  /** Where one item lies in the data arena: `struct channel_item`. */
  datatype ChannelItem = ChannelItem(offset: u16, size: u16)

  /** The peer connected on a slot: `struct connected_node`. */
  datatype ConnectedNode = ConnectedNode(pid: int, name: seq<byte>)

  /** A name fits the peer record's fixed array together with its NUL. */
  predicate NameFits(name: seq<byte>)
  {
    |name| + 1 <= MAX_NAME_SIZE
  }

  /** A registered callback, identified by an abstract token standing for the function pointer. */
  type Callback = nat

  /**
   * The process-local part of `struct channel`: shared-memory ids, byte
   * statistics, owner tag, callbacks and liveness. The two ring buffers are
   * held beside it by the registry.
   */
  datatype Channel = Channel(
    readId: int,
    readCount: int,
    writeId: int,
    writeCount: int,
    owner: Option<seq<byte>>,
    newConn: Option<Callback>,
    newData: Option<Callback>,
    arg: int,
    inUse: bool)

  /** The zero-initialised entry of the static channel table. */
  function EmptyChannel(): Channel
  {
    Channel(0, 0, 0, 0, None, None, None, 0, false)
  }

  /** The zero-initialised entry of the static peer table. */
  function NoPeer(): (p: ConnectedNode)
    ensures NameFits(p.name)
  {
    ConnectedNode(0, [])
  }
}

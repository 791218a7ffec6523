/**
 * The per-slot delay buffer `delay_buffer_t` (Non-blocking-Buffers/nbb.h)
 * and the two operations on it in Non-blocking-Buffers/nbb.c: the drain
 * appends a received item at the tail (`nbb_flush_shm`), and the
 * application reads bytes from the head, after which the rest is moved to
 * the front (`nbb_read_bytes`). Together they form a byte FIFO.
 */
module DelayBuffers {
  import opened NbbTypes

  /** Size of the content block allocated when a channel is opened (`1<<20`). */
  const DELAY_CAPACITY: nat := 0x10_0000

  datatype Taken = Taken(count: nat, bytes: seq<byte>, rest: seq<byte>)

  /** Reading up to `size` bytes from the head of `c`: as many as are there, and what remains. */
  function TakeSpec(c: seq<byte>, size: nat): (r: Taken)
    ensures r.count == if size < |c| then size else |c|
    ensures |r.bytes| == r.count
    ensures r.bytes + r.rest == c
  {
    var n := if size < |c| then size else |c|;
    Taken(n, c[..n], c[n..])
  }

  /** Appending A then B and reading |A| bytes yields A; what remains is B. */
  lemma AppendThenTakeInOrder(c: seq<byte>, a: seq<byte>, b: seq<byte>)
    ensures TakeSpec(c + a + b, |c| + |a|) == Taken(|c| + |a|, c + a, b)
    ensures TakeSpec(TakeSpec(c + a + b, |c|).rest, |a|).bytes == a
  {
    assert (c + a + b)[..|c| + |a|] == c + a;
    assert (c + a + b)[|c| + |a|..] == b;
    assert (c + a + b)[|c|..] == a + b;
    assert (a + b)[..|a|] == a;
  }

  /** Two consecutive reads return the same bytes as one read of the combined size. */
  lemma {:induction false} TakeTwice(c: seq<byte>, m: nat, n: nat)
    ensures var first := TakeSpec(c, m);
            var second := TakeSpec(first.rest, n);
            && first.bytes + second.bytes == TakeSpec(c, m + n).bytes
            && second.rest == TakeSpec(c, m + n).rest
  {
    var first := TakeSpec(c, m);
    if m + n <= |c| {
      assert first.rest[..n] == c[m .. m + n];
      assert c[..m] + c[m .. m + n] == c[..m + n];
      assert first.rest[n..] == c[m + n..];
    } else if m <= |c| {
      assert c[..m] + c[m..] == c;
    } else {
      assert first.rest == [];
    }
  }

  /** The bytes received on one slot and not yet read: `content[..len]` of `capacity` bytes. */
  class DelayBuffer {
    const content: array<byte>
    var len: int
    var capacity: int

    /** The objects this buffer occupies. */
    function Repr(): set<object>
    {
      {this, content}
    }

    /** The buffer always holds at least as much room as data (`capacity >= len`). */
    ghost predicate Valid()
      reads this
    {
      0 <= len <= capacity <= content.Length == DELAY_CAPACITY
    }

    /** The bytes available to read, oldest first. */
    function Content(): (c: seq<byte>)
      reads this, content
      requires Valid()
      ensures |c| == len
    {
      content[..len]
    }

    /** The zero-initialised static entry: nothing stored and no room. */
    constructor ()
      ensures Valid() && len == 0 && capacity == 0
      ensures content.Length == DELAY_CAPACITY && fresh(content)
    {
      content := new byte[DELAY_CAPACITY](_ => 0);
      len, capacity := 0, 0;
    }

    /** The reset done when a channel is opened: empty, with `DELAY_CAPACITY` bytes of room. */
    method Reset()
      requires Valid()
      modifies this
      ensures Valid() && Content() == [] && capacity == DELAY_CAPACITY
    {
      len := 0;
      capacity := DELAY_CAPACITY;
    }

    /**
     * `nbb_flush_shm`: appends `src` at the tail. The source never grows the
     * block (that code is compiled out), so the caller must leave room.
     */
    method Append(src: seq<byte>)
      requires Valid()
      requires len + |src| <= capacity
      modifies this, content
      ensures Valid() && capacity == old(capacity)
      ensures Content() == old(Content()) + src
    {
      if |src| == 0 {
        return;
      }
      var newSize := len + |src|;
      forall j | len <= j < newSize {
        content[j] := src[j - len];
      }
      len := newSize;
      assert Content() == old(Content()) + src by {
        assert forall k :: 0 <= k < |old(Content())| ==> Content()[k] == old(Content())[k];
      }
    }

    /**
     * `nbb_read_bytes`: copies up to `size` bytes from the head into `buf`
     * and moves the rest to the front; returns the number copied.
     */
    method Take(buf: array<byte>, size: int) returns (n: int)
      requires Valid()
      requires 0 <= size <= buf.Length
      requires buf != content
      modifies this, content, buf
      ensures Valid() && capacity == old(capacity)
      ensures var t := TakeSpec(old(Content()), size);
              && n == t.count
              && buf[..n] == t.bytes
              && buf[n..] == old(buf[n..])
              && Content() == t.rest
    {
      if size == 0 || len == 0 {
        return 0;
      }
      n := size;
      if n > len {
        n := len;
      }
      forall k | 0 <= k < n {
        buf[k] := content[k];
      }
      var newLen := len - n;
      if newLen > 0 {
        forall k | 0 <= k < newLen {
          content[k] := content[n + k];
        }
      }
      len := newLen;
      assert buf[..n] == old(Content())[..n];
      assert Content() == old(Content())[n..];
    }
  }
}

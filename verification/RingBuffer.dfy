/**
 The per-pane byte ring (internal/store/buffer.go).

 A Buffer keeps only the last `capacity` bytes of a stream, but addresses them by
 their absolute offset in it. The ghost field `history` is that whole unbounded
 stream; every operation is specified on it alone.
 */
module RingBuffer {
  import opened Bytes

  /** Absolute offset of the oldest byte a ring of this capacity still holds. */
  function Start(history: seq<byte>, capacity: nat): (start: nat)
    ensures start <= |history|
  {
    if |history| > capacity then |history| - capacity else 0
  }

  /** What a read from absolute offset `after` yields on the unbounded stream. */
  function ReadFrom(history: seq<byte>, capacity: nat, after: int): (out: Option<seq<byte>>)
    ensures out.Some? <==> Start(history, capacity) <= after <= |history|
    ensures out.Some? ==> history[..after] + out.value == history
  {
    if Start(history, capacity) <= after <= |history| then Some(history[after..]) else None
  }

  /** The slot d places after k's: one subtraction at most, so no two offsets
      less than a capacity apart share a slot. */
  lemma SlotShift(k: nat, d: nat, capacity: nat)
    requires d < capacity
    ensures (k + d) % capacity
         == if k % capacity + d < capacity then k % capacity + d else k % capacity + d - capacity
  {
    var q, r := k / capacity, k % capacity;
    assert k == q * capacity + r;
    if r + d < capacity {
      Remainder(k + d, q, r + d, capacity);
    } else {
      assert k + d == (q + 1) * capacity + (r + d - capacity);
      Remainder(k + d, q + 1, r + d - capacity, capacity);
    }
  }

  lemma Remainder(n: nat, q: nat, r: nat, capacity: nat)
    requires r < capacity && n == q * capacity + r
    ensures n % capacity == r
  {
    var q', r' := n / capacity, n % capacity;
    var d := q - q';
    assert d * capacity == q * capacity - q' * capacity;
    assert d >= 1 ==> d * capacity >= capacity;
    assert d <= -1 ==> d * capacity + capacity <= 0;
  }

  class Buffer {
    const capacity: nat
    const data: array<byte>
    var start: nat
    var end: nat
    var lastAppend: Option<Time>
    ghost var history: seq<byte>

    /** Slot k % capacity holds the byte at offset k, for every retained k. */
    ghost predicate Valid()
      reads this, data
    {
      && capacity > 0
      && data.Length == capacity
      && end == |history|
      && start == Start(history, capacity)
      && Holds(data[..], history, start)
    }

    /** The slots hold the bytes of `h` from offset `from` on. */
    static ghost predicate Holds(slots: seq<byte>, h: seq<byte>, from: nat)
    {
      |slots| > 0 && forall k {:trigger h[k]} :: from <= k < |h| ==> slots[k % |slots|] == h[k]
    }

    constructor (capacity: nat)
      requires capacity > 0
      ensures Valid() && fresh(data)
      ensures this.capacity == capacity && history == [] && lastAppend == None
    {
      this.capacity := capacity;
      data := new byte[capacity](_ => 0);
      start, end := 0, 0;
      lastAppend := None;
      history := [];
    }

    /** Append extends the stream by p, whatever p's size. */
    method Append(p: seq<byte>, now: Time)
      requires Valid()
      modifies this`start, this`end, this`lastAppend, this`history, data
      ensures Valid()
      ensures history == old(history) + p
      ensures end == old(end) + |p| && start == if end > capacity then end - capacity else 0
      ensures lastAppend == if p == [] then old(lastAppend) else Some(now)
    {
      if |p| == 0 {
        assert history + p == history;
        return;
      }
      lastAppend := Some(now);
      ghost var whole := history + p;
      var q, n := p, |p|;
      if n > capacity {
        var dropped := n - capacity;
        end := end + dropped;
        if end - start > capacity {
          start := end - capacity;
        }
        q, n := p[dropped..], capacity;
      }
      assert end == |whole| - n && q == whole[end..];
      ghost var before := data[..];
      Lay(end % capacity, q);
      WrittenHolds(before, data[..], history, whole, end, q);
      end := end + n;
      if end - start > capacity {
        start := end - capacity;
      }
      history := whole;
    }

    /** The two copies of Append: q goes in from slot `head`, wrapping at most once. */
    method Lay(head: nat, q: seq<byte>)
      requires data.Length == capacity && head < capacity && |q| <= capacity
      modifies data
      ensures Written(old(data[..]), data[..], head, q)
    {
      var n, first := |q|, capacity - head;
      if first >= n {
        forall k | 0 <= k < n { data[head + k] := q[k]; }
      } else {
        forall k | 0 <= k < first { data[head + k] := q[k]; }
        forall k | 0 <= k < n - first { data[k] := q[first + k]; }
        assert forall j :: first <= j < n ==> data[j - first] == q[j];
      }
    }

    /** `after` is `before` with q laid down circularly from slot `head`. */
    static ghost predicate Written(before: seq<byte>, after: seq<byte>, head: nat, q: seq<byte>)
    {
      && |before| == |after| && head < |before| && |q| <= |before|
      && (forall j {:trigger q[j]} :: 0 <= j < |q| ==> after[Wrap(head + j, |before|)] == q[j])
      && (forall i {:trigger after[i]} :: 0 <= i < head && i + |before| >= head + |q| ==> after[i] == before[i])
      && (forall i {:trigger after[i]} :: head + |q| <= i < |before| ==> after[i] == before[i])
    }

    static function Wrap(i: nat, capacity: nat): (slot: nat)
      requires i < 2 * capacity
      ensures slot < capacity
    {
      if i < capacity then i else i - capacity
    }

    /** Laying q down from the slot of its own offset keeps every byte that is
        still within a capacity of the new head. */
    static lemma WrittenHolds(before: seq<byte>, after: seq<byte>, h: seq<byte>, whole: seq<byte>, at: nat, q: seq<byte>)
      requires |before| > 0 && Written(before, after, at % |before|, q)
      requires |h| <= |whole| && whole[..|h|] == h
      requires at < |whole| && q == whole[at..]
      requires at == |h| || (|h| <= at && |q| == |before|)
      requires Holds(before, h, Start(h, |before|))
      ensures Holds(after, whole, Start(whole, |before|))
    {
      forall k {:trigger whole[k]} | Start(whole, |before|) <= k < |whole|
        ensures after[k % |before|] == whole[k]
      {
        assert k < at ==> whole[k] == h[k];
        SlotAfterWrite(before, after, whole, at, q, k);
      }
    }

    static lemma SlotAfterWrite(before: seq<byte>, after: seq<byte>, whole: seq<byte>, at: nat, q: seq<byte>, k: nat)
      requires |before| > 0 && Written(before, after, at % |before|, q)
      requires at < |whole| && q == whole[at..]
      requires Start(whole, |before|) <= k < |whole|
      requires k < at ==> before[k % |before|] == whole[k]
      ensures after[k % |before|] == whole[k]
    {
      if at <= k {
        SlotShift(at, k - at, |before|);
        assert whole[k] == q[k - at];
      } else {
        SlotShift(k, at - k, |before|);
        SlotKept(before, after, k % |before|, at - k, at % |before|, q);
      }
    }

    /** A slot d places before the write survives it while d and the write fit in one lap. */
    static lemma SlotKept(before: seq<byte>, after: seq<byte>, i: nat, d: nat, head: nat, q: seq<byte>)
      requires Written(before, after, head, q)
      requires 0 < d && d + |q| <= |before| && i < |before|
      requires head == if i + d < |before| then i + d else i + d - |before|
      ensures after[i] == before[i]
    {
    }

    /** Read succeeds exactly on retained offsets and returns the stream from there. */
    method Read(after: int) returns (out: seq<byte>, head: nat, ok: bool)
      requires Valid()
      ensures head == |history|
      ensures ok <==> ReadFrom(history, capacity, after).Some?
      ensures ok ==> out == ReadFrom(history, capacity, after).value
    {
      if after < start || after > end {
        return [], end, false;
      }
      var n := end - after;
      if n == 0 {
        return [], end, true;
      }
      var begin := after % capacity;
      if begin + n <= capacity {
        out := data[begin..begin + n];
      } else {
        var first := capacity - begin;
        out := data[begin..] + data[..n - first];
      }
      forall j | 0 <= j < n ensures out[j] == history[after + j] {
        SlotShift(after, j, capacity);
      }
      assert out == history[after..];
      return out, end, true;
    }

    /** Two rings of one capacity that carried the same stream cannot be told apart. */
    lemma SameStreamSameReads(other: Buffer, after: int)
      requires Valid() && other.Valid()
      requires capacity == other.capacity && history == other.history
      ensures start == other.start && end == other.end
      ensures forall k :: start <= k < end ==> data[k % capacity] == other.data[k % capacity]
      ensures var out := ReadFrom(history, capacity, after);
              out.Some? ==> forall j {:trigger out.value[j]} :: 0 <= j < |out.value| ==>
                out.value[j] == data[(after + j) % capacity] == other.data[(after + j) % capacity]
    {
      forall k | start <= k < end ensures data[k % capacity] == other.data[k % capacity] {
        assert history[k] == other.history[k];
      }
    }
  }

  /** Appending p and then q leaves what appending p + q in one call leaves; the recorded
      time also agrees, unless q is empty and p, which is not, came at another time. */
  method AppendInTwoParts(a: Buffer, b: Buffer, p: seq<byte>, q: seq<byte>, t: Time, u: Time)
    requires a != b && a.data != b.data && a.Valid() && b.Valid()
    requires a.capacity == b.capacity && a.history == b.history
    modifies a, a.data, b, b.data
    ensures a.Valid() && b.Valid()
    ensures a.history == b.history && a.start == b.start && a.end == b.end
    ensures forall k :: a.start <= k < a.end ==> a.data[k % a.capacity] == b.data[k % b.capacity]
    ensures old(a.lastAppend) == old(b.lastAppend) ==>
              (a.lastAppend == b.lastAppend <==> q != [] || p == [] || t == u)
  {
    a.Append(p, t);
    a.Append(q, u);
    b.Append(p + q, u);
    assert (old(a.history) + p) + q == old(b.history) + (p + q);
    a.SameStreamSameReads(b, 0);
  }
}

/** The fixed-capacity ring buffer of the runtime (src/core/container.c, sl_ring_queue). */
module RingQueue {
  import opened Prelude

  /** Position `i` places after `head` in a ring of `n`. */
  function Slot(head: nat, i: nat, n: nat): (r: nat)
    requires head < n && i <= n
    ensures r < n
  {
    if head + i < n then head + i else head + i - n
  }

  /** A remainder below twice the modulus is at most one subtraction. */
  lemma WrapsOnce(x: nat, n: nat)
    requires 0 < n && x < 2 * n
    ensures x % n == if x < n then x else x - n
  {
    var q := x / n;
    assert x == n * q + x % n;
    assert q >= 2 ==> n * (q - 2) >= 0;
    assert q >= 1 ==> n * (q - 1) >= 0;
  }

  /** The queued values, oldest first. */
  function Ring<T>(items: seq<T>, head: nat, count: nat): (r: seq<T>)
    requires count <= |items| && (count > 0 ==> head < |items|)
    ensures |r| == count
  {
    seq(count, i requires 0 <= i < count => items[Slot(head, i, |items|)])
  }

  lemma PushBack<T>(items: seq<T>, head: nat, count: nat, x: T)
    requires count < |items| && head < |items|
    ensures Ring(items[Slot(head, count, |items|) := x], head, count + 1) == Ring(items, head, count) + [x]
  {
  }

  lemma PopFirst<T>(items: seq<T>, head: nat, count: nat, blank: T)
    requires 0 < count <= |items| && head < |items|
    ensures Ring(items[head := blank], Slot(head, 1, |items|), count - 1) == Ring(items, head, count)[1..]
  {
  }

  lemma PopLast<T>(items: seq<T>, head: nat, count: nat, blank: T)
    requires 0 < count <= |items| && head < |items|
    ensures Ring(items[Slot(head, count - 1, |items|) := blank], head, count - 1)
            == Ring(items, head, count)[..count - 1]
  {
  }

  class Queue<T> {
    const items: array<T>
    const blank: T
    var head: nat
    var tail: nat
    var count: nat

    ghost predicate Valid()
      reads this, items
    {
      && count <= items.Length
      && if items.Length == 0 then head == 0 && tail == 0
         else head < items.Length && tail == Slot(head, count, items.Length)
    }

    ghost function Contents(): (r: seq<T>)
      requires Valid()
      reads this, items
      ensures |r| == count
    {
      Ring(items[..], head, count)
    }

    constructor (storage: array<T>, zero: T)
      ensures Valid() && items == storage && Contents() == []
    {
      items, blank := storage, zero;
      head, tail, count := 0, 0, 0;
    }

    /** sl_ring_queue_push */
    method Push(x: T) returns (ok: bool)
      requires Valid()
      modifies this, items
      ensures Valid() && ok == (old(count) < items.Length)
      ensures Contents() == if ok then old(Contents()) + [x] else old(Contents())
    {
      if count >= items.Length {
        return false;
      }
      PushBack(items[..], head, count, x);
      WrapsOnce(tail + 1, items.Length);
      ghost var before := items[..];
      items[tail] := x;
      assert items[..] == before[tail := x];
      tail := (tail + 1) % items.Length;
      count := count + 1;
      ok := true;
    }

    /** sl_ring_queue_pop_front */
    method PopFront() returns (r: Option<T>)
      requires Valid()
      modifies this, items
      ensures Valid() && (r.None? <==> old(count) == 0)
      ensures r.Some? ==> old(Contents()) == [r.value] + Contents()
      ensures r.None? ==> Contents() == old(Contents())
    {
      if count == 0 {
        return None;
      }
      PopFirst(items[..], head, count, blank);
      WrapsOnce(head + 1, items.Length);
      ghost var before := items[..];
      r := Some(items[head]);
      items[head] := blank;
      assert items[..] == before[head := blank];
      head := (head + 1) % items.Length;
      count := count - 1;
    }

    /** sl_ring_queue_pop_back */
    method PopBack() returns (r: Option<T>)
      requires Valid()
      modifies this, items
      ensures Valid() && (r.None? <==> old(count) == 0)
      ensures r.Some? ==> old(Contents()) == Contents() + [r.value]
      ensures r.None? ==> Contents() == old(Contents())
    {
      if count == 0 {
        return None;
      }
      PopLast(items[..], head, count, blank);
      WrapsOnce(tail + items.Length - 1, items.Length);
      ghost var before := items[..];
      var last := (tail + items.Length - 1) % items.Length;
      r := Some(items[last]);
      items[last] := blank;
      assert items[..] == before[last := blank];
      tail := last;
      count := count - 1;
    }
  }
}

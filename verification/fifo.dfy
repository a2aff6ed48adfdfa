/**
  A bounded first-in-first-out buffer with the semantics of Python's
  `collections.deque(maxlen=capacity)` restricted to `append` and `clear`:
  appending to a full buffer silently drops the oldest entry. The buffer is a
  plain sequence, oldest entry first.
 */
module Fifo {

  /** `deque.append(x)` on a deque whose `maxlen` is `capacity`. */
  function Push<T>(buf: seq<T>, capacity: nat, x: T): (r: seq<T>)
    ensures |r| <= capacity
    ensures |buf| < capacity ==> r == buf + [x]
    ensures 0 < capacity <= |buf| + 1 ==> |r| == capacity && r[capacity - 1] == x
    ensures 0 < capacity == |buf| ==> r == buf[1..] + [x]
    ensures capacity == 0 ==> r == []
    ensures forall y :: y in r ==> y in buf || y == x
  {
    if |buf| < capacity then buf + [x]
    else (buf + [x])[|buf| + 1 - capacity..]
  }

  /** `deque.clear()`. */
  function Clear<T>(): (r: seq<T>)
    ensures |r| == 0
  {
    []
  }

  /** Appending every item of `xs` in order. */
  function PushAll<T>(buf: seq<T>, capacity: nat, xs: seq<T>): seq<T>
    decreases |xs|
  {
    if |xs| == 0 then buf else PushAll(Push(buf, capacity, xs[0]), capacity, xs[1..])
  }

  /** The reference behaviour: the newest `capacity` items of a history, in their original order. */
  function Newest<T>(history: seq<T>, capacity: nat): (r: seq<T>)
    ensures |r| <= capacity && |r| <= |history|
  {
    if |history| <= capacity then history else history[|history| - capacity..]
  }

  /** One append keeps exactly the newest `capacity` items of the buffer followed by the new one. */
  lemma PushIsNewest<T>(buf: seq<T>, capacity: nat, x: T)
    ensures Push(buf, capacity, x) == Newest(buf + [x], capacity)
  {
  }

  /** Keeping the newest items twice is the same as keeping them once over the whole history. */
  lemma NewestOfNewest<T>(history: seq<T>, more: seq<T>, capacity: nat)
    ensures Newest(Newest(history, capacity) + more, capacity) == Newest(history + more, capacity)
  {
    if |history| > capacity {
      var kept := history[|history| - capacity..];
      var all := history + more;
      if |more| == 0 {
        assert kept + more == kept && all == history;
      } else {
        var lhs := (kept + more)[|more|..];
        var rhs := all[|all| - capacity..];
        assert |lhs| == capacity == |rhs|;
        forall i | 0 <= i < capacity
          ensures lhs[i] == rhs[i]
        {
          if |more| + i < capacity {
            assert lhs[i] == kept[|more| + i] == history[|history| - capacity + |more| + i];
          } else {
            assert lhs[i] == more[|more| + i - capacity];
          }
        }
        assert lhs == rhs;
      }
    }
  }

  /**
    The eviction property: appending any run of items to a buffer that respects
    its capacity leaves exactly the newest `capacity` items of the combined
    history, in their original relative order.
   */
  lemma {:induction false} PushAllKeepsNewest<T>(buf: seq<T>, capacity: nat, xs: seq<T>)
    requires |buf| <= capacity
    ensures PushAll(buf, capacity, xs) == Newest(buf + xs, capacity)
    decreases |xs|
  {
    if |xs| == 0 {
      assert buf + xs == buf;
    } else {
      var grown := buf + [xs[0]];
      calc {
        PushAll(buf, capacity, xs);
        PushAll(Push(buf, capacity, xs[0]), capacity, xs[1..]);
        { PushAllKeepsNewest(Push(buf, capacity, xs[0]), capacity, xs[1..]); }
        Newest(Push(buf, capacity, xs[0]) + xs[1..], capacity);
        { PushIsNewest(buf, capacity, xs[0]); }
        Newest(Newest(grown, capacity) + xs[1..], capacity);
        { NewestOfNewest(grown, xs[1..], capacity); }
        Newest(grown + xs[1..], capacity);
        { assert grown + xs[1..] == buf + xs; }
        Newest(buf + xs, capacity);
      }
    }
  }

  /** Pushing `capacity + k` items into an empty buffer keeps only the last `capacity` of them. */
  lemma OverfillKeepsLastCapacity<T>(capacity: nat, xs: seq<T>)
    requires |xs| > capacity
    ensures PushAll([], capacity, xs) == xs[|xs| - capacity..]
  {
    PushAllKeepsNewest([], capacity, xs);
    assert [] + xs == xs;
  }
}

/**
 The ring buffer of the logging library (`circular_q`), its value-level specification, and the two
 classes built directly on it: the ring-buffer sink and the backtracer.
 */
module CircularQueue {
  import opened Wrappers

  /** The last `n` elements of `s`, or all of `s` when it is not longer than that. */
  function KeepLast<T>(s: seq<T>, n: nat): seq<T> {
    if |s| > n then s[|s| - n..] else s
  }

  /** What a ring buffer stands for: a bounded sequence and the number of elements it had to drop.
      A disabled ring (default-constructed or moved from) stores nothing and counts nothing. */
  datatype Ring<T> = Ring(enabled: bool, cap: nat, items: seq<T>, overrun: nat) {
    ghost predicate Valid() {
      |items| <= cap && (!enabled ==> cap == 0)
    }

    predicate Full() {
      enabled && |items| == cap
    }

    function PushBack(x: T): Ring<T> {
      this.(items := KeepLast(items + [x], cap), overrun := overrun + if Full() then 1 else 0)
    }

    function PopFront(): Ring<T>
      requires items != []
    {
      this.(items := items[1..])
    }
  }

  const DISABLED_CAPACITY := 0

  function DisabledRing<T>(): Ring<T> { Ring(false, DISABLED_CAPACITY, [], 0) }

  function EmptyRing<T>(cap: nat): Ring<T> { Ring(true, cap, [], 0) }

  // ---------------------------------------------------------------- histories

  /** What was done to a ring since it was created. */
  datatype History<T> = Created | Push(before: History<T>, x: T) | Pop(before: History<T>)

  /** The ring after a history; None when some pop met an empty ring, which the source leaves undefined. */
  function After<T>(r: Ring<T>, h: History<T>): Option<Ring<T>> {
    match h
    case Created => Some(r)
    case Push(before, x) =>
      (match After(r, before)
       case None => None
       case Some(r') => Some(r'.PushBack(x)))
    case Pop(before) =>
      (match After(r, before)
       case None => None
       case Some(r') => if r'.items == [] then None else Some(r'.PopFront()))
  }

  /** Everything the history pushed, in order. */
  function Pushed<T>(h: History<T>): seq<T> {
    match h
    case Created => []
    case Push(before, x) => Pushed(before) + [x]
    case Pop(before) => Pushed(before)
  }

  function PopCount<T>(h: History<T>): nat {
    match h
    case Created => 0
    case Push(before, _) => PopCount(before)
    case Pop(before) => PopCount(before) + 1
  }

  ghost predicate Suffix<T>(a: seq<T>, s: seq<T>) {
    |a| <= |s| && a == s[|s| - |a|..]
  }

  lemma SuffixSnoc<T>(a: seq<T>, s: seq<T>, x: T)
    requires Suffix(a, s)
    ensures Suffix(a + [x], s + [x])
  {
  }

  lemma SuffixDrop<T>(a: seq<T>, s: seq<T>, k: nat)
    requires Suffix(a, s) && k <= |a|
    ensures Suffix(a[k..], s)
  {
  }

  lemma PushKeepsSuffix<T>(r: Ring<T>, pushed: seq<T>, x: T)
    requires r.Valid() && r.enabled && Suffix(r.items, pushed)
    ensures Suffix(r.PushBack(x).items, pushed + [x])
    ensures |r.PushBack(x).items| == |r.items| + 1 - (if r.Full() then 1 else 0)
  {
    SuffixSnoc(r.items, pushed, x);
    if r.Full() {
      SuffixDrop(r.items + [x], pushed + [x], 1);
    }
  }

  /** After any history the ring holds a suffix of what was pushed, and the overrun counter is exactly
      the number of elements that were neither popped nor are still stored. */
  lemma {:induction false} HistoryOfRing<T>(cap: nat, h: History<T>)
    requires After(EmptyRing(cap), h).Some?
    ensures var r := After(EmptyRing(cap), h).value;
            && r.enabled && r.cap == cap && |r.items| <= cap
            && Suffix(r.items, Pushed(h))
            && r.overrun == |Pushed(h)| - PopCount(h) - |r.items|
  {
    match h
    case Created =>
    case Push(before, x) =>
      HistoryOfRing(cap, before);
      PushKeepsSuffix(After(EmptyRing(cap), before).value, Pushed(before), x);
    case Pop(before) =>
      HistoryOfRing(cap, before);
      SuffixDrop(After(EmptyRing(cap), before).value.items, Pushed(before), 1);
  }

  /** Without pops the ring holds exactly the last `cap` elements ever pushed, so a reader that asks
      for the last `lim` of them gets the last `min(cap, lim)` elements of the whole history. */
  lemma {:induction false} PushesKeepTheLast<T>(cap: nat, h: History<T>, lim: nat)
    requires PopCount(h) == 0
    ensures After(EmptyRing(cap), h).Some?
    ensures var r := After(EmptyRing(cap), h).value;
            && r.enabled && r.cap == cap
            && r.items == KeepLast(Pushed(h), cap)
            && KeepLast(r.items, lim) == KeepLast(Pushed(h), if lim < cap then lim else cap)
            && r.overrun == |Pushed(h)| - |r.items|
  {
    if h.Push? {
      PushesKeepTheLast(cap, h.before, lim);
      KeepLastSnoc(Pushed(h.before), h.x, cap);
    }
    KeepLastTwice(Pushed(h), cap, lim);
  }

  /** Keeping the last of the last keeps the last. */
  lemma KeepLastTwice<T>(s: seq<T>, m: nat, n: nat)
    ensures KeepLast(KeepLast(s, m), n) == KeepLast(s, if n < m then n else m)
  {
  }

  /** One more push on a bounded suffix. */
  lemma KeepLastSnoc<T>(s: seq<T>, x: T, n: nat)
    ensures KeepLast(KeepLast(s, n) + [x], n) == KeepLast(s + [x], n)
  {
    if |s| > n {
      var t := s[|s| - n..];
      assert (t + [x])[1..] == (s + [x])[|s| + 1 - n..];
    }
  }

  // ---------------------------------------------------------------- the array implementation

  lemma HeadToBack<T>(a: seq<T>, b: seq<T>)
    requires b != []
    ensures a + [b[0]] + b[1..] == a + b
  {
  }

  lemma SliceSnoc<T>(s: seq<T>, lo: nat, i: nat)
    requires lo <= i < |s|
    ensures s[lo..i] + [s[i]] == s[lo..i + 1]
  {
  }

  /** Index arithmetic of the ring: one step of `% m` below `2 * m` is at most one subtraction. */
  lemma WrapOnce(a: nat, m: nat)
    requires a < 2 * m
    ensures a % m == if a < m then a else a - m
  {
    if a >= m {
      assert a == m * 1 + (a - m);
    }
  }

  /** Successor of an index in a ring of `m` cells. */
  function NextIndex(i: nat, m: nat): nat
    requires i < m
  {
    if i + 1 < m then i + 1 else 0
  }

  /** The cells from `head` up to `tail`, reading on from the start when `tail` has wrapped. */
  function Window<T>(cells: seq<T>, head: nat, tail: nat): seq<T>
    requires head <= |cells| && tail <= |cells|
  {
    if tail >= head then cells[head..tail] else cells[head..] + cells[..tail]
  }

  /** The ring that an array of cells and two indices stand for. */
  ghost function RingOf<T>(cells: seq<T>, head: nat, tail: nat, overrun: nat): Ring<T>
    requires head <= |cells| && tail <= |cells|
  {
    Ring(|cells| > 0, if |cells| == 0 then 0 else |cells| - 1, Window(cells, head, tail), overrun)
  }

  /** Writing at `tail` and advancing it appends; when that makes `tail` meet `head`, advancing `head`
      too drops the oldest element. */
  lemma RingPush<T>(cells: seq<T>, head: nat, tail: nat, overrun: nat, item: T)
    requires head < |cells| && tail < |cells|
    ensures var next := NextIndex(tail, |cells|);
            RingOf(cells, head, tail, overrun).PushBack(item)
            == if next == head
               then RingOf(cells[tail := item], NextIndex(head, |cells|), next, overrun + 1)
               else RingOf(cells[tail := item], head, next, overrun)
  {
    var w, next := Window(cells, head, tail), NextIndex(tail, |cells|);
    if next == head {
      assert |w| == |cells| - 1;
      assert Window(cells[tail := item], NextIndex(head, |cells|), next) == (w + [item])[1..];
    } else {
      assert |w| < |cells| - 1;
      assert Window(cells[tail := item], head, next) == w + [item];
    }
  }

  /** What is stored after a push: one more element, or the newest instead of the oldest. */
  lemma PushedItems<T>(r: Ring<T>, x: T)
    requires |r.items| <= r.cap
    ensures r.PushBack(x).items ==
            if |r.items| < r.cap then r.items + [x] else if r.cap == 0 then [] else r.items[1..] + [x]
  {
    if 0 < r.cap == |r.items| {
      assert (r.items + [x])[1..] == r.items[1..] + [x];
    }
  }

  class CircularQ<T(0)> {
    var maxItems: nat   // one more than the capacity; 0 when disabled
    var head: nat
    var tail: nat
    var overrun: nat
    var v: array<T>

    ghost predicate Valid()
      reads this
    {
      && v.Length == maxItems
      && (maxItems == 0 ==> head == 0 && tail == 0)
      && (maxItems > 0 ==> head < maxItems && tail < maxItems)
    }

    /** The stored elements, oldest first, read off the two stretches of the array. */
    ghost function Contents(): seq<T>
      reads this, v
      requires Valid()
    {
      Window(v[..], head, tail)
    }

    ghost function Abs(): Ring<T>
      reads this, v
      requires Valid()
    {
      RingOf(v[..], head, tail, overrun)
    }

    constructor ()
      ensures Valid() && fresh(v) && Abs() == DisabledRing()
    {
      maxItems, head, tail, overrun := 0, 0, 0, 0;
      v := new T[0];
    }

    constructor WithCapacity(capacity: nat)
      ensures Valid() && fresh(v) && Abs() == EmptyRing(capacity)
    {
      maxItems, head, tail, overrun := capacity + 1, 0, 0, 0;
      v := new T[capacity + 1];
    }

    function Size(): (n: nat)
      reads this, v
      requires Valid()
      ensures n == |Contents()|
    {
      if tail >= head then tail - head else maxItems - (head - tail)
    }

    function At(i: nat): (x: T)
      reads this, v
      requires Valid() && i < Size()
      ensures x == Contents()[i]
    {
      WrapOnce(head + i, maxItems);
      v[(head + i) % maxItems]
    }

    function Front(): (x: T)
      reads this, v
      requires Valid() && Contents() != []
      ensures x == Contents()[0]
    {
      v[head]
    }

    predicate Empty()
      reads this, v
      requires Valid()
      ensures Empty() <==> Contents() == []
    {
      tail == head
    }

    predicate Full()
      reads this, v
      requires Valid()
      ensures Full() <==> Abs().Full()
    {
      if maxItems > 0 then WrapOnce(tail + 1, maxItems); (tail + 1) % maxItems == head else false
    }

    /** `(i + 1) % max_items_` */
    method Advance(i: nat) returns (next: nat)
      requires i < maxItems
      ensures next == NextIndex(i, maxItems)
    {
      WrapOnce(i + 1, maxItems);
      next := (i + 1) % maxItems;
    }

    method PushBack(item: T)
      requires Valid()
      modifies this, v
      ensures Valid() && v == old(v)
      ensures Abs() == old(Abs()).PushBack(item)
      ensures Contents() == if old(|Contents()| + 1 < maxItems) then old(Contents()) + [item]
                            else if maxItems <= 1 then [] else old(Contents())[1..] + [item]
    {
      PushedItems(Abs(), item);
      if maxItems > 0 {
        RingPush(v[..], head, tail, overrun, item);
        ghost var cells := v[..];
        v[tail] := item;
        assert v[..] == cells[tail := item];
        tail := Advance(tail);
        if tail == head {
          head := Advance(head);
          overrun := overrun + 1;
        }
      }
    }

    method PopFront()
      requires Valid() && Contents() != []
      modifies this
      ensures Valid() && v == old(v)
      ensures Abs() == old(Abs()).PopFront()
    {
      head := Advance(head);
    }

    method ResetOverrunCounter()
      requires Valid()
      modifies this
      ensures Valid() && v == old(v)
      ensures Abs() == old(Abs()).(overrun := 0)
    {
      overrun := 0;
    }

    /** Move assignment (`copy_moveable`). The source ends up disabled, also when a queue is moved
        onto itself: self-move loses the contents. */
    method MoveFrom(other: CircularQ<T>)
      requires Valid() && other.Valid()
      modifies this, other
      ensures Valid() && other.Valid()
      ensures this != other ==> v == old(other.v) && fresh(other.v)
      ensures this == other ==> fresh(v)
      ensures other.Abs() == DisabledRing()
      ensures this != other ==> Abs() == old(other.Abs())
    {
      maxItems := other.maxItems;
      head := other.head;
      tail := other.tail;
      overrun := other.overrun;
      v := other.v;
      var nothing := new T[0];
      other.v := nothing;
      other.maxItems := 0;
      other.head, other.tail := 0, 0;
      other.overrun := 0;
    }
  }

  // ---------------------------------------------------------------- users of the ring

  class RingbufferSink<M(0)> {
    const q: CircularQ<M>

    ghost predicate Valid()
      reads this, q
    {
      q.Valid()
    }

    constructor (nItems: nat)
      ensures Valid() && fresh(q) && fresh(q.v) && q.Abs() == EmptyRing(nItems)
    {
      q := new CircularQ<M>.WithCapacity(nItems);
    }

    method SinkIt(msg: M)
      requires Valid()
      modifies q, q.v
      ensures Valid() && q.v == old(q.v)
      ensures q.Abs() == old(q.Abs()).PushBack(msg)
    {
      q.PushBack(msg);
    }

    /** The last `lim` messages in order; `lim == 0` asks for all of them. */
    method LastRaw(lim: nat) returns (ret: seq<M>)
      requires Valid()
      ensures ret == if lim == 0 then q.Contents() else KeepLast(q.Contents(), lim)
    {
      var itemsAvailable := q.Size();
      var nItems := if lim > 0 then (if lim < itemsAvailable then lim else itemsAvailable) else itemsAvailable;
      ret := [];
      var i := itemsAvailable - nItems;
      ghost var all := q.Contents();
      while i < itemsAvailable
        invariant itemsAvailable - nItems <= i <= itemsAvailable == |all|
        invariant ret == all[itemsAvailable - nItems..i]
      {
        SliceSnoc(all, itemsAvailable - nItems, i);
        ret := ret + [q.At(i)];
        i := i + 1;
      }
    }
  }

  class Backtracer<M(0)> {
    var enabled: bool
    const messages: CircularQ<M>

    ghost predicate Valid()
      reads this, messages
    {
      messages.Valid()
    }

    constructor ()
      ensures Valid() && !enabled && fresh(messages) && fresh(messages.v)
      ensures messages.Abs() == DisabledRing()
    {
      enabled := false;
      messages := new CircularQ<M>();
    }

    /** Starts recording the last `size` messages; what was recorded before is dropped. */
    method Enable(size: nat)
      requires Valid()
      modifies this, messages
      ensures Valid() && enabled && fresh(messages.v)
      ensures messages.Abs() == EmptyRing(size)
    {
      enabled := true;
      var newRing := new CircularQ<M>.WithCapacity(size);
      messages.MoveFrom(newRing);
    }

    method Disable()
      requires Valid()
      modifies this`enabled
      ensures Valid() && !enabled && messages.Abs() == old(messages.Abs())
    {
      enabled := false;
    }

    method PushBack(msg: M)
      requires Valid()
      modifies messages, messages.v
      ensures Valid() && messages.v == old(messages.v)
      ensures messages.Abs() == old(messages.Abs()).PushBack(msg)
    {
      messages.PushBack(msg);
    }

    /** Empties the queue; `visited` is the sequence of messages the callback was applied to. */
    method ForeachPop() returns (visited: seq<M>)
      requires Valid()
      modifies messages
      ensures Valid() && messages.v == old(messages.v)
      ensures visited == old(messages.Contents())
      ensures messages.Abs() == old(messages.Abs()).(items := [])
    {
      visited := [];
      while !messages.Empty()
        invariant Valid() && messages.v == old(messages.v)
        invariant visited + messages.Contents() == old(messages.Contents())
        invariant messages.Abs() == old(messages.Abs()).(items := messages.Contents())
        decreases |messages.Contents()|
      {
        ghost var rest := messages.Contents();
        ghost var seen := visited;
        visited := visited + [messages.Front()];
        messages.PopFront();
        assert messages.Contents() == rest[1..];
        HeadToBack(seen, rest);
      }
    }
  }
}

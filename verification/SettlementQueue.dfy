/** The settlement queue: a binary heap in a list, as Python's `heapq` maintains it. */
module SettlementQueues {

  /** `QueueItem`: ordered by its priority triple alone. Ages are microseconds. */
  datatype Item = Item(rank: int, age: int, counter: nat, ticker: string, reason: string)

  predicate Less(a: Item, b: Item) {
    a.rank < b.rank || (a.rank == b.rank && (a.age < b.age || (a.age == b.age && a.counter < b.counter)))
  }

  predicate AtMost(a: Item, b: Item) {
    !Less(b, a)
  }

  lemma {:induction false} OrderFacts(a: Item, b: Item, c: Item)
    ensures AtMost(a, b) || AtMost(b, a)
    ensures AtMost(a, b) && AtMost(b, c) ==> AtMost(a, c)
    ensures AtMost(a, b) && AtMost(b, a) && a.counter == b.counter ==> a.rank == b.rank && a.age == b.age
    ensures a.counter != b.counter ==> Less(a, b) || Less(b, a)
  {
  }

  function Parent(i: nat): nat
    requires i > 0
  {
    (i - 1) / 2
  }

  /** Every item is at least its parent. */
  ghost predicate Heap(h: seq<Item>) {
    forall i :: 0 < i < |h| ==> AtMost(h[Parent(i)], h[i])
  }

  /** A heap except that the item at `hole` may be less than its ancestors. */
  ghost predicate HeapUp(h: seq<Item>, hole: nat) {
    && (forall i :: 0 < i < |h| && i != hole ==> AtMost(h[Parent(i)], h[i]))
    && (hole > 0 ==> forall i :: 0 < i < |h| && Parent(i) == hole ==> AtMost(h[Parent(hole)], h[i]))
  }

  lemma {:induction false} RootIsLeast(h: seq<Item>, i: nat)
    requires Heap(h) && i < |h|
    ensures AtMost(h[0], h[i])
  {
    OrderFacts(h[0], h[0], h[0]);
    if i > 0 {
      RootIsLeast(h, Parent(i));
      OrderFacts(h[0], h[Parent(i)], h[i]);
    }
  }

  lemma {:induction false} SwapMultiset(h: seq<Item>, i: nat, j: nat)
    requires i < |h| && j < |h|
    ensures multiset(h[i := h[j]][j := h[i]]) == multiset(h)
  {
  }

  /** `_siftdown(heap, 0, pos)`: move the item at `pos` towards the root past greater parents. */
  method SiftDown(h: seq<Item>, pos: nat) returns (r: seq<Item>)
    requires pos < |h| && HeapUp(h, pos)
    ensures Heap(r) && multiset(r) == multiset(h) && |r| == |h|
  {
    r := h;
    var p: nat := pos;
    while p > 0
      invariant p < |r| == |h| && HeapUp(r, p) && multiset(r) == multiset(h)
      decreases p
    {
      var parent := Parent(p);
      if Less(r[p], r[parent]) {
        SwapUp(r, p);
        SwapMultiset(r, p, parent);
        r := r[p := r[parent]][parent := r[p]];
        p := parent;
      } else {
        return;
      }
    }
  }

  lemma {:induction false} SwapUp(r: seq<Item>, p: nat)
    requires 0 < p < |r| && HeapUp(r, p) && Less(r[p], r[Parent(p)])
    ensures var parent := Parent(p); HeapUp(r[p := r[parent]][parent := r[p]], parent)
  {
  }

  /** A heap except for the edges at `hole`, whose children are at least its parent. */
  ghost predicate HeapHole(h: seq<Item>, hole: nat) {
    && (forall i :: 0 < i < |h| && i != hole && Parent(i) != hole ==> AtMost(h[Parent(i)], h[i]))
    && (hole > 0 ==> forall i :: 0 < i < |h| && Parent(i) == hole ==> AtMost(h[Parent(hole)], h[i]))
  }

  /**
   `_siftup(heap, 0)`: the smaller child moves up until the hole reaches a leaf, the item is put there,
   and then it sifts down towards the root again.
  */
  method SiftUp(h: seq<Item>) returns (r: seq<Item>)
    requires h != [] && HeapHole(h, 0)
    ensures Heap(r) && multiset(r) == multiset(h) && |r| == |h|
  {
    hide HeapHole, HeapUp, Heap;
    r := h;
    var pos: nat := 0;
    while 2 * pos + 1 < |r|
      invariant pos < |r| == |h| && multiset(r) == multiset(h) && HeapHole(r, pos)
      decreases |r| - pos
    {
      var child := 2 * pos + 1;
      if child + 1 < |r| && !Less(r[child], r[child + 1]) {
        child := child + 1;
      }
      SwapDown(r, pos, child);
      SwapMultiset(r, pos, child);
      r := r[pos := r[child]][child := r[pos]];
      pos := child;
    }
    LeafHole(r, pos);
    r := SiftDown(r, pos);
  }

  lemma {:induction false} LeafHole(r: seq<Item>, pos: nat)
    requires pos < |r| && HeapHole(r, pos) && 2 * pos + 1 >= |r|
    ensures HeapUp(r, pos)
  {
  }

  predicate SmallerChild(r: seq<Item>, pos: nat, child: nat) {
    && (child == 2 * pos + 1 || child == 2 * pos + 2) && child < |r|
    && (2 * pos + 2 < |r| ==> AtMost(r[child], r[2 * pos + 1]) && AtMost(r[child], r[2 * pos + 2]))
  }

  lemma {:induction false} SwapDown(r: seq<Item>, pos: nat, child: nat)
    requires HeapHole(r, pos) && SmallerChild(r, pos, child)
    ensures HeapHole(r[pos := r[child]][child := r[pos]], child)
  {
    hide AtMost;
    var s := r[pos := r[child]][child := r[pos]];
    forall i | 0 < i < |s| && i != child && Parent(i) != child ensures AtMost(s[Parent(i)], s[i]) {
      if Parent(i) == pos {
        assert i == 2 * pos + 1 || i == 2 * pos + 2;
      } else if i == pos {
        assert Parent(child) == pos;
      }
    }
    forall i | 0 < i < |s| && Parent(i) == child ensures AtMost(s[Parent(child)], s[i]) {
    }
  }

  // ----- what a pop takes -----

  ghost predicate Ascending(r: seq<Item>) {
    forall i, j :: 0 <= i < j < |r| ==> AtMost(r[i], r[j])
  }

  /** `r` lists the |r| least items of `items` in ascending priority, and `rest` is what stays. */
  ghost predicate Takes(items: multiset<Item>, r: seq<Item>, rest: multiset<Item>) {
    && items == multiset(r) + rest
    && Ascending(r)
    && (forall x, y :: x in r && y in rest ==> AtMost(x, y))
  }

  ghost predicate DistinctCounters(items: multiset<Item>) {
    && (forall x :: x in items ==> items[x] == 1)
    && (forall x, y :: x in items && y in items && x.counter == y.counter ==> x == y)
  }

  /** Taking a and then b items is taking a + b. */
  lemma {:induction false} TakesCompose(items: multiset<Item>, r: seq<Item>, middle: multiset<Item>, s: seq<Item>, rest: multiset<Item>)
    requires Takes(items, r, middle) && Takes(middle, s, rest)
    ensures Takes(items, r + s, rest)
  {
  }

  /** With distinct counters there is only one way to take a given number of items. */
  lemma {:induction false} TakesUnique(items: multiset<Item>, r: seq<Item>, rest: multiset<Item>, s: seq<Item>, left: multiset<Item>)
    requires DistinctCounters(items) && Takes(items, r, rest) && Takes(items, s, left) && |r| == |s|
    ensures r == s && rest == left
  {
    hide Takes, DistinctCounters;
    if r == [] {
      TakeNone(items, rest);
      TakeNone(items, left);
    } else {
      SameFirst(items, r, rest, s, left);
      DropFirst(items, r, rest);
      DropFirst(items, s, left);
      TakesUnique(items - multiset{r[0]}, r[1..], rest, s[1..], left);
      assert r == [r[0]] + r[1..] && s == [s[0]] + s[1..];
    }
  }

  lemma {:induction false} TakeNone(items: multiset<Item>, rest: multiset<Item>)
    requires Takes(items, [], rest)
    ensures rest == items
  {
  }

  lemma {:induction false} SameFirst(items: multiset<Item>, r: seq<Item>, rest: multiset<Item>, s: seq<Item>, left: multiset<Item>)
    requires DistinctCounters(items) && Takes(items, r, rest) && Takes(items, s, left) && r != [] && s != []
    ensures r[0] == s[0]
  {
    FirstIsLeast(items, r, rest);
    FirstIsLeast(items, s, left);
    OrderFacts(r[0], s[0], r[0]);
  }

  lemma {:induction false} DropFirst(items: multiset<Item>, r: seq<Item>, rest: multiset<Item>)
    requires DistinctCounters(items) && Takes(items, r, rest) && r != []
    ensures Takes(items - multiset{r[0]}, r[1..], rest) && DistinctCounters(items - multiset{r[0]})
  {
    var x := r[0];
    assert r == [x] + r[1..];
    assert multiset(r) == multiset{x} + multiset(r[1..]);
    assert items - multiset{x} == multiset(r[1..]) + rest;
    forall y | y in items - multiset{x} ensures y in items && (items - multiset{x})[y] == 1 {
    }
  }

  lemma {:induction false} FirstIsLeast(items: multiset<Item>, r: seq<Item>, rest: multiset<Item>)
    requires Takes(items, r, rest) && r != []
    ensures r[0] in items && forall y :: y in items ==> AtMost(r[0], y)
  {
  }

  // ----- the queue -----

  function StateRank(state: string, determined: bool): int {
    if determined || state == "determined" then 0 else if state == "closed" then 1 else 2
  }

  function MakeItem(ticker: string, state: string, held: bool, expectedAt: int, now: int, determined: bool, counter: nat): Item {
    Item(StateRank(state, determined) * 10 + (if held then 0 else 1), expectedAt - now, counter, ticker,
         if determined then "determination" else state)
  }

  /** Determined before closed before the rest; within that, held first; then by age; then by arrival. */
  lemma {:induction false} PriorityMeaning(
    t: string, s: string, h: bool, e: int, n: int, d: bool, c: nat,
    t': string, s': string, h': bool, e': int, n': int, d': bool, c': nat)
    ensures var a, b := MakeItem(t, s, h, e, n, d, c), MakeItem(t', s', h', e', n', d', c');
            Less(a, b) <==>
              || StateRank(s, d) < StateRank(s', d')
              || (StateRank(s, d) == StateRank(s', d') &&
                  ((h && !h') || (h == h' && (e - n < e' - n' || (e - n == e' - n' && c < c')))))
  {
  }

  /** One call of `add`, with the arrival number it was given. */
  datatype Request = Request(ticker: string, state: string, held: bool, expectedAt: int, now: int, determined: bool, arrival: nat)

  function Queued(q: Request): Item {
    MakeItem(q.ticker, q.state, q.held, q.expectedAt, q.now, q.determined, q.arrival)
  }

  /** Known to be determined, by the caller or by its state. */
  predicate Determined(q: Request) {
    q.determined || q.state == "determined"
  }

  predicate ClosedOnly(q: Request) {
    !Determined(q) && q.state == "closed"
  }

  /** Determined before closed before every other state. */
  predicate StateBefore(a: Request, b: Request) {
    (Determined(a) && !Determined(b)) || (ClosedOnly(a) && !Determined(b) && !ClosedOnly(b))
  }

  predicate SameState(a: Request, b: Request) {
    Determined(a) == Determined(b) && ClosedOnly(a) == ClosedOnly(b)
  }

  /** State first; within that, held first; then the earlier due; then the earlier arrival. */
  predicate Before(a: Request, b: Request) {
    || StateBefore(a, b)
    || (&& SameState(a, b)
        && (|| (a.held && !b.held)
            || (a.held == b.held &&
                (a.expectedAt - a.now < b.expectedAt - b.now
                 || (a.expectedAt - a.now == b.expectedAt - b.now && a.arrival < b.arrival)))))
  }

  /** The numeric priority says exactly that, and an item keeps what was asked for it. */
  lemma {:induction false} QueuedOrder(a: Request, b: Request)
    ensures Less(Queued(a), Queued(b)) <==> Before(a, b)
    ensures Queued(a).ticker == a.ticker && Queued(a).counter == a.arrival
    ensures Queued(a).reason == if a.determined then "determination" else a.state
  {
    assert "closed" != "determined";
    PriorityMeaning(a.ticker, a.state, a.held, a.expectedAt, a.now, a.determined, a.arrival,
                    b.ticker, b.state, b.held, b.expectedAt, b.now, b.determined, b.arrival);
  }

  /** Nothing taken is overtaken: what is popped later, or stays behind, never comes before what was popped. */
  lemma {:induction false} NothingOvertaken(items: multiset<Item>, r: seq<Item>, rest: multiset<Item>, i: nat, a: Request, b: Request)
    requires Takes(items, r, rest) && i < |r| && r[i] == Queued(a)
    requires Queued(b) in r[i + 1..] || Queued(b) in rest
    ensures !Before(b, a)
  {
    hide MakeItem, StateRank, Before;
    QueuedOrder(b, a);
    if Queued(b) in r[i + 1..] {
      var j :| 0 <= j < |r[i + 1..]| && r[i + 1..][j] == Queued(b);
      assert AtMost(r[i], r[i + 1 + j]);
    } else {
      assert r[i] in r && AtMost(r[i], Queued(b));
    }
  }

  class SettlementQueue {
    var heap: seq<Item>
    var counter: nat

    constructor ()
      ensures Valid() && Items() == multiset{} && counter == 0
    {
      heap, counter := [], 0;
    }

    ghost function Items(): multiset<Item>
      reads this
    {
      multiset(heap)
    }

    /** A heap whose items carry distinct counters, none above the queue's own. */
    ghost predicate Valid()
      reads this
    {
      && Heap(heap) && DistinctCounters(Items())
      && (forall x :: x in heap ==> x.counter <= counter)
    }

    method Add(ticker: string, state: string, held: bool, expectedAt: int, now: int, determined: bool)
      requires Valid()
      modifies this
      ensures Valid() && counter == old(counter) + 1
      ensures Items() == old(Items()) + multiset{MakeItem(ticker, state, held, expectedAt, now, determined, counter)}
    {
      counter := counter + 1;
      var item := MakeItem(ticker, state, held, expectedAt, now, determined, counter);
      var grown := heap + [item];
      assert HeapUp(grown, |heap|);
      assert multiset(grown) == multiset(heap) + multiset{item};
      assert item !in heap;
      heap := SiftDown(grown, |heap|);
      SameItems(heap, grown);
    }

    method PopLeast() returns (least: Item)
      requires Valid() && heap != []
      modifies this`heap
      ensures Valid() && |heap| == |old(heap)| - 1
      ensures Takes(old(Items()), [least], Items())
    {
      hide Takes, HeapHole, Heap, DistinctCounters, AtMost, Less;
      ghost var before := heap;
      var last := heap[|heap| - 1];
      assert heap == heap[..|heap| - 1] + [last];
      var shrunk := heap[..|heap| - 1];
      if shrunk == [] {
        least := last;
        heap := [];
        EmptyHeap();
      } else {
        least := shrunk[0];
        RootReplaced(heap);
        heap := SiftUp(shrunk[0 := last]);
      }
      assert multiset(before) == multiset([least]) + multiset(heap);
      SubsetValid(before, least, heap);
    }

    /** The `limit` least items, in ascending priority; fewer when the queue is shorter. */
    method Pop(limit: int) returns (items: seq<Item>)
      requires Valid()
      modifies this`heap
      ensures Valid()
      ensures Takes(old(Items()), items, Items())
      ensures |items| == if limit <= 0 then 0 else if limit < |old(heap)| then limit else |old(heap)|
    {
      items := [];
      var n := if limit <= 0 then 0 else if limit < |heap| then limit else |heap|;
      assert Takes(Items(), [], Items());
      while |items| < n
        invariant |items| <= n && |items| + |heap| == |old(heap)| && Valid()
        invariant Takes(old(Items()), items, Items())
      {
        ghost var middle := Items();
        var least := PopLeast();
        TakesCompose(old(Items()), items, middle, [least], Items());
        items := items + [least];
      }
    }
  }

  lemma {:induction false} SameItems(a: seq<Item>, b: seq<Item>)
    requires multiset(a) == multiset(b)
    ensures forall x :: x in a <==> x in b
  {
    forall x ensures x in a <==> x in b {
      assert x in a <==> x in multiset(a);
      assert x in b <==> x in multiset(b);
    }
  }

  /** Moving the last item to the root leaves a heap with a hole there. */
  lemma {:induction false} RootReplaced(h: seq<Item>)
    requires Heap(h) && |h| > 1
    ensures var moved := h[..|h| - 1][0 := h[|h| - 1]];
            HeapHole(moved, 0) && multiset(h) == multiset(moved) + multiset{h[0]}
  {
    var middle, last := h[1..|h| - 1], h[|h| - 1];
    assert h == [h[0]] + middle + [last];
    assert h[..|h| - 1][0 := last] == [last] + middle;
  }

  lemma {:induction false} EmptyHeap()
    ensures Heap([])
  {
  }

  lemma {:induction false} SubsetValid(before: seq<Item>, least: Item, after: seq<Item>)
    requires Heap(before) && before != [] && least == before[0]
    requires multiset(before) == multiset([least]) + multiset(after)
    requires DistinctCounters(multiset(before))
    ensures Takes(multiset(before), [least], multiset(after)) && DistinctCounters(multiset(after))
    ensures forall x :: x in after ==> x in before
  {
    forall x | x in after ensures x in before && AtMost(least, x) {
      assert x in multiset(after);
      assert x in multiset(before);
      var i :| 0 <= i < |before| && before[i] == x;
      RootIsLeast(before, i);
    }
    forall x | x in multiset(after) ensures multiset(after)[x] == 1 {
      assert multiset(before)[x] == 1;
    }
  }

  /** Two pops in a row give what one pop of both limits gives. */
  method PopTwice(q: SettlementQueue, p: SettlementQueue, a: nat, b: nat) returns (one: seq<Item>, two: seq<Item>, both: seq<Item>)
    requires q.Valid() && p.Valid() && q != p && q.Items() == p.Items()
    modifies q, p
    ensures one + two == both && q.Items() == p.Items()
  {
    ghost var items := q.Items();
    assert |q.heap| == |items| == |p.heap|;
    one := q.Pop(a);
    ghost var middle := q.Items();
    two := q.Pop(b);
    both := p.Pop(a + b);
    TakesCompose(items, one, middle, two, q.Items());
    TakesUnique(items, one + two, q.Items(), both, p.Items());
  }
}

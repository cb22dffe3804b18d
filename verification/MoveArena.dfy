/**
 The move-node arena of the micro-controller.  All nodes live in one block; a free list and any
 number of queues are threaded through their `next` links.  A node is named by its index in the
 block, and NIL stands for a null pointer.
 */
module MoveArena {

  const NIL := -1
  const MAX_CHUNKS := 4096

  /** Following `next` from `head` visits exactly the nodes of s, in order. */
  ghost predicate Chain(next: seq<int>, head: int, s: seq<int>)
    decreases s
  {
    if s == [] then head == NIL
    else 0 <= s[0] < |next| && head == s[0] && Chain(next, next[s[0]], s[1..])
  }

  ghost predicate NoRepeats(s: seq<int>) {
    forall i, j :: 0 <= i < j < |s| ==> s[i] != s[j]
  }

  lemma {:induction false} ChainInRange(next: seq<int>, head: int, s: seq<int>)
    requires Chain(next, head, s)
    ensures forall n :: n in s ==> 0 <= n < |next|
    decreases s
  {
    if s != [] {
      ChainInRange(next, next[s[0]], s[1..]);
      assert s == [s[0]] + s[1..];
    }
  }

  /** Rewriting the link of a node outside a chain leaves the chain alone. */
  lemma {:induction false} ChainFrame(next: seq<int>, head: int, s: seq<int>, n: int, v: int)
    requires Chain(next, head, s) && 0 <= n < |next| && n !in s
    ensures Chain(next[n := v], head, s)
    decreases s
  {
    if s != [] {
      assert s == [s[0]] + s[1..];
      ChainFrame(next, next[s[0]], s[1..], n, v);
    }
  }

  lemma {:induction false} ChainAppend(next: seq<int>, head: int, s: seq<int>, n: int)
    requires Chain(next, head, s) && NoRepeats(s) && s != [] && 0 <= n < |next| && n !in s && next[n] == NIL
    requires 0 <= s[|s| - 1] < |next|
    ensures Chain(next[s[|s| - 1] := n], head, s + [n])
    decreases s
  {
    var last := s[|s| - 1];
    var next' := next[last := n];
    assert (s + [n])[1..] == s[1..] + [n];
    if |s| == 1 {
      assert Chain(next', NIL, []);
      assert Chain(next', n, [n]);
    } else {
      assert s[1..][|s| - 2] == last;
      ChainAppend(next, next[s[0]], s[1..], n);
    }
  }

  // ---------------------------------------------------------------- ownership

  datatype Owner = Free | InQueue(q: nat) | Held

  /** s lists exactly the nodes with this owner, each once. */
  ghost predicate Lists(owner: seq<Owner>, o: Owner, s: seq<int>) {
    && NoRepeats(s)
    && (forall i :: 0 <= i < |s| ==> 0 <= s[i] < |owner| && owner[s[i]] == o)
    && forall n :: 0 <= n < |owner| && owner[n] == o ==> n in s
  }

  lemma ListsAppend(owner: seq<Owner>, o: Owner, s: seq<int>, n: int)
    requires Lists(owner, o, s) && 0 <= n < |owner| && owner[n] != o
    ensures Lists(owner[n := o], o, s + [n]) && Lists(owner[n := o], o, [n] + s) && n !in s
  {
  }

  lemma ListsTail(owner: seq<Owner>, o: Owner, s: seq<int>, o': Owner)
    requires Lists(owner, o, s) && s != [] && o' != o
    ensures 0 <= s[0] < |owner| && owner[s[0]] == o && Lists(owner[s[0] := o'], o, s[1..])
  {
    var owner', t := owner[s[0] := o'], s[1..];
    forall n | 0 <= n < |owner'| && owner'[n] == o
      ensures n in t
    {
      assert n in s;
    }
  }

  lemma ListsOther(owner: seq<Owner>, o: Owner, s: seq<int>, n: int, o': Owner)
    requires Lists(owner, o, s) && 0 <= n < |owner| && owner[n] != o && o' != o
    ensures Lists(owner[n := o'], o, s) && n !in s
  {
  }

  // ---------------------------------------------------------------- the arena as a value

  /** The links and list heads, and what they stand for. */
  datatype Shape = Shape(next: seq<int>, freeList: int, first: seq<int>, last: seq<int>,
                         owner: seq<Owner>, free: seq<int>, items: seq<seq<int>>)

  ghost predicate QueueOk(s: Shape, q: nat) {
    && q < |s.first| == |s.last| == |s.items|
    && Chain(s.next, s.first[q], s.items[q]) && Lists(s.owner, InQueue(q), s.items[q])
    && (s.items[q] != [] ==> s.last[q] == s.items[q][|s.items[q]| - 1])
  }

  /** Every node is free, in exactly one queue, or held by a caller, and the links agree. */
  ghost predicate Partition(s: Shape) {
    && |s.next| == |s.owner| && |s.first| == |s.last| == |s.items|
    && Chain(s.next, s.freeList, s.free) && Lists(s.owner, Free, s.free)
    && (forall n :: 0 <= n < |s.owner| && s.owner[n].InQueue? ==> s.owner[n].q < |s.items|)
    && forall q :: 0 <= q < |s.items| ==> QueueOk(s, q)
  }

  ghost predicate AllFree(s: Shape) {
    && (forall n :: 0 <= n < |s.owner| ==> s.owner[n] == Free)
    && (forall q :: 0 <= q < |s.items| ==> s.items[q] == [])
  }

  ghost function Allocated(s: Shape): Shape
    requires s.free != [] && 0 <= s.free[0] < |s.next| && |s.next| == |s.owner|
  {
    var n := s.free[0];
    s.(freeList := s.next[n], owner := s.owner[n := Held], free := s.free[1..])
  }

  ghost function Freed(s: Shape, n: nat): Shape
    requires n < |s.next| == |s.owner|
  {
    s.(next := s.next[n := s.freeList], freeList := n, owner := s.owner[n := Free], free := [n] + s.free)
  }

  ghost function Pushed(s: Shape, q: nat, n: nat): Shape
    requires Partition(s) && n < |s.owner| && q < |s.items|
  {
    assert QueueOk(s, q);
    var linked := s.next[n := NIL];
    var empty := s.items[q] == [];
    s.(next := if empty then linked else linked[s.last[q] := n],
       first := if empty then s.first[q := n] else s.first,
       last := s.last[q := n],
       owner := s.owner[n := InQueue(q)],
       items := s.items[q := s.items[q] + [n]])
  }

  ghost function Popped(s: Shape, q: nat): Shape
    requires Partition(s) && q < |s.items| && s.items[q] != []
  {
    assert QueueOk(s, q);
    var n := s.items[q][0];
    s.(first := s.first[q := s.next[n]], owner := s.owner[n := Held], items := s.items[q := s.items[q][1..]])
  }

  lemma AllocKeepsPartition(s: Shape)
    requires Partition(s) && s.free != []
    ensures s.freeList == s.free[0] && 0 <= s.free[0] < |s.next| && s.owner[s.free[0]] == Free
    ensures Partition(Allocated(s))
  {
    var n := s.free[0];
    ListsTail(s.owner, Free, s.free, Held);
    var t := Allocated(s);
    forall q | 0 <= q < |t.items|
      ensures QueueOk(t, q)
    {
      assert QueueOk(s, q);
      ListsOther(s.owner, InQueue(q), s.items[q], n, Held);
    }
  }

  lemma FreeKeepsPartition(s: Shape, n: nat)
    requires Partition(s) && n < |s.owner| && s.owner[n] == Held
    ensures Partition(Freed(s, n))
  {
    var t := Freed(s, n);
    ListsAppend(s.owner, Free, s.free, n);
    ChainFrame(s.next, s.freeList, s.free, n, s.freeList);
    assert t.free[1..] == s.free;
    forall q | 0 <= q < |t.items|
      ensures QueueOk(t, q)
    {
      assert QueueOk(s, q);
      ListsOther(s.owner, InQueue(q), s.items[q], n, Free);
      ChainFrame(s.next, s.first[q], s.items[q], n, s.freeList);
    }
  }

  lemma PopKeepsPartition(s: Shape, q: nat)
    requires Partition(s) && q < |s.items| && s.items[q] != []
    ensures s.first[q] == s.items[q][0] && 0 <= s.first[q] < |s.owner| && Partition(Popped(s, q))
  {
    assert QueueOk(s, q);
    var n := s.items[q][0];
    ListsTail(s.owner, InQueue(q), s.items[q], Held);
    var t := Popped(s, q);
    ListsOther(s.owner, Free, s.free, n, Held);
    forall r | 0 <= r < |t.items|
      ensures QueueOk(t, r)
    {
      assert QueueOk(s, r);
      if r != q {
        ListsOther(s.owner, InQueue(r), s.items[r], n, Held);
      }
    }
  }

  /** Two links are rewritten: that of the new node, and that of the last one in the queue. */
  lemma PushFrame(s: Shape, q: nat, n: nat, head: int, c: seq<int>)
    requires Partition(s) && n < |s.owner| && s.owner[n] == Held && q < |s.items|
    requires Chain(s.next, head, c) && n !in c && (forall x :: x in c ==> x !in s.items[q])
    ensures Chain(Pushed(s, q, n).next, head, c)
  {
    assert QueueOk(s, q);
    ChainFrame(s.next, head, c, n, NIL);
    if s.items[q] != [] {
      var last := s.last[q];
      assert last in s.items[q];
      ChainFrame(s.next[n := NIL], head, c, last, n);
    }
  }

  lemma PushOwnQueue(s: Shape, q: nat, n: nat)
    requires Partition(s) && n < |s.owner| && s.owner[n] == Held && q < |s.items|
    ensures QueueOk(Pushed(s, q, n), q)
    ensures s.items[q] != [] ==> 0 <= s.last[q] < |s.next|
  {
    assert QueueOk(s, q);
    var c := s.items[q];
    ListsAppend(s.owner, InQueue(q), c, n);
    ChainFrame(s.next, s.first[q], c, n, NIL);
    var linked := s.next[n := NIL];
    if c == [] {
      assert c + [n] == [n];
      assert Chain(linked, NIL, [n][1..]);
    } else {
      assert c[|c| - 1] == s.last[q];
      ChainAppend(linked, s.first[q], c, n);
    }
  }

  lemma PushKeepsPartition(s: Shape, q: nat, n: nat)
    requires Partition(s) && n < |s.owner| && s.owner[n] == Held && q < |s.items|
    ensures Partition(Pushed(s, q, n))
    ensures s.items[q] != [] ==> 0 <= s.last[q] < |s.next|
  {
    var t := Pushed(s, q, n);
    PushOwnQueue(s, q, n);
    assert QueueOk(s, q);
    ListsOther(s.owner, Free, s.free, n, InQueue(q));
    PushFrame(s, q, n, s.freeList, s.free);
    forall r | 0 <= r < |t.items|
      ensures QueueOk(t, r)
    {
      if r != q {
        assert QueueOk(s, r);
        ListsOther(s.owner, InQueue(r), s.items[r], n, InQueue(q));
        PushFrame(s, q, n, s.first[r], s.items[r]);
      }
    }
  }

  // ---------------------------------------------------------------- the arena in memory

  /** alloc_chunks: as many chunks as fit, up to the number wanted. */
  method AllocChunks(size: nat, count: nat, room: nat) returns (canAlloc: nat)
    requires size > 0
    ensures canAlloc <= count && canAlloc * size <= room && (canAlloc == count || (canAlloc + 1) * size > room)
  {
    canAlloc := 0;
    var p := 0;
    while canAlloc < count && p + size <= room
      invariant canAlloc <= count && p == canAlloc * size && p <= room
      decreases count - canAlloc
    {
      canAlloc := canAlloc + 1;
      p := p + size;
    }
    assert (canAlloc + 1) * size == p + size;
  }

  /** What each shutdown handler does to the move queues. */
  datatype Handler = MoveReset | QueueClear(q: nat)

  class Arena {
    var next: array<int>
    var moveCount: nat
    var freeList: int
    var first: seq<int>            // the queue heads
    var last: seq<int>
    ghost var owner: seq<Owner>
    ghost var free: seq<int>
    ghost var items: seq<seq<int>>

    ghost function Snapshot(): Shape
      reads this, next
    {
      Shape(next[..], freeList, first, last, owner, free, items)
    }

    ghost predicate Valid()
      reads this, next
    {
      moveCount == next.Length && Partition(Snapshot())
    }

    /** Before the configuration is finalized there are queues, but no nodes. */
    constructor (queues: nat)
      ensures Valid() && AllFree(Snapshot()) && moveCount == 0 && |items| == queues
    {
      next := new int[0];
      moveCount, freeList := 0, NIL;
      first := seq(queues, _ => NIL);
      last := seq(queues, _ => NIL);
      owner, free, items := [], [], seq(queues, _ => []);
      new;
      assert forall q :: 0 <= q < queues ==> QueueOk(Snapshot(), q);
    }

    /** move_reset: thread every node onto the free list. */
    method Reset()
      requires moveCount == next.Length
      modifies `freeList, `free, next
      ensures moveCount > 0 ==> Chain(next[..], freeList, free) && free == Upto(moveCount)
      ensures moveCount == 0 ==> freeList == old(freeList) && free == old(free)
    {
      if moveCount == 0 {
        return;
      }
      for i := 0 to moveCount - 1
        invariant forall j :: 0 <= j < i ==> next[j] == j + 1
      {
        next[i] := i + 1;
      }
      next[moveCount - 1] := NIL;
      freeList := 0;
      free := Upto(moveCount);
      UptoChain(next[..], 0);
      assert free[0..] == free;
    }

    /** move_finalize: carve the nodes out of the remaining memory, once; fails when none fits. */
    method Finalize(itemSize: nat, room: nat) returns (ok: bool)
      requires Valid() && itemSize > 0
      modifies this
      ensures Valid() && (ok <==> old(moveCount) == 0 && itemSize <= room)
      ensures ok ==> AllFree(Snapshot()) && |items| == |old(items)|
      ensures ok ==> 0 < moveCount <= MAX_CHUNKS && moveCount * itemSize <= room
      ensures !ok ==> moveCount == old(moveCount)
    {
      hide Partition, AllFree, Chain, Upto, Lists, QueueOk;
      if moveCount > 0 {
        return false;
      }
      var count := AllocChunks(itemSize, MAX_CHUNKS, room);
      if count == 0 {
        return false;
      }
      ghost var before := Snapshot();
      next := new int[count];
      moveCount := count;
      Reset();
      owner := seq(count, _ => Owner.Free);
      FinalizedIsPartition(before, Snapshot());
      ok := true;
    }

    /** move_alloc: fails when the free list is empty. */
    method Alloc() returns (n: int)
      requires Valid()
      modifies `freeList, `owner, `free
      ensures Valid() && (n == NIL <==> old(free) == [])
      ensures if n == NIL then Snapshot() == old(Snapshot())
              else n == old(free[0]) && Snapshot() == Allocated(old(Snapshot()))
    {
      n := freeList;
      if n == NIL {
        return;
      }
      AllocKeepsPartition(Snapshot());
      freeList := next[n];
      owner, free := owner[n := Held], free[1..];
    }

    /** move_free */
    method Free(n: nat)
      requires Valid() && n < |owner| && owner[n] == Held
      modifies next, `freeList, `owner, `free
      ensures Valid() && Snapshot() == Freed(old(Snapshot()), n)
    {
      FreeKeepsPartition(Snapshot(), n);
      next[n] := freeList;
      freeList := n;
      owner, free := owner[n := Owner.Free], [n] + free;
    }

    /** move_queue_push: tells whether the queue was empty. */
    method Push(n: nat, q: nat) returns (wasEmpty: bool)
      requires Valid() && n < |owner| && owner[n] == Held && q < |items|
      modifies next, `first, `last, `owner, `items
      ensures Valid() && Snapshot() == Pushed(old(Snapshot()), q, n) && wasEmpty == (old(items[q]) == [])
    {
      assert QueueOk(Snapshot(), q);
      PushKeepsPartition(Snapshot(), q, n);
      next[n] := NIL;
      wasEmpty := first[q] == NIL;
      if !wasEmpty {
        next[last[q]] := n;
        last := last[q := n];
      } else {
        first := first[q := n];
        last := last[q := n];
      }
      owner, items := owner[n := InQueue(q)], items[q := items[q] + [n]];
    }

    /** move_queue_pop: the caller makes sure there is something to pop. */
    method Pop(q: nat) returns (n: int)
      requires Valid() && q < |items| && items[q] != []
      modifies `first, `owner, `items
      ensures Valid() && n == old(items[q][0]) && Snapshot() == Popped(old(Snapshot()), q)
    {
      PopKeepsPartition(Snapshot(), q);
      n := first[q];
      first := first[q := next[n]];
      owner, items := owner[n := Held], items[q := items[q][1..]];
    }

    /** move_queue_empty and move_queue_first */
    method Peek(q: nat) returns (n: int)
      requires Valid() && q < |items|
      ensures n == if items[q] == [] then NIL else items[q][0]
    {
      assert QueueOk(Snapshot(), q);
      n := first[q];
    }

    /**
     Emergency stop: the shutdown handlers run once each, in any order.  Afterwards every node is
     on the free list exactly once and all queues are empty, whatever was held or queued before.
     */
    method RunShutdown(order: seq<Handler>)
      requires moveCount == next.Length && |first| == |last| == |items| && (moveCount == 0 ==> freeList == NIL)
      requires MoveReset in order && forall q :: 0 <= q < |items| ==> QueueClear(q) in order
      modifies this, next
      ensures Valid() && AllFree(Snapshot()) && |items| == |old(items)| && moveCount == old(moveCount)
    {
      for i := 0 to |order|
        invariant moveCount == next.Length == old(moveCount) && |first| == |last| == |items| == |old(items)|
        invariant next == old(next) && items == old(items)
        invariant moveCount == 0 ==> freeList == NIL
        invariant moveCount > 0 && MoveReset in order[..i] ==>
                    Chain(next[..], freeList, free) && free == Upto(moveCount)
        invariant forall q :: 0 <= q < |first| && QueueClear(q) in order[..i] ==> first[q] == NIL
      {
        assert order[..i + 1] == order[..i] + [order[i]];
        match order[i]
        case MoveReset => Reset();
        case QueueClear(q) =>
          if q < |first| {
            first := first[q := NIL];
          }
      }
      assert order[..|order|] == order;
      if moveCount == 0 {
        free := [];
      }
      owner := seq(moveCount, _ => Owner.Free);
      items := seq(|first|, _ => []);
      AllFreeIsPartition(Snapshot());
    }
  }

  ghost function Upto(n: nat): seq<int> {
    seq(n, i => i)
  }

  lemma {:induction false} UptoChain(next: seq<int>, i: nat)
    requires i <= |next| && |next| > 0
    requires (forall j :: 0 <= j < |next| - 1 ==> next[j] == j + 1) && next[|next| - 1] == NIL
    ensures Chain(next, if i < |next| then i else NIL, Upto(|next|)[i..])
    decreases |next| - i
  {
    if i < |next| {
      UptoChain(next, i + 1);
      assert Upto(|next|)[i..][1..] == Upto(|next|)[i + 1..];
    }
  }

  /** Without nodes every queue is empty. */
  lemma EmptyQueues(s: Shape)
    requires Partition(s) && s.next == []
    ensures forall q :: 0 <= q < |s.items| ==> s.items[q] == [] && s.first[q] == NIL
  {
    forall q | 0 <= q < |s.items|
      ensures s.items[q] == [] && s.first[q] == NIL
    {
      assert QueueOk(s, q);
    }
  }

  lemma FinalizedIsPartition(s: Shape, t: Shape)
    requires Partition(s) && s.next == [] && t.items == s.items && t.first == s.first && t.last == s.last
    requires |t.next| == |t.owner| && forall n :: 0 <= n < |t.owner| ==> t.owner[n] == Free
    requires Chain(t.next, t.freeList, t.free) && t.free == Upto(|t.next|)
    ensures Partition(t) && AllFree(t)
  {
    EmptyQueues(s);
    AllFreeIsPartition(t);
  }

  lemma AllFreeIsPartition(s: Shape)
    requires |s.next| == |s.owner| && |s.first| == |s.last| == |s.items| && AllFree(s)
    requires Chain(s.next, s.freeList, s.free) && s.free == Upto(|s.next|)
    requires forall q :: 0 <= q < |s.first| ==> s.first[q] == NIL
    ensures Partition(s)
  {
    forall n | 0 <= n < |s.owner|
      ensures n in s.free
    {
      assert s.free[n] == n;
    }
    forall q | 0 <= q < |s.items|
      ensures QueueOk(s, q)
    {
      assert s.items[q] == [];
    }
  }

  // ---------------------------------------------------------------- whole runs

  /** A node is taken from the free list, put in a queue, taken from one, or given back. */
  datatype Op = Take | Put(n: nat, q: nat) | Get(q: nat) | Give(n: nat)

  /** Callers put and give only what they hold, and take from a queue only when something is there. */
  ghost predicate Legal(s: Shape, op: Op) {
    match op
    case Take => true
    case Put(n, q) => n < |s.owner| && s.owner[n] == Held && q < |s.items|
    case Get(q) => q < |s.items| && s.items[q] != []
    case Give(n) => n < |s.owner| && s.owner[n] == Held
  }

  ghost function Next(s: Shape, op: Op): (t: Shape)
    requires Partition(s) && Legal(s, op)
    ensures Partition(t) && |t.items| == |s.items|
  {
    match op
    case Take => if s.free == [] then s else (AllocKeepsPartition(s); Allocated(s))
    case Put(n, q) => PushKeepsPartition(s, q, n); Pushed(s, q, n)
    case Get(q) => PopKeepsPartition(s, q); Popped(s, q)
    case Give(n) => FreeKeepsPartition(s, n); Freed(s, n)
  }

  ghost predicate Runnable(s: Shape, ops: seq<Op>)
    requires Partition(s)
    decreases |ops|, 0
  {
    ops == [] || (Runnable(s, ops[..|ops| - 1]) && Legal(AfterAll(s, ops[..|ops| - 1]), ops[|ops| - 1]))
  }

  ghost function AfterAll(s: Shape, ops: seq<Op>): (t: Shape)
    requires Partition(s) && Runnable(s, ops)
    ensures Partition(t)
    decreases |ops|, 1
  {
    if ops == [] then s else Next(AfterAll(s, ops[..|ops| - 1]), ops[|ops| - 1])
  }

  /** The nodes put in a queue, in order. */
  ghost function PutsTo(ops: seq<Op>, q: nat): seq<int> {
    if ops == [] then [] else
    var op := ops[|ops| - 1];
    PutsTo(ops[..|ops| - 1], q) + if op.Put? && op.q == q then [op.n] else []
  }

  /** The nodes taken from a queue, in order; `out` are the results of all operations. */
  ghost function GotFrom(ops: seq<Op>, out: seq<int>, q: nat): seq<int>
    requires |out| == |ops|
  {
    if ops == [] then [] else
    var op, n := ops[|ops| - 1], |ops| - 1;
    GotFrom(ops[..n], out[..n], q) + if op.Get? && op.q == q then [out[n]] else []
  }

  /** A node is free, held, or in one queue; an operation moves one node, and moves it to the end of a queue. */
  lemma NextMeans(s: Shape, op: Op, q: nat)
    requires Partition(s) && Legal(s, op) && q < |s.items|
    ensures var t := Next(s, op);
            && |t.items| == |s.items| && |t.owner| == |s.owner|
            && (op.Put? && op.q == q ==> t.items[q] == s.items[q] + [op.n])
            && (op.Get? && op.q == q ==> s.items[q] == [s.items[q][0]] + t.items[q])
            && (!(op.Put? && op.q == q) && !(op.Get? && op.q == q) ==> t.items[q] == s.items[q])
            && (op.Give? ==> t.owner == s.owner[op.n := Free])
            && (op.Take? && s.free != [] ==> 0 <= s.free[0] < |s.owner| && t.owner == s.owner[s.free[0] := Held])
  {
    if op.Take? && s.free != [] {
      AllocKeepsPartition(s);
    }
  }

  /** Any run of operations on the linked nodes: every queue gives out its nodes in the order they were put in. */
  method RunArena(arena: Arena, ops: seq<Op>) returns (out: seq<int>)
    requires arena.Valid() && Runnable(arena.Snapshot(), ops)
    modifies arena, arena.next
    ensures arena.Valid() && arena.next == old(arena.next) && old(Partition(arena.Snapshot()))
    ensures |out| == |ops| && arena.Snapshot() == AfterAll(old(arena.Snapshot()), ops)
    ensures |arena.items| == |old(arena.items)|
    ensures forall q :: 0 <= q < |arena.items| ==>
              GotFrom(ops, out, q) + arena.items[q] == old(arena.items)[q] + PutsTo(ops, q)
  {
    hide Partition, Next, Runnable, GotFrom, PutsTo, Legal;
    ghost var s := arena.Snapshot();
    out := [];
    RunStarts(s, ops);
    for i := 0 to |ops|
      invariant arena.Valid() && arena.next == old(arena.next) && Partition(s) && |out| == i
      invariant Runnable(s, ops[..i]) && arena.Snapshot() == AfterAll(s, ops[..i])
      invariant |arena.items| == |s.items|
      invariant forall q :: 0 <= q < |s.items| ==>
                  GotFrom(ops[..i], out, q) + arena.items[q] == s.items[q] + PutsTo(ops[..i], q)
    {
      RunGoesOn(s, ops, i);
      ghost var was := arena.Snapshot();
      var n := Perform(arena, ops[i]);
      forall q | 0 <= q < |s.items|
        ensures GotFrom(ops[..i + 1], out + [n], q) + arena.items[q] == s.items[q] + PutsTo(ops[..i + 1], q)
      {
        QueueGoesOn(s, ops, i, out, n, was, q);
      }
      out := out + [n];
    }
    assert ops[..|ops|] == ops;
  }

  method Perform(arena: Arena, op: Op) returns (n: int)
    requires arena.Valid() && Legal(arena.Snapshot(), op)
    modifies arena, arena.next
    ensures arena.Valid() && arena.next == old(arena.next) && old(Partition(arena.Snapshot()))
    ensures arena.Snapshot() == Next(old(arena.Snapshot()), op)
    ensures op.Get? ==> n == old(arena.items[op.q][0])
  {
    hide Partition;
    n := NIL;
    match op
    case Take => n := arena.Alloc();
    case Put(m, q) => var _ := arena.Push(m, q);
    case Get(q) => n := arena.Pop(q);
    case Give(m) => arena.Free(m);
  }

  lemma RunStarts(s: Shape, ops: seq<Op>)
    requires Partition(s)
    ensures Runnable(s, ops[..0]) && AfterAll(s, ops[..0]) == s
    ensures forall q :: GotFrom(ops[..0], [], q) == [] && PutsTo(ops[..0], q) == []
  {
  }

  lemma {:induction false} RunGoesOn(s: Shape, ops: seq<Op>, i: nat)
    requires Partition(s) && Runnable(s, ops) && i < |ops|
    ensures Runnable(s, ops[..i]) && Legal(AfterAll(s, ops[..i]), ops[i])
    ensures Runnable(s, ops[..i + 1]) && AfterAll(s, ops[..i + 1]) == Next(AfterAll(s, ops[..i]), ops[i])
    decreases |ops|
  {
    hide Partition, Next, Legal;
    assert ops[..i + 1][..i] == ops[..i];
    if i < |ops| - 1 {
      RunGoesOn(s, ops[..|ops| - 1], i);
      assert ops[..|ops| - 1][..i] == ops[..i] && ops[..|ops| - 1][..i + 1] == ops[..i + 1];
    } else {
      assert ops[..i + 1] == ops;
    }
  }

  lemma QueueGoesOn(s: Shape, ops: seq<Op>, i: nat, out: seq<int>, n: int, t: Shape, q: nat)
    requires i < |ops| && |out| == i && Partition(t) && Legal(t, ops[i]) && q < |s.items| == |t.items|
    requires GotFrom(ops[..i], out, q) + t.items[q] == s.items[q] + PutsTo(ops[..i], q)
    requires ops[i].Get? ==> n == t.items[ops[i].q][0]
    ensures |Next(t, ops[i]).items| == |t.items|
    ensures GotFrom(ops[..i + 1], out + [n], q) + Next(t, ops[i]).items[q] == s.items[q] + PutsTo(ops[..i + 1], q)
  {
    hide Partition, Next;
    NextMeans(t, ops[i], q);
    assert ops[..i + 1][..i] == ops[..i] && (out + [n])[..i] == out;
    var got, puts, now := GotFrom(ops[..i], out, q), PutsTo(ops[..i], q), Next(t, ops[i]).items[q];
    assert got + [] == got && puts + [] == puts;
    if ops[i].Get? && ops[i].q == q {
      assert got + [n] + now == got + ([n] + now);
    } else if ops[i].Put? && ops[i].q == q {
      assert got + (t.items[q] + [ops[i].n]) == got + t.items[q] + [ops[i].n];
      assert s.items[q] + puts + [ops[i].n] == s.items[q] + (puts + [ops[i].n]);
    }
  }
}

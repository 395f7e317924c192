/** The pool of bus buffers (BSP/wcn_bus.c): a singly linked free list threaded through an array
    of mbufs, from which lists are taken and to which they are given back. */
module MbufPool {
  import opened Common

  const NULL := -1

  function After(l: seq<int>, i: int): int
    requires 0 <= i < |l|
  {
    if i + 1 < |l| then l[i + 1] else NULL
  }

  /** `l` is a NULL-terminated chain of `next` links. */
  predicate Linked(next: seq<int>, l: seq<int>) {
    forall i :: 0 <= i < |l| ==> 0 <= l[i] < |next| && next[l[i]] == After(l, i)
  }

  function First(l: seq<int>): int {
    if l == [] then NULL else l[0]
  }

  function Last(l: seq<int>): int {
    if l == [] then NULL else l[|l| - 1]
  }

  // ---------------------------------------------------------------------
  // The pool as lists of indices

  /** The free chain and the lists handed out. */
  datatype Pool = Pool(chain: seq<int>, lent: seq<seq<int>>)

  function Bag(lent: seq<seq<int>>): multiset<int> {
    if lent == [] then multiset{} else Bag(lent[..|lent| - 1]) + multiset(lent[|lent| - 1])
  }

  /** How often mbuf `x` occurs in the pool's lists. */
  function Occurs(p: Pool, x: int): nat {
    multiset(p.chain)[x] + Bag(p.lent)[x]
  }

  /** Every mbuf is in exactly one place. */
  ghost predicate Partition(p: Pool, size: nat) {
    forall x: int :: Occurs(p, x) == if 0 <= x < size then 1 else 0
  }

  function Alloc(p: Pool, n: nat): Pool
    requires n <= |p.chain|
  {
    Pool(p.chain[n..], p.lent + [p.chain[..n]])
  }

  /** As many as wanted, or as there are. */
  function TakeUpTo(p: Pool, num: int): Pool
    requires num > 0
  {
    var n := Min(num, |p.chain|);
    if n == 0 then p else Alloc(p, n)
  }

  function Without(lent: seq<seq<int>>, k: nat): seq<seq<int>>
    requires k < |lent|
  {
    lent[..k] + lent[k + 1..]
  }

  function Free(p: Pool, k: nat): Pool
    requires k < |p.lent|
  {
    Pool(p.lent[k] + p.chain, Without(p.lent, k))
  }

  lemma {:induction false} BagSplit(lent: seq<seq<int>>, k: nat, x: int)
    requires k < |lent|
    ensures Bag(lent)[x] == Bag(Without(lent, k))[x] + multiset(lent[k])[x]
    decreases |lent|
  {
    var n := |lent| - 1;
    if k == n {
      assert Without(lent, k) == lent[..n];
    } else {
      BagSplit(lent[..n], k, x);
      var w := Without(lent, k);
      assert w[..|w| - 1] == Without(lent[..n], k) && w[|w| - 1] == lent[n] && lent[..n][k] == lent[k];
    }
  }

  lemma AllocOccurs(p: Pool, n: nat, x: int)
    requires n <= |p.chain|
    ensures Occurs(Alloc(p, n), x) == Occurs(p, x)
  {
    assert p.chain == p.chain[..n] + p.chain[n..];
    var lent := p.lent + [p.chain[..n]];
    assert lent[..|lent| - 1] == p.lent;
  }

  lemma FreeOccurs(p: Pool, k: nat, x: int)
    requires k < |p.lent|
    ensures Occurs(Free(p, k), x) == Occurs(p, x)
  {
    BagSplit(p.lent, k, x);
  }

  /** Giving back the list just taken restores the pool. */
  lemma AllocFreeRoundTrip(p: Pool, n: nat)
    requires n <= |p.chain|
    ensures Free(Alloc(p, n), |p.lent|) == p
  {
    var a := Alloc(p, n);
    assert p.chain[..n] + p.chain[n..] == p.chain;
    assert Without(a.lent, |p.lent|) == p.lent;
  }

  datatype Event = Take(num: int) | Give(k: nat)

  predicate Enabled(p: Pool, e: Event) {
    match e
    case Take(num) => num > 0
    case Give(k) => k < |p.lent|
  }

  function Step(p: Pool, e: Event): Pool
    requires Enabled(p, e)
  {
    match e
    case Take(num) => TakeUpTo(p, num)
    case Give(k) => Free(p, k)
  }

  predicate EnabledRun(p: Pool, es: seq<Event>)
    decreases |es|
  {
    es == [] || (Enabled(p, es[0]) && EnabledRun(Step(p, es[0]), es[1..]))
  }

  function Run(p: Pool, es: seq<Event>): Pool
    requires EnabledRun(p, es)
    decreases |es|
  {
    if es == [] then p else Run(Step(p, es[0]), es[1..])
  }

  /** Over every run of taking and giving back lists each mbuf stays in exactly one place. */
  lemma {:induction false} PartitionTheorem(p: Pool, es: seq<Event>, size: nat)
    requires Partition(p, size) && EnabledRun(p, es)
    ensures Partition(Run(p, es), size)
    decreases |es|
  {
    if es != [] {
      var p' := Step(p, es[0]);
      forall x: int ensures Occurs(p', x) == Occurs(p, x) {
        match es[0] {
          case Take(num) => AllocOccurs(p, Min(num, |p.chain|), x);
          case Give(k) => FreeOccurs(p, k, x);
        }
      }
      PartitionTheorem(p', es[1..], size);
    }
  }

  // ---------------------------------------------------------------------
  // Consequences of the partition for the links

  lemma Positions(l: seq<int>, i: int, j: int)
    requires 0 <= i < j < |l| && l[i] == l[j]
    ensures multiset(l)[l[i]] >= 2
  {
    assert l == l[..j] + [l[j]] + l[j + 1..];
    assert l[i] in l[..j];
    assert multiset(l) == multiset(l[..j]) + multiset{l[j]} + multiset(l[j + 1..]);
  }

  lemma InBag(lent: seq<seq<int>>, k: nat, x: int)
    requires k < |lent| && x in lent[k]
    ensures Bag(lent)[x] >= 1
  {
    BagSplit(lent, k, x);
  }

  /** The mbuf at position `i` of the free chain is nowhere else. */
  lemma ChainAlone(p: Pool, size: nat, i: nat)
    requires Partition(p, size) && i < |p.chain|
    ensures 0 <= p.chain[i] < size
    ensures forall j :: 0 <= j < |p.chain| && j != i ==> p.chain[j] != p.chain[i]
    ensures forall k :: 0 <= k < |p.lent| ==> p.chain[i] !in p.lent[k]
  {
    var x := p.chain[i];
    assert Occurs(p, x) >= 1;
    forall j | 0 <= j < |p.chain| && j != i ensures p.chain[j] != x {
      if p.chain[j] == x {
        Positions(p.chain, if i < j then i else j, if i < j then j else i);
      }
    }
    forall k | 0 <= k < |p.lent| ensures x !in p.lent[k] {
      if x in p.lent[k] {
        InBag(p.lent, k, x);
      }
    }
  }

  /** Writing the link of an mbuf leaves chains without it alone. */
  lemma OtherChain(next: seq<int>, l: seq<int>, x: int, v: int)
    requires Linked(next, l) && 0 <= x < |next| && x !in l
    ensures Linked(next[x := v], l)
  {
  }

  lemma CutChain(next: seq<int>, l: seq<int>, n: nat)
    requires Linked(next, l) && 0 < n <= |l| && forall j :: 0 <= j < |l| && j != n - 1 ==> l[j] != l[n - 1]
    ensures Linked(next[l[n - 1] := NULL], l[..n]) && Linked(next[l[n - 1] := NULL], l[n..])
  {
    var next', rest := next[l[n - 1] := NULL], l[n..];
    forall i | 0 <= i < |rest| ensures 0 <= rest[i] < |next'| && next'[rest[i]] == After(rest, i) {
      assert rest[i] == l[n + i] && After(rest, i) == After(l, n + i);
    }
  }

  lemma JoinChain(next: seq<int>, l: seq<int>, m: seq<int>)
    requires Linked(next, l) && Linked(next, m) && l != []
    requires forall j :: 0 <= j < |l| - 1 ==> l[j] != Last(l)
    requires Last(l) !in m
    ensures Linked(next[Last(l) := First(m)], l + m)
  {
    var next', s := next[Last(l) := First(m)], l + m;
    forall i | 0 <= i < |s| ensures 0 <= s[i] < |next'| && next'[s[i]] == After(s, i) {
      if i < |l| - 1 {
        assert s[i] == l[i] && After(s, i) == After(l, i);
      } else if i == |l| - 1 {
        assert s[i] == Last(l);
      } else {
        var j := i - |l|;
        assert s[i] == m[j] && m[j] in m;
        assert After(s, i) == After(m, j);
      }
    }
  }

  // ---------------------------------------------------------------------
  // The links

  /** struct buffer_pool_t; the mbufs are named by their position in the pool's memory. */
  class BufferPool {
    const next: array<int>
    var head: int
    var free: int
    ghost var p: Pool

    ghost predicate Valid()
      reads this, next
    {
      && Linked(next[..], p.chain) && head == First(p.chain) && free == |p.chain|
      && (forall k :: 0 <= k < |p.lent| ==> p.lent[k] != [] && Linked(next[..], p.lent[k]))
      && Partition(p, next.Length)
    }

    /** buf_pool_init */
    constructor (size: nat)
      requires 0 < size
      ensures Valid() && p == Pool(seq(size, i => i), []) && next.Length == size && fresh(next)
    {
      var a := new int[size];
      var i := 0;
      while i < size - 1
        invariant 0 <= i <= size - 1 && forall k :: 0 <= k < i ==> a[k] == k + 1
      {
        a[i] := i + 1;
        i := i + 1;
      }
      a[i] := NULL;
      next, head, free := a, 0, size;
      p := Pool(seq(size, i => i), []);
      new;
      InitialPartition(size);
    }

    /** buf_list_alloc: `freeSeen` is what the unlocked test read, which may be out of date by the
        time the lock is held. */
    method ListAlloc(num: int, freeSeen: int) returns (ret: int, first: int, last: int, n: int)
      requires Valid()
      modifies this, next
      ensures Valid()
      ensures num <= 0 || freeSeen <= 0 ==> ret == -2 && n == 0 && first == last == NULL && p == old(p)
      ensures num > 0 && freeSeen > 0 ==>
        && ret == 0 && n == Min(num, |old(p.chain)|)
        && first == First(old(p.chain)[..n]) && last == Last(old(p.chain)[..n])
        && p == Step(old(p), Take(num))
    {
      if num <= 0 || freeSeen <= 0 {
        return -2, NULL, NULL, 0;
      }
      n := if num > free then free else num;
      var cur, i := head, 0;
      last := NULL;
      while i < n
        invariant 0 <= i <= n && cur == (if i < |p.chain| then p.chain[i] else NULL)
        invariant last == if i == n && n > 0 then p.chain[n - 1] else NULL
      {
        if i == n - 1 {
          last := cur;
        }
        cur := next[cur];
        i := i + 1;
      }
      first := head;
      if last != NULL {
        TakeLemma(next[..], p, next.Length, n);
        next[last] := NULL;
        p := Alloc(p, n);
      }
      free := free - n;
      head := cur;
      ret := 0;
      hide Partition;
    }

    /** buf_list_free for a list taken from this pool */
    method ListFree(first: int, last: int, num: int, ghost k: nat) returns (ret: int)
      requires Valid() && (first != NULL && last != NULL && num != 0 ==>
        k < |p.lent| && first == First(p.lent[k]) && last == Last(p.lent[k]) && num == |p.lent[k]|)
      modifies this, next
      ensures Valid()
      ensures first == NULL || last == NULL || num == 0 ==> ret == -2 && p == old(p)
      ensures first != NULL && last != NULL && num != 0 ==> ret == 0 && p == Step(old(p), Give(k))
    {
      if first == NULL || last == NULL || num == 0 {
        return -2;
      }
      GiveLemma(next[..], p, next.Length, k);
      next[last] := head;
      head := first;
      free := free + num;
      p := Free(p, k);
      ret := 0;
    }
  }

  lemma InitialPartition(size: nat)
    ensures Partition(Pool(seq(size, i => i), []), size)
  {
    var p := Pool(seq(size, i => i), []);
    forall x: int ensures Occurs(p, x) == if 0 <= x < size then 1 else 0 {
      RangeCount(size, x);
    }
  }

  lemma {:induction false} RangeCount(n: nat, x: int)
    ensures multiset(seq(n, i => i))[x] == if 0 <= x < n then 1 else 0
  {
    var s := seq(n, i => i);
    if n > 0 {
      RangeCount(n - 1, x);
      assert s == seq(n - 1, i => i) + [n - 1];
    } else {
      assert s == [];
    }
  }

  /** Taking the first `n` mbufs. */
  lemma TakeLemma(next: seq<int>, p: Pool, size: nat, n: nat)
    requires Partition(p, size) && |next| == size && Linked(next, p.chain) && 0 < n <= |p.chain|
    requires forall k :: 0 <= k < |p.lent| ==> p.lent[k] != [] && Linked(next, p.lent[k])
    ensures 0 <= p.chain[n - 1] < size
    ensures var next', p' := next[p.chain[n - 1] := NULL], Alloc(p, n);
      && Linked(next', p'.chain) && Partition(p', size)
      && forall k :: 0 <= k < |p'.lent| ==> p'.lent[k] != [] && Linked(next', p'.lent[k])
  {
    ChainAlone(p, size, n - 1);
    CutChain(next, p.chain, n);
    var next', p' := next[p.chain[n - 1] := NULL], Alloc(p, n);
    forall k | 0 <= k < |p'.lent| ensures p'.lent[k] != [] && Linked(next', p'.lent[k]) {
      if k < |p.lent| {
        OtherChain(next, p.lent[k], p.chain[n - 1], NULL);
      }
    }
    forall x: int ensures Occurs(p', x) == if 0 <= x < size then 1 else 0 {
      AllocOccurs(p, n, x);
    }
    hide Linked, Occurs;
  }

  /** The mbufs of a lent list are nowhere else. */
  lemma LentAlone(p: Pool, size: nat, k: nat, i: nat)
    requires Partition(p, size) && k < |p.lent| && i < |p.lent[k]|
    ensures var x := p.lent[k][i];
      && x !in p.chain
      && (forall j :: 0 <= j < |p.lent[k]| && j != i ==> p.lent[k][j] != x)
      && (forall m :: 0 <= m < |p.lent| && m != k ==> x !in p.lent[m])
  {
    var x, l := p.lent[k][i], p.lent[k];
    BagSplit(p.lent, k, x);
    assert Occurs(p, x) <= 1;
    forall j | 0 <= j < |l| && j != i ensures l[j] != x {
      if l[j] == x {
        Positions(l, if i < j then i else j, if i < j then j else i);
      }
    }
    forall m | 0 <= m < |p.lent| && m != k ensures x !in p.lent[m] {
      if x in p.lent[m] {
        InBag(Without(p.lent, k), if m < k then m else m - 1, x);
      }
    }
  }

  /** Giving back list `k`. */
  lemma GiveLemma(next: seq<int>, p: Pool, size: nat, k: nat)
    requires Partition(p, size) && |next| == size && Linked(next, p.chain) && k < |p.lent|
    requires forall m :: 0 <= m < |p.lent| ==> p.lent[m] != [] && Linked(next, p.lent[m])
    ensures 0 <= Last(p.lent[k]) < size
    ensures var next', p' := next[Last(p.lent[k]) := First(p.chain)], Free(p, k);
      && Linked(next', p'.chain) && Partition(p', size)
      && forall m :: 0 <= m < |p'.lent| ==> p'.lent[m] != [] && Linked(next', p'.lent[m])
  {
    var l := p.lent[k];
    var x := Last(l);
    LentAlone(p, size, k, |l| - 1);
    JoinChain(next, l, p.chain);
    var next', p' := next[x := First(p.chain)], Free(p, k);
    forall m | 0 <= m < |p'.lent| ensures p'.lent[m] != [] && Linked(next', p'.lent[m]) {
      var m0 := if m < k then m else m + 1;
      assert p'.lent[m] == p.lent[m0];
      OtherChain(next, p.lent[m0], x, First(p.chain));
    }
    forall y: int ensures Occurs(p', y) == if 0 <= y < size then 1 else 0 {
      FreeOccurs(p, k, y);
    }
    hide Occurs;
  }
}

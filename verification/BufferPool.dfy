/**
 The leaky buffer pool of pkg/buffer/buffer.go: a bounded queue of byte buffers that hands out a new
 one when it is empty and forgets a returned one when it is full.
 */
module BufferPool {
  import opened Base

  // --- who has which buffer ---

  /** Buffers are numbered in the order they were made, owners (connections, copies) in any way. held
      tells, for a buffer, whose gets of it were not put back by the same owner. */
  datatype State = State(queue: seq<nat>, held: map<nat, multiset<nat>>, made: nat)

  datatype Label = Get(o: nat) | Put(o: nat, b: nat)

  const INIT := State([], map[], 0)

  function Holders(s: State, b: nat): multiset<nat> {
    if b in s.held then s.held[b] else multiset{}
  }

  /** Any buffer ever made can be put back by anybody, whether he holds it or not. */
  predicate Enabled(s: State, l: Label) {
    l.Put? ==> l.b < s.made
  }

  function Take(s: State, o: nat, b: nat): map<nat, multiset<nat>> {
    s.held[b := Holders(s, b) + multiset{o}]
  }

  function Step(s: State, l: Label, max: nat): State
    requires Enabled(s, l)
  {
    match l
    case Get(o) =>
      if s.queue != [] then State(s.queue[1..], Take(s, o, s.queue[0]), s.made)
      else State([], Take(s, o, s.made), s.made + 1)
    case Put(o, b) =>
      State(if |s.queue| < max then s.queue + [b] else s.queue,
            s.held[b := Holders(s, b) - multiset{o}], s.made)
  }

  ghost predicate Execution(ls: seq<Label>, ss: seq<State>, max: nat) {
    && |ss| == |ls| + 1 && ss[0] == INIT
    && forall i | 0 <= i < |ls| :: Enabled(ss[i], ls[i]) && ss[i + 1] == Step(ss[i], ls[i], max)
  }

  ghost predicate Reachable(s: State, max: nat) {
    exists ls, ss :: Execution(ls, ss, max) && ss[|ls|] == s
  }

  /** The places a buffer is in: in the queue, and with each of its owners. */
  function Places(s: State, b: nat): nat {
    multiset(s.queue)[b] + |Holders(s, b)|
  }

  /** No buffer has two owners, or an owner while it waits in the pool. */
  ghost predicate Exclusive(s: State) {
    forall b: nat :: Places(s, b) <= 1
  }

  /** What a put has to be for ownership to stay exclusive. */
  predicate Harmless(s: State, l: Label, max: nat) {
    l.Put? ==> l.o in Holders(s, l.b) || Places(s, l.b) == 0 || |s.queue| >= max
  }

  lemma Head(q: seq<nat>, b: nat)
    requires q != []
    ensures multiset(q)[b] == multiset(q[1..])[b] + if b == q[0] then 1 else 0
  {
    assert q == [q[0]] + q[1..];
  }

  /** A get moves a buffer out of the queue or makes one; no buffer gains a place but a new one. */
  lemma GetPlaces(s: State, max: nat, o: nat, b: nat)
    ensures var s' := Step(s, Get(o), max);
            Places(s', b) == Places(s, b) + if s.queue == [] && b == s.made then 1 else 0
  {
    if s.queue != [] {
      Head(s.queue, b);
    }
  }

  lemma PutPlaces(s: State, max: nat, o: nat, p: nat, b: nat)
    requires p < s.made
    ensures var s' := Step(s, Put(o, p), max);
            Places(s', b) == Places(s, b) - (if b == p && o in Holders(s, p) then 1 else 0)
                             + (if b == p && |s.queue| < max then 1 else 0)
  {
    var s' := Step(s, Put(o, p), max);
    Give(Holders(s, p), o);
    assert Holders(s', p) == Holders(s, p) - multiset{o};
    if b != p {
      assert Holders(s', b) == Holders(s, b);
    }
  }

  lemma Give(m: multiset<nat>, o: nat)
    ensures |m - multiset{o}| == |m| - if o in m then 1 else 0
  {
    if o in m {
      assert m == (m - multiset{o}) + multiset{o};
    } else {
      assert m - multiset{o} == m;
    }
  }

  /** A put keeps ownership exclusive exactly when the one who puts holds the buffer, or nobody has it
      and it is not in the queue, or there is no room. */
  lemma PutKeepsExactly(s: State, max: nat, o: nat, p: nat)
    requires Exclusive(s) && p < s.made
    ensures Exclusive(Step(s, Put(o, p), max)) <==>
              o in Holders(s, p) || (Holders(s, p) == multiset{} && p !in s.queue) || |s.queue| >= max
  {
    var s' := Step(s, Put(o, p), max);
    forall b: nat | b != p ensures Places(s', b) <= 1 {
      PutPlaces(s, max, o, p, b);
      assert Places(s, b) <= 1;
    }
    PutPlaces(s, max, o, p, p);
    assert Places(s, p) <= 1;
    assert Places(s', p) <= 1 <==> Harmless(s, Put(o, p), max);
  }

  /** Buffers not made yet are nowhere. */
  ghost predicate Inv(s: State, max: nat) {
    |s.queue| <= max && forall b: nat :: b >= s.made ==> Places(s, b) == 0
  }

  lemma StepKeepsInv(s: State, l: Label, max: nat)
    requires Inv(s, max) && Enabled(s, l)
    ensures Inv(Step(s, l, max), max)
  {
    forall b: nat | b >= Step(s, l, max).made ensures Places(Step(s, l, max), b) == 0 {
      assert b >= s.made ==> Places(s, b) == 0;
      if l.Get? {
        GetPlaces(s, max, l.o, b);
      } else {
        PutPlaces(s, max, l.o, l.b, b);
      }
    }
  }

  /** A step from an exclusive state leads to an exclusive one exactly when it is harmless. */
  lemma StepKeepsExactly(s: State, l: Label, max: nat)
    requires Inv(s, max) && Exclusive(s) && Enabled(s, l)
    ensures Exclusive(Step(s, l, max)) <==> Harmless(s, l, max)
  {
    if l.Get? {
      forall b: nat ensures Places(Step(s, l, max), b) <= 1 {
        GetPlaces(s, max, l.o, b);
        assert Places(s, b) <= 1 && (b >= s.made ==> Places(s, b) == 0);
      }
    } else {
      PutKeepsExactly(s, max, l.o, l.b);
    }
  }

  lemma {:induction false} ExecutionInv(ls: seq<Label>, ss: seq<State>, max: nat, n: nat)
    requires Execution(ls, ss, max) && n <= |ls|
    ensures Inv(ss[n], max)
  {
    if n > 0 {
      ExecutionInv(ls, ss, max, n - 1);
      StepKeepsInv(ss[n - 1], ls[n - 1], max);
    }
  }

  lemma {:induction false} HarmlessRun(ls: seq<Label>, ss: seq<State>, max: nat, n: nat)
    requires Execution(ls, ss, max) && n <= |ls| && forall i | 0 <= i < n :: Harmless(ss[i], ls[i], max)
    ensures Exclusive(ss[n])
  {
    if n > 0 {
      HarmlessRun(ls, ss, max, n - 1);
      ExecutionInv(ls, ss, max, n - 1);
      StepKeepsExactly(ss[n - 1], ls[n - 1], max);
    }
  }

  /** Over a whole run every buffer always has at most one place exactly when every put is harmless at
      its time. */
  lemma ExclusiveExactly(ls: seq<Label>, ss: seq<State>, max: nat)
    requires Execution(ls, ss, max)
    ensures (forall n | 0 <= n <= |ls| :: Exclusive(ss[n]))
            <==> (forall n | 0 <= n < |ls| :: Harmless(ss[n], ls[n], max))
  {
    if forall n | 0 <= n < |ls| :: Harmless(ss[n], ls[n], max) {
      forall n | 0 <= n <= |ls| ensures Exclusive(ss[n]) {
        HarmlessRun(ls, ss, max, n);
      }
    } else if forall n | 0 <= n <= |ls| :: Exclusive(ss[n]) {
      forall n | 0 <= n < |ls| ensures Harmless(ss[n], ls[n], max) {
        ExecutionInv(ls, ss, max, n);
        assert Exclusive(ss[n]) && Exclusive(ss[n + 1]);
        StepKeepsExactly(ss[n], ls[n], max);
      }
    }
  }

  /** As long as every put is by an owner of the buffer, each has one owner or waits in the pool once,
      and the pool never holds more than its bound. */
  lemma OwnersKeepItExclusive(ls: seq<Label>, ss: seq<State>, max: nat)
    requires Execution(ls, ss, max)
    requires forall i | 0 <= i < |ls| && ls[i].Put? :: ls[i].o in Holders(ss[i], ls[i].b)
    ensures Exclusive(ss[|ls|]) && |ss[|ls|].queue| <= max
  {
    HarmlessRun(ls, ss, max, |ls|);
    ExecutionInv(ls, ss, max, |ls|);
  }

  // --- closing a wsConn twice ---

  lemma Next(s: State, l: Label, max: nat)
    requires Reachable(s, max) && Enabled(s, l)
    ensures Reachable(Step(s, l, max), max)
  {
    var ls, ss :| Execution(ls, ss, max) && ss[|ls|] == s;
    var (ls', ss') := (ls + [l], ss + [Step(s, l, max)]);
    assert ss'[0] == INIT;
    forall i | 0 <= i < |ls'| ensures Enabled(ss'[i], ls'[i]) && ss'[i + 1] == Step(ss'[i], ls'[i], max) {
      if i < |ls| {
        assert ls'[i] == ls[i] && ss'[i] == ss[i] && ss'[i + 1] == ss[i + 1];
      }
    }
    assert Execution(ls', ss', max) && ss'[|ls'|] == Step(s, l, max);
  }

  lemma Alone(o: nat)
    ensures multiset{} + multiset{o} == multiset{o}
  {
  }

  lemma FirstGet(max: nat, a: nat)
    ensures Reachable(State([], map[0 := multiset{a}], 1), max)
  {
    var none: seq<Label> := [];
    assert Execution(none, [INIT], max);
    Next(INIT, Get(a), max);
    Alone(a);
    assert Step(INIT, Get(a), max) == State([], map[0 := multiset{a}], 1);
  }

  lemma OneClose(max: nat, a: nat)
    requires max >= 1
    ensures Reachable(State([0], map[0 := multiset{}], 1), max)
  {
    FirstGet(max, a);
    var s := State([], map[0 := multiset{a}], 1);
    Next(s, Put(a, 0), max);
    assert multiset{a} - multiset{a} == multiset{} && s.queue + [0] == [0];
    assert Step(s, Put(a, 0), max) == State([0], map[0 := multiset{}], 1);
  }

  lemma SecondOwner(s: State, max: nat, b: nat, c: nat)
    requires Reachable(s, max) && s.queue != [] && s.queue[0] == 0 && Holders(s, 0) == multiset{b}
    ensures exists s' :: Reachable(s', max) && Holders(s', 0) == multiset{b, c}
  {
    Next(s, Get(c), max);
    assert multiset{b} + multiset{c} == multiset{b, c};
    assert Holders(Step(s, Get(c), max), 0) == multiset{b, c};
  }

  /** The owner a gets a buffer and closes twice in a row: the next two owners share the buffer. */
  lemma TwoClosesShare(max: nat, a: nat, b: nat, c: nat)
    requires max >= 2
    ensures exists s :: Reachable(s, max) && Holders(s, 0) == multiset{b, c}
  {
    OneClose(max, a);
    var none: multiset<nat> := multiset{};
    var s := State([0], map[0 := none], 1);
    Next(s, Put(a, 0), max);
    var s2 := State([0, 0], map[0 := multiset{}], 1);
    assert none - multiset{a} == none && s.queue + [0] == [0, 0];
    assert Step(s, Put(a, 0), max) == s2;
    Next(s2, Get(b), max);
    var s3 := State([0], map[0 := multiset{b}], 1);
    Alone(b);
    assert s2.queue[1..] == [0];
    assert Step(s2, Get(b), max) == s3;
    SecondOwner(s3, max, b, c);
  }

  /** The owner a closes, b gets the buffer, a closes once more, c gets it as well. */
  lemma LateCloseShares(max: nat, a: nat, b: nat, c: nat)
    requires max >= 1 && a != b
    ensures exists s :: Reachable(s, max) && Holders(s, 0) == multiset{b, c}
  {
    OneClose(max, a);
    var s := State([0], map[0 := multiset{}], 1);
    Next(s, Get(b), max);
    var s2 := State([], map[0 := multiset{b}], 1);
    Alone(b);
    assert Step(s, Get(b), max) == s2;
    Next(s2, Put(a, 0), max);
    var s3 := State([0], map[0 := multiset{b}], 1);
    assert multiset{b} - multiset{a} == multiset{b};
    assert s2.queue + [0] == [0];
    assert Step(s2, Put(a, 0), max) == s3;
    SecondOwner(s3, max, b, c);
  }

  // --- the object ---

  class BytePool {
    const size: nat
    const max: nat
    var c: seq<array<Byte>>

    /** Within its bound, and all buffers of the pool's width. */
    ghost predicate Valid()
      reads this
    {
      |c| <= max && forall b <- c :: b.Length == size
    }

    constructor (max: nat, size: nat)
      ensures Valid() && this.max == max && this.size == size && c == []
    {
      this.max, this.size, this.c := max, size, [];
    }

    /** The oldest buffer, or a new one. */
    method Get() returns (b: array<Byte>)
      requires Valid()
      modifies this
      ensures Valid() && b.Length == size
      ensures if old(c) == [] then fresh(b) && c == [] else old(c) == [b] + c
    {
      if c != [] {
        b := c[0];
        c := c[1..];
      } else {
        b := new Byte[size];
      }
    }

    method Put(b: array<Byte>)
      modifies this
      ensures c == if |old(c)| < max then old(c) + [b] else old(c)
      ensures old(Valid()) ==> (Valid() <==> b.Length == size || |old(c)| == max)
    {
      if |c| < max {
        c := c + [b];
        assert c[|c| - 1] == b;
      }
    }
  }
}

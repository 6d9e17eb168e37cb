/**
 The round-robin balancer of internal/lb/round_robin.go: callers take tickets from one wrapping
 64-bit counter and each turns its own ticket into an index, in any interleaving.
 */
module RoundRobin {
  import opened Base

  /** The remainder with the sign of the dividend. */
  function Rem(a: int, b: nat): int
    requires b > 0
  {
    if a >= 0 then a % b else -(-a % b)
  }

  /** The index a ticket stands for; None where the division or the slice access panics. */
  function IndexOf(n: int, len: nat): Option<nat> {
    if len == 0 then None
    else
      var i := Rem(Wrap(n - 1), len);
      if 0 <= i < len then Some(i) else None
  }

  // --- steps ---

  /** The counter, the ticket of every call in the order of the atomic additions, and what the calls
      that finished returned. */
  datatype State = State(next: int, tickets: seq<int>, picked: map<nat, Option<nat>>)

  datatype Label = Take | Pick(c: nat)

  const INIT := State(0, [], map[])

  predicate Enabled(s: State, l: Label) {
    l.Pick? ==> l.c < |s.tickets| && l.c !in s.picked
  }

  function Step(s: State, l: Label, len: nat): State
    requires Enabled(s, l)
  {
    match l
    case Take => var n := Wrap(s.next + 1); State(n, s.tickets + [n], s.picked)
    case Pick(c) => s.(picked := s.picked[c := IndexOf(s.tickets[c], len)])
  }

  ghost predicate Execution(ls: seq<Label>, ss: seq<State>, len: nat) {
    && |ss| == |ls| + 1 && ss[0] == INIT
    && forall i | 0 <= i < |ls| :: Enabled(ss[i], ls[i]) && ss[i + 1] == Step(ss[i], ls[i], len)
  }

  ghost predicate Reachable(s: State, len: nat) {
    exists ls, ss :: Execution(ls, ss, len) && ss[|ls|] == s
  }

  ghost predicate Inv(s: State, len: nat) {
    && s.next == Wrap(|s.tickets|)
    && (forall i | 0 <= i < |s.tickets| :: s.tickets[i] == Wrap(i + 1))
    && (forall c <- s.picked :: c < |s.tickets| && s.picked[c] == IndexOf(s.tickets[c], len))
  }

  lemma WrapNext(n: int)
    ensures Wrap(Wrap(n) + 1) == Wrap(n + 1)
  {
    var m := (n + TWO63) % (2 * TWO63);
    DivNext(n + TWO63, 2 * TWO63);
    if m + 1 < 2 * TWO63 {
      assert Wrap(n + 1) == m + 1 - TWO63;
    }
  }

  lemma StepKeepsInv(s: State, l: Label, len: nat)
    requires Inv(s, len) && Enabled(s, l)
    ensures Inv(Step(s, l, len), len)
  {
    if l.Take? {
      WrapNext(|s.tickets|);
    }
  }

  lemma {:induction false} ExecutionInv(ls: seq<Label>, ss: seq<State>, len: nat, n: nat)
    requires Execution(ls, ss, len) && n <= |ls|
    ensures Inv(ss[n], len)
  {
    if n > 0 {
      ExecutionInv(ls, ss, len, n - 1);
      StepKeepsInv(ss[n - 1], ls[n - 1], len);
    }
  }

  lemma ReachableInv(s: State, len: nat)
    requires Reachable(s, len)
    ensures Inv(s, len)
  {
    var ls, ss :| Execution(ls, ss, len) && ss[|ls|] == s;
    ExecutionInv(ls, ss, len, |ls|);
  }

  // --- division ---

  lemma Multiple(d: int, n: int)
    requires n > 0
    ensures d > 0 ==> d * n >= n
    ensures d < 0 ==> d * n <= -n
  {
  }

  lemma Quotient(a: int, n: nat, q: int, r: int)
    requires n > 0 && a == q * n + r && 0 <= r < n
    ensures a / n == q && a % n == r
  {
    var d := a / n - q;
    assert d * n == r - a % n;
    Multiple(d, n);
  }

  lemma DivNext(k: int, n: nat)
    requires n > 0
    ensures (k + 1) / n == k / n + if k % n + 1 == n then 1 else 0
    ensures (k + 1) % n == if k % n + 1 == n then 0 else k % n + 1
  {
    if k % n + 1 == n {
      assert (k / n + 1) * n == k / n * n + n;
      Quotient(k + 1, n, k / n + 1, 0);
    } else {
      Quotient(k + 1, n, k / n, k % n + 1);
    }
  }

  /** The node v is hit k places after i exactly when its distance from i is k modulo n. */
  lemma HitIs(i: int, k: int, n: nat, v: int)
    requires 0 <= v < n
    ensures (i + k) % n == v <==> (v - i) % n == k % n
  {
    var (a, b, c) := ((i + k) / n, (v - i) / n, k / n);
    if (i + k) % n == v {
      assert (c - a) * n == c * n - a * n;
      assert v - i == (c - a) * n + k % n;
      Quotient(v - i, n, c - a, k % n);
    }
    if (v - i) % n == k % n {
      assert (c - b) * n == c * n - b * n;
      assert i + k == (c - b) * n + v;
      Quotient(i + k, n, c - b, v);
    }
  }

  // --- fairness ---

  /** How many of the k calls from i on were given node v. */
  function Chosen(picked: map<nat, Option<nat>>, i: nat, k: nat, v: nat): nat {
    if k == 0 then 0
    else Chosen(picked, i, k - 1, v)
         + if i + k - 1 in picked && picked[i + k - 1] == Some(v) then 1 else 0
  }

  /** The share of node v in k calls from the i-th on. */
  function Share(i: int, k: nat, n: nat, v: int): int
    requires n > 0
  {
    k / n + if (v - i) % n < k % n then 1 else 0
  }

  lemma IndexIs(c: nat, len: nat)
    requires len > 0 && c < TWO63
    ensures IndexOf(Wrap(c + 1), len) == Some(c % len)
  {
    Unwrapped(c);
  }

  lemma PickIs(s: State, len: nat, c: nat)
    requires Reachable(s, len) && len > 0 && c in s.picked && c < TWO63
    ensures s.picked[c] == Some(c % len)
  {
    ReachableInv(s, len);
    IndexIs(c, len);
  }

  /** Fairness: among any k calls with consecutive tickets, whatever the interleaving of the callers
      and wherever the window starts, node v is chosen k / len times, plus once more exactly when its
      distance from the window's start is below k % len. */
  lemma {:induction false} Fair(s: State, len: nat, i: nat, k: nat, v: nat)
    requires Reachable(s, len) && v < len && i + k <= TWO63
    requires forall c | i <= c < i + k :: c in s.picked
    ensures Chosen(s.picked, i, k, v) == Share(i, k, len, v)
    decreases k
  {
    if k == 0 {
      Quotient(0, len, 0, 0);
    } else {
      Fair(s, len, i, k - 1, v);
      PickIs(s, len, i + k - 1);
      HitIs(i, k - 1, len, v);
      DivNext(k - 1, len);
    }
  }

  lemma ShareBounds(i: int, k: nat, n: nat, v: int)
    requires n > 0
    ensures k / n <= Share(i, k, n, v) <= k / n + 1
  {
  }

  /** Any two nodes are chosen equally often, up to one. */
  lemma NoFavourites(s: State, len: nat, i: nat, k: nat, v: nat, w: nat)
    requires Reachable(s, len) && v < len && w < len && i + k <= TWO63
    requires forall c | i <= c < i + k :: c in s.picked
    ensures -1 <= Chosen(s.picked, i, k, v) - Chosen(s.picked, i, k, w) <= 1
    ensures k % len == 0 ==> Chosen(s.picked, i, k, v) == Chosen(s.picked, i, k, w)
  {
    Fair(s, len, i, k, v);
    Fair(s, len, i, k, w);
    ShareBounds(i, k, len, v);
    ShareBounds(i, k, len, w);
  }

  // --- the counter wraps ---

  lemma Unwrapped(c: nat)
    requires c <= TWO63 + 1
    ensures Wrap(Wrap(c + 1) - 1) == if c < TWO63 then c else c - 2 * TWO63
  {
    if c == TWO63 - 1 {
      assert Wrap(c + 1) == -TWO63;
    }
  }

  /** Whether the c-th call, counted from 0, gets a node. */
  predicate Served(c: nat, len: nat) {
    IndexOf(Wrap(c + 1), len).Some?
  }

  lemma ServedIs(c: nat, len: nat)
    requires len > 1 && c <= TWO63 + 1
    ensures c < TWO63 ==> Served(c, len)
    ensures c == TWO63 ==> (Served(c, len) <==> TWO63 % len == 0)
    ensures c == TWO63 + 1 ==> (Served(c, len) <==> (TWO63 - 1) % len == 0)
  {
    Unwrapped(c);
    if c == TWO63 {
      assert Wrap(Wrap(c + 1) - 1) == -TWO63;
    } else if c == TWO63 + 1 {
      assert Wrap(Wrap(c + 1) - 1) == -(TWO63 - 1);
    }
  }

  /** With more than one node, the first total calls are all served exactly when there are at most
      2^63 of them, or one more if the number of nodes divides 2^63: the counter has then turned
      negative, and a negative remainder is no index. */
  lemma ServesExactly(len: nat, total: nat)
    requires len > 1
    ensures (forall c: nat | c < total :: Served(c, len))
            <==> total <= TWO63 + if TWO63 % len == 0 then 1 else 0
  {
    forall c: nat | c <= TWO63 ensures c < TWO63 ==> Served(c, len) {
      ServedIs(c, len);
    }
    ServedIs(TWO63, len);
    ServedIs(TWO63 + 1, len);
    DivNext(TWO63 - 1, len);
  }

  /** Over all tickets the balancer never panics exactly with a single node. */
  lemma NeverPanicsExactly(len: nat)
    ensures (forall n: int :: IndexOf(n, len).Some?) <==> len == 1
  {
    if len == 1 {
      forall n: int ensures IndexOf(n, len).Some? {
        assert -Wrap(n - 1) % 1 == 0;
      }
    } else {
      if len > 1 {
        assert Wrap(-1) == -1;
        Quotient(1, len, 0, 1);
      }
      assert IndexOf(0, len).None?;
    }
  }

  // --- the object ---

  class RoundRobin {
    const nodeList: seq<string>
    var next: int

    constructor (nodeList: seq<string>)
      ensures this.nodeList == nodeList && next == 0
    {
      this.nodeList, next := nodeList, 0;
    }

    method Next() returns (node: Option<string>)
      modifies this
      ensures next == Wrap(old(next) + 1)
      ensures var i := IndexOf(next, |nodeList|);
              node == if i.Some? then Some(nodeList[i.value]) else None
      ensures 0 <= old(next) < TWO63 && nodeList != [] ==> node == Some(nodeList[old(next) % |nodeList|])
    {
      next := Wrap(next + 1);
      var i := IndexOf(next, |nodeList|);
      assert 0 <= old(next) < TWO63 ==> Wrap(next - 1) == old(next);
      node := if i.Some? then Some(nodeList[i.value]) else None;
    }
  }
}

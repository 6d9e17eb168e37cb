/**
 The connection manager of internal/cmgr/cmgr.go and internal/cmgr/syncer.go. Connections are
 compared by identity, here an id; a connection's statistics are final once it is removed, because
 its transport has returned by then.
 */
module Cmgr {
  import opened Base

  datatype Conn = Conn(id: nat, relayLabel: string)

  datatype Stats = Stats(up: int, down: int, latencyMs: nat)

  type ConnMap = map<string, seq<Conn>>

  datatype Registry = Registry(active: ConnMap, closed: ConnMap)

  function Under(m: ConnMap, l: string): seq<Conn> {
    if l in m then m[l] else []
  }

  function Add(r: Registry, c: Conn): Registry {
    r.(active := r.active[c.relayLabel := Under(r.active, c.relayLabel) + [c]])
  }

  function RemoveFirst(conns: seq<Conn>, c: Conn): seq<Conn> {
    if conns == [] then []
    else if conns[0] == c then conns[1..]
    else [conns[0]] + RemoveFirst(conns[1..], c)
  }

  function Remove(r: Registry, c: Conn): Registry {
    if c.relayLabel !in r.active then r
    else Registry(r.active[c.relayLabel := RemoveFirst(r.active[c.relayLabel], c)],
                  r.closed[c.relayLabel := Under(r.closed, c.relayLabel) + [c]])
  }

  // --- counting over maps, in any order ---

  function Count(m: ConnMap, c: Conn): nat {
    multiset(Under(m, c.relayLabel))[c]
  }

  /** Every connection is filed under its own label. */
  ghost predicate Filed(m: ConnMap) {
    forall l <- m :: forall c <- m[l] :: c.relayLabel == l
  }

  ghost function Size(m: ConnMap): nat {
    if m == map[] then 0
    else
      var l :| l in m;
      |m[l]| + Size(m - {l})
  }

  /** The size can be taken apart at any label. */
  lemma {:induction false} SizeAt(m: ConnMap, l: string)
    requires l in m
    ensures Size(m) == |m[l]| + Size(m - {l})
    decreases |m|
  {
    var k :| k in m && Size(m) == |m[k]| + Size(m - {k});
    if k != l {
      SizeAt(m - {k}, l);
      SizeAt(m - {l}, k);
      assert (m - {k}) - {l} == (m - {l}) - {k};
    }
  }

  lemma SizeUpdate(m: ConnMap, l: string, conns: seq<Conn>)
    ensures Size(m[l := conns]) == Size(m) - |Under(m, l)| + |conns|
  {
    var m' := m[l := conns];
    SizeAt(m', l);
    assert m' - {l} == m - {l};
    if l in m {
      SizeAt(m, l);
    } else {
      assert m - {l} == m;
    }
  }

  function Flat(m: ConnMap, labels: seq<string>): seq<Conn> {
    if labels == [] then [] else Flat(m, labels[..|labels| - 1]) + Under(m, labels[|labels| - 1])
  }

  /** The labels of a map, each once, in some order. */
  ghost predicate Enumerates(labels: seq<string>, m: ConnMap) {
    Distinct(labels) && m.Keys == set l | l in labels
  }

  lemma {:induction false} FlatWithout(m: ConnMap, labels: seq<string>, l: string)
    requires l !in labels
    ensures Flat(m - {l}, labels) == Flat(m, labels)
  {
    if labels != [] {
      FlatWithout(m, labels[..|labels| - 1], l);
    }
  }

  /** However the labels are listed, the flattened list has the size of the map. */
  lemma {:induction false} FlatSize(m: ConnMap, labels: seq<string>)
    requires Enumerates(labels, m)
    ensures |Flat(m, labels)| == Size(m)
    decreases |labels|
  {
    if labels == [] {
      assert m == map[];
    } else {
      var n := |labels| - 1;
      var l := labels[n];
      assert labels == labels[..n] + [l];
      assert (m - {l}).Keys == set x | x in labels[..n];
      FlatSize(m - {l}, labels[..n]);
      FlatWithout(m, labels[..n], l);
      SizeAt(m, l);
    }
  }

  lemma {:induction false} FlatCount(m: ConnMap, labels: seq<string>, c: Conn)
    requires Filed(m) && Distinct(labels)
    ensures multiset(Flat(m, labels))[c] == if c.relayLabel in labels then Count(m, c) else 0
  {
    if labels != [] {
      var n := |labels| - 1;
      FlatCount(m, labels[..n], c);
      assert labels == labels[..n] + [labels[n]];
      var here := Under(m, labels[n]);
      assert multiset(here)[c] == if labels[n] == c.relayLabel then Count(m, c) else 0;
    }
  }

  // --- aggregation ---

  datatype Sums = Sums(count: nat, up: int, down: int)

  function Plus(a: Sums, b: Sums): Sums {
    Sums(a.count + b.count, a.up + b.up, a.down + b.down)
  }

  /** Count and traffic of the connections of one label. */
  function SumConns(conns: seq<Conn>, l: string, final: Conn -> Stats): Sums {
    if conns == [] then Sums(0, 0, 0)
    else
      var c := conns[|conns| - 1];
      var before := SumConns(conns[..|conns| - 1], l, final);
      if c.relayLabel == l then Plus(before, Sums(1, final(c).up, final(c).down)) else before
  }

  function TotalLatency(conns: seq<Conn>, final: Conn -> Stats): nat {
    if conns == [] then 0
    else TotalLatency(conns[..|conns| - 1], final) + final(conns[|conns| - 1]).latencyMs
  }

  datatype Row = Row(relayLabel: string, sums: Sums, latency: nat)

  function RowOf(l: string, conns: seq<Conn>, final: Conn -> Stats): Row {
    Row(l, SumConns(conns, l, final), if |conns| > 0 then TotalLatency(conns, final) / |conns| else 0)
  }

  function Rows(m: ConnMap, labels: seq<string>, final: Conn -> Stats): seq<Row> {
    if labels == [] then []
    else
      var l := labels[|labels| - 1];
      Rows(m, labels[..|labels| - 1], final) + [RowOf(l, Under(m, l), final)]
  }

  function SumRows(rows: seq<Row>, l: string): Sums {
    if rows == [] then Sums(0, 0, 0)
    else
      var r := rows[|rows| - 1];
      var before := SumRows(rows[..|rows| - 1], l);
      if r.relayLabel == l then Plus(before, r.sums) else before
  }

  lemma {:induction false} SumConnsConcat(a: seq<Conn>, b: seq<Conn>, l: string, final: Conn -> Stats)
    ensures SumConns(a + b, l, final) == Plus(SumConns(a, l, final), SumConns(b, l, final))
  {
    if b == [] {
      assert a + b == a;
    } else {
      var n := |b| - 1;
      assert (a + b)[..|a + b| - 1] == a + b[..n];
      SumConnsConcat(a, b[..n], l, final);
    }
  }

  lemma {:induction false} SumRowsConcat(a: seq<Row>, b: seq<Row>, l: string)
    ensures SumRows(a + b, l) == Plus(SumRows(a, l), SumRows(b, l))
  {
    if b == [] {
      assert a + b == a;
    } else {
      var n := |b| - 1;
      assert (a + b)[..|a + b| - 1] == a + b[..n];
      SumRowsConcat(a, b[..n], l);
    }
  }

  lemma {:induction false} OtherLabelsDoNotCount(conns: seq<Conn>, l: string, final: Conn -> Stats)
    requires forall c <- conns :: c.relayLabel != l
    ensures SumConns(conns, l, final) == Sums(0, 0, 0)
  {
    if conns != [] {
      OtherLabelsDoNotCount(conns[..|conns| - 1], l, final);
    }
  }

  /** The rows of a drain add up, per label, to what the drained connections carried. */
  lemma {:induction false} RowsAddUp(m: ConnMap, labels: seq<string>, l: string, final: Conn -> Stats)
    requires Filed(m)
    ensures SumRows(Rows(m, labels, final), l) == SumConns(Flat(m, labels), l, final)
  {
    if labels != [] {
      var n := |labels| - 1;
      var k := labels[n];
      var row := RowOf(k, Under(m, k), final);
      RowsAddUp(m, labels[..n], l, final);
      SumConnsConcat(Flat(m, labels[..n]), Under(m, k), l, final);
      assert (Rows(m, labels[..n], final) + [row])[..n] == Rows(m, labels[..n], final) by {
        RowCount(m, labels[..n], final);
      }
      if k != l {
        OtherLabelsDoNotCount(Under(m, k), l, final);
      }
    }
  }

  lemma {:induction false} RowCount(m: ConnMap, labels: seq<string>, final: Conn -> Stats)
    ensures |Rows(m, labels, final)| == |labels|
  {
    if labels != [] {
      RowCount(m, labels[..|labels| - 1], final);
    }
  }

  // --- runs ---

  /** added and removed are what the callers did, and since what they removed after the last push; drained
      and rows are what was pushed so far. */
  datatype State = State(
    reg: Registry,
    added: seq<Conn>,
    removed: set<Conn>,
    since: seq<Conn>,
    drained: seq<Conn>,
    rows: seq<Row>)

  datatype Label =
    | AddConnection(c: Conn)
    | RemoveConnection(c: Conn)
    | PushStats(labels: seq<string>)

  const INIT := State(Registry(map[], map[]), [], {}, [], [], [])

  /** Callers add a connection once and remove it once, after adding it. A push walks the closed
      map in any order. */
  ghost predicate Enabled(s: State, e: Label) {
    match e
    case AddConnection(c) => c !in s.added
    case RemoveConnection(c) => c in s.added && c !in s.removed
    case PushStats(labels) => Enumerates(labels, s.reg.closed)
  }

  function Step(s: State, e: Label, final: Conn -> Stats): State {
    match e
    case AddConnection(c) => s.(reg := Add(s.reg, c), added := s.added + [c])
    case RemoveConnection(c) => s.(reg := Remove(s.reg, c), removed := s.removed + {c}, since := s.since + [c])
    case PushStats(labels) =>
      s.(reg := s.reg.(closed := map[]),
         since := [],
         drained := s.drained + Flat(s.reg.closed, labels),
         rows := s.rows + Rows(s.reg.closed, labels, final))
  }

  ghost predicate Execution(es: seq<Label>, ss: seq<State>, final: Conn -> Stats) {
    && |ss| == |es| + 1 && ss[0] == INIT
    && forall i | 0 <= i < |es| :: Enabled(ss[i], es[i]) && ss[i + 1] == Step(ss[i], es[i], final)
  }

  ghost predicate Reachable(s: State, final: Conn -> Stats) {
    exists es, ss :: Execution(es, ss, final) && ss[|es|] == s
  }

  ghost predicate PlaceInv(s: State, c: Conn) {
    && Count(s.reg.active, c) == (if c in s.added && c !in s.removed then 1 else 0)
    && Count(s.reg.closed, c) + multiset(s.drained)[c] == (if c in s.removed then 1 else 0)
    && (c in s.removed ==> c in s.added)
  }

  ghost predicate Inv(s: State, final: Conn -> Stats) {
    && Filed(s.reg.active) && Filed(s.reg.closed)
    && (forall c :: PlaceInv(s, c))
    && |s.added| == Size(s.reg.active) + Size(s.reg.closed) + |s.drained|
    && (forall l :: SumRows(s.rows, l) == SumConns(s.drained, l, final))
  }

  lemma {:induction false} RemoveFirstIs(conns: seq<Conn>, c: Conn)
    ensures multiset(RemoveFirst(conns, c)) == multiset(conns) - multiset{c}
    ensures |RemoveFirst(conns, c)| == if c in conns then |conns| - 1 else |conns|
  {
    if conns != [] {
      assert conns == [conns[0]] + conns[1..];
      if conns[0] != c {
        RemoveFirstIs(conns[1..], c);
      }
    }
  }

  lemma AddKeeps(s: State, c: Conn, final: Conn -> Stats)
    requires Inv(s, final) && Enabled(s, AddConnection(c))
    ensures Inv(Step(s, AddConnection(c), final), final)
  {
    var s' := Step(s, AddConnection(c), final);
    SizeUpdate(s.reg.active, c.relayLabel, Under(s.reg.active, c.relayLabel) + [c]);
    FiledWith(s.reg.active, c.relayLabel, Under(s.reg.active, c.relayLabel) + [c]);
    forall x ensures PlaceInv(s', x) {
      assert PlaceInv(s, x) && PlaceInv(s, c);
      AddKeepsPlace(s, c, x, final);
    }
  }

  lemma AddKeepsPlace(s: State, c: Conn, x: Conn, final: Conn -> Stats)
    requires PlaceInv(s, x) && PlaceInv(s, c) && Enabled(s, AddConnection(c))
    ensures PlaceInv(Step(s, AddConnection(c), final), x)
  {
  }

  lemma RemoveFirstCount(conns: seq<Conn>, c: Conn, x: Conn)
    ensures multiset(RemoveFirst(conns, c))[x]
            == if x == c && multiset(conns)[c] > 0 then multiset(conns)[x] - 1 else multiset(conns)[x]
  {
    RemoveFirstIs(conns, c);
  }

  lemma CountAfterRemove(r: Registry, c: Conn, x: Conn)
    requires c.relayLabel in r.active
    ensures Count(Remove(r, c).active, x)
            == if x == c && Count(r.active, c) > 0 then Count(r.active, c) - 1 else Count(r.active, x)
    ensures Count(Remove(r, c).closed, x) == Count(r.closed, x) + if x == c then 1 else 0
  {
    var conns := r.active[c.relayLabel];
    if x.relayLabel == c.relayLabel {
      RemoveFirstCount(conns, c, x);
      assert Under(Remove(r, c).active, x.relayLabel) == RemoveFirst(conns, c);
      assert Under(Remove(r, c).closed, x.relayLabel) == Under(r.closed, x.relayLabel) + [c];
    } else {
      assert Under(Remove(r, c).active, x.relayLabel) == Under(r.active, x.relayLabel);
      assert Under(Remove(r, c).closed, x.relayLabel) == Under(r.closed, x.relayLabel);
    }
  }

  lemma RemoveKeepsPlace(s: State, c: Conn, x: Conn, final: Conn -> Stats)
    requires PlaceInv(s, c) && PlaceInv(s, x) && Enabled(s, RemoveConnection(c))
    ensures PlaceInv(Step(s, RemoveConnection(c), final), x)
  {
    CountAfterRemove(s.reg, c, x);
  }

  lemma {:induction false} RemoveFirstWithin(conns: seq<Conn>, c: Conn)
    ensures forall x <- RemoveFirst(conns, c) :: x in conns
  {
    if conns != [] && conns[0] != c {
      RemoveFirstWithin(conns[1..], c);
    }
  }

  lemma FiledWith(m: ConnMap, l: string, conns: seq<Conn>)
    requires Filed(m) && forall x <- conns :: x.relayLabel == l
    ensures Filed(m[l := conns])
  {
  }

  lemma RemoveKeepsFiled(r: Registry, c: Conn)
    requires Filed(r.active) && Filed(r.closed)
    ensures Filed(Remove(r, c).active) && Filed(Remove(r, c).closed)
  {
    if c.relayLabel in r.active {
      var conns := r.active[c.relayLabel];
      RemoveFirstWithin(conns, c);
      FiledWith(r.active, c.relayLabel, RemoveFirst(conns, c));
      FiledWith(r.closed, c.relayLabel, Under(r.closed, c.relayLabel) + [c]);
    }
  }

  lemma RemoveSize(r: Registry, c: Conn)
    requires c in Under(r.active, c.relayLabel)
    ensures Size(Remove(r, c).active) == Size(r.active) - 1 && Size(Remove(r, c).closed) == Size(r.closed) + 1
  {
    var conns := Under(r.active, c.relayLabel);
    RemoveFirstIs(conns, c);
    SizeUpdate(r.active, c.relayLabel, RemoveFirst(conns, c));
    SizeUpdate(r.closed, c.relayLabel, Under(r.closed, c.relayLabel) + [c]);
  }

  lemma RemoveKeeps(s: State, c: Conn, final: Conn -> Stats)
    requires Inv(s, final) && Enabled(s, RemoveConnection(c))
    ensures Inv(Step(s, RemoveConnection(c), final), final)
  {
    var s' := Step(s, RemoveConnection(c), final);
    assert PlaceInv(s, c);
    assert c in multiset(Under(s.reg.active, c.relayLabel));
    RemoveSize(s.reg, c);
    RemoveKeepsFiled(s.reg, c);
    forall x ensures PlaceInv(s', x) {
      RemoveKeepsPlace(s, c, x, final);
    }
  }

  lemma PushKeeps(s: State, labels: seq<string>, final: Conn -> Stats)
    requires Inv(s, final) && Enabled(s, PushStats(labels))
    ensures Inv(Step(s, PushStats(labels), final), final)
  {
    var s' := Step(s, PushStats(labels), final);
    FlatSize(s.reg.closed, labels);
    forall x ensures PlaceInv(s', x) {
      assert PlaceInv(s, x);
      FlatCount(s.reg.closed, labels, x);
    }
    forall l ensures SumRows(s'.rows, l) == SumConns(s'.drained, l, final) {
      RowsAddUp(s.reg.closed, labels, l, final);
      SumRowsConcat(s.rows, Rows(s.reg.closed, labels, final), l);
      SumConnsConcat(s.drained, Flat(s.reg.closed, labels), l, final);
    }
  }

  lemma {:induction false} ExecutionInv(es: seq<Label>, ss: seq<State>, final: Conn -> Stats, n: nat)
    requires Execution(es, ss, final) && n <= |es|
    ensures Inv(ss[n], final)
  {
    if n > 0 {
      ExecutionInv(es, ss, final, n - 1);
      match es[n - 1]
      case AddConnection(c) => AddKeeps(ss[n - 1], c, final);
      case RemoveConnection(c) => RemoveKeeps(ss[n - 1], c, final);
      case PushStats(labels) => PushKeeps(ss[n - 1], labels, final);
    }
  }

  lemma ReachableInv(s: State, final: Conn -> Stats)
    requires Reachable(s, final)
    ensures Inv(s, final)
  {
    var es, ss :| Execution(es, ss, final) && ss[|es|] == s;
    ExecutionInv(es, ss, final, |es|);
  }

  // --- main results: the life of a connection ---

  /** Every added connection is in exactly one of the active map, the closed map and the drained
      ones, exactly once, and nothing else is anywhere; it is active until it is removed. */
  lemma ExactlyOnePlace(s: State, final: Conn -> Stats, c: Conn)
    requires Reachable(s, final)
    ensures Count(s.reg.active, c) + Count(s.reg.closed, c) + multiset(s.drained)[c] == if c in s.added then 1 else 0
    ensures Count(s.reg.active, c) == 1 <==> c in s.added && c !in s.removed
  {
    ReachableInv(s, final);
    assert PlaceInv(s, c);
  }

  // --- the order of the lists ---

  /** The connections of a label among those added and not removed, in the order they were added. */
  function Still(added: seq<Conn>, removed: set<Conn>, l: string): seq<Conn> {
    if added == [] then []
    else
      var c := added[|added| - 1];
      var before := Still(added[..|added| - 1], removed, l);
      if c.relayLabel == l && c !in removed then before + [c] else before
  }

  lemma {:induction false} RemoveFirstSnoc(a: seq<Conn>, x: Conn, c: Conn)
    ensures RemoveFirst(a + [x], c)
            == if c in a then RemoveFirst(a, c) + [x] else if x == c then a else a + [x]
    ensures c !in a ==> RemoveFirst(a, c) == a
  {
    if a == [] {
      assert [] + [x] == [x];
    } else {
      assert (a + [x])[0] == a[0] && (a + [x])[1..] == a[1..] + [x];
      assert a == [a[0]] + a[1..];
      RemoveFirstSnoc(a[1..], x, c);
    }
  }

  ghost predicate Once(added: seq<Conn>) {
    forall i, j | 0 <= i < j < |added| :: added[i] != added[j]
  }

  lemma {:induction false} StillIn(added: seq<Conn>, removed: set<Conn>, l: string, c: Conn)
    ensures c in Still(added, removed, l) <==> c in added && c !in removed && c.relayLabel == l
  {
    if added != [] {
      var n := |added| - 1;
      StillIn(added[..n], removed, l, c);
      assert added == added[..n] + [added[n]];
    }
  }

  lemma {:induction false} StillWithout(added: seq<Conn>, removed: set<Conn>, l: string, c: Conn)
    requires Once(added)
    ensures Still(added, removed + {c}, l) == RemoveFirst(Still(added, removed, l), c)
  {
    if added != [] {
      var n := |added| - 1;
      var before := Still(added[..n], removed, l);
      StillWithout(added[..n], removed, l, c);
      RemoveFirstSnoc(before, added[n], c);
      if added[n] == c {
        StillIn(added[..n], removed, l, c);
        assert c !in added[..n];
      }
    }
  }

  ghost predicate OrderInv(s: State, l: string) {
    && Once(s.added) && (forall c <- s.removed :: c in s.added)
    && Under(s.reg.active, l) == Still(s.added, s.removed, l)
    && Under(s.reg.closed, l) == Still(s.since, {}, l)
  }

  lemma OrderKept(s: State, e: Label, final: Conn -> Stats, l: string)
    requires OrderInv(s, l) && Enabled(s, e) && (e.RemoveConnection? ==> OrderInv(s, e.c.relayLabel))
    ensures OrderInv(Step(s, e, final), l)
  {
    if e.AddConnection? {
      assert (s.added + [e.c])[..|s.added|] == s.added;
    } else if e.RemoveConnection? {
      assert (s.since + [e.c])[..|s.since|] == s.since;
      StillIn(s.added, s.removed, l, e.c);
      StillIn(s.added, s.removed, e.c.relayLabel, e.c);
      StillWithout(s.added, s.removed, l, e.c);
      RemoveFirstSnoc(Still(s.added, s.removed, l), e.c, e.c);
    }
  }

  lemma {:induction false} OrderHolds(es: seq<Label>, ss: seq<State>, final: Conn -> Stats, n: nat, l: string)
    requires Execution(es, ss, final) && n <= |es|
    ensures OrderInv(ss[n], l)
  {
    if n > 0 {
      OrderHolds(es, ss, final, n - 1, l);
      if es[n - 1].RemoveConnection? {
        OrderHolds(es, ss, final, n - 1, es[n - 1].c.relayLabel);
      }
      OrderKept(ss[n - 1], es[n - 1], final, l);
    }
  }

  /** In every reachable state the active connections of a label are listed in the order they were added,
      and the closed ones in the order they were removed since the last push. */
  lemma ListedInOrder(s: State, final: Conn -> Stats, l: string)
    requires Reachable(s, final)
    ensures Under(s.reg.active, l) == Still(s.added, s.removed, l)
    ensures Under(s.reg.closed, l) == Still(s.since, {}, l)
  {
    var es, ss :| Execution(es, ss, final) && ss[|es|] == s;
    OrderHolds(es, ss, final, |es|, l);
  }

  // --- what a row says ---

  function Values(conns: seq<Conn>, f: Conn -> int): seq<int> {
    seq(|conns|, i requires 0 <= i < |conns| => f(conns[i]))
  }

  lemma ValuesSnoc(conns: seq<Conn>, f: Conn -> int)
    requires conns != []
    ensures var n := |conns| - 1; Sum(Values(conns, f)) == Sum(Values(conns[..n], f)) + f(conns[n])
  {
    var n := |conns| - 1;
    assert Values(conns, f) == Values(conns[..n], f) + [f(conns[n])];
  }

  function UpOf(final: Conn -> Stats): Conn -> int {
    c => final(c).up
  }

  function DownOf(final: Conn -> Stats): Conn -> int {
    c => final(c).down
  }

  function LatencyOf(final: Conn -> Stats): Conn -> int {
    c => final(c).latencyMs
  }

  /** The sums of a row: how many connections, and the bytes up and the bytes down of each. */
  lemma {:induction false} RowTells(conns: seq<Conn>, l: string, final: Conn -> Stats)
    requires forall i | 0 <= i < |conns| :: conns[i].relayLabel == l
    ensures RowOf(l, conns, final).relayLabel == l
    ensures RowOf(l, conns, final).sums.count == |conns|
    ensures RowOf(l, conns, final).sums.up == Sum(Values(conns, UpOf(final)))
    ensures RowOf(l, conns, final).sums.down == Sum(Values(conns, DownOf(final)))
    ensures TotalLatency(conns, final) == Sum(Values(conns, LatencyOf(final)))
  {
    if conns != [] {
      RowTells(conns[..|conns| - 1], l, final);
      ValuesSnoc(conns, UpOf(final));
      ValuesSnoc(conns, DownOf(final));
      ValuesSnoc(conns, LatencyOf(final));
    }
  }

  lemma {:induction false} LatencyWithin(conns: seq<Conn>, final: Conn -> Stats, least: nat, largest: nat)
    requires forall c <- conns :: least <= final(c).latencyMs <= largest
    ensures least * |conns| <= TotalLatency(conns, final) <= largest * |conns|
  {
    if conns != [] {
      var n := |conns| - 1;
      assert conns[n] in conns;
      LatencyWithin(conns[..n], final, least, largest);
      assert least * (n + 1) == least * n + least && largest * (n + 1) == largest * n + largest;
    }
  }

  /** The latency of a row is the mean, rounded down: between the least and the largest of its connections,
      and 0 if there are none. */
  lemma {:induction false} MeanLatency(conns: seq<Conn>, l: string, final: Conn -> Stats, least: nat, largest: nat)
    requires forall c <- conns :: least <= final(c).latencyMs <= largest
    ensures conns == [] ==> RowOf(l, conns, final).latency == 0
    ensures conns != [] ==>
              && IsMean(RowOf(l, conns, final).latency, |conns|, TotalLatency(conns, final))
              && least <= RowOf(l, conns, final).latency <= largest
  {
    if conns != [] {
      LatencyWithin(conns, final, least, largest);
      Mean(|conns|, TotalLatency(conns, final));
      Between(RowOf(l, conns, final).latency, |conns|, TotalLatency(conns, final), least, largest);
    }
  }

  predicate IsMean(mean: nat, n: nat, total: nat) {
    mean * n <= total < mean * n + n
  }

  lemma Mean(n: nat, total: nat)
    requires n > 0
    ensures IsMean(total / n, n, total)
  {
    assert total == total / n * n + total % n;
  }

  lemma Between(mean: nat, n: nat, total: nat, least: nat, largest: nat)
    requires n > 0 && IsMean(mean, n, total) && least * n <= total <= largest * n
    ensures least <= mean <= largest
  {
    assert (mean + 1) * n == mean * n + n;
    assert (largest + 1) * n == largest * n + n;
    if mean < least {
      PagesInOrder(mean + 1, least, n);
    } else if largest < mean {
      PagesInOrder(largest + 1, mean, n);
    }
  }

  /** Adds are accounted for: active, closed, and the counts reported for what was drained. Per
      label, the reported sums are the sums over the drained connections. */
  lemma LifecycleConserved(s: State, final: Conn -> Stats, l: string)
    requires Reachable(s, final)
    ensures |s.added| == Size(s.reg.active) + Size(s.reg.closed) + |s.drained|
    ensures SumRows(s.rows, l) == SumConns(s.drained, l, final)
  {
    ReachableInv(s, final);
  }

  function Everywhere(r: Registry, c: Conn): nat {
    Count(r.active, c) + Count(r.closed, c)
  }

  /** Without the protocol, removing a connection moves it, and loses or invents nothing, exactly
      when it is active or its label was never seen. */
  lemma RemoveMovesExactly(r: Registry, c: Conn)
    ensures (forall x :: Everywhere(Remove(r, c), x) == Everywhere(r, x))
            <==> c in Under(r.active, c.relayLabel) || c.relayLabel !in r.active
  {
    if c.relayLabel in r.active {
      forall x ensures Everywhere(Remove(r, c), x) == Everywhere(r, x)
                       <==> x != c || Count(r.active, c) > 0
      {
        CountAfterRemove(r, c, x);
      }
      assert Everywhere(Remove(r, c), c) == Everywhere(r, c) <==> Count(r.active, c) > 0;
      assert c in r.active[c.relayLabel] <==> Count(r.active, c) > 0;
    }
  }

  // --- pagination ---

  function Page(flat: seq<Conn>, page: nat, pageSize: nat): seq<Conn>
    requires page >= 1
  {
    var start := (page - 1) * pageSize;
    if start > |flat| then [] else flat[start..Min(start + pageSize, |flat|)]
  }

  function Pages(flat: seq<Conn>, k: nat, pageSize: nat): seq<Conn> {
    if k == 0 then [] else Pages(flat, k - 1, pageSize) + Page(flat, k, pageSize)
  }

  /** The first k pages together are the first k * pageSize connections. */
  lemma {:induction false} PagesPartition(flat: seq<Conn>, k: nat, pageSize: nat)
    requires pageSize >= 1
    ensures Pages(flat, k, pageSize) == flat[..Min(k * pageSize, |flat|)]
  {
    if k > 0 {
      PagesPartition(flat, k - 1, pageSize);
      var start := (k - 1) * pageSize;
      assert start + pageSize == k * pageSize;
    }
  }

  lemma PagesInOrder(a: int, b: int, pageSize: int)
    requires a <= b && pageSize >= 0
    ensures a * pageSize <= b * pageSize
  {
  }

  /** A position of the list is on exactly one page. */
  lemma OnOnePage(pageSize: nat, i: nat, page: nat)
    requires pageSize >= 1 && page >= 1
    ensures (page - 1) * pageSize <= i < (page - 1) * pageSize + pageSize <==> page == i / pageSize + 1
  {
    var q := i / pageSize;
    assert i == q * pageSize + i % pageSize;
    assert (page - 1) * pageSize + pageSize == page * pageSize;
    assert (q + 1) * pageSize == q * pageSize + pageSize;
    if page - 1 < q {
      PagesInOrder(page, q, pageSize);
    } else if page - 1 > q {
      PagesInOrder(q + 1, page - 1, pageSize);
    }
  }

  /** The page as computed with 64-bit integers; None where slicing panics. */
  function PageOf(flat: seq<Conn>, page: int, pageSize: int): Option<seq<Conn>> {
    var start := Wrap((page - 1) * pageSize);
    if start > |flat| then Some([])
    else
      var end := Min(Wrap(start + pageSize), |flat|);
      if 0 <= start <= end then Some(flat[start..end]) else None
  }

  lemma PageFits(flat: seq<Conn>, page: int, pageSize: int)
    requires 1 <= page && 1 <= pageSize && page * pageSize < TWO63
    ensures PageOf(flat, page, pageSize) == Some(Page(flat, page, pageSize))
  {
    PagesInOrder(0, page - 1, pageSize);
    var start := (page - 1) * pageSize;
    assert start + pageSize == page * pageSize;
  }

  /** Whether a list is paged as it should be: the page starts within the list and its end does not
      overflow, or it starts beyond the list and the wrapped start still does. */
  predicate PagesRight(total: nat, page: int, pageSize: int) {
    var exact := (page - 1) * pageSize;
    var start := Wrap(exact);
    if exact <= total then exact + pageSize < TWO63
    else total < start || (start == total && start + pageSize < TWO63)
  }

  lemma WithinTheList(flat: seq<Conn>, page: int, pageSize: int)
    requires 1 <= page && 1 <= pageSize < TWO63 && |flat| < TWO63 && (page - 1) * pageSize <= |flat|
    ensures PageOf(flat, page, pageSize) == Some(Page(flat, page, pageSize)) <==> PagesRight(|flat|, page, pageSize)
  {
    PagesInOrder(0, page - 1, pageSize);
    var exact := (page - 1) * pageSize;
    if exact + pageSize >= TWO63 {
      WrapOnce(exact + pageSize);
    }
  }

  lemma WrapOnce(n: int)
    requires TWO63 <= n < 2 * TWO63
    ensures Wrap(n) == n - 2 * TWO63 < 0
  {
  }

  lemma BeyondTheList(flat: seq<Conn>, page: int, pageSize: int)
    requires 1 <= page && 1 <= pageSize < TWO63 && |flat| < TWO63 && (page - 1) * pageSize > |flat|
    ensures PageOf(flat, page, pageSize) == Some(Page(flat, page, pageSize)) <==> PagesRight(|flat|, page, pageSize)
  {
    var start := Wrap((page - 1) * pageSize);
    if 0 <= start <= |flat| && start + pageSize >= TWO63 {
      WrapOnce(start + pageSize);
    }
  }

  /** When a list gets the page it should, for every list and every page: in particular whenever
      page * pageSize fits an int64. */
  lemma PagedExactly(flat: seq<Conn>, page: int, pageSize: int)
    requires 1 <= page && 1 <= pageSize < TWO63 && |flat| < TWO63
    ensures PageOf(flat, page, pageSize) == Some(Page(flat, page, pageSize)) <==> PagesRight(|flat|, page, pageSize)
    ensures page * pageSize < TWO63 ==> PagesRight(|flat|, page, pageSize)
  {
    if (page - 1) * pageSize <= |flat| {
      WithinTheList(flat, page, pageSize);
    } else {
      BeyondTheList(flat, page, pageSize);
    }
    if page * pageSize < TWO63 {
      PageFits(flat, page, pageSize);
    }
  }

  /** For instance, the start of page 3 of the largest size wraps to -2: that panics on every list,
      however short. */
  lemma WrappedStartPanics(flat: seq<Conn>)
    ensures PageOf(flat, 3, TWO63 - 1).None?
  {
    assert Wrap(2 * (TWO63 - 1)) == -2;
  }

  /** There is no page 0: asking for it panics, whatever is there. */
  lemma NoPageZero(flat: seq<Conn>, pageSize: int)
    requires 1 <= pageSize < TWO63
    ensures PageOf(flat, 0, pageSize).None?
  {
  }

  // --- the label order: what sort.Strings promises ---

  predicate Less(a: string, b: string)
    decreases |a|
  {
    if b == [] then false
    else if a == [] then true
    else if a[0] != b[0] then a[0] < b[0]
    else Less(a[1..], b[1..])
  }

  lemma {:induction false} LessIsTotal(a: string, b: string)
    ensures Less(a, b) || a == b || Less(b, a)
    ensures !(Less(a, b) && Less(b, a)) && !Less(a, a)
    decreases |a|
  {
    if a != [] {
      LessIsTotal(a[1..], if b == [] then [] else b[1..]);
      if b != [] && a[0] == b[0] && a[1..] == b[1..] {
        assert a == [a[0]] + a[1..] == [b[0]] + b[1..] == b;
      }
    }
  }

  /** The order of the labels: a proper prefix comes first, and otherwise the first character that differs
      decides. */
  lemma {:induction false} LessExactly(a: string, b: string)
    ensures Less(a, b) <==> exists i :: DecidesAt(a, b, i)
    decreases |a|
  {
    if a != [] && b != [] && a[0] == b[0] {
      LessExactly(a[1..], b[1..]);
      if Less(a, b) {
        var i :| DecidesAt(a[1..], b[1..], i);
        assert DecidesAt(a, b, i + 1);
      }
      if i :| DecidesAt(a, b, i) {
        assert i > 0;
        assert forall k | 0 <= k < i - 1 :: a[1..][k] == a[k + 1] && b[1..][k] == b[k + 1];
        assert DecidesAt(a[1..], b[1..], i - 1);
      }
    } else {
      forall i | DecidesAt(a, b, i) ensures i == 0 {
      }
      assert Less(a, b) <==> DecidesAt(a, b, 0);
    }
  }

  predicate DecidesAt(a: string, b: string, i: int) {
    && 0 <= i <= |a| && i < |b| && (forall k | 0 <= k < i :: a[k] == b[k])
    && (i == |a| || a[i] < b[i])
  }

  lemma {:induction false} LessIsTransitive(a: string, b: string, c: string)
    requires Less(a, b) && Less(b, c)
    ensures Less(a, c)
    decreases |a|
  {
    if a != [] && b != [] && c != [] && a[0] == b[0] == c[0] {
      LessIsTransitive(a[1..], b[1..], c[1..]);
    }
  }

  ghost predicate Sorted(labels: seq<string>) {
    forall i, j | 0 <= i < j < |labels| :: Less(labels[i], labels[j])
  }

  function Insert(labels: seq<string>, l: string): seq<string> {
    if labels == [] then [l]
    else if Less(l, labels[0]) then [l] + labels
    else [labels[0]] + Insert(labels[1..], l)
  }

  lemma {:induction false} InsertSorts(labels: seq<string>, l: string)
    requires Sorted(labels) && l !in labels
    ensures Sorted(Insert(labels, l))
    ensures forall x :: x in Insert(labels, l) <==> x in labels || x == l
  {
    if labels != [] {
      assert labels == [labels[0]] + labels[1..];
      if Less(l, labels[0]) {
        forall j | 0 < j < |labels| ensures Less(l, labels[j]) {
          LessIsTransitive(l, labels[0], labels[j]);
        }
      } else {
        InsertSorts(labels[1..], l);
        LessIsTotal(l, labels[0]);
        var rest := Insert(labels[1..], l);
        forall j | 0 <= j < |rest| ensures Less(labels[0], rest[j]) {
          assert rest[j] in rest;
        }
      }
    }
  }

  lemma SortedIsDistinct(labels: seq<string>)
    requires Sorted(labels)
    ensures Distinct(labels)
  {
    forall i, j | 0 <= i < j < |labels| ensures labels[i] != labels[j] {
      LessIsTotal(labels[i], labels[j]);
    }
  }

  lemma NotEmpty(a: seq<string>, b: seq<string>)
    requires forall x :: x in a <==> x in b
    ensures a != [] <==> b != []
  {
    if a != [] {
      assert a[0] in b;
    }
    if b != [] {
      assert b[0] in a;
    }
  }

  /** A set of labels has one sorted listing, so pages do not depend on the order of the map. */
  lemma {:induction false} SortedUnique(a: seq<string>, b: seq<string>)
    requires Sorted(a) && Sorted(b) && forall x :: x in a <==> x in b
    ensures a == b
    decreases |a|
  {
    NotEmpty(a, b);
    if a != [] {
      assert a[0] in b && b[0] in a;
      SortedIsDistinct(a);
      SortedIsDistinct(b);
      LessIsTotal(a[0], b[0]);
      assert a[0] == b[0];
      assert a == [a[0]] + a[1..] && b == [b[0]] + b[1..];
      forall x ensures x in a[1..] <==> x in b[1..] {
        assert x in a && x != a[0] <==> x in a[1..];
        assert x in b && x != b[0] <==> x in b[1..];
      }
      SortedUnique(a[1..], b[1..]);
    }
  }

  // --- the manager object ---

  method SortedLabels(m: ConnMap) returns (labels: seq<string>)
    ensures Sorted(labels) && Enumerates(labels, m)
  {
    labels := [];
    var rest := m.Keys;
    while rest != {}
      invariant rest <= m.Keys && Sorted(labels)
      invariant forall x :: x in labels <==> x in m.Keys && x !in rest
    {
      ghost var some := Member(rest);
      var l :| l in rest;
      InsertSorts(labels, l);
      labels := Insert(labels, l);
      rest := rest - {l};
    }
    SortedIsDistinct(labels);
  }

  method CountAll(m: ConnMap) returns (cnt: nat)
    ensures cnt == Size(m)
  {
    cnt := 0;
    var rest := m;
    while rest.Keys != {}
      invariant cnt + Size(rest) == Size(m)
      decreases rest.Keys
    {
      ghost var some := Member(rest.Keys);
      var l :| l in rest.Keys;
      SizeAt(rest, l);
      cnt := cnt + |rest[l]|;
      rest := rest - {l};
    }
  }

  method Flatten(m: ConnMap, labels: seq<string>) returns (conns: seq<Conn>)
    requires forall l <- labels :: l in m
    ensures conns == Flat(m, labels)
  {
    conns := [];
    for i := 0 to |labels|
      invariant conns == Flat(m, labels[..i])
    {
      assert labels[..i + 1][..i] == labels[..i];
      conns := conns + m[labels[i]];
    }
    assert labels[..|labels|] == labels;
  }

  lemma {:induction false} RemoveFirstSkips(conns: seq<Conn>, c: Conn, i: nat)
    requires i <= |conns| && c !in conns[..i]
    ensures RemoveFirst(conns, c) == conns[..i] + RemoveFirst(conns[i..], c)
  {
    if i == 0 {
      assert conns[0..] == conns;
    } else {
      var rest := conns[1..];
      assert conns[0] == conns[..i][0] && rest[..i - 1] == conns[..i][1..] && rest[i - 1..] == conns[i..];
      RemoveFirstSkips(rest, c, i - 1);
      assert [conns[0]] + rest[..i - 1] == conns[..i];
    }
  }

  /** Finds and removes the connection, if it is there. */
  method Without(connections: seq<Conn>, c: Conn) returns (rest: seq<Conn>)
    ensures rest == RemoveFirst(connections, c)
  {
    for i := 0 to |connections|
      invariant c !in connections[..i]
    {
      RemoveFirstSkips(connections, c, i);
      if connections[i] == c {
        assert connections[i..][1..] == connections[i + 1..];
        return connections[..i] + connections[i + 1..];
      }
    }
    RemoveFirstSkips(connections, c, |connections|);
    rest := connections;
  }

  lemma AggregateNext(conns: seq<Conn>, i: nat, l: string, final: Conn -> Stats)
    requires i < |conns| && conns[i].relayLabel == l
    ensures SumConns(conns[..i + 1], l, final)
            == Plus(SumConns(conns[..i], l, final), Sums(1, final(conns[i]).up, final(conns[i]).down))
    ensures TotalLatency(conns[..i + 1], final) == TotalLatency(conns[..i], final) + final(conns[i]).latencyMs
  {
    assert conns[..i + 1][..i] == conns[..i];
  }

  class CmgrImpl {
    var activeConnectionsMap: ConnMap
    var closedConnectionsMap: ConnMap

    ghost function View(): Registry
      reads this
    {
      Registry(activeConnectionsMap, closedConnectionsMap)
    }

    constructor ()
      ensures View() == Registry(map[], map[])
    {
      activeConnectionsMap, closedConnectionsMap := map[], map[];
    }

    /** A page of the active or closed connections, sorted by label. */
    method ListConnections(connType: string, page: int, pageSize: int) returns (conns: Option<seq<Conn>>)
      ensures var m := if connType == "active" then activeConnectionsMap else closedConnectionsMap;
              exists labels ::
                Sorted(labels) && Enumerates(labels, m) && conns == PageOf(Flat(m, labels), page, pageSize)
    {
      var m := if connType == "active" then activeConnectionsMap else closedConnectionsMap;
      var total := CountAll(m);
      var labels := SortedLabels(m);
      FlatSize(m, labels);
      var start := Wrap((page - 1) * pageSize);
      if start > total {
        return Some([]);
      }
      var end := Min(Wrap(start + pageSize), total);
      var all := Flatten(m, labels);
      end := Min(end, |all|);
      conns := if 0 <= start <= end then Some(all[start..end]) else None;
    }

    method AddConnection(c: Conn)
      modifies this
      ensures View() == Add(old(View()), c)
    {
      var l := c.relayLabel;
      if l !in activeConnectionsMap {
        activeConnectionsMap := activeConnectionsMap[l := []];
      }
      activeConnectionsMap := activeConnectionsMap[l := activeConnectionsMap[l] + [c]];
    }

    method RemoveConnection(c: Conn)
      modifies this
      ensures View() == Remove(old(View()), c)
    {
      var l := c.relayLabel;
      if l !in activeConnectionsMap {
        return;
      }
      var connections := Without(activeConnectionsMap[l], c);
      activeConnectionsMap := activeConnectionsMap[l := connections];
      closedConnectionsMap := closedConnectionsMap[l := Under(closedConnectionsMap, l) + [c]];
    }

    /** Drains the closed map into one row per label, in an arbitrary order. */
    method PushStats(final: Conn -> Stats) returns (rows: seq<Row>, ghost labels: seq<string>)
      requires Filed(closedConnectionsMap)
      modifies this
      ensures Enumerates(labels, old(closedConnectionsMap))
      ensures rows == Rows(old(closedConnectionsMap), labels, final)
      ensures View() == Registry(old(activeConnectionsMap), map[])
    {
      rows, labels := [], [];
      var m := closedConnectionsMap;
      var rest := m.Keys;
      while rest != {}
        invariant rest <= m.Keys && Distinct(labels)
        invariant forall x :: x in labels <==> x in m.Keys && x !in rest
        invariant rows == Rows(m, labels, final)
        invariant activeConnectionsMap == old(activeConnectionsMap)
      {
        ghost var some := Member(rest);
        var l :| l in rest;
        var row := Aggregate(l, m[l], final);
        ghost var before := labels;
        labels := labels + [l];
        assert labels[..|before|] == before;
        rows := rows + [row];
        rest := rest - {l};
      }
      closedConnectionsMap := map[];
    }

    /** The inner loop of the drain. */
    static method Aggregate(l: string, conns: seq<Conn>, final: Conn -> Stats) returns (row: Row)
      requires forall c <- conns :: c.relayLabel == l
      ensures row == RowOf(l, conns, final)
    {
      var count, up, down, totalLatency := 0, 0, 0, 0;
      for i := 0 to |conns|
        invariant count == i && Sums(count, up, down) == SumConns(conns[..i], l, final)
        invariant totalLatency == TotalLatency(conns[..i], final)
      {
        AggregateNext(conns, i, l, final);
        var stats := final(conns[i]);
        count, up, down := count + 1, up + stats.up, down + stats.down;
        totalLatency := totalLatency + stats.latencyMs;
      }
      assert conns[..|conns|] == conns;
      row := Row(l, Sums(count, up, down), if count > 0 then totalLatency / count else 0);
    }
  }
}

/**
 Traffic accounting of pkg/xray/user.go. Any number of goroutines add to a counter that each
 sync drains with a swap, and then to a total that is never reset; the two adds of one call are
 separate atomic steps. A sync swaps the upload counter, then the download counter, and reports
 the pair unless both are zero.
 */
module UserTraffic {
  import opened Base

  /** One direction of one user. open holds the calls between their two adds; adds and cuts record
      every first add in order and how many of them each drained snapshot had seen. */
  datatype Meter = Meter(counter: int, total: int, open: seq<int>, adds: seq<int>, drained: seq<int>, cuts: seq<nat>)

  datatype Row = Row(up: int, down: int)

  datatype State = State(up: Meter, down: Meter, taken: Option<int>, rows: seq<Row>)

  const FRESH := Meter(0, 0, [], [], [], [0])
  const INIT := State(FRESH, FRESH, None, [])

  datatype Direction = Upload | Download

  datatype Label =
    | AddCounter(d: Direction, n: int)
    | AddTotal(d: Direction, call: nat)
    | SwapUpload
    | SwapDownload

  function Of(s: State, d: Direction): Meter {
    if d == Upload then s.up else s.down
  }

  function With(s: State, d: Direction, m: Meter): State {
    if d == Upload then s.(up := m) else s.(down := m)
  }

  predicate Enabled(s: State, l: Label) {
    match l
    case AddCounter(_, _) => true
    case AddTotal(d, call) => call < |Of(s, d).open|
    case SwapUpload => s.taken.None?
    case SwapDownload => s.taken.Some?
  }

  function FirstAdd(m: Meter, n: int): Meter {
    m.(counter := m.counter + n, open := m.open + [n], adds := m.adds + [n])
  }

  function SecondAdd(m: Meter, call: nat): Meter
    requires call < |m.open|
  {
    m.(total := m.total + m.open[call], open := m.open[..call] + m.open[call + 1..])
  }

  function Swap(m: Meter): Meter {
    m.(counter := 0, drained := m.drained + [m.counter], cuts := m.cuts + [|m.adds|])
  }

  /** A row of zeros is not reported. */
  function Report(rows: seq<Row>, up: int, down: int): seq<Row> {
    if up == 0 && down == 0 then rows else rows + [Row(up, down)]
  }

  function Step(s: State, l: Label): State
    requires Enabled(s, l)
  {
    match l
    case AddCounter(d, n) => With(s, d, FirstAdd(Of(s, d), n))
    case AddTotal(d, call) => With(s, d, SecondAdd(Of(s, d), call))
    case SwapUpload => s.(up := Swap(s.up), taken := Some(s.up.counter))
    case SwapDownload =>
      s.(down := Swap(s.down), taken := None, rows := Report(s.rows, s.taken.value, s.down.counter))
  }

  ghost predicate Execution(ls: seq<Label>, ss: seq<State>) {
    && |ss| == |ls| + 1 && ss[0] == INIT
    && forall i | 0 <= i < |ls| :: Enabled(ss[i], ls[i]) && ss[i + 1] == Step(ss[i], ls[i])
  }

  ghost predicate Reachable(s: State) {
    exists ls, ss :: Execution(ls, ss) && ss[|ls|] == s
  }

  function Ups(rows: seq<Row>): seq<int> {
    seq(|rows|, i requires 0 <= i < |rows| => rows[i].up)
  }

  function Downs(rows: seq<Row>): seq<int> {
    seq(|rows|, i requires 0 <= i < |rows| => rows[i].down)
  }

  /** The cuts split the adds into consecutive blocks, one per snapshot and one for the residue. */
  ghost predicate Partitioned(m: Meter) {
    && |m.cuts| == |m.drained| + 1 && m.cuts[0] == 0
    && (forall k | 0 <= k < |m.cuts| :: m.cuts[k] <= |m.adds|)
    && (forall k | 0 <= k < |m.drained| ::
          m.cuts[k] <= m.cuts[k + 1] && m.drained[k] == Sum(m.adds[m.cuts[k]..m.cuts[k + 1]]))
    && m.counter == Sum(m.adds[m.cuts[|m.drained|]..])
  }

  ghost predicate Balanced(m: Meter) {
    Sum(m.drained) + m.counter == m.total + Sum(m.open)
  }

  ghost predicate Inv(s: State) {
    && Partitioned(s.up) && Balanced(s.up)
    && Partitioned(s.down) && Balanced(s.down)
    && Sum(Ups(s.rows)) + (if s.taken.Some? then s.taken.value else 0) == Sum(s.up.drained)
    && Sum(Downs(s.rows)) == Sum(s.down.drained)
  }

  lemma {:induction false} SumRemove(s: seq<int>, i: nat)
    requires i < |s|
    ensures Sum(s[..i] + s[i + 1..]) == Sum(s) - s[i]
  {
    var n := |s| - 1;
    if i == n {
      assert s[..i] + s[i + 1..] == s[..n];
    } else {
      var rest := s[..n][..i] + s[..n][i + 1..];
      assert s[..i] + s[i + 1..] == rest + [s[n]];
      SumRemove(s[..n], i);
    }
  }

  lemma BlockKept(m: Meter, n: int, k: nat)
    requires Partitioned(m) && k < |m.drained|
    ensures m.cuts[k] <= m.cuts[k + 1] <= |m.adds|
    ensures FirstAdd(m, n).adds[m.cuts[k]..m.cuts[k + 1]] == m.adds[m.cuts[k]..m.cuts[k + 1]]
  {
  }

  lemma ResidueGrows(m: Meter, n: int)
    requires Partitioned(m)
    ensures m.cuts[|m.drained|] <= |m.adds|
    ensures Sum(FirstAdd(m, n).adds[m.cuts[|m.drained|]..]) == Sum(m.adds[m.cuts[|m.drained|]..]) + n
  {
    var last := m.cuts[|m.drained|];
    assert FirstAdd(m, n).adds[last..] == m.adds[last..] + [n];
  }

  lemma FirstAddKeeps(m: Meter, n: int)
    requires Partitioned(m) && Balanced(m)
    ensures Partitioned(FirstAdd(m, n)) && Balanced(FirstAdd(m, n))
  {
    ResidueGrows(m, n);
    var m' := FirstAdd(m, n);
    forall k | 0 <= k < |m'.drained|
      ensures m'.cuts[k] <= m'.cuts[k + 1] && m'.drained[k] == Sum(m'.adds[m'.cuts[k]..m'.cuts[k + 1]])
    {
      BlockKept(m, n, k);
    }
  }

  lemma SwapKeeps(m: Meter)
    requires Partitioned(m) && Balanced(m)
    ensures Partitioned(Swap(m)) && Balanced(Swap(m))
  {
    var m' := Swap(m);
    assert m.adds[|m.adds|..] == [];
    var last := |m.drained|;
    assert m.adds[m.cuts[last]..|m.adds|] == m.adds[m.cuts[last]..];
    forall k | 0 <= k < |m'.drained|
      ensures m'.cuts[k] <= m'.cuts[k + 1] && m'.drained[k] == Sum(m'.adds[m'.cuts[k]..m'.cuts[k + 1]])
    {
      if k < last {
        assert m'.cuts[k] == m.cuts[k] && m'.cuts[k + 1] == m.cuts[k + 1] && m'.drained[k] == m.drained[k];
      }
    }
  }

  lemma ReportKeeps(rows: seq<Row>, up: int, down: int)
    ensures Sum(Ups(Report(rows, up, down))) == Sum(Ups(rows)) + up
    ensures Sum(Downs(Report(rows, up, down))) == Sum(Downs(rows)) + down
  {
    if up != 0 || down != 0 {
      assert Ups(rows + [Row(up, down)]) == Ups(rows) + [up];
      assert Downs(rows + [Row(up, down)]) == Downs(rows) + [down];
    }
  }

  lemma SecondAddKeeps(m: Meter, call: nat)
    requires Partitioned(m) && Balanced(m) && call < |m.open|
    ensures Partitioned(SecondAdd(m, call)) && Balanced(SecondAdd(m, call))
  {
    SumRemove(m.open, call);
  }

  lemma AddKeepsInv(s: State, l: Label)
    requires (l.AddCounter? || l.AddTotal?) && Inv(s) && Enabled(s, l)
    ensures Inv(Step(s, l))
  {
    var m := Of(s, l.d);
    var m' := if l.AddCounter? then FirstAdd(m, l.n) else SecondAdd(m, l.call);
    assert Partitioned(m') && Balanced(m') && m'.drained == m.drained by {
      if l.AddCounter? {
        FirstAddKeeps(m, l.n);
      } else {
        SecondAddKeeps(m, l.call);
      }
    }
    assert Step(s, l) == With(s, l.d, m');
  }

  lemma StepKeepsInv(s: State, l: Label)
    requires Inv(s) && Enabled(s, l)
    ensures Inv(Step(s, l))
  {
    if l.SwapUpload? {
      SwapKeeps(s.up);
    } else if l.SwapDownload? {
      SwapKeeps(s.down);
      ReportKeeps(s.rows, s.taken.value, s.down.counter);
    } else {
      AddKeepsInv(s, l);
    }
  }

  lemma {:induction false} ExecutionInv(ls: seq<Label>, ss: seq<State>, n: nat)
    requires Execution(ls, ss) && n <= |ls|
    ensures Inv(ss[n])
  {
    if n > 0 {
      ExecutionInv(ls, ss, n - 1);
      StepKeepsInv(ss[n - 1], ls[n - 1]);
    } else {
      assert Ups([]) == [] && Downs([]) == [];
    }
  }

  lemma ReachableInv(s: State)
    requires Reachable(s)
    ensures Inv(s)
  {
    var ls, ss :| Execution(ls, ss) && ss[|ls|] == s;
    ExecutionInv(ls, ss, |ls|);
  }

  /** Conservation: whatever is drained plus what is in the counter is the cumulative total plus
      the calls between their two adds. */
  lemma TrafficConserved(s: State, d: Direction)
    requires Reachable(s)
    ensures Sum(Of(s, d).drained) + Of(s, d).counter == Of(s, d).total + Sum(Of(s, d).open)
  {
    ReachableInv(s);
  }

  /** Every add lands in exactly one snapshot or in the residue: the snapshots and the counter are
      the sums of consecutive blocks of the adds, in order. */
  lemma EachAddLandsOnce(s: State, d: Direction)
    requires Reachable(s)
    ensures Partitioned(Of(s, d))
  {
    ReachableInv(s);
  }

  /** Leaving out the rows of zeros loses no bytes: between syncs, what was reported plus what is
      in the counter accounts for the total and the calls still open. */
  lemma ReportsLoseNothing(s: State)
    requires Reachable(s) && s.taken.None?
    ensures Sum(Ups(s.rows)) + s.up.counter == s.up.total + Sum(s.up.open)
    ensures Sum(Downs(s.rows)) + s.down.counter == s.down.total + Sum(s.down.open)
  {
    ReachableInv(s);
  }
}

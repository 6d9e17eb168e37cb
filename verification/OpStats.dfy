/**
 The latency counters of internal/cmgr/ms/stats.go: any number of record calls at once, each atomic
 operation one step, with the compare-and-swap loop that keeps the maximum.
 */
module OpStats {
  import opened Base

  // --- steps ---

  /** Where a call of record is: before its first addition, ..., in the loop with the maximum it
      loaded, or returned. */
  datatype PC = Start | Counted | Totalled | Looping | Loaded(m: int) | Done

  datatype Call = Call(ns: int, pc: PC)

  /** The four atomic fields, and every call made so far. */
  datatype State = State(count: int, total: int, max: int, last: int, calls: seq<Call>)

  datatype Label = Enter(ns: int) | Run(t: nat)

  const INIT := State(0, 0, 0, 0, [])

  predicate Enabled(s: State, l: Label) {
    l.Run? ==> l.t < |s.calls| && s.calls[l.t].pc != Done
  }

  function Goto(s: State, t: nat, pc: PC): seq<Call>
    requires t < |s.calls|
  {
    s.calls[t := Call(s.calls[t].ns, pc)]
  }

  function Step(s: State, l: Label): State
    requires Enabled(s, l)
  {
    match l
    case Enter(ns) => s.(calls := s.calls + [Call(ns, Start)])
    case Run(t) => RunStep(s, t)
  }

  /** The next atomic operation of one call. A swap succeeds only when the maximum is still the one
      loaded; otherwise the loop starts over. */
  function RunStep(s: State, t: nat): State
    requires t < |s.calls| && s.calls[t].pc != Done
  {
    var ns := s.calls[t].ns;
    match s.calls[t].pc
    case Start => s.(count := s.count + 1, calls := Goto(s, t, Counted))
    case Counted => s.(total := s.total + ns, calls := Goto(s, t, Totalled))
    case Totalled => s.(last := ns, calls := Goto(s, t, Looping))
    case Looping => s.(calls := Goto(s, t, Loaded(s.max)))
    case Loaded(m) =>
      if ns <= m then s.(calls := Goto(s, t, Done))
      else if s.max == m then s.(max := ns, calls := Goto(s, t, Done))
      else s.(calls := Goto(s, t, Looping))
  }

  ghost predicate Execution(ls: seq<Label>, ss: seq<State>) {
    && |ss| == |ls| + 1 && ss[0] == INIT
    && forall i | 0 <= i < |ls| :: Enabled(ss[i], ls[i]) && ss[i + 1] == Step(ss[i], ls[i])
  }

  ghost predicate Reachable(s: State) {
    exists ls, ss :: Execution(ls, ss) && ss[|ls|] == s
  }

  // --- sums over the calls ---

  function Tally(calls: seq<Call>, w: Call -> int): int {
    if calls == [] then 0 else Tally(calls[..|calls| - 1], w) + w(calls[|calls| - 1])
  }

  lemma {:induction false} TallyUpdate(calls: seq<Call>, w: Call -> int, t: nat, c: Call)
    requires t < |calls|
    ensures Tally(calls[t := c], w) == Tally(calls, w) - w(calls[t]) + w(c)
  {
    var n := |calls| - 1;
    if t == n {
      assert calls[t := c][..n] == calls[..n];
    } else {
      assert calls[t := c][..n] == calls[..n][t := c];
      TallyUpdate(calls[..n], w, t, c);
    }
  }

  function HasCounted(c: Call): int {
    if c.pc.Start? then 0 else 1
  }

  function HasTotalled(c: Call): int {
    if c.pc.Start? || c.pc.Counted? then 0 else c.ns
  }

  // --- invariant ---

  /** The maximum is the largest sample that finished, or 0; no call has loaded more than it. */
  ghost predicate MaxInv(s: State) {
    && (forall t | 0 <= t < |s.calls| && s.calls[t].pc == Done :: s.calls[t].ns <= s.max)
    && (forall t | 0 <= t < |s.calls| && s.calls[t].pc.Loaded? :: s.calls[t].pc.m <= s.max)
    && (s.max == 0 || exists t :: 0 <= t < |s.calls| && s.calls[t] == Call(s.max, Done))
    && 0 <= s.max
  }

  ghost predicate SumInv(s: State) {
    && s.count == Tally(s.calls, HasCounted)
    && s.total == Tally(s.calls, HasTotalled)
  }

  lemma MaxStep(s: State, l: Label)
    requires MaxInv(s) && Enabled(s, l)
    ensures MaxInv(Step(s, l)) && s.max <= Step(s, l).max
  {
    var s' := Step(s, l);
    if s'.max == s.max {
      if s.max != 0 {
        var t :| 0 <= t < |s.calls| && s.calls[t] == Call(s.max, Done);
        assert s'.calls[t] == Call(s'.max, Done);
      }
    } else {
      assert s'.calls[l.t] == Call(s'.max, Done);
    }
  }

  lemma SumStep(s: State, l: Label)
    requires SumInv(s) && Enabled(s, l)
    ensures SumInv(Step(s, l))
  {
    var s' := Step(s, l);
    if l.Enter? {
      assert s'.calls[..|s.calls|] == s.calls;
    } else {
      TallyUpdate(s.calls, HasCounted, l.t, s'.calls[l.t]);
      TallyUpdate(s.calls, HasTotalled, l.t, s'.calls[l.t]);
    }
  }

  lemma {:induction false} ExecutionInv(ls: seq<Label>, ss: seq<State>, n: nat)
    requires Execution(ls, ss) && n <= |ls|
    ensures MaxInv(ss[n]) && SumInv(ss[n])
  {
    if n > 0 {
      ExecutionInv(ls, ss, n - 1);
      MaxStep(ss[n - 1], ls[n - 1]);
      SumStep(ss[n - 1], ls[n - 1]);
    }
  }

  lemma ReachableInv(s: State)
    requires Reachable(s)
    ensures MaxInv(s) && SumInv(s)
  {
    var ls, ss :| Execution(ls, ss) && ss[|ls|] == s;
    ExecutionInv(ls, ss, |ls|);
  }

  // --- the maximum ---

  /** In every reachable state the maximum is at least every finished sample, and is itself a
      finished sample or 0: so no lost update, and nothing larger than what was started. */
  lemma MaxIsExact(s: State)
    requires Reachable(s)
    ensures forall t | 0 <= t < |s.calls| && s.calls[t].pc == Done :: s.calls[t].ns <= s.max
    ensures s.max == 0 || exists t :: 0 <= t < |s.calls| && s.calls[t] == Call(s.max, Done)
    ensures 0 <= s.max
  {
    ReachableInv(s);
  }

  lemma {:induction false} MaxNeverDecreases(ls: seq<Label>, ss: seq<State>, i: nat, j: nat)
    requires Execution(ls, ss) && i <= j <= |ls|
    ensures ss[i].max <= ss[j].max
    decreases j
  {
    if i < j {
      MaxNeverDecreases(ls, ss, i, j - 1);
      ExecutionInv(ls, ss, j - 1);
      MaxStep(ss[j - 1], ls[j - 1]);
    }
  }

  // --- the loop ends ---

  function Gap(ns: int, m: int): nat {
    if m < ns then ns - m else 0
  }

  /** An upper bound on the steps a call has left. */
  function Work(s: State, t: nat): nat
    requires t < |s.calls|
  {
    var c := s.calls[t];
    match c.pc
    case Start => 2 * Gap(c.ns, s.max) + 5
    case Counted => 2 * Gap(c.ns, s.max) + 4
    case Totalled => 2 * Gap(c.ns, s.max) + 3
    case Looping => 2 * Gap(c.ns, s.max) + 2
    case Loaded(m) => 2 * Gap(c.ns, m) + 1
    case Done => 0
  }

  /** A swap fails only because the maximum rose above the loaded one. */
  lemma RetryRaises(s: State, t: nat)
    requires Reachable(s) && t < |s.calls| && s.calls[t].pc.Loaded? && RunStep(s, t).calls[t].pc.Looping?
    ensures s.calls[t].pc.m < s.max
    ensures Gap(s.calls[t].ns, s.max) < Gap(s.calls[t].ns, s.calls[t].pc.m)
  {
    ReachableInv(s);
  }

  function StepsOf(ls: seq<Label>, t: nat): nat {
    if ls == [] then 0
    else StepsOf(ls[..|ls| - 1], t) + if ls[|ls| - 1] == Run(t) then 1 else 0
  }

  /** A step of a run leaves a call with no more work, and with less if it is its own. */
  ghost predicate Pays(ls: seq<Label>, ss: seq<State>, k: nat, t: nat)
    requires k < |ls| && |ss| == |ls| + 1
  {
    && t < |ss[k].calls| && t < |ss[k + 1].calls|
    && Work(ss[k + 1], t) + (if ls[k] == Run(t) then 1 else 0) <= Work(ss[k], t)
  }

  lemma StepPays(ls: seq<Label>, ss: seq<State>, k: nat, t: nat)
    requires Execution(ls, ss) && k < |ls| && t < |ss[k].calls|
    ensures Pays(ls, ss, k, t)
  {
    ExecutionInv(ls, ss, k);
  }

  lemma {:induction false} AllPay(ls: seq<Label>, ss: seq<State>, i: nat, j: nat, t: nat)
    requires Execution(ls, ss) && i <= j <= |ls| && t < |ss[i].calls|
    ensures t < |ss[j].calls| && forall k | i <= k < j :: Pays(ls, ss, k, t)
    decreases j
  {
    if i < j {
      AllPay(ls, ss, i, j - 1, t);
      StepPays(ls, ss, j - 1, t);
      assert Pays(ls, ss, j - 1, t);
    }
  }

  lemma StepsSnoc(ls: seq<Label>, i: nat, j: nat, t: nat)
    requires i < j <= |ls|
    ensures StepsOf(ls[i..j], t) == StepsOf(ls[i..j - 1], t) + if ls[j - 1] == Run(t) then 1 else 0
  {
    assert ls[i..j][..j - 1 - i] == ls[i..j - 1];
  }

  lemma {:induction false} PaysInAll(ls: seq<Label>, ss: seq<State>, i: nat, j: nat, t: nat)
    requires |ss| == |ls| + 1 && i <= j <= |ls| && t < |ss[i].calls| && t < |ss[j].calls|
    requires forall k | i <= k < j :: Pays(ls, ss, k, t)
    ensures StepsOf(ls[i..j], t) + Work(ss[j], t) <= Work(ss[i], t)
    decreases j
  {
    if i < j {
      assert Pays(ls, ss, j - 1, t);
      PaysInAll(ls, ss, i, j - 1, t);
      StepsSnoc(ls, i, j, t);
    }
  }

  lemma WorkPays(ls: seq<Label>, ss: seq<State>, i: nat, j: nat, t: nat)
    requires Execution(ls, ss) && i <= j <= |ls| && t < |ss[i].calls|
    ensures t < |ss[j].calls| && StepsOf(ls[i..j], t) + Work(ss[j], t) <= Work(ss[i], t)
  {
    AllPay(ls, ss, i, j, t);
    PaysInAll(ls, ss, i, j, t);
  }

  /** However the others interfere, a call takes at most 2 * ns + 5 steps in all. */
  lemma LoopEnds(ls: seq<Label>, ss: seq<State>, i: nat, j: nat)
    requires Execution(ls, ss) && i < j <= |ls| && ls[i].Enter?
    ensures var t := |ss[i].calls|;
            StepsOf(ls[i + 1..j], t) <= 2 * Gap(ls[i].ns, 0) + 5
  {
    var t := |ss[i].calls|;
    ExecutionInv(ls, ss, i);
    assert ss[i + 1].calls[t] == Call(ls[i].ns, Start);
    WorkPays(ls, ss, i + 1, j, t);
  }

  // --- at rest ---

  ghost predicate Quiet(s: State) {
    forall t | 0 <= t < |s.calls| :: s.calls[t].pc == Done
  }

  function Samples(calls: seq<Call>): seq<int> {
    seq(|calls|, i requires 0 <= i < |calls| => calls[i].ns)
  }

  lemma {:induction false} QuietTally(calls: seq<Call>, max: int)
    requires forall t | 0 <= t < |calls| :: calls[t].pc == Done && calls[t].ns <= max
    ensures Tally(calls, HasCounted) == |calls|
    ensures Tally(calls, HasTotalled) == Sum(Samples(calls)) <= |calls| * max
  {
    if calls != [] {
      var n := |calls| - 1;
      QuietTally(calls[..n], max);
      assert Samples(calls) == Samples(calls[..n]) + [calls[n].ns];
    }
  }

  /** Once every call has returned, the count and the total are exact, the maximum is the maximum,
      and the average it reports is not above it. */
  lemma ExactAtRest(s: State)
    requires Reachable(s) && Quiet(s)
    ensures s.count == |s.calls|
    ensures s.total == Sum(Samples(s.calls))
    ensures s.total <= s.count * s.max
    ensures forall t | 0 <= t < |s.calls| :: s.calls[t].ns <= s.max
    ensures s.max == 0 || s.max in Samples(s.calls)
  {
    ReachableInv(s);
    QuietTally(s.calls, s.max);
    if s.max != 0 {
      var t :| 0 <= t < |s.calls| && s.calls[t] == Call(s.max, Done);
      assert Samples(s.calls)[t] == s.max;
    }
  }

  // --- the average and the maximum ---

  function Unfinished(c: Call): int {
    if c.pc.Done? then 0 else 1
  }

  /** A call that has added to the total and has not yet returned: its sample may be missing from the
      maximum. */
  function Owes(c: Call): int {
    if c.pc.Totalled? || c.pc.Looping? || c.pc.Loaded? then 1 else 0
  }

  lemma {:induction false} TallyIsCount(calls: seq<Call>, w: Call -> int)
    requires forall c :: 0 <= w(c) <= 1
    ensures 0 <= Tally(calls, w) <= |calls|
    ensures Tally(calls, w) == 0 ==> forall c <- calls :: w(c) == 0
  {
    if calls != [] {
      var n := |calls| - 1;
      TallyIsCount(calls[..n], w);
      assert calls == calls[..n] + [calls[n]];
    }
  }

  /** The total is bounded as long as every sample in it is. */
  lemma {:induction false} TotalBounded(calls: seq<Call>, max: int)
    requires 0 <= max && forall c <- calls | HasTotalled(c) != 0 :: c.ns <= max
    ensures Tally(calls, HasTotalled) <= Tally(calls, HasCounted) * max
  {
    if calls != [] {
      var n := |calls| - 1;
      TotalBounded(calls[..n], max);
      var k := Tally(calls[..n], HasCounted);
      assert calls[n] in calls;
      assert (k + 1) * max == k * max + max;
    }
  }

  lemma BoundedUnlessOwing(s: State)
    requires Reachable(s) && Tally(s.calls, Owes) == 0
    ensures s.total <= s.count * s.max
  {
    ReachableInv(s);
    TallyIsCount(s.calls, Owes);
    forall c <- s.calls | HasTotalled(c) != 0 ensures c.ns <= s.max {
      assert Owes(c) == 0;
      var t :| 0 <= t < |s.calls| && s.calls[t] == c;
      assert s.calls[t].pc == Done;
    }
    TotalBounded(s.calls, s.max);
  }

  lemma Next(s: State, l: Label)
    requires Reachable(s) && Enabled(s, l)
    ensures Reachable(Step(s, l))
  {
    var ls, ss :| Execution(ls, ss) && ss[|ls|] == s;
    var (ls', ss') := (ls + [l], ss + [Step(s, l)]);
    assert ss'[0] == INIT;
    forall i | 0 <= i < |ls'| ensures Enabled(ss'[i], ls'[i]) && ss'[i + 1] == Step(ss'[i], ls'[i]) {
      if i < |ls| {
        assert ls'[i] == ls[i] && ss'[i] == ss[i] && ss'[i + 1] == ss[i + 1];
      }
    }
    assert Execution(ls', ss') && ss'[|ls'|] == Step(s, l);
  }

  /** One more call, stopped between its addition to the total and its store. */
  lemma OneMoreOwes(s: State) returns (s': State)
    requires Reachable(s)
    ensures Reachable(s') && s'.max == s.max && s'.count == s.count + 1 && s'.total == s.total + 7
    ensures s'.calls == s.calls + [Call(7, Totalled)]
  {
    var t := |s.calls|;
    var s1 := Step(s, Enter(7));
    Next(s, Enter(7));
    var s2 := Step(s1, Run(t));
    Next(s1, Run(t));
    assert s2.calls == s.calls + [Call(7, Counted)];
    s' := Step(s2, Run(t));
    Next(s2, Run(t));
  }

  lemma {:induction false} AllOwe(k: nat) returns (s: State)
    ensures Reachable(s) && s.max == 0 && s.count == k && s.total == 7 * k
    ensures Tally(s.calls, Owes) == Tally(s.calls, Unfinished) == k
  {
    if k == 0 {
      s := INIT;
      var none: seq<Label> := [];
      assert Execution(none, [INIT]);
    } else {
      var before := AllOwe(k - 1);
      s := OneMoreOwes(before);
      assert s.calls[..|before.calls|] == before.calls;
    }
  }

  /** The average the counters give is at most their maximum in every state with k calls between
      their addition to the total and their return exactly when k is 0. */
  lemma AverageBoundedExactly(k: nat)
    ensures (forall s :: Reachable(s) && Tally(s.calls, Owes) == k ==> s.total <= s.count * s.max) <==> k == 0
  {
    if k == 0 {
      forall s | Reachable(s) && Tally(s.calls, Owes) == k ensures s.total <= s.count * s.max {
        BoundedUnlessOwing(s);
      }
    } else {
      var s := AllOwe(k);
    }
  }

  /** The same by the number of calls under way. */
  lemma AverageBoundedAtRestExactly(k: nat)
    ensures (forall s :: Reachable(s) && Tally(s.calls, Unfinished) == k ==> s.total <= s.count * s.max) <==> k == 0
  {
    if k == 0 {
      forall s | Reachable(s) && Tally(s.calls, Unfinished) == k ensures s.total <= s.count * s.max {
        TallyIsCount(s.calls, Unfinished);
        forall t | 0 <= t < |s.calls| ensures s.calls[t].pc == Done {
          assert s.calls[t] in s.calls;
        }
        ExactAtRest(s);
      }
    } else {
      var s := AllOwe(k);
    }
  }

  // --- a snapshot taken meanwhile ---

  function Finished(c: Call): int {
    if c.pc.Done? then 1 else 0
  }

  function FinishedNs(c: Call): int {
    if c.pc.Done? then c.ns else 0
  }

  function Ns(c: Call): int {
    c.ns
  }

  lemma {:induction false} TallyMonotone(calls: seq<Call>, v: Call -> int, w: Call -> int)
    requires forall c <- calls :: v(c) <= w(c)
    ensures Tally(calls, v) <= Tally(calls, w)
  {
    if calls != [] {
      var n := |calls| - 1;
      assert calls[n] in calls;
      TallyMonotone(calls[..n], v, w);
    }
  }

  /** Durations are not negative. */
  ghost predicate NoNegatives(s: State) {
    forall t | 0 <= t < |s.calls| :: s.calls[t].ns >= 0
  }

  /** The last sample is one that was stored, or 0 before the first. */
  ghost predicate LastInv(s: State) {
    s.last == 0 || exists t :: 0 <= t < |s.calls| && s.calls[t].ns == s.last && Stored(s.calls[t])
  }

  predicate Stored(c: Call) {
    c.pc.Looping? || c.pc.Loaded? || c.pc.Done?
  }

  lemma LastStep(s: State, l: Label)
    requires LastInv(s) && Enabled(s, l)
    ensures LastInv(Step(s, l))
  {
    var s' := Step(s, l);
    if s'.last == s.last {
      if s.last != 0 {
        var t :| 0 <= t < |s.calls| && s.calls[t].ns == s.last && Stored(s.calls[t]);
        assert s'.calls[t].ns == s'.last && Stored(s'.calls[t]);
      }
    } else {
      assert s'.calls[l.t].ns == s'.last && Stored(s'.calls[l.t]);
    }
  }

  lemma {:induction false} LastIsStored(ls: seq<Label>, ss: seq<State>, n: nat)
    requires Execution(ls, ss) && n <= |ls|
    ensures LastInv(ss[n])
  {
    if n > 0 {
      LastIsStored(ls, ss, n - 1);
      LastStep(ss[n - 1], ls[n - 1]);
    }
  }

  lemma {:induction false} TotalNeverDecreases(ls: seq<Label>, ss: seq<State>, i: nat, j: nat)
    requires Execution(ls, ss) && i <= j <= |ls| && NoNegatives(ss[j])
    ensures NoNegatives(ss[i]) && ss[i].total <= ss[j].total
    decreases j
  {
    if i < j {
      var (s, s') := (ss[j - 1], ss[j]);
      forall t | 0 <= t < |s.calls| ensures s.calls[t].ns >= 0 {
        assert s'.calls[t].ns == s.calls[t].ns;
      }
      TotalNeverDecreases(ls, ss, i, j - 1);
    }
  }

  lemma TotalWithin(s: State)
    requires SumInv(s) && NoNegatives(s)
    ensures Tally(s.calls, FinishedNs) <= s.total <= Tally(s.calls, Ns)
  {
    TallyMonotone(s.calls, FinishedNs, HasTotalled);
    TallyMonotone(s.calls, HasTotalled, Ns);
  }

  /** A snapshot loads the count, the maximum, the last sample and the total in states that follow each
      other. The calls that had returned when it began are in its count, which holds no call not yet made;
      its maximum covers them, and is itself a finished sample, or 0; its last sample was stored; and the
      total it divides by the count is at least that of the calls that had returned and at most that of
      the calls made by then. */
  lemma SnapshotCovers(ls: seq<Label>, ss: seq<State>, i: nat, j: nat, k: nat, m: nat)
    requires Execution(ls, ss) && i <= j <= k <= m <= |ls| && NoNegatives(ss[m])
    ensures Tally(ss[i].calls, Finished) <= ss[i].count <= |ss[i].calls|
    ensures forall t | 0 <= t < |ss[i].calls| && ss[i].calls[t].pc == Done :: ss[i].calls[t].ns <= ss[j].max
    ensures ss[j].max == 0 || exists t :: 0 <= t < |ss[j].calls| && ss[j].calls[t] == Call(ss[j].max, Done)
    ensures LastInv(ss[k])
    ensures Tally(ss[i].calls, FinishedNs) <= ss[m].total <= Tally(ss[m].calls, Ns)
  {
    ExecutionInv(ls, ss, i);
    ExecutionInv(ls, ss, j);
    ExecutionInv(ls, ss, m);
    MaxNeverDecreases(ls, ss, i, j);
    TallyMonotone(ss[i].calls, Finished, HasCounted);
    TallyIsCount(ss[i].calls, HasCounted);
    LastIsStored(ls, ss, k);
    TotalNeverDecreases(ls, ss, i, m);
    TotalWithin(ss[i]);
    TotalWithin(ss[m]);
  }

  // --- the object, used by one caller at a time ---

  datatype Counters = Counters(count: int, total: int, max: int, last: int)

  function Recorded(c: Counters, ns: int): Counters {
    Counters(c.count + 1, c.total + ns, Max(c.max, ns), ns)
  }

  function CountersOf(s: State): Counters {
    Counters(s.count, s.total, s.max, s.last)
  }

  /** A call that is not disturbed takes five steps, and they record its sample. */
  lemma SoloRunRecords(s: State, ns: int)
    ensures var t := |s.calls|;
            var s0 := Step(s, Enter(ns));
            var s1 := RunStep(s0, t);
            var s2 := RunStep(s1, t);
            var s3 := RunStep(s2, t);
            var s4 := RunStep(s3, t);
            var s5 := RunStep(s4, t);
            s5.calls == s.calls + [Call(ns, Done)] && CountersOf(s5) == Recorded(CountersOf(s), ns)
    ensures Recorded(CountersOf(s), ns).last == ns
  {
  }

  datatype Snapshot = Snapshot(count: int, avgNs: real, maxNs: int, lastNs: int)

  class OpStats {
    var count: int
    var totalNs: int
    var maxNs: int
    var lastNs: int

    ghost function View(): Counters
      reads this
    {
      Counters(count, totalNs, maxNs, lastNs)
    }

    constructor ()
      ensures View() == Counters(0, 0, 0, 0)
    {
      count, totalNs, maxNs, lastNs := 0, 0, 0, 0;
    }

    method CompareAndSwapMax(was: int, now: int) returns (swapped: bool)
      modifies this`maxNs
      ensures swapped <==> old(maxNs) == was
      ensures maxNs == if swapped then now else old(maxNs)
    {
      swapped := maxNs == was;
      if swapped {
        maxNs := now;
      }
    }

    method Record(ns: int)
      modifies this
      ensures View() == Recorded(old(View()), ns)
    {
      count := count + 1;
      totalNs := totalNs + ns;
      lastNs := ns;
      var done := false;
      while !done
        invariant count == old(count) + 1 && totalNs == old(totalNs) + ns && lastNs == ns
        invariant maxNs == if done then Max(old(maxNs), ns) else old(maxNs)
        decreases !done
      {
        var m := maxNs;
        if ns <= m {
          done := true;
        } else {
          done := CompareAndSwapMax(m, ns);
        }
      }
    }

    method Reset()
      modifies this
      ensures View() == Counters(0, 0, 0, 0)
    {
      count, totalNs, maxNs, lastNs := 0, 0, 0, 0;
    }

    method TakeSnapshot() returns (s: Snapshot)
      ensures s.count == count && s.maxNs == maxNs && s.lastNs == lastNs
      ensures s.avgNs * (if count > 0 then count else 1) as real == if count > 0 then totalNs as real else 0.0
    {
      s := Snapshot(count, if count > 0 then totalNs as real / count as real else 0.0, maxNs, lastNs);
    }
  }

  /** The counters of a run are those of recording the samples one after the other, whatever the
      interleaving was (all but the last sample). */
  function RecordAll(samples: seq<int>): Counters {
    if samples == [] then Counters(0, 0, 0, 0)
    else Recorded(RecordAll(samples[..|samples| - 1]), samples[|samples| - 1])
  }

  lemma {:induction false} RecordAllIs(samples: seq<int>)
    ensures RecordAll(samples).count == |samples|
    ensures RecordAll(samples).total == Sum(samples)
    ensures 0 <= RecordAll(samples).max
    ensures RecordAll(samples).max == 0 || RecordAll(samples).max in samples
    ensures forall i | 0 <= i < |samples| :: samples[i] <= RecordAll(samples).max
  {
    if samples != [] {
      var n := |samples| - 1;
      RecordAllIs(samples[..n]);
      assert samples[..n] + [samples[n]] == samples;
    }
  }

  lemma ConcurrentIsSequential(s: State)
    requires Reachable(s) && Quiet(s)
    ensures var c := RecordAll(Samples(s.calls)); s.count == c.count && s.total == c.total && s.max == c.max
  {
    ExactAtRest(s);
    MaxIsExact(s);
    var samples := Samples(s.calls);
    RecordAllIs(samples);
    assert forall i | 0 <= i < |samples| :: samples[i] == s.calls[i].ns;
  }
}

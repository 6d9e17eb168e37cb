/**
 Traffic over the whole pool of pkg/xray/user.go, one direction. A sync reconciles the pool before it
 reports, so a user that is dropped is not reported any more, while the dispatches of
 pkg/xray/outbound.go that found it go on counting. Any number of dispatches interleave with the sync.
 */
module PoolTraffic {
  import opened Base

  /** A user object: its cycle counter and its total, and what was reported and first added so far. */
  datatype Obj = Obj(counter: int, total: int, reported: int, carried: int)

  /** A dispatch holds the user object it found; open is the add it is in the middle of. */
  datatype Dispatch = Dispatch(obj: nat, open: Option<nat>, over: bool)

  /** All user objects ever created, the pool, and all metered dispatches. */
  datatype State = State(objs: seq<Obj>, pool: map<int, nat>, dispatches: seq<Dispatch>)

  datatype Label =
    | Create(id: int)
    | Drop(id: int)
    | Collect(id: int)
    | Begin(id: int)
    | AddCounter(d: nat, n: nat)
    | AddTotal(d: nat)
    | End(d: nat)

  const NEW := Obj(0, 0, 0, 0)
  const INIT := State([], map[], [])

  predicate Running(s: State, d: nat) {
    d < |s.dispatches| && !s.dispatches[d].over && s.dispatches[d].obj < |s.objs|
  }

  predicate InPool(s: State, id: int) {
    id in s.pool && s.pool[id] < |s.objs|
  }

  predicate Enabled(s: State, l: Label) {
    match l
    case Create(id) => id !in s.pool
    case Drop(id) => InPool(s, id)
    case Collect(id) => InPool(s, id)
    case Begin(id) => InPool(s, id)
    case AddCounter(d, _) => Running(s, d) && s.dispatches[d].open.None?
    case AddTotal(d) => Running(s, d) && s.dispatches[d].open.Some?
    case End(d) => Running(s, d) && s.dispatches[d].open.None?
  }

  function Step(s: State, l: Label): State
    requires Enabled(s, l)
  {
    match l
    case Create(id) => s.(objs := s.objs + [NEW], pool := s.pool[id := |s.objs|])
    case Drop(id) => s.(pool := s.pool - {id})
    case Collect(id) =>
      var o := s.objs[s.pool[id]];
      s.(objs := s.objs[s.pool[id] := o.(counter := 0, reported := o.reported + o.counter)])
    case Begin(id) => s.(dispatches := s.dispatches + [Dispatch(s.pool[id], None, false)])
    case AddCounter(d, n) =>
      var h := s.dispatches[d].obj;
      var o := s.objs[h];
      s.(objs := s.objs[h := o.(counter := o.counter + n, carried := o.carried + n)],
         dispatches := s.dispatches[d := s.dispatches[d].(open := Some(n))])
    case AddTotal(d) =>
      var h := s.dispatches[d].obj;
      var o := s.objs[h];
      s.(objs := s.objs[h := o.(total := o.total + s.dispatches[d].open.value)],
         dispatches := s.dispatches[d := s.dispatches[d].(open := None)])
    case End(d) => s.(dispatches := s.dispatches[d := s.dispatches[d].(over := true)])
  }

  /** A stretch of a run. */
  ghost predicate Execution(ls: seq<Label>, ss: seq<State>) {
    && |ss| == |ls| + 1
    && forall i | 0 <= i < |ls| :: Enabled(ss[i], ls[i]) && ss[i + 1] == Step(ss[i], ls[i])
  }

  ghost predicate Reachable(s: State) {
    exists ls, ss :: Execution(ls, ss) && ss[0] == INIT && ss[|ls|] == s
  }

  // --- sums over the objects ---

  function SumOf(objs: seq<Obj>, f: Obj -> int): int {
    if objs == [] then 0 else SumOf(objs[..|objs| - 1], f) + f(objs[|objs| - 1])
  }

  /** The counters of the objects that are, or are not, among the given ones. */
  function Counters(objs: seq<Obj>, among: set<nat>, inside: bool): int {
    if objs == [] then 0
    else
      var n := |objs| - 1;
      Counters(objs[..n], among, inside) + if (n in among) == inside then objs[n].counter else 0
  }

  function OpenAdds(dispatches: seq<Dispatch>): int {
    if dispatches == [] then 0
    else
      var d := dispatches[|dispatches| - 1];
      OpenAdds(dispatches[..|dispatches| - 1]) + if d.open.Some? then d.open.value else 0
  }

  lemma {:induction false} SumUpdate(objs: seq<Obj>, f: Obj -> int, h: nat, o: Obj)
    requires h < |objs|
    ensures SumOf(objs[h := o], f) == SumOf(objs, f) - f(objs[h]) + f(o)
  {
    var n := |objs| - 1;
    if h == n {
      assert objs[h := o][..n] == objs[..n];
    } else {
      assert objs[h := o][..n] == objs[..n][h := o];
      SumUpdate(objs[..n], f, h, o);
    }
  }

  lemma {:induction false} OpenUpdate(dispatches: seq<Dispatch>, d: nat, x: Dispatch)
    requires d < |dispatches|
    ensures OpenAdds(dispatches[d := x]) == OpenAdds(dispatches)
              - (if dispatches[d].open.Some? then dispatches[d].open.value else 0)
              + (if x.open.Some? then x.open.value else 0)
  {
    var n := |dispatches| - 1;
    if d == n {
      assert dispatches[d := x][..n] == dispatches[..n];
    } else {
      assert dispatches[d := x][..n] == dispatches[..n][d := x];
      OpenUpdate(dispatches[..n], d, x);
    }
  }

  lemma {:induction false} CountersSplit(objs: seq<Obj>, among: set<nat>)
    ensures Counters(objs, among, true) + Counters(objs, among, false) == SumOf(objs, CounterOf)
  {
    if objs != [] {
      CountersSplit(objs[..|objs| - 1], among);
    }
  }

  lemma {:induction false} CountersAre(objs: seq<Obj>, among: set<nat>, inside: bool)
    requires forall o <- objs :: o.counter >= 0
    ensures 0 <= Counters(objs, among, inside)
    ensures Counters(objs, among, inside) == 0
            <==> forall h | 0 <= h < |objs| :: (h in among) == inside ==> objs[h].counter == 0
  {
    if objs != [] {
      var n := |objs| - 1;
      assert objs == objs[..n] + [objs[n]];
      CountersAre(objs[..n], among, inside);
      assert objs[n] in objs;
    }
  }

  /** Taking one object out of the set moves its counter to the other sum. */
  lemma {:induction false} CountersLeave(objs: seq<Obj>, among: set<nat>, h: nat)
    requires h in among
    ensures Counters(objs, among - {h}, false)
            == Counters(objs, among, false) + if h < |objs| then objs[h].counter else 0
  {
    if objs != [] {
      CountersLeave(objs[..|objs| - 1], among, h);
    }
  }

  function CounterOf(o: Obj): int {
    o.counter
  }

  function TotalOf(o: Obj): int {
    o.total
  }

  function ReportedOf(o: Obj): int {
    o.reported
  }

  function CarriedOf(o: Obj): int {
    o.carried
  }

  // --- what is carried, reported, waiting and lost ---

  function Carried(s: State): int {
    SumOf(s.objs, CarriedOf)
  }

  function Reported(s: State): int {
    SumOf(s.objs, ReportedOf)
  }

  /** The user objects in the pool. */
  function Handles(pool: map<int, nat>): set<nat> {
    set id | id in pool :: pool[id]
  }

  /** Bytes that the next report will take. */
  function Waiting(s: State): int {
    Counters(s.objs, Handles(s.pool), true)
  }

  /** Bytes in the counters of users that are no longer in the pool. */
  function Lost(s: State): int {
    Counters(s.objs, Handles(s.pool), false)
  }

  ghost predicate Dropped(s: State, h: nat) {
    h < |s.objs| && h !in Handles(s.pool)
  }

  // --- invariant ---

  ghost predicate Wired(s: State) {
    && (forall id <- s.pool :: s.pool[id] < |s.objs|)
    && (forall a <- s.pool, b <- s.pool :: s.pool[a] == s.pool[b] ==> a == b)
    && (forall d | 0 <= d < |s.dispatches| :: s.dispatches[d].obj < |s.objs|)
  }

  ghost predicate Balanced(s: State) {
    && (forall h | 0 <= h < |s.objs| :: s.objs[h].counter >= 0)
    && (forall h | 0 <= h < |s.objs| :: s.objs[h].reported + s.objs[h].counter == s.objs[h].carried)
    && SumOf(s.objs, CarriedOf) == SumOf(s.objs, TotalOf) + OpenAdds(s.dispatches)
  }

  lemma WiredKept(s: State, l: Label)
    requires Wired(s) && Enabled(s, l)
    ensures Wired(Step(s, l))
  {
  }

  lemma AddsKeepBalance(s: State, l: Label)
    requires Balanced(s) && Enabled(s, l) && (l.AddCounter? || l.AddTotal?)
    ensures Balanced(Step(s, l))
  {
    var s' := Step(s, l);
    var h := s.dispatches[l.d].obj;
    SumUpdate(s.objs, CarriedOf, h, s'.objs[h]);
    SumUpdate(s.objs, TotalOf, h, s'.objs[h]);
    OpenUpdate(s.dispatches, l.d, s'.dispatches[l.d]);
  }

  lemma BalanceKept(s: State, l: Label)
    requires Balanced(s) && Enabled(s, l)
    ensures Balanced(Step(s, l))
  {
    var s' := Step(s, l);
    if l.AddCounter? || l.AddTotal? {
      AddsKeepBalance(s, l);
    } else if l.Collect? {
      var h := s.pool[l.id];
      SumUpdate(s.objs, CarriedOf, h, s'.objs[h]);
      SumUpdate(s.objs, TotalOf, h, s'.objs[h]);
    } else if l.Create? {
      assert s'.objs[..|s.objs|] == s.objs;
    } else if l.Begin? {
      assert s'.dispatches[..|s.dispatches|] == s.dispatches;
    } else if l.End? {
      OpenUpdate(s.dispatches, l.d, s'.dispatches[l.d]);
    }
  }

  lemma {:induction false} ExecutionInv(ls: seq<Label>, ss: seq<State>, n: nat)
    requires Execution(ls, ss) && Wired(ss[0]) && Balanced(ss[0]) && n <= |ls|
    ensures Wired(ss[n]) && Balanced(ss[n])
  {
    if n > 0 {
      ExecutionInv(ls, ss, n - 1);
      WiredKept(ss[n - 1], ls[n - 1]);
      BalanceKept(ss[n - 1], ls[n - 1]);
    }
  }

  lemma ReachableInv(s: State)
    requires Reachable(s)
    ensures Wired(s) && Balanced(s)
  {
    var ls, ss :| Execution(ls, ss) && ss[0] == INIT && ss[|ls|] == s;
    ExecutionInv(ls, ss, |ls|);
  }

  // --- main results ---

  lemma {:induction false} CarriedIs(objs: seq<Obj>)
    requires forall h | 0 <= h < |objs| :: objs[h].reported + objs[h].counter == objs[h].carried
    ensures SumOf(objs, ReportedOf) + SumOf(objs, CounterOf) == SumOf(objs, CarriedOf)
  {
    if objs != [] {
      CarriedIs(objs[..|objs| - 1]);
    }
  }

  /** Conservation over the pool: every byte added is reported, waits in a counter of the pool, or is
      stranded with a dropped user; the totals lack exactly the adds still open. */
  lemma PoolConserved(s: State)
    requires Reachable(s)
    ensures Reported(s) + Waiting(s) + Lost(s) == Carried(s)
    ensures Carried(s) == SumOf(s.objs, TotalOf) + OpenAdds(s.dispatches)
  {
    ReachableInv(s);
    CarriedIs(s.objs);
    CountersSplit(s.objs, Handles(s.pool));
  }

  /** So nothing is lost so far exactly when every dropped user has an empty counter. */
  lemma NothingLostExactly(s: State)
    requires Reachable(s)
    ensures Reported(s) + Waiting(s) == Carried(s) <==> forall h: nat | Dropped(s, h) :: s.objs[h].counter == 0
  {
    PoolConserved(s);
    LossIs(s);
  }

  lemma LossIs(s: State)
    requires Reachable(s)
    ensures 0 <= Lost(s)
    ensures Lost(s) == 0 <==> forall h: nat | Dropped(s, h) :: s.objs[h].counter == 0
  {
    ReachableInv(s);
    CountersAre(s.objs, Handles(s.pool), false);
  }

  lemma HandlesWithout(s: State, id: int)
    requires Wired(s) && id in s.pool
    ensures s.pool[id] in Handles(s.pool)
    ensures Handles(s.pool - {id}) == Handles(s.pool) - {s.pool[id]}
  {
    forall h: nat ensures h in Handles(s.pool - {id}) <==> h in Handles(s.pool) && h != s.pool[id] {
      if h in Handles(s.pool) && h != s.pool[id] {
        var a :| a in s.pool && s.pool[a] == h;
        assert a in s.pool - {id};
      }
    }
  }

  lemma HandlesWith(s: State, id: int)
    requires id !in s.pool
    ensures Handles(s.pool[id := |s.objs|]) == Handles(s.pool) + {|s.objs|}
  {
    var pool := s.pool[id := |s.objs|];
    assert pool[id] == |s.objs|;
    forall h: nat ensures h in Handles(pool) <==> h in Handles(s.pool) || h == |s.objs| {
      if h in Handles(s.pool) {
        var a :| a in s.pool && s.pool[a] == h;
        assert a in pool && pool[a] == h;
      }
    }
  }

  /** A drop loses exactly what its user carried since it was last reported. */
  lemma DropLoses(s: State, id: int)
    requires Reachable(s) && InPool(s, id)
    ensures Lost(Step(s, Drop(id))) == Lost(s) + s.objs[s.pool[id]].counter
  {
    ReachableInv(s);
    HandlesWithout(s, id);
    CountersLeave(s.objs, Handles(s.pool), s.pool[id]);
  }

  lemma DroppedStep(s: State, l: Label, h: nat)
    requires Wired(s) && Enabled(s, l) && Dropped(s, h)
    ensures var s' := Step(s, l);
      && Dropped(s', h) && s'.objs[h].reported == s.objs[h].reported && s'.objs[h].counter >= s.objs[h].counter
      && (!(l.AddCounter? && s.dispatches[l.d].obj == h) ==> s'.objs[h].counter == s.objs[h].counter)
  {
    if l.Collect? {
      assert s.pool[l.id] in Handles(s.pool);
    } else if l.Create? {
      HandlesWith(s, l.id);
    } else if l.Drop? {
      HandlesWithout(s, l.id);
    }
  }

  /** What is lost stays lost: a dropped user is never reported again, whatever happens. */
  lemma {:induction false} LostForEver(ls: seq<Label>, ss: seq<State>, i: nat, j: nat, h: nat)
    requires Execution(ls, ss) && ss[0] == INIT && i <= j <= |ls| && Dropped(ss[i], h)
    ensures Dropped(ss[j], h)
    ensures ss[j].objs[h].reported == ss[i].objs[h].reported && ss[j].objs[h].counter >= ss[i].objs[h].counter
    decreases j
  {
    if i < j {
      LostForEver(ls, ss, i, j - 1, h);
      ExecutionInv(ls, ss, j - 1);
      DroppedStep(ss[j - 1], ls[j - 1], h);
    }
  }

  lemma Next(s: State, l: Label)
    requires Reachable(s) && Enabled(s, l)
    ensures Reachable(Step(s, l))
  {
    ReachedOn(s, [l], [s, Step(s, l)]);
  }

  lemma LostAlone(o: Obj, dispatches: seq<Dispatch>)
    ensures Lost(State([o], map[], dispatches)) == o.counter
  {
    var pool: map<int, nat> := map[];
    var handles: set<nat> := Handles(pool);
    assert handles == {} && [o][..0] == [];
    assert Counters([o], handles, false) == Counters([], handles, false) + o.counter;
  }

  lemma OneUser()
    ensures Reachable(State([NEW], map[1 := 0], []))
  {
    var none: seq<Label> := [];
    assert Execution(none, [INIT]) && Reachable(INIT);
    Next(INIT, Create(1));
    assert Step(INIT, Create(1)) == State([NEW], map[1 := 0], []);
  }

  /** For instance, a dispatch adds n bytes and ends, and its user is dropped before the next report. */
  lemma QuietUserLoses(n: nat)
    ensures exists s :: Reachable(s) && Lost(s) == n && forall d | 0 <= d < |s.dispatches| :: s.dispatches[d].over
  {
    var s1 := State([NEW], map[1 := 0], []);
    OneUser();
    Next(s1, Begin(1));
    var s2 := Step(s1, Begin(1));
    Next(s2, AddCounter(0, n));
    var s3 := Step(s2, AddCounter(0, n));
    Next(s3, AddTotal(0));
    var s4 := Step(s3, AddTotal(0));
    Next(s4, End(0));
    var s5 := Step(s4, End(0));
    Next(s5, Drop(1));
    var s6 := Step(s5, Drop(1));
    LostAlone(Obj(n, n, 0, n), s6.dispatches);
    assert s6 == State([Obj(n, n, 0, n)], map[], s6.dispatches);
  }

  // --- when a drop is safe for good ---

  /** A dropped user with an empty counter and no dispatch in progress. */
  ghost predicate Settled(s: State, h: nat)
    requires h < |s.objs|
  {
    s.objs[h].counter == 0 && forall d | 0 <= d < |s.dispatches| && s.dispatches[d].obj == h :: s.dispatches[d].over
  }

  ghost predicate AllSettled(s: State) {
    forall h: nat | Dropped(s, h) :: Settled(s, h)
  }

  /** Some further run from a state, in which nobody else is dropped. */
  ghost predicate GoesOn(s: State, ls: seq<Label>, ss: seq<State>) {
    Execution(ls, ss) && ss[0] == s && forall i | 0 <= i < |ls| :: !ls[i].Drop?
  }

  lemma SettledStep(s: State, l: Label)
    requires Wired(s) && AllSettled(s) && Enabled(s, l) && !l.Drop?
    ensures AllSettled(Step(s, l))
  {
    var s' := Step(s, l);
    forall h: nat | Dropped(s', h) ensures Settled(s', h) {
      if l.Create? {
        HandlesWith(s, l.id);
      }
      assert Dropped(s, h);
      DroppedStep(s, l, h);
      if l.Begin? {
        assert s.pool[l.id] in Handles(s.pool);
      }
    }
  }

  lemma {:induction false} StaysSettled(s: State, ls: seq<Label>, ss: seq<State>, n: nat)
    requires Reachable(s) && AllSettled(s) && GoesOn(s, ls, ss) && n <= |ls|
    ensures AllSettled(ss[n])
  {
    if n > 0 {
      StaysSettled(s, ls, ss, n - 1);
      ReachableInv(s);
      ExecutionInv(ls, ss, n - 1);
      SettledStep(ss[n - 1], ls[n - 1]);
    }
  }

  lemma ReachedOn(s: State, ls: seq<Label>, ss: seq<State>)
    requires Reachable(s) && Execution(ls, ss) && ss[0] == s
    ensures Reachable(ss[|ls|])
  {
    var ls0, ss0 :| Execution(ls0, ss0) && ss0[0] == INIT && ss0[|ls0|] == s;
    var (ls', ss') := (ls0 + ls, ss0 + ss[1..]);
    forall i | 0 <= i < |ls'| ensures Enabled(ss'[i], ls'[i]) && ss'[i + 1] == Step(ss'[i], ls'[i]) {
      if i < |ls0| {
        assert ss'[i] == ss0[i] && ss'[i + 1] == ss0[i + 1];
      } else {
        assert ss'[i] == ss[i - |ls0|] && ss'[i + 1] == ss[i - |ls0| + 1];
      }
    }
    assert Execution(ls', ss') && ss'[0] == INIT && ss'[|ls'|] == ss[|ls|];
  }

  /** A dispatch in progress on a dropped user can still lose a byte. */
  lemma OneMoreByte(s: State, d: nat) returns (ls: seq<Label>, ss: seq<State>)
    requires Reachable(s) && Running(s, d) && Dropped(s, s.dispatches[d].obj)
    ensures GoesOn(s, ls, ss) && Lost(ss[|ls|]) > 0
  {
    ReachableInv(s);
    var h := s.dispatches[d].obj;
    if s.dispatches[d].open.Some? {
      var s1 := Step(s, AddTotal(d));
      var s2 := Step(s1, AddCounter(d, 1));
      ls, ss := [AddTotal(d), AddCounter(d, 1)], [s, s1, s2];
    } else {
      ls, ss := [AddCounter(d, 1)], [s, Step(s, AddCounter(d, 1))];
    }
    ReachedOn(s, ls, ss);
    var s' := ss[|ls|];
    LossIs(s');
    assert Dropped(s', h) && s'.objs[h].counter > 0;
  }

  /** Whatever happens next, short of dropping somebody else, nothing is lost, exactly when every dropped
      user has an empty counter and no dispatch of its is in progress. */
  lemma SafeForGoodExactly(s: State)
    requires Reachable(s)
    ensures (forall ls, ss :: GoesOn(s, ls, ss) ==> Reported(ss[|ls|]) + Waiting(ss[|ls|]) == Carried(ss[|ls|]))
            <==> AllSettled(s)
  {
    if AllSettled(s) {
      forall ls, ss | GoesOn(s, ls, ss) ensures Reported(ss[|ls|]) + Waiting(ss[|ls|]) == Carried(ss[|ls|]) {
        StaysSettled(s, ls, ss, |ls|);
        ReachedOn(s, ls, ss);
        NothingLostExactly(ss[|ls|]);
      }
    } else {
      var h: nat :| Dropped(s, h) && !Settled(s, h);
      var ls, ss := LosingRun(s, h);
      ReachedOn(s, ls, ss);
      PoolConserved(ss[|ls|]);
    }
  }

  lemma LosingRun(s: State, h: nat) returns (ls: seq<Label>, ss: seq<State>)
    requires Reachable(s) && Dropped(s, h) && !Settled(s, h)
    ensures GoesOn(s, ls, ss) && Lost(ss[|ls|]) > 0
  {
    if s.objs[h].counter != 0 {
      ls, ss := [], [s];
      LossIs(s);
    } else {
      var d :| 0 <= d < |s.dispatches| && s.dispatches[d].obj == h && !s.dispatches[d].over;
      ls, ss := OneMoreByte(s, d);
    }
  }

  // --- over a whole run ---

  /** A step that loses nothing: a drop of a user with an empty counter, no add to a dropped user. */
  predicate Lossless(s: State, l: Label)
    requires Enabled(s, l)
  {
    && (l.Drop? ==> s.objs[s.pool[l.id]].counter == 0)
    && (l.AddCounter? ==> l.n == 0 || s.dispatches[l.d].obj in Handles(s.pool))
  }

  ghost predicate NothingLost(s: State) {
    forall h: nat | Dropped(s, h) :: s.objs[h].counter == 0
  }

  lemma StepLosesExactly(s: State, l: Label)
    requires Wired(s) && Balanced(s) && NothingLost(s) && Enabled(s, l)
    ensures NothingLost(Step(s, l)) <==> Lossless(s, l)
  {
    var s' := Step(s, l);
    if l.Drop? {
      DropAt(s, l.id);
    } else {
      if l.Create? {
        HandlesWith(s, l.id);
      }
      if l.AddCounter? {
        var h := s.dispatches[l.d].obj;
        assert Dropped(s', h) <==> h !in Handles(s.pool);
      }
      forall h: nat | Dropped(s, h) ensures Dropped(s', h) && (Lossless(s, l) ==> s'.objs[h].counter == 0) {
        DroppedStep(s, l, h);
      }
    }
  }

  lemma DropAt(s: State, id: int)
    requires Wired(s) && NothingLost(s) && InPool(s, id)
    ensures NothingLost(Step(s, Drop(id))) <==> s.objs[s.pool[id]].counter == 0
  {
    HandlesWithout(s, id);
    assert Dropped(Step(s, Drop(id)), s.pool[id]);
  }

  lemma {:induction false} LosslessRun(ls: seq<Label>, ss: seq<State>, n: nat)
    requires Execution(ls, ss) && ss[0] == INIT && n <= |ls| && forall i | 0 <= i < n :: Lossless(ss[i], ls[i])
    ensures NothingLost(ss[n])
  {
    if n > 0 {
      LosslessRun(ls, ss, n - 1);
      ExecutionInv(ls, ss, n - 1);
      StepLosesExactly(ss[n - 1], ls[n - 1]);
    }
  }

  /** Over every run of reconciliations, reports and dispatches: nothing is ever lost exactly when every
      user is dropped with an empty counter, and no byte is added to a user that was dropped. */
  lemma RunLosesExactly(ls: seq<Label>, ss: seq<State>)
    requires Execution(ls, ss) && ss[0] == INIT
    ensures (forall n | 0 <= n <= |ls| :: NothingLost(ss[n])) <==> forall n | 0 <= n < |ls| :: Lossless(ss[n], ls[n])
  {
    if forall n | 0 <= n < |ls| :: Lossless(ss[n], ls[n]) {
      forall n | 0 <= n <= |ls| ensures NothingLost(ss[n]) {
        LosslessRun(ls, ss, n);
      }
    } else if forall n | 0 <= n <= |ls| :: NothingLost(ss[n]) {
      forall n | 0 <= n < |ls| ensures Lossless(ss[n], ls[n]) {
        ExecutionInv(ls, ss, n);
        assert NothingLost(ss[n]) && NothingLost(ss[n + 1]);
        StepLosesExactly(ss[n], ls[n]);
      }
    }
  }
}

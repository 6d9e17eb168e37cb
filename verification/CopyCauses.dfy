/**
 Why the two directions of CopyConn end, told by the steps of a run, and what copyConn therefore returns.
 */
module CopyCauses {
  import opened Base
  import opened CopyConn

  /** What can end a direction: the end of its stream, ... */
  predicate MeetsEof(l: Label, d: Side) {
    l == Eof(d)
  }

  /** ... a read or a write that fails, or a write that is short, ... */
  predicate Fails(s: State, l: Label, d: Side) {
    || (l.ReadError? && l.d == d)
    || (l.Wrote? && l.d == d && l.failure.Some?)
    || (l.Wrote? && l.d == d && s.flow.At(d).phase.Writing? && l.n < |s.flow.At(d).phase.chunk|)
  }

  /** ... or a read deadline that passes on a side that was idle for too long. */
  predicate GivesUp(cfg: Config, s: State, l: Label, d: Side) {
    l == Timeout(d) && s.now - LastActivity(s.log, d, cfg.start) > cfg.idleTimeout
  }

  /** What the error of a step that fails has to be. */
  function FailureOf(l: Label): Error {
    if l.ReadError? then Failed(l.code)
    else if l.Wrote? && l.failure.Some? then Failed(l.failure.value)
    else ShortWrite
  }

  predicate SameEnd(before: Flow, after: Flow)
    requires Over(before.phase)
  {
    Over(after.phase) && after.phase.err == before.phase.err && after.phase.inWrite == before.phase.inWrite
  }

  lemma OverStays(cfg: Config, s: State, l: Label, d: Side)
    requires Enabled(cfg, s, l) && Over(s.flow.At(d).phase)
    ensures SameEnd(s.flow.At(d), Step(cfg, s, l).flow.At(d))
    ensures !MeetsEof(l, d) && !Fails(s, l, d) && !GivesUp(cfg, s, l, d)
  {
  }

  lemma {:induction false} FlowsStay(fs: seq<Flow>, i: nat, j: nat)
    requires i <= j < |fs| && Over(fs[i].phase)
    requires forall k | 0 <= k < |fs| - 1 && Over(fs[k].phase) :: SameEnd(fs[k], fs[k + 1])
    ensures SameEnd(fs[i], fs[j])
    decreases j
  {
    if i < j {
      FlowsStay(fs, i, j - 1);
    }
  }

  /** A direction that is over stays over, with its error. */
  lemma ErrorStays(cfg: Config, ls: seq<Label>, ss: seq<State>, i: nat, j: nat, d: Side)
    requires Execution(cfg, ls, ss) && i <= j <= |ls| && Over(ss[i].flow.At(d).phase)
    ensures SameEnd(ss[i].flow.At(d), ss[j].flow.At(d))
  {
    var fs := seq(|ss|, k requires 0 <= k < |ss| => ss[k].flow.At(d));
    FlowsStay(fs, i, j);
  }

  /** What decides the error of a direction for good: a write that fails with a code, a short write, a read
      that fails with a code, or the end of the stream. */
  lemma StepDecides(cfg: Config, ls: seq<Label>, ss: seq<State>, i: nat, j: nat, d: Side)
    requires Execution(cfg, ls, ss) && i < j <= |ls|
    ensures forall n: nat, code :: ls[i] == Wrote(d, n, Some(code)) ==>
              Over(ss[j].flow.At(d).phase) && ss[j].flow.At(d).phase.err == Some(Failed(code))
    ensures forall n: nat :: ls[i] == Wrote(d, n, None) && n < |ss[i].flow.At(d).phase.chunk| ==>
              Over(ss[j].flow.At(d).phase) && ss[j].flow.At(d).phase.err == Some(ShortWrite)
    ensures forall code :: ls[i] == ReadError(d, code) ==>
              Over(ss[j].flow.At(d).phase) && ss[j].flow.At(d).phase.err == Some(Failed(code))
    ensures ls[i] == Eof(d) ==>
              Over(ss[j].flow.At(d).phase) && ss[j].flow.At(d).phase.err.None?
  {
    if Over(ss[i + 1].flow.At(d).phase) {
      ErrorStays(cfg, ls, ss, i + 1, j, d);
    }
  }

  ghost predicate EofBy(ls: seq<Label>, n: nat, d: Side)
    requires n <= |ls|
  {
    exists i :: 0 <= i < n && MeetsEof(ls[i], d)
  }

  ghost predicate GaveUpBy(cfg: Config, ls: seq<Label>, ss: seq<State>, n: nat, d: Side)
    requires n <= |ls| <= |ss|
  {
    exists i :: 0 <= i < n && GivesUp(cfg, ss[i], ls[i], d)
  }

  ghost predicate FailedBy(ls: seq<Label>, ss: seq<State>, n: nat, d: Side)
    requires n <= |ls| <= |ss|
  {
    exists i :: 0 <= i < n && Fails(ss[i], ls[i], d)
  }

  lemma ByNext(cfg: Config, ls: seq<Label>, ss: seq<State>, n: nat, d: Side)
    requires n < |ls| <= |ss|
    ensures EofBy(ls, n + 1, d) <==> EofBy(ls, n, d) || MeetsEof(ls[n], d)
    ensures GaveUpBy(cfg, ls, ss, n + 1, d) <==> GaveUpBy(cfg, ls, ss, n, d) || GivesUp(cfg, ss[n], ls[n], d)
    ensures FailedBy(ls, ss, n + 1, d) <==> FailedBy(ls, ss, n, d) || Fails(ss[n], ls[n], d)
  {
  }

  /** How a direction stands after n steps, told by the steps alone. */
  ghost predicate CauseInv(cfg: Config, ls: seq<Label>, ss: seq<State>, n: nat, d: Side)
    requires |ss| == |ls| + 1 && n <= |ls|
  {
    var p := ss[n].flow.At(d).phase;
    && (Over(p) && p.err.None? <==> EofBy(ls, n, d))
    && (Over(p) && p.err == Some(IdleTimeout) <==> GaveUpBy(cfg, ls, ss, n, d))
    && (Over(p) && p.err.Some? && p.err != Some(IdleTimeout) <==> FailedBy(ls, ss, n, d))
  }

  /** A step ends a direction exactly if it is one of those, and with its error. */
  lemma StepEnds(cfg: Config, s: State, l: Label, d: Side)
    requires Enabled(cfg, s, l) && LogInv(cfg, s, d) && !Over(s.flow.At(d).phase)
    ensures var p := Step(cfg, s, l).flow.At(d).phase;
      && (MeetsEof(l, d) <==> Over(p) && p.err.None?)
      && (GivesUp(cfg, s, l, d) <==> Over(p) && p.err == Some(IdleTimeout))
      && (Fails(s, l, d) <==> Over(p) && p.err.Some? && p.err != Some(IdleTimeout))
      && (Fails(s, l, d) ==> p.err == Some(FailureOf(l)))
  {
  }

  lemma {:induction false} CausesAre(cfg: Config, ls: seq<Label>, ss: seq<State>, n: nat, d: Side)
    requires Sane(cfg) && Execution(cfg, ls, ss) && ss[0] == Init(cfg) && n <= |ls|
    ensures CauseInv(cfg, ls, ss, n, d)
  {
    if n > 0 {
      CausesAre(cfg, ls, ss, n - 1, d);
      ExecutionInv(cfg, ls, ss, n - 1);
      assert SideInv(cfg, ss[n - 1], d);
      CauseNext(cfg, ls, ss, n - 1, d);
    }
  }

  lemma CauseNext(cfg: Config, ls: seq<Label>, ss: seq<State>, n: nat, d: Side)
    requires Execution(cfg, ls, ss) && n < |ls| && CauseInv(cfg, ls, ss, n, d) && LogInv(cfg, ss[n], d)
    ensures CauseInv(cfg, ls, ss, n + 1, d)
  {
    var (s, l) := (ss[n], ls[n]);
    if Over(s.flow.At(d).phase) {
      OverStays(cfg, s, l, d);
    } else {
      StepEnds(cfg, s, l, d);
    }
    ByNext(cfg, ls, ss, n, d);
  }

  /** From the steps of a run alone: once copyConn has returned, its result is nil exactly when the
      client's direction gave up, or no read and no write of either direction failed. */
  lemma CleanExactly(cfg: Config, ls: seq<Label>, ss: seq<State>)
    requires Sane(cfg) && Execution(cfg, ls, ss) && ss[0] == Init(cfg) && ss[|ls|].result.Some?
    ensures ss[|ls|].result == Some(Clean)
            <==> || GaveUpBy(cfg, ls, ss, |ls|, Client)
                 || (!FailedBy(ls, ss, |ls|, Client) && !FailedBy(ls, ss, |ls|, Remote))
  {
    CausesAre(cfg, ls, ss, |ls|, Client);
    CausesAre(cfg, ls, ss, |ls|, Remote);
    ExecutionInv(cfg, ls, ss, |ls|);
    CleanResultExactly(ss[|ls|].flow.remote.phase.err, ss[|ls|].flow.client.phase.err);
  }

  /** And every real error that is the only one is the result. */
  lemma OnlyFailureIsReturned(cfg: Config, ls: seq<Label>, ss: seq<State>, i: nat, d: Side)
    requires Sane(cfg) && Execution(cfg, ls, ss) && ss[0] == Init(cfg) && ss[|ls|].result.Some?
    requires i < |ls| && Fails(ss[i], ls[i], d)
    requires !FailedBy(ls, ss, |ls|, Other(d)) && !GaveUpBy(cfg, ls, ss, |ls|, Client)
    ensures ss[|ls|].result == Some(One(FailureOf(ls[i])))
  {
    var n := |ls|;
    CausesAre(cfg, ls, ss, n, d);
    CausesAre(cfg, ls, ss, n, Other(d));
    ExecutionInv(cfg, ls, ss, n);
    ExecutionInv(cfg, ls, ss, i);
    assert SideInv(cfg, ss[i], d);
    if Over(ss[i].flow.At(d).phase) {
      OverStays(cfg, ss[i], ls[i], d);
      assert false;
    }
    StepEnds(cfg, ss[i], ls[i], d);
    ErrorStays(cfg, ls, ss, i + 1, n, d);
    CleanResultExactly(ss[n].flow.remote.phase.err, ss[n].flow.client.phase.err);
  }

  ghost predicate SaysGaveUp(log: seq<Event>, d: Side) {
    exists i :: 0 <= i < |log| && log[i].GaveUp? && log[i].side == d
  }

  ghost predicate IdleInv(s: State, d: Side) {
    SaysGaveUp(s.log, d) <==> Over(s.flow.At(d).phase) && s.flow.At(d).phase.err == Some(IdleTimeout)
  }

  lemma IdleStep(cfg: Config, s: State, l: Label, d: Side)
    requires Enabled(cfg, s, l) && IdleInv(s, d)
    ensures IdleInv(Step(cfg, s, l), d)
  {
    var s' := Step(cfg, s, l);
    assert s.log <= s'.log;
    if SaysGaveUp(s.log, d) {
      var i :| 0 <= i < |s.log| && s.log[i].GaveUp? && s.log[i].side == d;
      assert s'.log[i] == s.log[i];
      OverStays(cfg, s, l, d);
    } else if l == Timeout(d) && s.now - s.active.At(d) > cfg.idleTimeout {
      assert s'.log[|s.log|] == GaveUp(d, s.now);
    } else {
      forall i | 0 <= i < |s'.log| ensures !(s'.log[i].GaveUp? && s'.log[i].side == d) {
        assert i < |s.log| ==> s'.log[i] == s.log[i];
      }
    }
  }

  lemma {:induction false} IdleHolds(cfg: Config, ls: seq<Label>, ss: seq<State>, n: nat, d: Side)
    requires Execution(cfg, ls, ss) && ss[0] == Init(cfg) && n <= |ls|
    ensures IdleInv(ss[n], d)
  {
    if n > 0 {
      IdleHolds(cfg, ls, ss, n - 1, d);
      IdleStep(cfg, ss[n - 1], ls[n - 1], d);
    }
  }

  /** In every reachable state a direction ended in the idle timeout exactly when a read on its side was
      seen to give up. */
  lemma IdleExactly(cfg: Config, s: State, d: Side)
    requires Reachable(cfg, s)
    ensures Over(s.flow.At(d).phase) && s.flow.At(d).phase.err == Some(IdleTimeout) <==> SaysGaveUp(s.log, d)
  {
    var ls, ss :| Execution(cfg, ls, ss) && ss[0] == Init(cfg) && ss[|ls|] == s;
    IdleHolds(cfg, ls, ss, |ls|, d);
  }
}

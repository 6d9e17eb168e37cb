/**
 A relay of CopyConn on which nothing happens any more: it ends on its own, and when.
 */
module CopySilence {
  import opened Base
  import opened CopyConn

  /** Time only passes while every direction waits: for a read, for a write, or for the other direction.
      All else the code does at once. */
  predicate MayWait(s: State) {
    var (c, r) := (s.flow.client.phase, s.flow.remote.phase);
    || s.result.Some?
    || ((c.Reading? || c.Writing? || c.Reported?)
        && (r.Reading? || r.Writing? || (r.HalfClosed? && !c.Reported?)))
  }

  ghost predicate Prompt(ls: seq<Label>, ss: seq<State>)
    requires |ss| == |ls| + 1
  {
    forall i | 0 <= i < |ls| :: PromptStep(ss[i], ls[i])
  }

  predicate PromptStep(s: State, l: Label) {
    l.Tick? && l.to > s.now ==> MayWait(s)
  }

  /** Neither side reads or writes successfully, and no write is pending. */
  predicate Silent(l: Label) {
    !l.Data? && !l.Wrote?
  }

  predicate NoWritePending(s: State) {
    !s.flow.client.phase.Writing? && !s.flow.remote.phase.Writing?
  }

  /** The last activity of either side, plus the idle timeout if that is still to come, plus one read
      timeout. */
  function LastCall(cfg: Config, s: State): int {
    var active := Max(LastActivity(s.log, Client, cfg.start), LastActivity(s.log, Remote, cfg.start));
    Max(s.now, active + cfg.idleTimeout) + cfg.readTimeout
  }

  /** What is true of a relay that was in state s0 and has been silent since. */
  ghost predicate Fading(cfg: Config, s0: State, s: State) {
    && s.active == s0.active && s0.now <= s.now && NoWritePending(s)
    && FadingFlow(s0, s, Client) && FadingFlow(s0, s, Remote)
    && (s.result.None? ==> s.now <= LastCall(cfg, s0))
  }

  ghost predicate FadingFlow(s0: State, s: State, d: Side) {
    var p := s.flow.At(d).phase;
    && (p.Ready? ==> s.now == s0.now)
    && (p.Reading? ==> p.called <= s0.now)
  }

  lemma TickKeepsFading(cfg: Config, s0: State, s: State, to: int)
    requires Sane(cfg) && Inv(cfg, s0) && Inv(cfg, s) && Fading(cfg, s0, s)
    requires Enabled(cfg, s, Tick(to)) && PromptStep(s, Tick(to))
    ensures Fading(cfg, s0, Step(cfg, s, Tick(to)))
  {
    assert SideInv(cfg, s0, Client) && SideInv(cfg, s0, Remote);
    assert TimeInv(cfg, s, Client) && TimeInv(cfg, s, Remote) && FlowInv(cfg, s, Remote);
  }

  lemma SilenceKeepsFading(cfg: Config, s0: State, s: State, l: Label)
    requires Sane(cfg) && Inv(cfg, s0) && Inv(cfg, s) && Fading(cfg, s0, s)
    requires Enabled(cfg, s, l) && Silent(l) && PromptStep(s, l)
    ensures Fading(cfg, s0, Step(cfg, s, l))
  {
    if l.Tick? {
      TickKeepsFading(cfg, s0, s, l.to);
    } else {
      assert FadingFlow(s0, Step(cfg, s, l), Client);
      assert FadingFlow(s0, Step(cfg, s, l), Remote);
    }
  }

  lemma FadingStarts(cfg: Config, s: State)
    requires Sane(cfg) && Inv(cfg, s) && NoWritePending(s)
    ensures Fading(cfg, s, s)
  {
    assert TimeInv(cfg, s, Client) && TimeInv(cfg, s, Remote);
  }

  lemma {:induction false} StaysFading(cfg: Config, ls: seq<Label>, ss: seq<State>, i: nat, j: nat)
    requires Sane(cfg) && Execution(cfg, ls, ss) && ss[0] == Init(cfg) && Prompt(ls, ss)
    requires i <= j <= |ls| && NoWritePending(ss[i]) && forall k | i <= k < j :: Silent(ls[k])
    ensures Fading(cfg, ss[i], ss[j])
    decreases j
  {
    ExecutionInv(cfg, ls, ss, i);
    if i == j {
      FadingStarts(cfg, ss[i]);
    } else {
      StaysFading(cfg, ls, ss, i, j - 1);
      ExecutionInv(cfg, ls, ss, j - 1);
      assert PromptStep(ss[j - 1], ls[j - 1]);
      SilenceKeepsFading(cfg, ss[i], ss[j - 1], ls[j - 1]);
    }
  }

  /** The bound for the whole relay: once neither side is active and no write is pending, copyConn has
      returned within the idle timeout of the last activity on either side, plus one read timeout. */
  lemma SilentRelayEnds(cfg: Config, ls: seq<Label>, ss: seq<State>, i: nat, j: nat)
    requires Sane(cfg) && Execution(cfg, ls, ss) && ss[0] == Init(cfg) && Prompt(ls, ss)
    requires i <= j <= |ls| && NoWritePending(ss[i]) && forall k | i <= k < j :: Silent(ls[k])
    requires ss[j].now > LastCall(cfg, ss[i])
    ensures ss[j].result.Some? && Over(ss[j].flow.client.phase) && Over(ss[j].flow.remote.phase)
    ensures LastCall(cfg, ss[i]) <= ss[i].now + cfg.idleTimeout + cfg.readTimeout
  {
    StaysFading(cfg, ls, ss, i, j);
    ExecutionInv(cfg, ls, ss, i);
    ExecutionInv(cfg, ls, ss, j);
    LastCallIsNear(cfg, ss[i]);
  }

  // --- and it does get there, with nothing failing ---

  /** Steps of the relay itself and of the clock. */
  predicate OwnStep(l: Label) {
    l.Tick? || l.Call? || l.Timeout? || l.HalfClose? || l.Report? || l.Return?
  }

  predicate Due(s: State, d: Side) {
    s.flow.At(d).phase.Reading? && s.flow.At(d).phase.deadline <= s.now
  }

  function NextDeadline(s: State): int {
    var (c, r) := (s.flow.client.phase, s.flow.remote.phase);
    if c.Reading? && r.Reading? then Min(c.deadline, r.deadline)
    else if c.Reading? then c.deadline
    else if r.Reading? then r.deadline
    else s.now
  }

  /** What a silent relay does next. */
  function Onward(s: State): Label {
    var (c, r) := (s.flow.client.phase, s.flow.remote.phase);
    if c.Ready? then Call(Client)
    else if r.Ready? then Call(Remote)
    else if c.Stopped? then HalfClose(Client)
    else if c.HalfClosed? then Report
    else if r.Stopped? then HalfClose(Remote)
    else if c.Reported? && r.HalfClosed? then Return
    else if Due(s, Client) then Timeout(Client)
    else if Due(s, Remote) then Timeout(Remote)
    else Tick(NextDeadline(s))
  }

  /** How far a direction is from its end: a waiting read by how much its deadline can still move. */
  function Distance(cfg: Config, s: State, d: Side): nat {
    var p := s.flow.At(d).phase;
    if p.Ready? then 5 + Max(0, cfg.idleTimeout)
    else if p.Reading? then 4 + Max(0, Max(p.called, s.active.At(d) + cfg.idleTimeout) + cfg.readTimeout - p.deadline)
    else if p.Stopped? then 2
    else if p.HalfClosed? then 1
    else 0
  }

  function ToGo(cfg: Config, s: State): nat {
    if s.result.Some? then 0 else 1 + Distance(cfg, s, Client) + Distance(cfg, s, Remote)
  }

  /** A direction that was over keeps its error; one that was not can only end in the idle timeout. */
  ghost predicate EndsIdle(before: Flow, after: Flow) {
    if Over(before.phase) then Over(after.phase) && after.phase.err == before.phase.err
    else Over(after.phase) ==> after.phase.err == Some(IdleTimeout)
  }

  lemma TimeoutMovesOn(cfg: Config, s: State, d: Side)
    requires Sane(cfg) && Inv(cfg, s) && s.result.None? && Due(s, d)
    ensures Enabled(cfg, s, Timeout(d)) && ToGo(cfg, OnTimeout(cfg, s, d)) < ToGo(cfg, s)
  {
    assert TimeInv(cfg, s, d);
    var s' := OnTimeout(cfg, s, d);
    assert Distance(cfg, s', Other(d)) == Distance(cfg, s, Other(d));
    assert Distance(cfg, s', d) < Distance(cfg, s, d);
  }

  lemma CallMovesOn(cfg: Config, s: State, d: Side)
    requires Sane(cfg) && Inv(cfg, s) && s.result.None? && s.flow.At(d).phase.Ready?
    ensures ToGo(cfg, Step(cfg, s, Call(d))) < ToGo(cfg, s)
  {
    assert TimeInv(cfg, s, d);
    var s' := Step(cfg, s, Call(d));
    assert Distance(cfg, s', Other(d)) == Distance(cfg, s, Other(d));
    assert Distance(cfg, s', d) < Distance(cfg, s, d);
  }

  lemma TickMovesOn(cfg: Config, s: State)
    requires Sane(cfg) && Inv(cfg, s) && s.result.None? && NoWritePending(s) && Onward(s).Tick?
    ensures Enabled(cfg, s, Onward(s)) && PromptStep(s, Onward(s))
    ensures var s' := Step(cfg, s, Onward(s));
            ToGo(cfg, s') == ToGo(cfg, s) && (Due(s', Client) || Due(s', Remote))
  {
    assert FlowInv(cfg, s, Client) && FlowInv(cfg, s, Remote);
    assert TimeInv(cfg, s, Client) && TimeInv(cfg, s, Remote);
  }

  lemma OnwardMoves(cfg: Config, s: State)
    requires Sane(cfg) && Inv(cfg, s) && s.result.None? && NoWritePending(s)
    ensures var l := Onward(s);
      && Enabled(cfg, s, l) && OwnStep(l) && PromptStep(s, l)
      && (ToGo(cfg, Step(cfg, s, l)) < ToGo(cfg, s)
          || (l.Tick? && ToGo(cfg, Step(cfg, s, l)) == ToGo(cfg, s)
              && (Due(Step(cfg, s, l), Client) || Due(Step(cfg, s, l), Remote))))
  {
    var l := Onward(s);
    assert FlowInv(cfg, s, Client) && FlowInv(cfg, s, Remote);
    if l.Tick? {
      TickMovesOn(cfg, s);
    } else if l.Timeout? {
      TimeoutMovesOn(cfg, s, l.d);
    } else if l.Call? {
      CallMovesOn(cfg, s, l.d);
    }
  }

  lemma OwnStepEndsIdle(cfg: Config, s: State, l: Label, d: Side)
    requires Enabled(cfg, s, l) && OwnStep(l)
    ensures EndsIdle(s.flow.At(d), Step(cfg, s, l).flow.At(d))
  {
  }

  /** A stretch of a run that the relay and the clock make by themselves. */
  ghost predicate OwnRun(cfg: Config, s: State, ls: seq<Label>, ss: seq<State>) {
    && Execution(cfg, ls, ss) && ss[0] == s && Prompt(ls, ss)
    && forall i | 0 <= i < |ls| :: OwnStep(ls[i])
  }

  lemma Prepend(cfg: Config, s: State, l: Label, ls: seq<Label>, ss: seq<State>)
    requires Enabled(cfg, s, l) && OwnStep(l) && PromptStep(s, l) && OwnRun(cfg, Step(cfg, s, l), ls, ss)
    ensures OwnRun(cfg, s, [l] + ls, [s] + ss)
  {
    var (ls', ss') := ([l] + ls, [s] + ss);
    forall i | 0 <= i < |ls'|
      ensures Enabled(cfg, ss'[i], ls'[i]) && ss'[i + 1] == Step(cfg, ss'[i], ls'[i])
      ensures PromptStep(ss'[i], ls'[i]) && OwnStep(ls'[i])
    {
      if i > 0 {
        assert ls'[i] == ls[i - 1] && ss'[i] == ss[i - 1] && ss'[i + 1] == ss[i];
      }
    }
  }

  ghost predicate BothEndIdle(s: State, end: State) {
    EndsIdle(s.flow.client, end.flow.client) && EndsIdle(s.flow.remote, end.flow.remote)
  }

  lemma OwnStepsEndIdle(cfg: Config, s: State, l: Label, end: State)
    requires Enabled(cfg, s, l) && OwnStep(l) && BothEndIdle(Step(cfg, s, l), end)
    ensures BothEndIdle(s, end)
  {
    OwnStepEndsIdle(cfg, s, l, Client);
    OwnStepEndsIdle(cfg, s, l, Remote);
  }

  lemma OwnStepKeepsFading(cfg: Config, s0: State, s: State, l: Label)
    requires Sane(cfg) && Inv(cfg, s0) && Inv(cfg, s) && Fading(cfg, s0, s) && s.result.None?
    requires Enabled(cfg, s, l) && OwnStep(l) && PromptStep(s, l)
    ensures var s' := Step(cfg, s, l);
            Inv(cfg, s') && Fading(cfg, s0, s') && (s'.result.Some? ==> s'.now == s.now)
  {
    StepKeepsInv(cfg, s, l);
    SilenceKeepsFading(cfg, s0, s, l);
  }

  lemma {:induction false} RunsOut(cfg: Config, s0: State, s: State) returns (ls: seq<Label>, ss: seq<State>)
    requires Sane(cfg) && Inv(cfg, s0) && Inv(cfg, s) && Fading(cfg, s0, s) && s.now <= LastCall(cfg, s0)
    ensures OwnRun(cfg, s, ls, ss)
    ensures ss[|ls|].result.Some? && ss[|ls|].now <= LastCall(cfg, s0) && BothEndIdle(s, ss[|ls|])
    decreases ToGo(cfg, s), if Due(s, Client) || Due(s, Remote) then 0 else 1
  {
    if s.result.Some? {
      return [], [s];
    }
    var l := Onward(s);
    OnwardMoves(cfg, s);
    OwnStepKeepsFading(cfg, s0, s, l);
    var s' := Step(cfg, s, l);
    var ls1, ss1 := RunsOut(cfg, s0, s');
    ls, ss := [l] + ls1, [s] + ss1;
    Prepend(cfg, s, l, ls1, ss1);
    assert ss[|ls|] == ss1[|ls1|];
    OwnStepsEndIdle(cfg, s, l, ss[|ls|]);
  }

  /** From every reachable state without a pending write, silence alone ends the relay: its own steps
      lead to the return of copyConn in time, and no direction fails that had not failed before. */
  lemma SilenceRunsOut(cfg: Config, s: State) returns (ls: seq<Label>, ss: seq<State>)
    requires Sane(cfg) && Reachable(cfg, s) && NoWritePending(s)
    ensures OwnRun(cfg, s, ls, ss)
    ensures ss[|ls|].result.Some? && ss[|ls|].now <= LastCall(cfg, s) && BothEndIdle(s, ss[|ls|])
  {
    ReachableInv(cfg, s);
    FadingStarts(cfg, s);
    LastCallIsNear(cfg, s);
    ls, ss := RunsOut(cfg, s, s);
  }

  // --- a real error can be hidden ---

  lemma ReachedAfter(cfg: Config, l: Label, ls: seq<Label>, ss: seq<State>)
    requires Enabled(cfg, Init(cfg), l) && Execution(cfg, ls, ss) && ss[0] == Step(cfg, Init(cfg), l)
    ensures Reachable(cfg, ss[|ls|])
  {
    var (ls', ss') := ([l] + ls, [Init(cfg)] + ss);
    forall i | 0 <= i < |ls'| ensures Enabled(cfg, ss'[i], ls'[i]) && ss'[i + 1] == Step(cfg, ss'[i], ls'[i]) {
      if i > 0 {
        assert ls'[i] == ls[i - 1] && ss'[i] == ss[i - 1] && ss'[i + 1] == ss[i];
      }
    }
    assert Execution(cfg, ls', ss') && ss'[0] == Init(cfg) && ss'[|ls'|] == ss[|ls|];
  }

  /** Whatever the timeouts: the remote fails while the client is silent, and the relay returns nil. */
  lemma HiddenErrorReachable(cfg: Config, code: int)
    requires Sane(cfg)
    ensures exists s :: Reachable(cfg, s) && s.result == Some(Clean)
              && Over(s.flow.remote.phase) && s.flow.remote.phase.err == Some(Failed(code))
  {
    var first := ReadError(Remote, code);
    var s := Step(cfg, Init(cfg), first);
    var none: seq<Label> := [];
    assert Execution(cfg, none, [s]);
    ReachedAfter(cfg, first, none, [s]);
    var ls, ss := SilenceRunsOut(cfg, s);
    ReachedAfter(cfg, first, ls, ss);
    ReachableInv(cfg, ss[|ls|]);
    assert BothEndIdle(s, ss[|ls|]);
  }

  // --- a relay is never stuck ---

  /** A pending write that is completed without an error. */
  predicate FinishesWrite(s: State, l: Label) {
    && l.Wrote? && s.flow.At(l.d).phase.Writing?
    && l.n == |s.flow.At(l.d).phase.chunk| && l.failure.None?
  }

  /** A stretch of a run in which nothing is read and nothing fails. */
  ghost predicate GentleRun(cfg: Config, s: State, ls: seq<Label>, ss: seq<State>) {
    && Execution(cfg, ls, ss) && ss[0] == s && Prompt(ls, ss)
    && forall i | 0 <= i < |ls| :: OwnStep(ls[i]) || FinishesWrite(ss[i], ls[i])
  }

  lemma PrependWrite(cfg: Config, s: State, l: Label, ls: seq<Label>, ss: seq<State>)
    requires Enabled(cfg, s, l) && FinishesWrite(s, l) && GentleRun(cfg, Step(cfg, s, l), ls, ss)
    ensures GentleRun(cfg, s, [l] + ls, [s] + ss)
  {
    var (ls', ss') := ([l] + ls, [s] + ss);
    forall i | 0 <= i < |ls'|
      ensures Enabled(cfg, ss'[i], ls'[i]) && ss'[i + 1] == Step(cfg, ss'[i], ls'[i])
      ensures PromptStep(ss'[i], ls'[i]) && (OwnStep(ls'[i]) || FinishesWrite(ss'[i], ls'[i]))
    {
      if i > 0 {
        assert ls'[i] == ls[i - 1] && ss'[i] == ss[i - 1] && ss'[i + 1] == ss[i];
      }
    }
  }

  lemma LastCallIsNear(cfg: Config, s: State)
    requires Sane(cfg) && Inv(cfg, s)
    ensures s.now <= LastCall(cfg, s) <= s.now + cfg.idleTimeout + cfg.readTimeout
  {
    assert SideInv(cfg, s, Client) && SideInv(cfg, s, Remote);
  }

  function PendingWrites(s: State): nat {
    (if s.flow.client.phase.Writing? then 1 else 0) + (if s.flow.remote.phase.Writing? then 1 else 0)
  }

  lemma WriteThenEndIdle(cfg: Config, s: State, d: Side, end: State)
    requires s.flow.At(d).phase.Writing?
    requires BothEndIdle(OnWrote(cfg, s, d, |s.flow.At(d).phase.chunk|, None), end)
    ensures BothEndIdle(s, end)
  {
  }

  lemma {:induction false} Finishes(cfg: Config, s: State) returns (ls: seq<Label>, ss: seq<State>)
    requires Sane(cfg) && Inv(cfg, s)
    ensures GentleRun(cfg, s, ls, ss) && ss[|ls|].result.Some? && BothEndIdle(s, ss[|ls|])
    ensures ss[|ls|].now <= s.now + cfg.idleTimeout + cfg.readTimeout
    decreases PendingWrites(s)
  {
    if NoWritePending(s) {
      FadingStarts(cfg, s);
      LastCallIsNear(cfg, s);
      ls, ss := RunsOut(cfg, s, s);
    } else {
      var d := if s.flow.client.phase.Writing? then Client else Remote;
      var l := Wrote(d, |s.flow.At(d).phase.chunk|, None);
      StepKeepsInv(cfg, s, l);
      var ls1, ss1 := Finishes(cfg, Step(cfg, s, l));
      ls, ss := [l] + ls1, [s] + ss1;
      PrependWrite(cfg, s, l, ls1, ss1);
      assert ss[|ls|] == ss1[|ls1|];
      WriteThenEndIdle(cfg, s, d, ss[|ls|]);
    }
  }

  /** From every reachable state, if pending writes complete and nothing more is read, the relay's own
      steps lead to the return of copyConn within the idle timeout and one read timeout from now, and no
      direction fails that had not failed before. */
  lemma NeverStuck(cfg: Config, s: State) returns (ls: seq<Label>, ss: seq<State>)
    requires Sane(cfg) && Reachable(cfg, s)
    ensures GentleRun(cfg, s, ls, ss) && ss[|ls|].result.Some? && BothEndIdle(s, ss[|ls|])
    ensures ss[|ls|].now <= s.now + cfg.idleTimeout + cfg.readTimeout
  {
    ReachableInv(cfg, s);
    ls, ss := Finishes(cfg, s);
  }
}

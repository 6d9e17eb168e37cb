/**
 The relay data path of internal/conn/relay_conn.go. Two copy directions share two connections
 and one Stats; a run is any interleaving of their steps with the passing of time. A direction
 is named by the side it reads from. The direction from the client runs in the goroutine of
 copyConn, the one from the remote in copyConn itself.

 Assumed of a connection: a read that fails delivers no bytes; a blocked read returns by its
 deadline; the copy loop is the documented loop of io.CopyBuffer.
 */
module CopyConn {
  import opened Base

  datatype Side = Client | Remote

  function Other(side: Side): Side {
    if side == Client then Remote else Client
  }

  datatype Pair<T> = Pair(client: T, remote: T) {
    function At(side: Side): T {
      if side == Client then client else remote
    }

    function Put(side: Side, v: T): Pair<T> {
      if side == Client then this.(client := v) else this.(remote := v)
    }
  }

  datatype Error = IdleTimeout | ShortWrite | Failed(code: int)

  /** Where one direction stands. A stopped direction knows whether its write failed. */
  datatype Phase =
    | Ready
    | Reading(deadline: int, called: int)
    | Writing(chunk: seq<Byte>)
    | Stopped(err: Option<Error>, inWrite: bool)
    | HalfClosed(err: Option<Error>, inWrite: bool)
    | Reported(err: Option<Error>, inWrite: bool)

  /** What one direction read, handed to the other connection, and counted as written. */
  datatype Flow = Flow(phase: Phase, got: seq<Byte>, put: seq<Byte>, counted: nat)

  /** combineErrorsAndMuteIDLE returns nil, one error or a joined error. */
  datatype Result = Clean | One(e: Error) | Joined(e1: Error, e2: Error)

  datatype Stats = Stats(up: int, down: int)

  /** What an observer of the two connections sees. */
  datatype Event =
    | DidRead(side: Side, bytes: seq<Byte>, at: int)
    | DidWrite(side: Side, bytes: seq<Byte>, ok: bool, at: int)
    | GaveUp(side: Side, at: int)
    | ClosedWrite(side: Side)
    | ClosedRead(side: Side)
    | Returned(result: Result)

  datatype Config = Config(readTimeout: int, idleTimeout: int, width: nat, start: int, streams: Pair<seq<Byte>>)

  datatype State = State(
    now: int,
    flow: Pair<Flow>,
    active: Pair<int>,
    stats: Stats,
    result: Option<Result>,
    log: seq<Event>)

  function Init(cfg: Config): State {
    var idle := Flow(Ready, [], [], 0);
    State(cfg.start, Pair(idle, idle), Pair(cfg.start, cfg.start), Stats(0, 0), None, [])
  }

  function Combine(err1: Option<Error>, err2: Option<Error>): Result {
    var e1 := if err1 == Some(IdleTimeout) then None else err1;
    if err2 == Some(IdleTimeout) then Clean
    else if e1.Some? && err2.Some? then Joined(e1.value, err2.value)
    else if e1.Some? then One(e1.value)
    else if err2.Some? then One(err2.value)
    else Clean
  }

  // --- steps ---

  datatype Label =
    | Tick(to: int)
    | Call(d: Side)
    | Data(d: Side, n: nat)
    | Eof(d: Side)
    | ReadError(d: Side, code: int)
    | Timeout(d: Side)
    | Wrote(d: Side, n: nat, failure: Option<int>)
    | HalfClose(d: Side)
    | Report
    | Return

  ghost predicate Blocked(f: Flow, t: int) {
    f.phase.Reading? ==> t <= f.phase.deadline
  }

  ghost predicate Enabled(cfg: Config, s: State, l: Label) {
    match l
    case Tick(to) => s.now <= to && Blocked(s.flow.client, to) && Blocked(s.flow.remote, to)
    case Call(d) => s.flow.At(d).phase.Ready?
    case Data(d, n) =>
      s.flow.At(d).phase.Reading? && n <= cfg.width && |s.flow.At(d).got| + n <= |cfg.streams.At(d)|
    case Eof(d) => s.flow.At(d).phase.Reading? && |s.flow.At(d).got| == |cfg.streams.At(d)|
    case ReadError(d, _) => s.flow.At(d).phase.Ready? || s.flow.At(d).phase.Reading?
    case Timeout(d) => s.flow.At(d).phase.Reading? && s.now >= s.flow.At(d).phase.deadline
    case Wrote(d, n, _) => s.flow.At(d).phase.Writing? && n <= |s.flow.At(d).phase.chunk|
    case HalfClose(d) => s.flow.At(d).phase.Stopped?
    case Report => s.flow.client.phase.HalfClosed?
    case Return => s.result.None? && s.flow.remote.phase.HalfClosed? && s.flow.client.phase.Reported?
  }

  function Log(s: State, e: Event): State {
    s.(log := s.log + [e])
  }

  function Goto(s: State, d: Side, p: Phase): State {
    s.(flow := s.flow.Put(d, s.flow.At(d).(phase := p)))
  }

  /** innerConn.Read succeeded with n bytes: count them, note the activity, go on to write them. */
  function OnData(cfg: Config, s: State, d: Side, n: nat): State
    requires Enabled(cfg, s, Data(d, n))
  {
    var f := s.flow.At(d);
    var chunk := cfg.streams.At(d)[|f.got|..|f.got| + n];
    var f' := f.(got := f.got + chunk, phase := if n == 0 then Ready else Writing(chunk));
    Log(s.(flow := s.flow.Put(d, f'), active := s.active.Put(d, s.now),
           stats := Stats(s.stats.up, s.stats.down + n)),
        DidRead(d, chunk, s.now))
  }

  /** The read deadline passed: give up if the side has been idle too long, else read again. */
  function OnTimeout(cfg: Config, s: State, d: Side): State
    requires Enabled(cfg, s, Timeout(d))
  {
    if s.now - s.active.At(d) > cfg.idleTimeout then
      Log(Goto(s, d, Stopped(Some(IdleTimeout), false)), GaveUp(d, s.now))
    else
      Goto(s, d, Reading(s.now + cfg.readTimeout, s.flow.At(d).phase.called))
  }

  /** innerConn.Write returned: only a write without error is counted and notes activity. */
  function OnWrote(cfg: Config, s: State, d: Side, n: nat, failure: Option<int>): State
    requires Enabled(cfg, s, Wrote(d, n, failure))
  {
    var f := s.flow.At(d);
    var chunk := f.phase.chunk;
    var ok := failure.None?;
    var phase := if failure.Some? then Stopped(Some(Failed(failure.value)), true)
                 else if n < |chunk| then Stopped(Some(ShortWrite), true)
                 else Ready;
    var f' := f.(put := f.put + chunk[..n], counted := if ok then f.counted + n else f.counted, phase := phase);
    Log(s.(flow := s.flow.Put(d, f'),
           active := if ok then s.active.Put(Other(d), s.now) else s.active,
           stats := if ok then Stats(s.stats.up + n, s.stats.down) else s.stats),
        DidWrite(Other(d), chunk[..n], ok, s.now))
  }

  function Step(cfg: Config, s: State, l: Label): State
    requires Enabled(cfg, s, l)
  {
    match l
    case Tick(to) => s.(now := to)
    case Call(d) => Goto(s, d, Reading(s.now + cfg.readTimeout, s.now))
    case Data(d, n) => OnData(cfg, s, d, n)
    case Eof(d) => Goto(s, d, Stopped(None, false))
    case ReadError(d, code) => Goto(s, d, Stopped(Some(Failed(code)), false))
    case Timeout(d) => OnTimeout(cfg, s, d)
    case Wrote(d, n, failure) => OnWrote(cfg, s, d, n, failure)
    case HalfClose(d) =>
      var p := s.flow.At(d).phase;
      Log(Goto(s, d, HalfClosed(p.err, p.inWrite)), ClosedWrite(Other(d)))
    case Report =>
      var p := s.flow.client.phase;
      Goto(s, Client, Reported(p.err, p.inWrite))
    case Return =>
      var result := Combine(s.flow.remote.phase.err, s.flow.client.phase.err);
      Log(Log(Log(s.(result := Some(result)), ClosedRead(Client)), ClosedRead(Remote)), Returned(result))
  }

  /** A stretch of a run: states ss joined by the steps ls, in whatever order they interleave. */
  ghost predicate Execution(cfg: Config, ls: seq<Label>, ss: seq<State>) {
    && |ss| == |ls| + 1
    && forall i | 0 <= i < |ls| :: Enabled(cfg, ss[i], ls[i]) && ss[i + 1] == Step(cfg, ss[i], ls[i])
  }

  ghost predicate Reachable(cfg: Config, s: State) {
    exists ls, ss :: Execution(cfg, ls, ss) && ss[0] == Init(cfg) && ss[|ls|] == s
  }

  // --- what the log says, read on its own ---

  function BytesRead(log: seq<Event>, side: Side): seq<Byte> {
    if log == [] then []
    else
      var e := log[|log| - 1];
      BytesRead(log[..|log| - 1], side) + if e.DidRead? && e.side == side then e.bytes else []
  }

  function BytesWritten(log: seq<Event>, side: Side): seq<Byte> {
    if log == [] then []
    else
      var e := log[|log| - 1];
      BytesWritten(log[..|log| - 1], side) + if e.DidWrite? && e.side == side then e.bytes else []
  }

  /** Bytes of the writes to a side that returned no error. */
  function BytesCounted(log: seq<Event>, side: Side): nat {
    if log == [] then 0
    else
      var e := log[|log| - 1];
      BytesCounted(log[..|log| - 1], side) + if e.DidWrite? && e.side == side && e.ok then |e.bytes| else 0
  }

  /** The time of the last successful read or write on a side. */
  function LastActivity(log: seq<Event>, side: Side, start: int): int {
    if log == [] then start
    else
      var e := log[|log| - 1];
      if (e.DidRead? && e.side == side) || (e.DidWrite? && e.side == side && e.ok) then e.at
      else LastActivity(log[..|log| - 1], side, start)
  }

  // --- the invariant ---

  predicate Over(p: Phase) {
    p.Stopped? || p.HalfClosed? || p.Reported?
  }

  ghost predicate FlowInv(cfg: Config, s: State, d: Side) {
    var f := s.flow.At(d);
    && f.got <= cfg.streams.At(d)
    && f.put <= f.got
    && f.counted <= |f.put|
    && (f.phase.Ready? || f.phase.Reading? ==> f.put == f.got && f.counted == |f.got|)
    && (f.phase.Writing? ==> f.got == f.put + f.phase.chunk && 0 < |f.phase.chunk| <= cfg.width && f.counted == |f.put|)
    && (Over(f.phase) ==>
          && (f.phase.err.None? ==> f.got == cfg.streams.At(d) && !f.phase.inWrite)
          && (if f.phase.inWrite then f.counted < |f.got| else f.put == f.got && f.counted == |f.got|))
    && (f.phase.Reported? ==> d == Client)
  }

  ghost predicate TimeInv(cfg: Config, s: State, d: Side) {
    var f := s.flow.At(d);
    && s.active.At(d) <= s.now
    && (f.phase.Reading? ==>
          && f.phase.called <= s.now <= f.phase.deadline
          && f.phase.deadline <= Max(f.phase.called, s.active.At(d) + cfg.idleTimeout) + cfg.readTimeout)
  }

  /** The log agrees with the state. */
  ghost predicate LogInv(cfg: Config, s: State, d: Side) {
    LogBytes(cfg, s.log, s.flow.At(d), s.active.At(d), d) && LogMarks(s.log, s.flow.At(d).phase, s.result, d)
  }

  ghost predicate LogBytes(cfg: Config, log: seq<Event>, f: Flow, active: int, d: Side) {
    && BytesRead(log, d) == f.got
    && BytesWritten(log, Other(d)) == f.put
    && BytesCounted(log, Other(d)) == f.counted
    && LastActivity(log, d, cfg.start) == active
  }

  ghost predicate LogMarks(log: seq<Event>, phase: Phase, result: Option<Result>, d: Side) {
    && (ClosedWrite(Other(d)) in log <==> phase.HalfClosed? || phase.Reported?)
    && (result.None? ==> forall e <- log :: !e.Returned?)
  }

  /** Whether an event may follow a log. */
  ghost predicate MayFollow(cfg: Config, log: seq<Event>, e: Event) {
    && (forall p <- log :: !p.Returned?)
    && match e
       case DidRead(side, _, _) => ClosedWrite(Other(side)) !in log
       case DidWrite(side, bytes, _, _) => ClosedWrite(side) !in log && |bytes| <= cfg.width
       case GaveUp(side, at) => at - LastActivity(log, side, cfg.start) > cfg.idleTimeout
       case ClosedWrite(side) => ClosedWrite(side) !in log
       case ClosedRead(_) => ClosedWrite(Client) in log && ClosedWrite(Remote) in log
       case Returned(_) => ClosedRead(Client) in log && ClosedRead(Remote) in log
  }

  ghost predicate WellOrdered(cfg: Config, log: seq<Event>) {
    forall i | 0 <= i < |log| :: MayFollow(cfg, log[..i], log[i])
  }

  ghost predicate SideInv(cfg: Config, s: State, d: Side) {
    FlowInv(cfg, s, d) && TimeInv(cfg, s, d) && LogInv(cfg, s, d)
  }

  ghost predicate StatsInv(s: State) {
    && s.stats.down == |s.flow.client.got| + |s.flow.remote.got|
    && s.stats.up == s.flow.client.counted + s.flow.remote.counted
    && (s.result.Some? ==>
          && s.flow.remote.phase.HalfClosed? && s.flow.client.phase.Reported?
          && s.result == Some(Combine(s.flow.remote.phase.err, s.flow.client.phase.err)))
  }

  ghost predicate Inv(cfg: Config, s: State) {
    SideInv(cfg, s, Client) && SideInv(cfg, s, Remote) && StatsInv(s)
  }

  ghost predicate Sane(cfg: Config) {
    cfg.readTimeout > 0 && cfg.idleTimeout >= 0
  }

  lemma Snoc(cfg: Config, log: seq<Event>, e: Event, side: Side)
    ensures var l := log + [e];
      && BytesRead(l, side) == BytesRead(log, side) + (if e.DidRead? && e.side == side then e.bytes else [])
      && BytesWritten(l, side) == BytesWritten(log, side) + (if e.DidWrite? && e.side == side then e.bytes else [])
      && BytesCounted(l, side) == BytesCounted(log, side)
                                  + (if e.DidWrite? && e.side == side && e.ok then |e.bytes| else 0)
      && LastActivity(l, side, cfg.start) ==
         (if (e.DidRead? && e.side == side) || (e.DidWrite? && e.side == side && e.ok) then e.at
          else LastActivity(log, side, cfg.start))
  {
    var l := log + [e];
    assert l[..|l| - 1] == log && l[|l| - 1] == e;
  }

  lemma OrderedSnoc(cfg: Config, log: seq<Event>, e: Event)
    requires WellOrdered(cfg, log) && MayFollow(cfg, log, e)
    ensures WellOrdered(cfg, log + [e])
  {
    var l := log + [e];
    forall i | 0 <= i < |l| ensures MayFollow(cfg, l[..i], l[i]) {
      assert l[..i] == log[..i];
      if i == |log| {
        assert log[..i] == log;
      }
    }
  }


  // Each label keeps each part of the invariant, for the side it reads from and for the other.

  lemma DataKeepsFlow(cfg: Config, s: State, d: Side, n: nat, x: Side)
    requires FlowInv(cfg, s, x) && Enabled(cfg, s, Data(d, n))
    ensures FlowInv(cfg, OnData(cfg, s, d, n), x)
  {
  }

  lemma WroteKeepsFlow(cfg: Config, s: State, d: Side, n: nat, failure: Option<int>, x: Side)
    requires FlowInv(cfg, s, x) && Enabled(cfg, s, Wrote(d, n, failure))
    ensures FlowInv(cfg, OnWrote(cfg, s, d, n, failure), x)
  {
  }

  lemma TimeoutKeepsFlow(cfg: Config, s: State, d: Side, x: Side)
    requires FlowInv(cfg, s, x) && Enabled(cfg, s, Timeout(d))
    ensures FlowInv(cfg, OnTimeout(cfg, s, d), x)
  {
  }

  lemma CloseKeepsFlow(cfg: Config, s: State, l: Label, x: Side)
    requires l.HalfClose? || l.Report? || l.Return?
    requires FlowInv(cfg, s, x) && Enabled(cfg, s, l)
    ensures FlowInv(cfg, Step(cfg, s, l), x)
  {
  }

  lemma FlowKept(cfg: Config, s: State, l: Label, x: Side)
    requires FlowInv(cfg, s, x) && Enabled(cfg, s, l)
    ensures FlowInv(cfg, Step(cfg, s, l), x)
  {
    if l.Data? {
      DataKeepsFlow(cfg, s, l.d, l.n, x);
    } else if l.Wrote? {
      WroteKeepsFlow(cfg, s, l.d, l.n, l.failure, x);
    } else if l.Timeout? {
      TimeoutKeepsFlow(cfg, s, l.d, x);
    } else if l.HalfClose? || l.Report? || l.Return? {
      CloseKeepsFlow(cfg, s, l, x);
    }
  }

  lemma TimeKept(cfg: Config, s: State, l: Label, x: Side)
    requires Sane(cfg) && TimeInv(cfg, s, x) && Enabled(cfg, s, l)
    ensures TimeInv(cfg, Step(cfg, s, l), x)
  {
  }

  lemma DataKeepsLog(cfg: Config, s: State, d: Side, n: nat, x: Side)
    requires LogInv(cfg, s, x) && Enabled(cfg, s, Data(d, n))
    ensures LogInv(cfg, OnData(cfg, s, d, n), x)
  {
    var s' := OnData(cfg, s, d, n);
    var e := s'.log[|s.log|];
    Snoc(cfg, s.log, e, x);
    Snoc(cfg, s.log, e, Other(x));
    assert LogBytes(cfg, s'.log, s'.flow.At(x), s'.active.At(x), x);
    assert LogMarks(s'.log, s'.flow.At(x).phase, s'.result, x);
  }

  lemma WroteKeepsLog(cfg: Config, s: State, d: Side, n: nat, failure: Option<int>, x: Side)
    requires LogInv(cfg, s, x) && Enabled(cfg, s, Wrote(d, n, failure))
    ensures LogInv(cfg, OnWrote(cfg, s, d, n, failure), x)
  {
    var s' := OnWrote(cfg, s, d, n, failure);
    var e := s'.log[|s.log|];
    Snoc(cfg, s.log, e, x);
    Snoc(cfg, s.log, e, Other(x));
    assert LogBytes(cfg, s'.log, s'.flow.At(x), s'.active.At(x), x);
    assert LogMarks(s'.log, s'.flow.At(x).phase, s'.result, x);
  }

  lemma ReturnKeepsLog(cfg: Config, s: State, x: Side)
    requires LogInv(cfg, s, x) && Enabled(cfg, s, Return)
    ensures LogInv(cfg, Step(cfg, s, Return), x)
  {
    var s' := Step(cfg, s, Return);
    var l1 := s.log + [ClosedRead(Client)];
    var l2 := l1 + [ClosedRead(Remote)];
    var last := Returned(s'.result.value);
    assert s'.log == l2 + [last];
    Snoc(cfg, s.log, ClosedRead(Client), x);
    Snoc(cfg, s.log, ClosedRead(Client), Other(x));
    Snoc(cfg, l1, ClosedRead(Remote), x);
    Snoc(cfg, l1, ClosedRead(Remote), Other(x));
    Snoc(cfg, l2, last, x);
    Snoc(cfg, l2, last, Other(x));
  }

  lemma HalfCloseKeepsLog(cfg: Config, s: State, d: Side, x: Side)
    requires LogInv(cfg, s, x) && Enabled(cfg, s, HalfClose(d))
    ensures LogInv(cfg, Step(cfg, s, HalfClose(d)), x)
  {
    Snoc(cfg, s.log, ClosedWrite(Other(d)), x);
    Snoc(cfg, s.log, ClosedWrite(Other(d)), Other(x));
  }

  lemma TimeoutKeepsLog(cfg: Config, s: State, d: Side, x: Side)
    requires LogInv(cfg, s, x) && Enabled(cfg, s, Timeout(d))
    ensures LogInv(cfg, OnTimeout(cfg, s, d), x)
  {
    if s.now - s.active.At(d) > cfg.idleTimeout {
      Snoc(cfg, s.log, GaveUp(d, s.now), x);
      Snoc(cfg, s.log, GaveUp(d, s.now), Other(x));
    }
  }

  lemma LogKept(cfg: Config, s: State, l: Label, x: Side)
    requires LogInv(cfg, s, x) && Enabled(cfg, s, l)
    ensures LogInv(cfg, Step(cfg, s, l), x)
  {
    if l.Data? {
      DataKeepsLog(cfg, s, l.d, l.n, x);
    } else if l.Wrote? {
      WroteKeepsLog(cfg, s, l.d, l.n, l.failure, x);
    } else if l.Return? {
      ReturnKeepsLog(cfg, s, x);
    } else if l.HalfClose? {
      HalfCloseKeepsLog(cfg, s, l.d, x);
    } else if l.Timeout? {
      TimeoutKeepsLog(cfg, s, l.d, x);
    }
  }

  lemma ReadStatsKept(cfg: Config, s: State, d: Side, n: nat)
    requires StatsInv(s) && Enabled(cfg, s, Data(d, n)) && s.result.None?
    ensures StatsInv(OnData(cfg, s, d, n))
  {
  }

  lemma WriteStatsKept(cfg: Config, s: State, d: Side, n: nat, failure: Option<int>)
    requires StatsInv(s) && Enabled(cfg, s, Wrote(d, n, failure)) && s.result.None?
    ensures StatsInv(OnWrote(cfg, s, d, n, failure))
  {
  }

  lemma StatsKept(cfg: Config, s: State, l: Label)
    requires Inv(cfg, s) && Enabled(cfg, s, l)
    ensures StatsInv(Step(cfg, s, l))
  {
    if l.Data? {
      ReadStatsKept(cfg, s, l.d, l.n);
    } else if l.Wrote? {
      WriteStatsKept(cfg, s, l.d, l.n, l.failure);
    }
  }

  lemma StepKeepsInv(cfg: Config, s: State, l: Label)
    requires Sane(cfg) && Inv(cfg, s) && Enabled(cfg, s, l)
    ensures Inv(cfg, Step(cfg, s, l))
  {
    StatsKept(cfg, s, l);
    forall x: Side ensures SideInv(cfg, Step(cfg, s, l), x) {
      assert SideInv(cfg, s, x);
      FlowKept(cfg, s, l, x);
      TimeKept(cfg, s, l, x);
      LogKept(cfg, s, l, x);
    }
  }

  lemma StepKeepsOrder(cfg: Config, s: State, l: Label)
    requires Inv(cfg, s) && WellOrdered(cfg, s.log) && Enabled(cfg, s, l)
    ensures WellOrdered(cfg, Step(cfg, s, l).log)
  {
    var s' := Step(cfg, s, l);
    if l.Return? {
      var l1 := s.log + [ClosedRead(Client)];
      var l2 := l1 + [ClosedRead(Remote)];
      OrderedSnoc(cfg, s.log, ClosedRead(Client));
      OrderedSnoc(cfg, l1, ClosedRead(Remote));
      OrderedSnoc(cfg, l2, Returned(s'.result.value));
      assert s'.log == l2 + [Returned(s'.result.value)];
    } else if s'.log != s.log {
      OrderedSnoc(cfg, s.log, s'.log[|s.log|]);
    }
  }

  lemma {:induction false} ExecutionInv(cfg: Config, ls: seq<Label>, ss: seq<State>, n: nat)
    requires Sane(cfg) && Execution(cfg, ls, ss) && ss[0] == Init(cfg) && n <= |ls|
    ensures Inv(cfg, ss[n]) && WellOrdered(cfg, ss[n].log)
  {
    if n > 0 {
      ExecutionInv(cfg, ls, ss, n - 1);
      StepKeepsInv(cfg, ss[n - 1], ls[n - 1]);
      StepKeepsOrder(cfg, ss[n - 1], ls[n - 1]);
    }
  }

  lemma ReachableInv(cfg: Config, s: State)
    requires Sane(cfg) && Reachable(cfg, s)
    ensures Inv(cfg, s) && WellOrdered(cfg, s.log)
  {
    var ls, ss :| Execution(cfg, ls, ss) && ss[0] == Init(cfg) && ss[|ls|] == s;
    ExecutionInv(cfg, ls, ss, |ls|);
  }

  // --- main results: every reachable state of every interleaving ---

  /** What has been written to a side is a prefix of what was read from the other, which is a
      prefix of what its peer sent. */
  lemma PrefixSafety(cfg: Config, s: State, d: Side)
    requires Sane(cfg) && Reachable(cfg, s)
    ensures BytesWritten(s.log, Other(d)) <= BytesRead(s.log, d) <= cfg.streams.At(d)
  {
    ReachableInv(cfg, s);
    assert SideInv(cfg, s, d);
  }

  /** A direction that ended in EOF delivered the whole stream; one that did not end in a failed
      write delivered everything it read. */
  lemma EndDelivers(cfg: Config, s: State, d: Side)
    requires Sane(cfg) && Reachable(cfg, s) && Over(s.flow.At(d).phase)
    ensures s.flow.At(d).phase.err.None? ==> BytesWritten(s.log, Other(d)) == cfg.streams.At(d)
    ensures !s.flow.At(d).phase.inWrite ==> BytesWritten(s.log, Other(d)) == BytesRead(s.log, d)
  {
    ReachableInv(cfg, s);
    assert SideInv(cfg, s, d);
  }

  /** CloseWrite comes once per side, after the last write to it and the last read that fed it. */
  lemma CloseWriteIsLast(cfg: Config, s: State, side: Side, i: nat, j: nat)
    requires Sane(cfg) && Reachable(cfg, s)
    requires i < j < |s.log| && s.log[i] == ClosedWrite(side)
    ensures !(s.log[j].DidWrite? && s.log[j].side == side)
    ensures !(s.log[j].DidRead? && s.log[j].side == Other(side))
    ensures s.log[j] != ClosedWrite(side)
  {
    ReachableInv(cfg, s);
    assert MayFollow(cfg, s.log[..j], s.log[j]);
    assert s.log[..j][i] == ClosedWrite(side);
  }

  lemma NotBeforeEnd(cfg: Config, log: seq<Event>, i: nat, j: nat)
    requires WellOrdered(cfg, log) && i < j < |log|
    ensures !log[i].Returned?
  {
    assert MayFollow(cfg, log[..j], log[j]);
    assert log[..j][i] == log[i];
  }

  lemma ReturnFollowsCloses(cfg: Config, log: seq<Event>, i: nat, side: Side)
    requires WellOrdered(cfg, log) && i < |log| && log[i].Returned?
    ensures i == |log| - 1 && ClosedWrite(side) in log[..i] && ClosedRead(side) in log[..i]
  {
    if i + 1 < |log| {
      NotBeforeEnd(cfg, log, i, i + 1);
    }
    assert MayFollow(cfg, log[..i], log[i]);
    var j :| 0 <= j < i && log[..i][j] == ClosedRead(side);
    assert MayFollow(cfg, log[..j], log[j]);
    var k :| 0 <= k < j && log[..j][k] == ClosedWrite(side);
    assert log[..i][k] == ClosedWrite(side);
  }

  /** copyConn returns once, after everything else: both directions have ended, both sides were
      half-closed for writing and then for reading, and the result combines the two errors. */
  lemma ReturnIsLast(cfg: Config, s: State, i: nat, side: Side)
    requires Sane(cfg) && Reachable(cfg, s)
    requires i < |s.log| && s.log[i].Returned?
    ensures i == |s.log| - 1 && ClosedWrite(side) in s.log[..i] && ClosedRead(side) in s.log[..i]
    ensures Over(s.flow.client.phase) && Over(s.flow.remote.phase)
    ensures s.result == Some(Combine(s.flow.remote.phase.err, s.flow.client.phase.err))
  {
    ReachableInv(cfg, s);
    ReturnFollowsCloses(cfg, s.log, i, side);
    assert SideInv(cfg, s, Client);
    assert s.log[i] in s.log;
  }

  /** Stats.Down counts the bytes read and Stats.Up those written without error, on both sides;
      Up never exceeds Down, and once both directions are over they are equal exactly when
      neither ended in a failed write. */
  lemma SharedAccounting(cfg: Config, s: State)
    requires Sane(cfg) && Reachable(cfg, s)
    ensures s.stats.down == |BytesRead(s.log, Client)| + |BytesRead(s.log, Remote)|
    ensures s.stats.up == BytesCounted(s.log, Client) + BytesCounted(s.log, Remote)
    ensures s.stats.up <= s.stats.down
    ensures forall d: Side :: BytesCounted(s.log, Other(d)) <= |BytesRead(s.log, d)|
    ensures Over(s.flow.client.phase) && Over(s.flow.remote.phase) ==>
              (s.stats.up == s.stats.down <==> !s.flow.client.phase.inWrite && !s.flow.remote.phase.inWrite)
  {
    ReachableInv(cfg, s);
    assert SideInv(cfg, s, Client) && SideInv(cfg, s, Remote);
    forall d: Side ensures BytesCounted(s.log, Other(d)) <= |BytesRead(s.log, d)| {
      assert SideInv(cfg, s, d);
    }
  }

  /** A read gives up only on a side with no successful read or write for longer than the timeout. */
  lemma GivesUpOnlyWhenIdle(cfg: Config, s: State, i: nat)
    requires Sane(cfg) && Reachable(cfg, s)
    requires i < |s.log| && s.log[i].GaveUp?
    ensures s.log[i].at - LastActivity(s.log[..i], s.log[i].side, cfg.start) > cfg.idleTimeout
  {
    ReachableInv(cfg, s);
    assert MayFollow(cfg, s.log[..i], s.log[i]);
  }

  /** A read is never still waiting one read timeout after both its call and the moment its side
      became idle. */
  lemma ReadReturnsInTime(cfg: Config, s: State, d: Side)
    requires Sane(cfg) && Reachable(cfg, s) && s.flow.At(d).phase.Reading?
    ensures var idle := LastActivity(s.log, d, cfg.start) + cfg.idleTimeout;
            s.now <= Max(s.flow.At(d).phase.called, idle) + cfg.readTimeout
  {
    ReachableInv(cfg, s);
    assert SideInv(cfg, s, d);
  }

  /** No write is larger than the copy buffer. */
  lemma WritesFitBuffer(cfg: Config, s: State, i: nat)
    requires Sane(cfg) && Reachable(cfg, s)
    requires i < |s.log| && s.log[i].DidWrite?
    ensures |s.log[i].bytes| <= cfg.width
  {
    ReachableInv(cfg, s);
    assert MayFollow(cfg, s.log[..i], s.log[i]);
  }

  /** Which errors a result reports: both when both are real, one when only it is. A clean result
      hides a real error in one case exactly: the goroutine's direction went idle while the other
      one failed. */
  lemma CleanResultExactly(err1: Option<Error>, err2: Option<Error>)
    ensures forall x, y :: Combine(err1, err2) == Joined(x, y) <==>
              err1 == Some(x) && err2 == Some(y) && x != IdleTimeout && y != IdleTimeout
    ensures forall e :: Combine(err1, err2) == One(e) <==>
              e != IdleTimeout && ((err1 == Some(e) && err2.None?)
                                   || (err2 == Some(e) && (err1.None? || err1 == Some(IdleTimeout))))
    ensures Combine(err1, err2) == Clean <==>
              err2 == Some(IdleTimeout) || (err2.None? && (err1.None? || err1 == Some(IdleTimeout)))
    ensures (Combine(err1, err2) == Clean ==> forall e <- [err1, err2] :: e.None? || e == Some(IdleTimeout)) <==>
              !(err2 == Some(IdleTimeout) && err1.Some? && err1 != Some(IdleTimeout))
  {
    assert err1 in [err1, err2] && err2 in [err1, err2];
  }
}

/**
 Relay configurations (internal/relay/conf/cfg.go) and the checks of a whole configuration file
 (internal/config/config.go). Durations are in nanoseconds.
 */
module RelayConf {
  import opened Base

  const SECOND: int := 1_000_000_000
  const DEFAULT_DIAL_TIMEOUT: int := 3 * SECOND
  const DEFAULT_READ_TIMEOUT: int := 5 * SECOND
  const DEFAULT_IDLE_TIMEOUT: int := 30 * SECOND
  const DEFAULT_SNIFF_TIMEOUT: int := 300_000_000

  datatype WSConfig = WSConfig(path: string, remoteAddr: string)

  /** The four timeouts, in seconds as configured and as durations in use. */
  datatype Timeouts = Timeouts(dial: int, idle: int, read: int, sniff: int)

  datatype Options = Options(
    enableUDP: bool,
    enableMultipathTCP: bool,
    maxConnection: int,
    blockedProtocols: seq<string>,
    maxReadRateKbps: int,
    wsConfig: Option<WSConfig>,
    seconds: Timeouts,
    timeouts: Timeouts)

  datatype Config = Config(
    relayLabel: string,
    listen: string,
    listenType: string,
    transportType: string,
    remotes: seq<string>,
    options: Option<Options>)

  const NO_TIMEOUTS := Timeouts(0, 0, 0, 0)

  // --- Adjust ---

  /** The product of two int64 wraps. */
  function GetDuration(seconds: int, default: int): int {
    if seconds > 0 then Wrap(seconds * SECOND) else default
  }

  const MAX_SECONDS: int := 9_223_372_036

  /** A timeout is what was configured exactly up to about 292 years. */
  lemma DurationExactly(seconds: int, default: int)
    ensures GetDuration(seconds, default) == (if seconds > 0 then seconds * SECOND else default)
            <==> seconds <= MAX_SECONDS
  {
    assert MAX_SECONDS * SECOND < TWO63 <= (MAX_SECONDS + 1) * SECOND;
  }

  /** Beyond that the sign alternates: the timeout is negative exactly when the number of times 2^63 fits
      into the product is odd. */
  lemma NegativeExactly(seconds: int, default: int)
    requires default >= 0
    ensures GetDuration(seconds, default) < 0 <==> seconds > 0 && seconds * SECOND / TWO63 % 2 == 1
  {
    if seconds > 0 {
      WrapSign(seconds * SECOND);
    }
  }

  lemma WrapSign(n: nat)
    ensures Wrap(n) < 0 <==> n / TWO63 % 2 == 1
  {
    var (q, r) := (n / TWO63, n % TWO63);
    var h := q / 2;
    if q % 2 == 1 {
      Remainder(n + TWO63, h + 1, r);
    } else {
      Remainder(n + TWO63, h, TWO63 + r);
    }
  }

  lemma Remainder(a: int, k: int, r: int)
    requires a == k * (2 * TWO63) + r && 0 <= r < 2 * TWO63
    ensures a % (2 * TWO63) == r
  {
  }

  predicate InRange(t: Timeouts) {
    t.dial <= MAX_SECONDS && t.idle <= MAX_SECONDS && t.read <= MAX_SECONDS && t.sniff <= MAX_SECONDS
  }

  function Durations(s: Timeouts): Timeouts {
    Timeouts(GetDuration(s.dial, DEFAULT_DIAL_TIMEOUT), GetDuration(s.idle, DEFAULT_IDLE_TIMEOUT),
             GetDuration(s.read, DEFAULT_READ_TIMEOUT), GetDuration(s.sniff, DEFAULT_SNIFF_TIMEOUT))
  }

  const DEFAULT_OPTIONS := Options(
    false, true, 0, [], 0, None,
    Timeouts(DEFAULT_DIAL_TIMEOUT / SECOND, DEFAULT_IDLE_TIMEOUT / SECOND,
             DEFAULT_READ_TIMEOUT / SECOND, DEFAULT_SNIFF_TIMEOUT / SECOND),
    Timeouts(DEFAULT_DIAL_TIMEOUT, DEFAULT_IDLE_TIMEOUT, DEFAULT_READ_TIMEOUT, DEFAULT_SNIFF_TIMEOUT))

  function Join(words: seq<string>): string {
    if words == [] then "" else if |words| == 1 then words[0] else words[0] + " " + Join(words[1..])
  }

  function DefaultLabel(c: Config): string {
    "<At=" + c.listen + " To=[" + Join(c.remotes) + "] By=" + c.transportType + ">"
  }

  function Adjusted(c: Config): Config {
    var o := if c.options.None? then DEFAULT_OPTIONS
             else c.options.value.(timeouts := Durations(c.options.value.seconds));
    c.(relayLabel := if c.relayLabel == "" then DefaultLabel(c) else c.relayLabel, options := Some(o))
  }

  /** A timeout in use: the configured seconds in nanoseconds, or the default if they are not positive. */
  predicate InUse(duration: int, seconds: int, default: int) {
    duration == if seconds > 0 then seconds * 1_000_000_000 else default
  }

  /** After Adjust every configuration has a label and options: the ones it had, or the defaults; each
      timeout in use is the configured one if that is in range, or its own default; nothing else changes,
      and adjusting again changes nothing. */
  lemma AdjustedIsComplete(c: Config)
    ensures var a := Adjusted(c);
      && a == c.(relayLabel := a.relayLabel, options := a.options)
      && a.relayLabel != "" && (c.relayLabel != "" ==> a.relayLabel == c.relayLabel)
      && a.options.Some? && Adjusted(a) == a
    ensures c.options.None? ==>
              var o := Adjusted(c).options.value;
              && !o.enableUDP && o.enableMultipathTCP && o.maxConnection == 0 && o.blockedProtocols == []
              && o.maxReadRateKbps == 0 && o.wsConfig.None?
              && o.seconds.dial == 3 && o.seconds.idle == 30 && o.seconds.read == 5 && o.seconds.sniff == 0
              && o.timeouts.dial == 3_000_000_000 && o.timeouts.idle == 30_000_000_000
              && o.timeouts.read == 5_000_000_000 && o.timeouts.sniff == 300_000_000
    ensures c.options.Some? && InRange(c.options.value.seconds) ==>
              var (o, s) := (Adjusted(c).options.value, c.options.value.seconds);
              && o == c.options.value.(timeouts := o.timeouts)
              && InUse(o.timeouts.dial, s.dial, 3_000_000_000) && InUse(o.timeouts.idle, s.idle, 30_000_000_000)
              && InUse(o.timeouts.read, s.read, 5_000_000_000) && InUse(o.timeouts.sniff, s.sniff, 300_000_000)
  {
    assert |DefaultLabel(c)| >= 4;
  }

  /** So unless a timeout is out of range, all of them are positive. */
  lemma TimeoutsArePositive(c: Config)
    requires c.options.Some? ==> InRange(c.options.value.seconds)
    ensures var t := Adjusted(c).options.value.timeouts; t.dial > 0 && t.idle > 0 && t.read > 0 && t.sniff > 0
  {
    AdjustedIsComplete(c);
  }

  /** The default label tells the listen address, the remotes and the transport: here for two remotes. */
  lemma DefaultLabelIs(c: Config, a: string, b: string)
    requires c.remotes == [a, b]
    ensures DefaultLabel(c) == "<At=" + c.listen + " To=[" + (a + " " + b) + "] By=" + c.transportType + ">"
  {
    assert c.remotes[1..] == [b] && Join([b]) == b;
    assert Join(c.remotes) == a + " " + b;
  }

  /** Relays without a label that differ only in where they listen get different labels. */
  lemma ListenersAreToldApart(c: Config, listen: string)
    requires c.relayLabel == "" && listen != c.listen
    ensures Adjusted(c).relayLabel != Adjusted(c.(listen := listen)).relayLabel
  {
    var tail := " To=[" + Join(c.remotes) + "] By=" + c.transportType + ">";
    var (x, y) := (DefaultLabel(c), DefaultLabel(c.(listen := listen)));
    assert x == "<At=" + (c.listen + tail) && y == "<At=" + (listen + tail);
    assert x[4..] == c.listen + tail && y[4..] == listen + tail;
    if x == y {
      SameBeginning(c.listen, listen, tail);
    }
  }

  lemma SameBeginning(a: string, b: string, tail: string)
    requires a + tail == b + tail
    ensures a == b
  {
    assert |a| == |b|;
    assert (a + tail)[..|a|] == a && (b + tail)[..|b|] == b;
  }

  // --- Clone and Different ---

  /** Clone copies everything but the timeouts, which it leaves at zero. */
  function Clone(c: Config): Config
    requires c.options.Some?
  {
    c.(options := Some(c.options.value.(seconds := NO_TIMEOUTS, timeouts := NO_TIMEOUTS)))
  }

  /** The clone has everything of the original, but no timeouts. */
  lemma CloneIs(c: Config)
    requires c.options.Some?
    ensures var d := Clone(c);
      && d.relayLabel == c.relayLabel && d.listen == c.listen && d.listenType == c.listenType
      && d.transportType == c.transportType && d.remotes == c.remotes && d.options.Some?
      && var (o, e) := (c.options.value, d.options.value);
      && e.enableUDP == o.enableUDP && e.enableMultipathTCP == o.enableMultipathTCP
      && e.maxConnection == o.maxConnection && e.blockedProtocols == o.blockedProtocols
      && e.maxReadRateKbps == o.maxReadRateKbps && e.wsConfig == o.wsConfig
      && e.seconds == e.timeouts == Timeouts(0, 0, 0, 0)
  {
  }

  /** What Different looks at. */
  datatype Identity = Identity(
    relayLabel: string,
    listen: string,
    listenType: string,
    transportType: string,
    remotes: seq<string>)

  function IdentityOf(c: Config): Identity {
    Identity(c.relayLabel, c.listen, c.listenType, c.transportType, c.remotes)
  }

  /** Different as the code computes it, field by field and remote by remote. */
  predicate Different(c: Config, other: Config) {
    c.listen != other.listen || c.listenType != other.listenType || c.transportType != other.transportType
    || c.relayLabel != other.relayLabel || |c.remotes| != |other.remotes|
    || exists i | 0 <= i < |c.remotes| :: c.remotes[i] != other.remotes[i]
  }

  /** Not being Different is an equivalence, whose classes are the identities, and Clone stays
      inside a class. */
  lemma DifferentIsComplementOfEquivalence(a: Config, b: Config, c: Config)
    ensures !Different(a, b) <==>
              && a.relayLabel == b.relayLabel && a.listen == b.listen && a.listenType == b.listenType
              && a.transportType == b.transportType && a.remotes == b.remotes
    ensures !Different(a, a) && (Different(a, b) <==> Different(b, a))
    ensures !Different(a, b) ==> (Different(b, c) <==> Different(a, c))
    ensures a.options.Some? ==> !Different(a, Clone(a))
  {
    SameIdentity(a, b);
    SameIdentity(b, a);
    SameIdentity(b, c);
    SameIdentity(a, c);
  }

  lemma SameIdentity(a: Config, b: Config)
    ensures !Different(a, b) <==> IdentityOf(a) == IdentityOf(b)
  {
    if !Different(a, b) {
      assert a.remotes == b.remotes;
    }
  }

  // --- Validate ---

  datatype Problem =
    | BadListenType
    | BadTransportType
    | BadListen
    | BadRemote
    | BadProtocol(protocol: string)
    | DuplicateLabel(duplicate: string)
    | TlsSetup

  predicate IsRelayType(t: string) {
    t in ["raw", "ws", "wss"]
  }

  /** What a validated configuration satisfies. */
  predicate WellFormed(c: Config) {
    && IsRelayType(c.listenType) && IsRelayType(c.transportType)
    && c.listen != ""
    && (forall i | 0 <= i < |c.remotes| :: c.remotes[i] != "")
    && c.options.Some?
    && (forall i | 0 <= i < |c.options.value.blockedProtocols| :: Blockable(c.options.value.blockedProtocols[i]))
  }

  predicate Blockable(protocol: string) {
    protocol in ["http", "tls"]
  }

  /** The problem a validation reports: the first one, in this order. */
  ghost predicate FirstProblem(c: Config, problem: Problem) {
    match problem
    case BadListenType => !IsRelayType(c.listenType)
    case BadTransportType => IsRelayType(c.listenType) && !IsRelayType(c.transportType)
    case BadListen => IsRelayType(c.listenType) && IsRelayType(c.transportType) && c.listen == ""
    case BadRemote => TypesAndListen(c) && "" in c.remotes
    case BadProtocol(protocol) =>
      && TypesAndListen(c) && "" !in c.remotes && c.options.Some?
      && exists i :: FirstBad(c.options.value.blockedProtocols, i) && c.options.value.blockedProtocols[i] == protocol
    case DuplicateLabel(_) => false
    case TlsSetup => false
  }

  predicate TypesAndListen(c: Config) {
    IsRelayType(c.listenType) && IsRelayType(c.transportType) && c.listen != ""
  }

  ghost predicate FirstBad(protocols: seq<string>, i: int) {
    0 <= i < |protocols| && !Blockable(protocols[i]) && forall j | 0 <= j < i :: Blockable(protocols[j])
  }

  /** There is at most one first problem, and none in a well-formed configuration. */
  lemma FirstProblemIsUnique(c: Config, p: Problem, q: Problem)
    requires FirstProblem(c, p) && FirstProblem(c, q)
    ensures p == q && !WellFormed(c)
  {
    if p.BadProtocol? && q.BadProtocol? {
      var protocols := c.options.value.blockedProtocols;
      var i :| FirstBad(protocols, i) && protocols[i] == p.protocol;
      var j :| FirstBad(protocols, j) && protocols[j] == q.protocol;
      assert i == j;
    }
  }

  lemma {:induction false} FirstBadExists(protocols: seq<string>)
    requires exists i :: 0 <= i < |protocols| && !Blockable(protocols[i])
    ensures exists i :: FirstBad(protocols, i)
  {
    var n := |protocols| - 1;
    if exists i :: 0 <= i < n && !Blockable(protocols[i]) {
      var k :| 0 <= k < n && !Blockable(protocols[k]);
      assert !Blockable(protocols[..n][k]);
      FirstBadExists(protocols[..n]);
      var i :| FirstBad(protocols[..n], i);
      assert FirstBad(protocols, i);
    } else {
      assert FirstBad(protocols, n);
    }
  }

  /** A configuration with options has a first problem exactly when it is not well formed. */
  lemma FirstProblemExists(c: Config)
    requires c.options.Some?
    ensures (exists p :: FirstProblem(c, p)) <==> !WellFormed(c)
  {
    if WellFormed(c) {
      forall p ensures !FirstProblem(c, p) {}
    } else if !TypesAndListen(c) {
      assert FirstProblem(c, BadListenType) || FirstProblem(c, BadTransportType) || FirstProblem(c, BadListen);
    } else if "" in c.remotes {
      assert FirstProblem(c, BadRemote);
    } else {
      var protocols := c.options.value.blockedProtocols;
      FirstBadExists(protocols);
      var i :| FirstBad(protocols, i);
      assert FirstProblem(c, BadProtocol(protocols[i]));
    }
  }

  predicate UsesTls(c: Config) {
    c.listenType == "wss" || c.transportType == "wss"
  }

  /** What a configuration has to be, spelled out. */
  lemma WellFormedExactly(c: Config)
    ensures WellFormed(c) <==>
              && (c.listenType == "raw" || c.listenType == "ws" || c.listenType == "wss")
              && (c.transportType == "raw" || c.transportType == "ws" || c.transportType == "wss")
              && c.listen != "" && "" !in c.remotes && c.options.Some?
              && forall i | 0 <= i < |c.options.value.blockedProtocols| ::
                   c.options.value.blockedProtocols[i] == "http" || c.options.value.blockedProtocols[i] == "tls"
  {
  }

  class RelayConfig {
    var c: Config

    constructor (c: Config)
      ensures this.c == c
    {
      this.c := c;
    }

    method Adjust()
      modifies this
      ensures c == Adjusted(old(c))
    {
      if c.relayLabel == "" {
        c := c.(relayLabel := DefaultLabel(c));
      }
      if c.options.None? {
        c := c.(options := Some(DEFAULT_OPTIONS));
      } else {
        c := c.(options := Some(c.options.value.(timeouts := Durations(c.options.value.seconds))));
      }
    }

    /** Adjusts first, then reports the first problem exactly when there is one. */
    method Validate() returns (problem: Option<Problem>)
      modifies this
      ensures c == Adjusted(old(c))
      ensures problem.None? <==> WellFormed(c)
      ensures problem.Some? ==> FirstProblem(c, problem.value)
    {
      Adjust();
      if !IsRelayType(c.listenType) {
        return Some(BadListenType);
      }
      if !IsRelayType(c.transportType) {
        return Some(BadTransportType);
      }
      if c.listen == "" {
        return Some(BadListen);
      }
      for i := 0 to |c.remotes|
        invariant forall j | 0 <= j < i :: c.remotes[j] != ""
      {
        if c.remotes[i] == "" {
          return Some(BadRemote);
        }
      }
      var blocked := c.options.value.blockedProtocols;
      for i := 0 to |blocked|
        invariant forall j | 0 <= j < i :: Blockable(blocked[j])
      {
        if blocked[i] != "http" && blocked[i] != "tls" {
          assert FirstBad(blocked, i);
          return Some(BadProtocol(blocked[i]));
        }
      }
      return None;
    }

    method IsDifferent(other: RelayConfig) returns (different: bool)
      ensures different == Different(c, other.c)
    {
      if c.listen != other.c.listen || c.listenType != other.c.listenType
         || c.transportType != other.c.transportType || c.relayLabel != other.c.relayLabel {
        return true;
      }
      if |c.remotes| != |other.c.remotes| {
        return true;
      }
      for i := 0 to |c.remotes|
        invariant forall j | 0 <= j < i :: c.remotes[j] == other.c.remotes[j]
      {
        if c.remotes[i] != other.c.remotes[i] {
          return true;
        }
      }
      return false;
    }
  }

  ghost predicate DistinctLabels(list: seq<Config>) {
    forall i, j | 0 <= i < j < |list| :: list[i].relayLabel != list[j].relayLabel
  }

  // --- a whole file ---

  ghost predicate AllFormed(list: seq<Config>) {
    forall i | 0 <= i < |list| :: WellFormed(list[i])
  }

  ghost predicate FirstIll(list: seq<Config>, i: int) {
    0 <= i < |list| && !WellFormed(list[i]) && forall j | 0 <= j < i :: WellFormed(list[j])
  }

  ghost predicate FirstRepeat(list: seq<Config>, j: int) {
    && 0 <= j < |list| && DistinctLabels(list[..j])
    && exists i :: 0 <= i < j && list[i].relayLabel == list[j].relayLabel
  }

  ghost predicate IllProblem(list: seq<Config>, problem: Problem) {
    exists i :: FirstIll(list, i) && FirstProblem(list[i], problem)
  }

  /** The problem that a file is rejected for: the first problem of the first relay that has one, else the
      first label that was there before, else TLS. */
  ghost predicate FileProblem(list: seq<Config>, problem: Problem) {
    || IllProblem(list, problem)
    || (AllFormed(list) && exists j :: FirstRepeat(list, j) && problem == DuplicateLabel(list[j].relayLabel))
    || (AllFormed(list) && DistinctLabels(list) && problem == TlsSetup
        && exists i :: 0 <= i < |list| && UsesTls(list[i]))
  }

  /** The configurations of a file, each adjusted. */
  ghost function AllAdjusted(relays: seq<RelayConfig>): (list: seq<Config>)
    reads relays
    ensures |list| == |relays| && forall i | 0 <= i < |relays| :: list[i] == Adjusted(relays[i].c)
  {
    if relays == [] then []
    else AllAdjusted(relays[..|relays| - 1]) + [Adjusted(relays[|relays| - 1].c)]
  }

  /** The relay part of Config.Adjust: the file is accepted exactly when every relay is well formed
      once adjusted, no two labels are equal, and TLS can be set up if some relay needs it. */
  method AdjustFile(relays: seq<RelayConfig>, tlsFails: bool) returns (problem: Option<Problem>)
    requires forall i, j | 0 <= i < j < |relays| :: relays[i] != relays[j]
    modifies relays
    ensures var list := old(AllAdjusted(relays));
            problem.None? <==>
              && AllFormed(list) && DistinctLabels(list)
              && !(tlsFails && exists i :: 0 <= i < |list| && UsesTls(list[i]))
    ensures problem.Some? ==> FileProblem(old(AllAdjusted(relays)), problem.value)
    ensures problem.None? ==> forall i | 0 <= i < |relays| :: relays[i].c == old(AllAdjusted(relays))[i]
  {
    ghost var list := AllAdjusted(relays);
    problem := ValidateAll(relays);
    if problem.None? {
      problem := CheckLabels(relays, list);
      if problem.None? {
        problem := SetUpTls(relays, list, tlsFails);
      }
    }
  }

  /** Every relay is adjusted and validated, up to the first that has a problem. */
  method ValidateAll(relays: seq<RelayConfig>) returns (problem: Option<Problem>)
    requires forall i, j | 0 <= i < j < |relays| :: relays[i] != relays[j]
    modifies relays
    ensures var list := old(AllAdjusted(relays));
            && (problem.None? ==> AllFormed(list) && forall i | 0 <= i < |relays| :: relays[i].c == list[i])
            && (problem.Some? ==> IllProblem(list, problem.value))
  {
    ghost var list := AllAdjusted(relays);
    for i := 0 to |relays|
      invariant forall j | 0 <= j < i :: relays[j].c == list[j] && WellFormed(list[j])
      invariant forall j | i <= j < |relays| :: relays[j].c == old(relays[j].c)
    {
      problem := relays[i].Validate();
      if problem.Some? {
        assert relays[i].c == list[i];
        assert FirstIll(list, i) && FirstProblem(list[i], problem.value);
        assert IllProblem(list, problem.value);
        return;
      }
    }
    return None;
  }

  /** Finds the first label that was there before, if there is one. */
  method CheckLabels(relays: seq<RelayConfig>, ghost list: seq<Config>) returns (problem: Option<Problem>)
    requires |list| == |relays| && forall i | 0 <= i < |relays| :: relays[i].c == list[i]
    ensures problem.None? <==> DistinctLabels(list)
    ensures problem.Some? ==> exists j :: FirstRepeat(list, j) && problem.value == DuplicateLabel(list[j].relayLabel)
  {
    var labelMap: set<string> := {};
    for i := 0 to |relays|
      invariant labelMap == set j | 0 <= j < i :: list[j].relayLabel
      invariant DistinctLabels(list[..i])
    {
      var l := relays[i].c.relayLabel;
      if l in labelMap {
        assert FirstRepeat(list, i);
        return Some(DuplicateLabel(l));
      }
      labelMap := labelMap + {l};
    }
    assert list[..|relays|] == list;
    return None;
  }

  /** TLS is set up once, if any relay needs it. */
  method SetUpTls(relays: seq<RelayConfig>, ghost list: seq<Config>, tlsFails: bool) returns (problem: Option<Problem>)
    requires |list| == |relays| && forall i | 0 <= i < |relays| :: relays[i].c == list[i]
    ensures problem == if tlsFails && (exists i :: 0 <= i < |list| && UsesTls(list[i])) then Some(TlsSetup) else None
  {
    for i := 0 to |relays|
      invariant forall j | 0 <= j < i :: !UsesTls(list[j])
    {
      if relays[i].c.listenType == "wss" || relays[i].c.transportType == "wss" {
        assert UsesTls(list[i]);
        return if tlsFails then Some(TlsSetup) else None;
      }
    }
    return None;
  }
}

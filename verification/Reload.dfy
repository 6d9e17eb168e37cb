/**
 Hot reload of internal/relay/server_reloader.go and internal/relay/server.go. A relay is the
 configuration it was built from: nothing else about it changes. Starting a relay is a goroutine,
 so a started relay first waits and is stored in the relay map some time later, in any order. Building
 a relay may fail; a relay that was built is assumed to serve until it is stopped.
 */
module Reload {
  import opened Base
  import opened RelayConf

  /** Relays, or configurations, by label. */
  type Relays = map<string, Config>

  /** relayM, the relay list of the last loaded configuration, and the starts under way. */
  datatype State = State(running: Relays, configs: seq<Config>, pending: seq<Config>)

  function Labels(list: seq<Config>): set<string> {
    set c | c in list :: c.relayLabel
  }

  /** Configurations by label; a later one wins. */
  function ByLabel(list: seq<Config>): Relays {
    if list == [] then map[]
    else
      var c := list[|list| - 1];
      ByLabel(list[..|list| - 1])[c.relayLabel := c]
  }

  /** Cloning a configuration without options panics. */
  predicate HaveOptions(list: seq<Config>) {
    forall i | 0 <= i < |list| :: list[i].options.Some?
  }

  /** oldRelayCfgM: clones of the configurations loaded before. */
  function Clones(list: seq<Config>): Relays
    requires HaveOptions(list)
  {
    if list == [] then map[]
    else
      var c := list[|list| - 1];
      Clones(list[..|list| - 1])[c.relayLabel := Clone(c)]
  }

  /** What one new configuration does to the relays that run and to those under way. A relay that
      cannot be built is skipped, after its predecessor was stopped. */
  function ApplyOne(running: Relays, pending: seq<Config>, before: Relays, c: Config, fails: set<string>)
    : (Relays, seq<Config>)
  {
    var started := if c.relayLabel in fails then pending else pending + [c];
    if c.relayLabel !in running then (running, started)
    else if c.relayLabel !in before then (running, pending)
    else if Different(before[c.relayLabel], c) then (running - {c.relayLabel}, started)
    else (running, pending)
  }

  function Apply(running: Relays, pending: seq<Config>, before: Relays, list: seq<Config>, fails: set<string>)
    : (Relays, seq<Config>)
  {
    if list == [] then (running, pending)
    else
      var n := |list| - 1;
      var (r, p) := Apply(running, pending, before, list[..n], fails);
      ApplyOne(r, p, before, list[n], fails)
  }

  ghost predicate Usable(list: seq<Config>) {
    DistinctLabels(list) && HaveOptions(list)
  }

  function Kept(s: State, loaded: seq<Config>): Relays {
    s.running - (s.running.Keys - Labels(loaded))
  }

  /** One reload whose load succeeded with the given list, and where the relays with the labels fails
      cannot be built. */
  function Reloaded(s: State, loaded: seq<Config>, fails: set<string>): State
    requires HaveOptions(s.configs)
  {
    var (running, pending) := Apply(Kept(s, loaded), s.pending, Clones(s.configs), loaded, fails);
    State(running, loaded, pending)
  }

  /** The pending starts are stored in the order given. */
  function Store(running: Relays, order: seq<Config>): Relays {
    if order == [] then running
    else
      var c := order[|order| - 1];
      Store(running, order[..|order| - 1])[c.relayLabel := c]
  }

  function Drained(s: State, order: seq<Config>): State {
    s.(running := Store(s.running, order), pending := [])
  }

  /** Server.Start starts every configured relay. */
  function Started(configs: seq<Config>): State {
    State(map[], configs, configs)
  }

  // --- the invariant between reloads ---

  /** Only configured labels run, and no relay runs a configuration Different from the configured one. */
  ghost predicate Sound(running: Relays, configs: seq<Config>) {
    && running.Keys <= Labels(configs)
    && forall c <- configs :: c.relayLabel in running ==> !Different(running[c.relayLabel], c)
  }

  /** Besides, every configured label runs. */
  ghost predicate Converged(running: Relays, configs: seq<Config>) {
    Sound(running, configs) && running.Keys == Labels(configs)
  }

  ghost predicate Inv(s: State) {
    Usable(s.configs) && s.pending == [] && Sound(s.running, s.configs)
  }

  /** A configuration for which no relay runs, or a Different one. */
  predicate NeedsRelay(s: State, c: Config) {
    c.relayLabel !in s.running || Different(s.running[c.relayLabel], c)
  }

  lemma {:induction false} ClonesByLabel(list: seq<Config>)
    requires Usable(list)
    ensures Clones(list).Keys == Labels(list)
    ensures forall c <- list :: c.relayLabel in Clones(list) && Clones(list)[c.relayLabel] == Clone(c)
  {
    if list != [] {
      var n := |list| - 1;
      ClonesByLabel(list[..n]);
      forall c <- list ensures c.relayLabel in Clones(list) && Clones(list)[c.relayLabel] == Clone(c) {
        assert c != list[n] ==> c in list[..n] && c.relayLabel in Labels(list[..n]);
      }
    }
  }

  /** A relay is replaced when its label stays and the configuration it runs is Different from the
      new one. By the equivalence this is what the code decides, though it compares the new
      configuration with a clone of the last loaded one. */
  lemma ComparedWithClone(s: State, c: Config)
    requires Inv(s) && c.relayLabel in s.running
    ensures c.relayLabel in Clones(s.configs)
    ensures Different(Clones(s.configs)[c.relayLabel], c) <==> Different(s.running[c.relayLabel], c)
  {
    ClonesByLabel(s.configs);
    var loadedBefore :| loadedBefore in s.configs && loadedBefore.relayLabel == c.relayLabel;
    DifferentIsComplementOfEquivalence(loadedBefore, Clone(loadedBefore), c);
    DifferentIsComplementOfEquivalence(s.running[c.relayLabel], loadedBefore, c);
  }

  // --- what the loop over the new configurations amounts to ---

  predicate NeedsStart(running: Relays, before: Relays, c: Config) {
    c.relayLabel !in running || (c.relayLabel in before && Different(before[c.relayLabel], c))
  }

  /** The relays started: those that need it and can be built. */
  function Starts(running: Relays, before: Relays, list: seq<Config>, fails: set<string>): seq<Config> {
    if list == [] then []
    else
      var c := list[|list| - 1];
      var earlier := Starts(running, before, list[..|list| - 1], fails);
      if NeedsStart(running, before, c) && c.relayLabel !in fails then earlier + [c] else earlier
  }

  lemma {:induction false} StartsAre(running: Relays, before: Relays, list: seq<Config>, fails: set<string>)
    requires DistinctLabels(list)
    ensures forall c :: c in Starts(running, before, list, fails)
              <==> c in list && NeedsStart(running, before, c) && c.relayLabel !in fails
    ensures DistinctLabels(Starts(running, before, list, fails))
  {
    if list != [] {
      var n := |list| - 1;
      StartsAre(running, before, list[..n], fails);
      assert list == list[..n] + [list[n]];
      var earlier := Starts(running, before, list[..n], fails);
      forall i | 0 <= i < |earlier| ensures earlier[i].relayLabel != list[n].relayLabel {
        assert earlier[i] in list[..n];
      }
    }
  }

  lemma ApplyOneIs(running: Relays, stopped: set<string>, pending: seq<Config>, before: Relays, c: Config,
                   fails: set<string>)
    requires c.relayLabel !in stopped
    ensures ApplyOne(running - stopped, pending, before, c, fails)
            == if NeedsStart(running, before, c)
               then (running - (stopped + {c.relayLabel}), if c.relayLabel in fails then pending else pending + [c])
               else (running - stopped, pending)
  {
    assert (running - stopped) - {c.relayLabel} == running - (stopped + {c.relayLabel});
    if c.relayLabel !in running {
      assert running - (stopped + {c.relayLabel}) == running - stopped;
    }
  }

  lemma StartsSnoc(running: Relays, before: Relays, list: seq<Config>, fails: set<string>)
    requires list != []
    ensures var n := |list| - 1; var earlier := Starts(running, before, list[..n], fails);
            var needed := NeedsStart(running, before, list[n]) && list[n].relayLabel !in fails;
            && Starts(running, before, list, fails) == (if needed then earlier + [list[n]] else earlier)
            && Labels(Starts(running, before, list, fails))
               == Labels(earlier) + if needed then {list[n].relayLabel} else {}
  {
  }

  /** With distinct labels, no turn of the loop affects a later one: the relays that need a start are
      stopped if they run, and started if they can be built. */
  lemma {:induction false} ApplyIs(running: Relays, pending: seq<Config>, before: Relays, list: seq<Config>,
                                   fails: set<string>)
    requires DistinctLabels(list)
    ensures Apply(running, pending, before, list, fails)
            == (running - Labels(Starts(running, before, list, {})), pending + Starts(running, before, list, fails))
  {
    if list == [] {
      NothingToDo(running, pending);
    } else {
      var n := |list| - 1;
      var stopped := Labels(Starts(running, before, list[..n], {}));
      var started := Starts(running, before, list[..n], fails);
      ApplyIs(running, pending, before, list[..n], fails);
      StartsAre(running, before, list[..n], {});
      ApplyOneIs(running, stopped, pending + started, before, list[n], fails);
      StartsSnoc(running, before, list, {});
      StartsSnoc(running, before, list, fails);
      Append(pending, started, list[n]);
    }
  }

  lemma NothingToDo(running: Relays, pending: seq<Config>)
    ensures running - Labels([]) == running && pending + [] == pending
  {
  }

  lemma Append(a: seq<Config>, b: seq<Config>, c: Config)
    ensures a + (b + [c]) == a + b + [c]
  {
  }

  lemma {:induction false} StoreIs(running: Relays, order: seq<Config>)
    requires DistinctLabels(order)
    ensures Store(running, order).Keys == running.Keys + Labels(order)
    ensures forall c <- order :: Store(running, order)[c.relayLabel] == c
    ensures forall l <- running | l !in Labels(order) :: Store(running, order)[l] == running[l]
  {
    if order != [] {
      var n := |order| - 1;
      StoreIs(running, order[..n]);
      forall c <- order ensures Store(running, order)[c.relayLabel] == c {
        assert c != order[n] ==> c in order[..n] && c.relayLabel in Labels(order[..n]);
      }
    }
  }

  lemma {:induction false} OnceEach(list: seq<Config>, c: Config)
    requires DistinctLabels(list)
    ensures multiset(list)[c] <= 1
  {
    if list != [] {
      var n := |list| - 1;
      OnceEach(list[..n], c);
      assert list == list[..n] + [list[n]];
      assert list[n] !in list[..n];
    }
  }

  lemma TwiceCounted(list: seq<Config>, i: nat, j: nat)
    requires i < j < |list| && list[i] == list[j]
    ensures multiset(list)[list[i]] >= 2
  {
    assert list == list[..j] + list[j..];
    assert list[..j][i] == list[i] && list[j..][0] == list[i];
  }

  /** Reordering keeps the labels distinct. */
  lemma ShuffleDistinct(a: seq<Config>, b: seq<Config>)
    requires DistinctLabels(b) && multiset(a) == multiset(b)
    ensures DistinctLabels(a) && Labels(a) == Labels(b) && forall c :: c in a <==> c in b
  {
    forall c ensures c in a <==> c in b {
      assert c in multiset(a) <==> c in multiset(b);
    }
    forall i, j | 0 <= i < j < |a| ensures a[i].relayLabel != a[j].relayLabel {
      assert a[i] in b && a[j] in b;
      OnceEach(b, a[i]);
      if a[i] == a[j] {
        TwiceCounted(a, i, j);
      }
    }
  }

  // --- main results ---

  lemma NeedsAre(s: State, loaded: seq<Config>, c: Config)
    requires Inv(s) && Usable(loaded) && c in loaded
    ensures NeedsStart(Kept(s, loaded), Clones(s.configs), c) <==> NeedsRelay(s, c)
  {
    if c.relayLabel in s.running {
      ComparedWithClone(s, c);
    }
  }

  /** The relays a reload starts: exactly the new configurations that can be built and whose label
      does not run, or runs a Different one. */
  lemma StartsExactly(s: State, loaded: seq<Config>, fails: set<string>)
    requires Inv(s) && Usable(loaded)
    ensures forall c :: c in Reloaded(s, loaded, fails).pending
              <==> c in loaded && NeedsRelay(s, c) && c.relayLabel !in fails
    ensures DistinctLabels(Reloaded(s, loaded, fails).pending)
  {
    ApplyIs(Kept(s, loaded), s.pending, Clones(s.configs), loaded, fails);
    StartsAre(Kept(s, loaded), Clones(s.configs), loaded, fails);
    assert Reloaded(s, loaded, fails).pending == Starts(Kept(s, loaded), Clones(s.configs), loaded, fails);
    forall c <- loaded ensures NeedsStart(Kept(s, loaded), Clones(s.configs), c) <==> NeedsRelay(s, c) {
      NeedsAre(s, loaded, c);
    }
  }

  /** What still runs after a reload, before its starts are stored; failing builds make no difference. */
  lemma ReloadedIs(s: State, loaded: seq<Config>, fails: set<string>)
    requires Inv(s) && Usable(loaded)
    ensures Reloaded(s, loaded, fails).running == Kept(s, loaded) - Labels(Reloaded(s, loaded, {}).pending)
    ensures Reloaded(s, loaded, fails).configs == loaded
  {
    ApplyIs(Kept(s, loaded), s.pending, Clones(s.configs), loaded, fails);
    ApplyIs(Kept(s, loaded), s.pending, Clones(s.configs), loaded, {});
    assert Reloaded(s, loaded, {}).pending == Starts(Kept(s, loaded), Clones(s.configs), loaded, {});
  }

  /** The relays it stops: exactly those whose label vanished or whose configuration is Different
      from the new one. Every other relay is left running as it is. */
  lemma StopsExactly(s: State, loaded: seq<Config>, fails: set<string>, l: string)
    requires Inv(s) && Usable(loaded) && l in s.running
    ensures var r := Reloaded(s, loaded, fails).running;
      && (l in r ==> r[l] == s.running[l])
      && (l !in r <==> l !in Labels(loaded) || exists c <- loaded :: c.relayLabel == l && Different(s.running[l], c))
  {
    ReloadedIs(s, loaded, fails);
    StartsExactly(s, loaded, {});
    var needed := Reloaded(s, loaded, {}).pending;
    if l in Labels(needed) {
      var c :| c in needed && c.relayLabel == l;
      assert c in loaded && Different(s.running[l], c);
    } else {
      forall c <- loaded | c.relayLabel == l ensures !Different(s.running[l], c) {
        assert c !in needed;
      }
    }
  }

  /** The branch for a running relay without an old configuration is never taken. */
  lemma OldConfigAlwaysFound(s: State, l: string)
    requires Inv(s) && l in s.running
    ensures l in Clones(s.configs)
  {
    ClonesByLabel(s.configs);
  }

  lemma NotShadowed(loaded: seq<Config>, order: seq<Config>, c: Config)
    requires DistinctLabels(loaded) && c in loaded && c !in order && forall d <- order :: d in loaded
    ensures c.relayLabel !in Labels(order)
  {
    forall d <- order ensures d.relayLabel != c.relayLabel {
      assert d in loaded;
    }
  }

  /** What runs for one configuration once the starts are stored: the relay just built, the one that
      ran before, or nothing because the build failed. */
  lemma RunsAfter(s: State, loaded: seq<Config>, fails: set<string>, order: seq<Config>, c: Config)
    requires Inv(s) && Usable(loaded) && multiset(order) == multiset(Reloaded(s, loaded, fails).pending) && c in loaded
    ensures var r := Store(Reloaded(s, loaded, fails).running, order);
      && (c.relayLabel in r <==> !(NeedsRelay(s, c) && c.relayLabel in fails))
      && (c.relayLabel in r ==> r[c.relayLabel] == if NeedsRelay(s, c) then c else s.running[c.relayLabel])
  {
    var s1 := Reloaded(s, loaded, fails);
    StartsExactly(s, loaded, fails);
    StartsExactly(s, loaded, {});
    ReloadedIs(s, loaded, fails);
    ShuffleDistinct(order, s1.pending);
    StoreIs(s1.running, order);
    if c !in order {
      NotShadowed(loaded, order, c);
    }
    if NeedsRelay(s, c) {
      assert c in Reloaded(s, loaded, {}).pending;
    } else {
      NotShadowed(loaded, Reloaded(s, loaded, {}).pending, c);
    }
  }

  lemma OnlyLoadedRun(s: State, loaded: seq<Config>, fails: set<string>, order: seq<Config>)
    requires Inv(s) && Usable(loaded) && multiset(order) == multiset(Reloaded(s, loaded, fails).pending)
    ensures Store(Reloaded(s, loaded, fails).running, order).Keys <= Labels(loaded)
  {
    var s1 := Reloaded(s, loaded, fails);
    StartsExactly(s, loaded, fails);
    ReloadedIs(s, loaded, fails);
    ShuffleDistinct(order, s1.pending);
    StoreIs(s1.running, order);
  }

  /** Once its starts are stored, in whatever order, a reload leaves only configured relays running and
      none with a Different configuration; and every configured one runs exactly when no relay that was
      needed failed to be built. */
  lemma ReloadConverges(s: State, loaded: seq<Config>, fails: set<string>, order: seq<Config>)
    requires Inv(s) && Usable(loaded) && multiset(order) == multiset(Reloaded(s, loaded, fails).pending)
    ensures var s' := Drained(Reloaded(s, loaded, fails), order);
      && Inv(s')
      && (Converged(s'.running, loaded) <==> forall c <- loaded :: NeedsRelay(s, c) ==> c.relayLabel !in fails)
  {
    var r := Store(Reloaded(s, loaded, fails).running, order);
    ReloadedIs(s, loaded, fails);
    OnlyLoadedRun(s, loaded, fails, order);
    forall c <- loaded
      ensures c.relayLabel in r ==> !Different(r[c.relayLabel], c)
      ensures c.relayLabel in r <==> !(NeedsRelay(s, c) && c.relayLabel in fails)
    {
      RunsAfter(s, loaded, fails, order, c);
      SameIdentity(c, c);
    }
    if r.Keys == Labels(loaded) {
      forall c <- loaded ensures c.relayLabel in r {
        assert c.relayLabel in Labels(loaded);
      }
    }
  }

  /** The order in which the starts are stored does not matter. */
  lemma {:induction false} DrainOrderIrrelevant(running: Relays, starts: seq<Config>, order: seq<Config>)
    requires DistinctLabels(starts) && multiset(order) == multiset(starts)
    ensures Store(running, order) == Store(running, starts)
  {
    ShuffleDistinct(order, starts);
    StoreIs(running, order);
    StoreIs(running, starts);
    var (a, b) := (Store(running, order), Store(running, starts));
    forall l <- a ensures a[l] == b[l] {
      if l in Labels(starts) {
        var c :| c in starts && c.relayLabel == l;
        assert c in order;
      }
    }
  }

  /** A server that has stored its first relays is converged. */
  lemma StartConverges(configs: seq<Config>, order: seq<Config>)
    requires Usable(configs) && multiset(order) == multiset(configs)
    ensures var s := Drained(Started(configs), order); Inv(s) && Converged(s.running, configs)
  {
    ShuffleDistinct(order, configs);
    StoreIs(map[], order);
    forall c <- configs ensures !Different(Store(map[], order)[c.relayLabel], c) {
      SameIdentity(c, c);
    }
  }

  /** A round is a successful load, the relays that fail to be built, and the order in which the starts
      are stored. */
  datatype Round = Round(loaded: seq<Config>, fails: set<string>, order: seq<Config>)

  ghost predicate Runs(configs: seq<Config>, order: seq<Config>, rounds: seq<Round>, s: State) {
    if rounds == [] then multiset(order) == multiset(configs) && s == Drained(Started(configs), order)
    else
      var round := rounds[|rounds| - 1];
      exists before :: Runs(configs, order, rounds[..|rounds| - 1], before) && RoundFrom(before, round, s)
  }

  ghost predicate RoundFrom(before: State, round: Round, s: State) {
    && Usable(before.configs) && Usable(round.loaded)
    && multiset(round.order) == multiset(Reloaded(before, round.loaded, round.fails).pending)
    && s == Drained(Reloaded(before, round.loaded, round.fails), round.order)
  }

  /** Over every run of successful loads whose starts are stored between reloads, whatever builds fail,
      only configured relays run and none with a Different configuration; and whatever failed before,
      the server is converged after every reload in which no build fails. */
  lemma {:induction false} EveryRunConverges(configs: seq<Config>, order: seq<Config>, rounds: seq<Round>, s: State)
    requires Usable(configs) && Runs(configs, order, rounds, s)
    ensures Inv(s)
    ensures rounds == [] || rounds[|rounds| - 1].fails == {} ==> Converged(s.running, s.configs)
    decreases |rounds|
  {
    if rounds == [] {
      StartConverges(configs, order);
    } else {
      var round := rounds[|rounds| - 1];
      var before :| Runs(configs, order, rounds[..|rounds| - 1], before) && RoundFrom(before, round, s);
      EveryRunConverges(configs, order, rounds[..|rounds| - 1], before);
      ReloadConverges(before, round.loaded, round.fails, round.order);
      ReloadedIs(before, round.loaded, round.fails);
    }
  }

  // --- options ---

  lemma {:induction false} ByLabelIs(list: seq<Config>)
    requires DistinctLabels(list)
    ensures ByLabel(list).Keys == Labels(list)
    ensures forall c <- list :: c.relayLabel in ByLabel(list) && ByLabel(list)[c.relayLabel] == c
  {
    if list != [] {
      ByLabelIs(list[..|list| - 1]);
      forall c <- list ensures c.relayLabel in ByLabel(list) && ByLabel(list)[c.relayLabel] == c {
        assert c != list[|list| - 1] ==> c in list[..|list| - 1] && c.relayLabel in Labels(list[..|list| - 1]);
      }
    }
  }

  lemma IsByLabel(list: seq<Config>, r: Relays)
    requires DistinctLabels(list) && r.Keys <= Labels(list)
    ensures r == ByLabel(list) <==> forall c <- list :: c.relayLabel in r && r[c.relayLabel] == c
  {
    ByLabelIs(list);
    if forall c <- list :: c.relayLabel in r && r[c.relayLabel] == c {
      assert r.Keys == Labels(list);
    }
  }

  lemma SameButOptions(a: Config, b: Config)
    requires !Different(a, b)
    ensures a == b <==> a.options == b.options
  {
    SameIdentity(a, b);
  }

  /** A reload brings the loaded configurations into use, options and all, exactly when every relay it
      leaves running already had the loaded options: a change of nothing but options has no effect. */
  lemma OptionsTakenExactly(s: State, loaded: seq<Config>, order: seq<Config>)
    requires Inv(s) && Usable(loaded) && multiset(order) == multiset(Reloaded(s, loaded, {}).pending)
    ensures Drained(Reloaded(s, loaded, {}), order).running == ByLabel(loaded)
            <==> forall c <- loaded :: !NeedsRelay(s, c) ==> s.running[c.relayLabel].options == c.options
  {
    var r := Store(Reloaded(s, loaded, {}).running, order);
    OnlyLoadedRun(s, loaded, {}, order);
    IsByLabel(loaded, r);
    forall c <- loaded
      ensures c.relayLabel in r
      ensures r[c.relayLabel] == c <==> NeedsRelay(s, c) || s.running[c.relayLabel].options == c.options
    {
      RunsAfter(s, loaded, {}, order, c);
      if !NeedsRelay(s, c) {
        SameButOptions(s.running[c.relayLabel], c);
      }
    }
  }

  // --- a reload before the starts of the last one are stored ---

  lemma StartsAreStopped(s: State, loaded: seq<Config>, fails: set<string>, c: Config)
    requires Inv(s) && Usable(loaded) && c in Reloaded(s, loaded, fails).pending
    ensures c.relayLabel !in Reloaded(s, loaded, fails).running
  {
    StartsExactly(s, loaded, fails);
    StartsExactly(s, loaded, {});
    ReloadedIs(s, loaded, fails);
    assert c in Reloaded(s, loaded, {}).pending;
  }

  lemma {:induction false} StoreKeys(running: Relays, order: seq<Config>)
    ensures Store(running, order).Keys == running.Keys + Labels(order)
  {
    if order != [] {
      var n := |order| - 1;
      StoreKeys(running, order[..n]);
      assert order == order[..n] + [order[n]];
      assert Labels(order) == Labels(order[..n]) + {order[n].relayLabel};
    }
  }

  /** A waiting relay does not run, and no relay of its label does. */
  lemma WaitingDoesNotRun(s: State, loaded: seq<Config>, fails: set<string>, stored: seq<Config>,
                          waiting: seq<Config>, c: Config)
    requires Inv(s) && Usable(loaded) && c in waiting
    requires multiset(stored) + multiset(waiting) == multiset(Reloaded(s, loaded, fails).pending)
    ensures c.relayLabel !in Store(Reloaded(s, loaded, fails).running, stored)
  {
    var s1 := Reloaded(s, loaded, fails);
    StartsExactly(s, loaded, fails);
    assert multiset(stored + waiting) == multiset(s1.pending);
    ShuffleDistinct(stored + waiting, s1.pending);
    var j :| 0 <= j < |waiting| && waiting[j] == c;
    forall i | 0 <= i < |stored| ensures stored[i].relayLabel != c.relayLabel {
      assert (stored + waiting)[i] == stored[i] && (stored + waiting)[|stored| + j] == c;
    }
    assert c in stored + waiting;
    StartsAreStopped(s, loaded, fails, c);
    StoreKeys(s1.running, stored);
  }

  /** If a relay still waits, the next reload either starts it twice or leaves it running though its
      label is gone. */
  lemma TooSoon(s: State, loaded: seq<Config>, c: Config)
    requires Usable(s.configs) && Usable(loaded) && c in s.pending && c.relayLabel !in s.running
    ensures var s' := Reloaded(s, loaded, {});
            !DistinctLabels(s'.pending) || !Converged(Store(s'.running, s'.pending), loaded)
  {
    var (kept, before) := (Kept(s, loaded), Clones(s.configs));
    ApplyIs(kept, s.pending, before, loaded, {});
    StartsAre(kept, before, loaded, {});
    var s' := Reloaded(s, loaded, {});
    var starts := Starts(kept, before, loaded, {});
    assert s'.pending == s.pending + starts;
    var i :| 0 <= i < |s.pending| && s.pending[i] == c;
    assert s'.pending[i] == c;
    if c.relayLabel in Labels(loaded) {
      var d :| d in loaded && d.relayLabel == c.relayLabel;
      assert d in starts;
      var j :| 0 <= j < |starts| && starts[j] == d;
      assert s'.pending[|s.pending| + j] == d;
    } else {
      StoreKeys(s'.running, s'.pending);
      assert c.relayLabel in Labels(s'.pending);
    }
  }

  /** A reload that comes when some of the last one's starts are stored and others wait goes right, in
      whatever order the rest is stored, and starts no relay twice, exactly when none waits. */
  lemma NextReloadExactly(s: State, first: seq<Config>, fails: set<string>, stored: seq<Config>,
                          waiting: seq<Config>, loaded: seq<Config>)
    requires Inv(s) && Usable(first) && Usable(loaded)
    requires multiset(stored) + multiset(waiting) == multiset(Reloaded(s, first, fails).pending)
    ensures var between := State(Store(Reloaded(s, first, fails).running, stored), first, waiting);
            var s' := Reloaded(between, loaded, {});
            ((forall order :: multiset(order) == multiset(s'.pending) ==> Converged(Drained(s', order).running, loaded))
             && DistinctLabels(s'.pending))
            <==> waiting == []
  {
    var s1 := Reloaded(s, first, fails);
    var between := State(Store(s1.running, stored), first, waiting);
    var s' := Reloaded(between, loaded, {});
    if waiting == [] {
      ReloadConverges(s, first, fails, stored);
      ReloadedIs(s, first, fails);
      assert between == Drained(s1, stored);
      StartsExactly(between, loaded, {});
      forall order | multiset(order) == multiset(s'.pending) ensures Converged(Drained(s', order).running, loaded) {
        ReloadConverges(between, loaded, {}, order);
      }
    } else {
      WaitingDoesNotRun(s, first, fails, stored, waiting, waiting[0]);
      TooSoon(between, loaded, waiting[0]);
      assert Drained(s', s'.pending).running == Store(s'.running, s'.pending);
    }
  }

  /** What a list needs started against its own clones is what does not run yet. */
  lemma NeedsStartAgain(s: State, loaded: seq<Config>, c: Config)
    requires Inv(s) && Usable(loaded) && c in loaded
    ensures NeedsStart(Reloaded(s, loaded, {}).running, Clones(loaded), c) <==> c in Reloaded(s, loaded, {}).pending
  {
    ClonesByLabel(loaded);
    DifferentIsComplementOfEquivalence(c, Clone(c), c);
    StartsExactly(s, loaded, {});
    if c in Reloaded(s, loaded, {}).pending {
      StartsAreStopped(s, loaded, {}, c);
    } else {
      StopsExactly(s, loaded, {}, c.relayLabel);
    }
  }

  /** For instance, a second load of the same list before any start is stored starts every one of them
      again. */
  lemma ReloadTooSoonStartsTwice(s: State, loaded: seq<Config>)
    requires Inv(s) && Usable(loaded)
    ensures var once := Reloaded(s, loaded, {});
            Reloaded(once, loaded, {}).pending == once.pending + once.pending
  {
    var once := Reloaded(s, loaded, {});
    var (kept, before) := (Kept(s, loaded), Clones(s.configs));
    ApplyIs(kept, s.pending, before, loaded, {});
    StartsAre(kept, before, loaded, {});
    assert once.pending == Starts(kept, before, loaded, {});
    ReloadedIs(s, loaded, {});
    assert Kept(once, loaded) == once.running;
    ApplyIs(once.running, once.pending, Clones(loaded), loaded, {});
    forall c <- loaded ensures NeedsStart(once.running, Clones(loaded), c) <==> NeedsStart(kept, before, c) {
      NeedsStartAgain(s, loaded, c);
    }
    SameStarts(once.running, Clones(loaded), kept, before, loaded);
  }

  lemma {:induction false} SameStarts(r1: Relays, b1: Relays, r2: Relays, b2: Relays, list: seq<Config>)
    requires forall c <- list :: NeedsStart(r1, b1, c) <==> NeedsStart(r2, b2, c)
    ensures Starts(r1, b1, list, {}) == Starts(r2, b2, list, {})
  {
    if list != [] {
      SameStarts(r1, b1, r2, b2, list[..|list| - 1]);
    }
  }

  // --- the server object ---

  datatype Outcome = Done | Failed | Panicked

  /** What loading the configuration came to. A skipped load leaves the old list in place, a file that
      cannot be read leaves none, and one that is rejected leaves the rejected list. */
  datatype Load = Skipped | Unreadable | Rejected(list: seq<Config>) | Loaded(list: seq<Config>)

  class Server {
    var relayM: Relays
    var configs: seq<Config>
    var pending: seq<Config>

    ghost function View(): State
      reads this
    {
      State(relayM, configs, pending)
    }

    constructor (configs: seq<Config>)
      ensures View() == Started(configs)
    {
      this.relayM, this.configs, this.pending := map[], configs, configs;
    }

    /** One of the start goroutines stores its relay. */
    method StoreOne(i: nat)
      requires i < |pending|
      modifies this
      ensures relayM == old(relayM)[old(pending)[i].relayLabel := old(pending)[i]]
      ensures pending == old(pending)[..i] + old(pending)[i + 1..] && configs == old(configs)
    {
      var c := pending[i];
      relayM := relayM[c.relayLabel := c];
      pending := pending[..i] + pending[i + 1..];
    }

    /** The Range over the relay map that stops the relays whose label vanished. */
    method StopVanished(labels: set<string>)
      modifies this`relayM
      ensures relayM == old(relayM) - (old(relayM).Keys - labels)
    {
      var rest := relayM.Keys;
      while rest != {}
        invariant rest <= old(relayM).Keys
        invariant relayM == old(relayM) - (old(relayM).Keys - rest - labels)
      {
        ghost var some := Member(rest);
        var oldLabel :| oldLabel in rest;
        if oldLabel !in labels {
          relayM := relayM - {oldLabel};
        }
        rest := rest - {oldLabel};
      }
    }

    /** None is a panic, at the first configuration without options. */
    method CloneConfigs() returns (oldRelayCfgM: Option<Relays>)
      ensures oldRelayCfgM.Some? <==> HaveOptions(configs)
      ensures oldRelayCfgM.Some? ==> oldRelayCfgM.value == Clones(configs)
    {
      var clones: Relays := map[];
      for i := 0 to |configs|
        invariant HaveOptions(configs[..i]) && clones == Clones(configs[..i])
      {
        assert configs[..i + 1][..i] == configs[..i];
        if configs[i].options.None? {
          return None;
        }
        clones := clones[configs[i].relayLabel := Clone(configs[i])];
      }
      assert configs[..|configs|] == configs;
      return Some(clones);
    }

    /** The loop over the new configurations. */
    method ApplyAll(oldRelayCfgM: Relays, fails: set<string>)
      modifies this`relayM, this`pending
      ensures (relayM, pending) == Apply(old(relayM), old(pending), oldRelayCfgM, configs, fails)
    {
      for i := 0 to |configs|
        invariant (relayM, pending) == Apply(old(relayM), old(pending), oldRelayCfgM, configs[..i], fails)
      {
        var newCfg := configs[i];
        assert configs[..i + 1][..i] == configs[..i];
        if newCfg.relayLabel !in relayM {
          if newCfg.relayLabel in fails {
            continue;
          }
          pending := pending + [newCfg];
        } else if newCfg.relayLabel in oldRelayCfgM && Different(oldRelayCfgM[newCfg.relayLabel], newCfg) {
          relayM := relayM - {newCfg.relayLabel};
          if newCfg.relayLabel in fails {
            continue;
          }
          pending := pending + [newCfg];
        }
      }
      assert configs[..|configs|] == configs;
    }

    /** A reload panics, before it loads anything, exactly when a configuration of the list in place has no
        options; only a list that was rejected before can hold one. */
    method Reload(load: Load, fails: set<string>) returns (outcome: Outcome)
      modifies this
      ensures outcome == if !HaveOptions(old(configs)) then Panicked
                         else if load.Skipped? || load.Loaded? then Done else Failed
      ensures outcome.Panicked? ==> View() == old(View())
      ensures outcome.Done? ==>
                View() == Reloaded(old(View()), if load.Loaded? then load.list else old(configs), fails)
      ensures outcome.Failed? ==> View() == old(View()).(configs := if load.Rejected? then load.list else [])
    {
      var oldRelayCfgM := CloneConfigs();
      if oldRelayCfgM.None? {
        return Panicked;
      }
      if load.Unreadable? {
        configs := [];
        return Failed;
      }
      if load.Rejected? {
        configs := load.list;
        return Failed;
      }
      if load.Loaded? {
        configs := load.list;
      }
      StopVanished(set c | c in configs :: c.relayLabel);
      ApplyAll(oldRelayCfgM.value, fails);
      return Done;
    }
  }
}

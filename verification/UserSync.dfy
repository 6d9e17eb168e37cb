/**
 The user pool of pkg/xray/user.go, reconciled with a server list under failures. Fetching the
 list, adding a user to the inbound and removing one may fail at any point; a removal that fails
 because the user is not there is none, since the code ignores it. Emails stand for user ids; one proxy tag.
 */
module UserSync {
  import opened Base
  import opened XrayUser

  datatype Entry = Entry(running: bool, level: int, protocol: string, profile: Profile)

  datatype Member = Member(level: int, account: Account)

  datatype ServerUser = ServerUser(id: int, level: int, protocol: string, profile: Profile)

  datatype Pool = Pool(users: map<int, Entry>, inbound: map<int, Member>)

  /** Which additions and removals fail, by position in the server list, and which removals of
      vanished users fail, by id. */
  datatype Faults = Faults(adds: set<nat>, removals: set<nat>, cleanups: set<int>)

  const EMPTY := Pool(map[], map[])

  function Wanted(e: Entry): Option<Member> {
    var account := AccountOf(e.protocol, e.profile);
    if account.Some? then Some(Member(e.level, account.value)) else None
  }

  function AddInbound(s: Pool, id: int, fails: bool): (Pool, bool)
    requires id in s.users
  {
    var e := s.users[id];
    var member := Wanted(e);
    if fails || member.None? then (s, false)
    else
      var inbound := if id in s.inbound then s.inbound else s.inbound[id := member.value];
      (Pool(s.users[id := e.(running := true)], inbound), true)
  }

  function RemoveInbound(s: Pool, id: int, fails: bool): (Pool, bool)
    requires id in s.users
  {
    if fails then (s, false)
    else (Pool(s.users[id := s.users[id].(running := false)], s.inbound - {id}), true)
  }

  /** The body of the loop over the server's users. */
  function Reconcile(s: Pool, u: ServerUser, addFails: bool, removeFails: bool): (Pool, bool) {
    if u.id !in s.users then
      var created := s.(users := s.users[u.id := Entry(false, u.level, u.protocol, u.profile)]);
      if u.profile.enable then AddInbound(created, u.id, addFails) else (created, true)
    else
      var (s1, ok) := Refresh(s, u, removeFails);
      if ok && s1.users[u.id].profile.enable && !s1.users[u.id].running then AddInbound(s1, u.id, addFails)
      else (s1, ok)
  }

  /** A known user whose profile changed is updated, then taken off the inbound if it runs there. */
  function Refresh(s: Pool, u: ServerUser, removeFails: bool): (r: (Pool, bool))
    requires u.id in s.users
    ensures u.id in r.0.users
  {
    var e := s.users[u.id];
    if e.profile == u.profile then (s, true)
    else
      var updated := s.(users := s.users[u.id := e.(profile := u.profile)]);
      if e.running then RemoveInbound(updated, u.id, removeFails) else (updated, true)
  }

  function ReconcileAll(s: Pool, list: seq<ServerUser>, f: Faults): (Pool, bool) {
    if list == [] then (s, true)
    else
      var n := |list| - 1;
      var (s1, ok) := ReconcileAll(s, list[..n], f);
      if ok then Reconcile(s1, list[n], n in f.adds, n in f.removals) else (s1, false)
  }

  function Ids(list: seq<ServerUser>): set<int> {
    set u | u in list :: u.id
  }

  /** The loop over the pool that drops users the server no longer lists, in some order. */
  function Cleanup(s: Pool, order: seq<int>, keep: set<int>, fails: set<int>): (Pool, bool) {
    if order == [] then (s, true)
    else
      var n := |order| - 1;
      var (s1, ok) := Cleanup(s, order[..n], keep, fails);
      if ok then CleanupOne(s1, order[n], keep, fails) else (s1, false)
  }

  function CleanupOne(s: Pool, id: int, keep: set<int>, fails: set<int>): (Pool, bool) {
    if id in keep || id !in s.users then (s, true)
    else
      var (s1, removed) := RemoveInbound(s, id, id in fails);
      if removed then (s1.(users := s1.users - {id}), true) else (s1, false)
  }

  /** syncUserConfigsFromServer: a failed fetch changes nothing. */
  function Sync(s: Pool, fetched: Option<seq<ServerUser>>, order: seq<int>, f: Faults): (Pool, bool) {
    if fetched.None? then (s, false)
    else
      var (s1, ok) := ReconcileAll(s, fetched.value, f);
      if ok then Cleanup(s1, order, Ids(fetched.value), f.cleanups) else (s1, false)
  }

  // --- the invariant ---

  ghost predicate EntryInv(s: Pool, id: int)
    requires id in s.users
  {
    var e := s.users[id];
    && (e.running <==> id in s.inbound)
    && (e.running ==> e.profile.enable && Wanted(e) == Some(s.inbound[id]))
  }

  /** A user runs exactly when it is on the inbound, and then with the pool's current credentials
      and only if enabled. */
  ghost predicate Inv(s: Pool) {
    && s.inbound.Keys <= s.users.Keys
    && forall id <- s.users :: EntryInv(s, id)
  }

  lemma ReconcileKeepsInv(s: Pool, u: ServerUser, addFails: bool)
    requires Inv(s)
    ensures Inv(Reconcile(s, u, addFails, false).0)
  {
    var s' := Reconcile(s, u, addFails, false).0;
    forall id <- s'.users ensures EntryInv(s', id) {
      assert id != u.id ==> EntryInv(s, id);
      assert u.id in s.users ==> EntryInv(s, u.id);
    }
  }

  /** One successful turn leaves its user as the server wants it, and the others alone. */
  lemma ReconcileConverges(s: Pool, u: ServerUser, addFails: bool, removeFails: bool)
    requires Inv(s) && Reconcile(s, u, addFails, removeFails).1
    ensures var s' := Reconcile(s, u, addFails, removeFails).0;
      && s'.users.Keys == s.users.Keys + {u.id}
      && s'.users[u.id].profile == u.profile
      && s'.users[u.id].running == u.profile.enable
      && forall id <- s.users | id != u.id :: s'.users[id] == s.users[id]
  {
    assert u.id in s.users ==> EntryInv(s, u.id);
  }

  /** The last entry the server lists for an id. */
  function LastEntry(list: seq<ServerUser>, id: int): Option<ServerUser> {
    if list == [] then None
    else if list[|list| - 1].id == id then Some(list[|list| - 1])
    else LastEntry(list[..|list| - 1], id)
  }

  lemma {:induction false} LastEntryListed(list: seq<ServerUser>, id: int)
    ensures LastEntry(list, id).Some? <==> id in Ids(list)
  {
    if list != [] {
      var n := |list| - 1;
      LastEntryListed(list[..n], id);
      assert list == list[..n] + [list[n]];
      assert Ids(list) == Ids(list[..n]) + {list[n].id};
    }
  }

  ghost predicate Mirrored(s: Pool, list: seq<ServerUser>, id: int) {
    var last := LastEntry(list, id);
    last.Some? ==>
      && id in s.users && s.users[id].profile == last.value.profile
      && s.users[id].running == last.value.profile.enable
  }

  /** Dropping users keeps the invariant whatever fails: a hard failure changes nothing. If nothing
      fails, exactly the users that were walked and are not to be kept are gone. */
  lemma {:induction false} CleanupDrops(s: Pool, order: seq<int>, keep: set<int>, fails: set<int>)
    requires Inv(s)
    ensures var (s', ok) := Cleanup(s, order, keep, fails);
      && Inv(s')
      && (ok ==> s'.users.Keys == (set id | id in s.users && (id in keep || id !in order)))
      && forall id <- s'.users :: id in s.users && s'.users[id] == s.users[id]
  {
    if order != [] {
      var n := |order| - 1;
      CleanupDrops(s, order[..n], keep, fails);
      var s1 := Cleanup(s, order[..n], keep, fails).0;
      var s' := Cleanup(s, order, keep, fails).0;
      assert order == order[..n] + [order[n]];
      forall id <- s'.users ensures EntryInv(s', id) {
        assert EntryInv(s1, id);
      }
      if order[n] in s1.users {
        assert EntryInv(s1, order[n]);
      }
    }
  }

  // --- a removal that really fails ---

  /** A turn whose removal really fails, for a user that runs and whose new profile asks for other
      credentials or for none. */
  predicate Breaks(s: Pool, u: ServerUser, removeFails: bool) {
    && removeFails && u.id in s.users && s.users[u.id].running && s.users[u.id].profile != u.profile
    && (!u.profile.enable
        || AccountOf(s.users[u.id].protocol, u.profile) != AccountOf(s.users[u.id].protocol, s.users[u.id].profile))
  }

  /** A hard removal failure after the profile was updated breaks the invariant exactly when the new
      profile asks for other credentials or for none. */
  lemma HardRemovalExactly(s: Pool, u: ServerUser, addFails: bool)
    requires Inv(s) && u.id in s.users && s.users[u.id].running && s.users[u.id].profile != u.profile
    ensures var e := s.users[u.id];
      !Inv(Reconcile(s, u, addFails, true).0) <==>
        !u.profile.enable || AccountOf(e.protocol, u.profile) != AccountOf(e.protocol, e.profile)
  {
    var e := s.users[u.id];
    var s' := Reconcile(s, u, addFails, true).0;
    assert EntryInv(s, u.id);
    assert s'.users[u.id] == e.(profile := u.profile) && s'.inbound == s.inbound;
    if u.profile.enable && AccountOf(e.protocol, u.profile) == AccountOf(e.protocol, e.profile) {
      forall id <- s'.users ensures EntryInv(s', id) {
        assert EntryInv(s, id);
      }
    } else {
      assert !EntryInv(s', u.id);
    }
  }

  /** One turn with any faults keeps the invariant exactly when it does not break it that way; a turn
      that breaks it fails. */
  lemma TurnExactly(s: Pool, u: ServerUser, addFails: bool, removeFails: bool)
    requires Inv(s)
    ensures Inv(Reconcile(s, u, addFails, removeFails).0) <==> !Breaks(s, u, removeFails)
    ensures Breaks(s, u, removeFails) ==> !Reconcile(s, u, addFails, removeFails).1
  {
    if u.id in s.users && s.users[u.id].running && s.users[u.id].profile != u.profile {
      if removeFails {
        HardRemovalExactly(s, u, addFails);
      } else {
        ReconcileKeepsInv(s, u, addFails);
      }
    } else {
      ReconcileKeepsInv(s, u, addFails);
    }
  }

  /** The first n turns succeeded and the next one breaks. */
  ghost predicate BreaksAt(s: Pool, list: seq<ServerUser>, f: Faults, n: nat) {
    n < |list| && ReconcileAll(s, list[..n], f).1 && Breaks(ReconcileAll(s, list[..n], f).0, list[n], n in f.removals)
  }

  ghost predicate LoopBreaks(s: Pool, list: seq<ServerUser>, f: Faults) {
    exists n :: BreaksAt(s, list, f, n)
  }

  lemma BreaksEarlier(s: Pool, list: seq<ServerUser>, f: Faults, n: nat, m: nat)
    requires n < m <= |list|
    ensures BreaksAt(s, list[..m], f, n) <==> BreaksAt(s, list, f, n)
  {
    assert list[..m][..n] == list[..n];
  }

  /** Once a turn fails, the rest of the list is not looked at. */
  lemma {:induction false} FailureStops(s: Pool, list: seq<ServerUser>, f: Faults, n: nat)
    requires n <= |list| && !ReconcileAll(s, list[..n], f).1
    ensures ReconcileAll(s, list, f) == ReconcileAll(s, list[..n], f)
    decreases |list|
  {
    if n == |list| {
      assert list[..n] == list;
    } else {
      var m := |list| - 1;
      assert list[..m][..n] == list[..n];
      FailureStops(s, list[..m], f, n);
    }
  }

  lemma LoopNext(s: Pool, list: seq<ServerUser>, f: Faults, i: nat)
    requires i < |list| && ReconcileAll(s, list[..i], f).1
    ensures ReconcileAll(s, list[..i + 1], f)
            == Reconcile(ReconcileAll(s, list[..i], f).0, list[i], i in f.adds, i in f.removals)
    ensures Ids(list[..i + 1]) == Ids(list[..i]) + {list[i].id}
  {
    assert list[..i + 1][..i] == list[..i];
    assert list[..i + 1] == list[..i] + [list[i]];
  }

  lemma {:induction false} LoopExactly(s: Pool, list: seq<ServerUser>, f: Faults)
    requires Inv(s)
    ensures Inv(ReconcileAll(s, list, f).0) <==> !LoopBreaks(s, list, f)
    ensures LoopBreaks(s, list, f) ==> !ReconcileAll(s, list, f).1
  {
    if list == [] {
      assert !LoopBreaks(s, list, f);
    } else {
      var m := |list| - 1;
      var (s1, ok) := ReconcileAll(s, list[..m], f);
      LoopExactly(s, list[..m], f);
      forall n: nat | n < m ensures BreaksAt(s, list[..m], f, n) <==> BreaksAt(s, list, f, n) {
        BreaksEarlier(s, list, f, n, m);
      }
      if LoopBreaks(s, list[..m], f) {
        var n :| BreaksAt(s, list[..m], f, n);
        assert BreaksAt(s, list, f, n);
      } else if ok {
        TurnExactly(s1, list[m], m in f.adds, m in f.removals);
        if Breaks(s1, list[m], m in f.removals) {
          assert BreaksAt(s, list, f, m);
        } else {
          NotBroken(s, list, f);
        }
      } else {
        NotBroken(s, list, f);
      }
    }
  }

  lemma NotBroken(s: Pool, list: seq<ServerUser>, f: Faults)
    requires list != [] && !LoopBreaks(s, list[..|list| - 1], f) && !BreaksAt(s, list, f, |list| - 1)
    ensures !LoopBreaks(s, list, f)
  {
    var m := |list| - 1;
    forall n: nat ensures !BreaksAt(s, list, f, n) {
      if n < m {
        BreaksEarlier(s, list, f, n, m);
      }
    }
  }

  lemma {:induction false} ReconcileAllConverges(s: Pool, list: seq<ServerUser>, f: Faults, id: int)
    requires Inv(s) && ReconcileAll(s, list, f).1
    ensures Mirrored(ReconcileAll(s, list, f).0, list, id)
    ensures ReconcileAll(s, list, f).0.users.Keys == s.users.Keys + Ids(list)
  {
    if list != [] {
      var n := |list| - 1;
      ReconcileAllConverges(s, list[..n], f, id);
      LoopExactly(s, list[..n], f);
      ReconcileConverges(ReconcileAll(s, list[..n], f).0, list[n], n in f.adds, n in f.removals);
    }
  }

  // --- main results ---

  /** The pool lists exactly the server's users with their last profiles, and the inbound holds
      exactly the enabled ones with the credentials those profiles ask for. */
  ghost predicate Mirrors(s: Pool, list: seq<ServerUser>) {
    && s.users.Keys == Ids(list)
    && (forall id <- s.users :: LastEntry(list, id).Some? && s.users[id].profile == LastEntry(list, id).value.profile)
    && s.inbound.Keys == (set id | id in s.users && s.users[id].profile.enable)
    && (forall id <- s.inbound :: Wanted(s.users[id]) == Some(s.inbound[id]))
  }

  /** One attempt: the fetched list if any, the order the pool is walked in, the faults met. */
  datatype Attempt = Attempt(fetched: Option<seq<ServerUser>>, order: seq<int>, faults: Faults)

  ghost predicate AttemptBreaks(s: Pool, a: Attempt) {
    a.fetched.Some? && LoopBreaks(s, a.fetched.value, a.faults)
  }

  /** A whole call with any faults keeps the invariant exactly when no turn of its first loop breaks
      it; the call that breaks it fails. */
  lemma SyncExactly(s: Pool, a: Attempt)
    requires Inv(s)
    ensures Inv(Sync(s, a.fetched, a.order, a.faults).0) <==> !AttemptBreaks(s, a)
    ensures AttemptBreaks(s, a) ==> !Sync(s, a.fetched, a.order, a.faults).1
  {
    if a.fetched.Some? {
      LoopExactly(s, a.fetched.value, a.faults);
      var (s1, ok) := ReconcileAll(s, a.fetched.value, a.faults);
      if ok {
        CleanupDrops(s1, a.order, Ids(a.fetched.value), a.faults.cleanups);
      }
    }
  }

  lemma SyncKeepsInv(s: Pool, fetched: Option<seq<ServerUser>>, order: seq<int>, f: Faults)
    requires Inv(s) && f.removals == {}
    ensures Inv(Sync(s, fetched, order, f).0)
  {
    SyncExactly(s, Attempt(fetched, order, f));
  }

  ghost predicate WalksPool(s: Pool, a: Attempt) {
    a.fetched.Some? ==> forall id <- ReconcileAll(s, a.fetched.value, a.faults).0.users :: id in a.order
  }

  /** A successful sync converges, whatever faults it was exposed to and whatever order the pool is
      walked in. */
  lemma SyncConverges(s: Pool, list: seq<ServerUser>, order: seq<int>, f: Faults)
    requires Inv(s) && Sync(s, Some(list), order, f).1
    requires WalksPool(s, Attempt(Some(list), order, f))
    ensures Mirrors(Sync(s, Some(list), order, f).0, list)
  {
    var s1 := ReconcileAll(s, list, f).0;
    var s' := Sync(s, Some(list), order, f).0;
    LoopExactly(s, list, f);
    CleanupDrops(s1, order, Ids(list), f.cleanups);
    ReconcileAllConverges(s, list, f, 0);
    forall id ensures id in s'.users <==> id in Ids(list) {
      assert id in s1.users ==> id in order;
    }
    forall id <- s'.users
      ensures EntryInv(s', id) && LastEntry(list, id).Some? && Mirrored(s', list, id)
    {
      LastEntryListed(list, id);
      ReconcileAllConverges(s, list, f, id);
    }
  }

  /** The pool after a run of attempts. */
  function After(attempts: seq<Attempt>): Pool {
    if attempts == [] then EMPTY
    else
      var a := attempts[|attempts| - 1];
      Sync(After(attempts[..|attempts| - 1]), a.fetched, a.order, a.faults).0
  }

  ghost predicate NeverBreaks(attempts: seq<Attempt>) {
    forall n | 0 <= n < |attempts| :: !AttemptBreaks(After(attempts[..n]), attempts[n])
  }

  lemma AfterNext(attempts: seq<Attempt>, n: nat)
    requires n < |attempts|
    ensures var a := attempts[n];
            After(attempts[..n + 1]) == Sync(After(attempts[..n]), a.fetched, a.order, a.faults).0
  {
    assert attempts[..n + 1][..n] == attempts[..n];
  }

  lemma {:induction false} UnbrokenRun(attempts: seq<Attempt>, n: nat)
    requires n <= |attempts| && forall i | 0 <= i < n :: !AttemptBreaks(After(attempts[..i]), attempts[i])
    ensures Inv(After(attempts[..n]))
  {
    if n > 0 {
      UnbrokenRun(attempts, n - 1);
      AfterNext(attempts, n - 1);
      SyncExactly(After(attempts[..n - 1]), attempts[n - 1]);
    }
  }

  /** Over every run of attempts with any faults: a user always runs exactly when it is on the inbound
      with its current credentials, and then is enabled, exactly when no attempt met a removal that
      really failed where the new profile asks for other credentials or for none. */
  lemma RunExactly(attempts: seq<Attempt>)
    ensures (forall n | 0 <= n <= |attempts| :: Inv(After(attempts[..n]))) <==> NeverBreaks(attempts)
  {
    if NeverBreaks(attempts) {
      forall n | 0 <= n <= |attempts| ensures Inv(After(attempts[..n])) {
        UnbrokenRun(attempts, n);
      }
    } else if forall n | 0 <= n <= |attempts| :: Inv(After(attempts[..n])) {
      forall n | 0 <= n < |attempts| ensures !AttemptBreaks(After(attempts[..n]), attempts[n]) {
        assert Inv(After(attempts[..n])) && Inv(After(attempts[..n + 1]));
        AfterNext(attempts, n);
        SyncExactly(After(attempts[..n]), attempts[n]);
      }
    }
  }

  /** Over every run of attempts whose removals of listed users fail only with "not found": running
      means being on the inbound with the pool's current credentials, and being enabled. */
  lemma RunningMeansServed(attempts: seq<Attempt>)
    requires forall i | 0 <= i < |attempts| :: attempts[i].faults.removals == {}
    ensures Inv(After(attempts))
  {
    UnbrokenRun(attempts, |attempts|);
    assert attempts[..|attempts|] == attempts;
  }

  /** After any successful attempt of an unbroken run, whatever failed before it, the pool and the
      inbound mirror the server. */
  lemma {:induction false} SyncHeals(attempts: seq<Attempt>, list: seq<ServerUser>, order: seq<int>, f: Faults)
    requires NeverBreaks(attempts) && WalksPool(After(attempts), Attempt(Some(list), order, f))
    requires Sync(After(attempts), Some(list), order, f).1
    ensures Mirrors(Sync(After(attempts), Some(list), order, f).0, list)
  {
    UnbrokenRun(attempts, |attempts|);
    assert attempts[..|attempts|] == attempts;
    SyncConverges(After(attempts), list, order, f);
  }

  // --- who is served with what ---

  /** The first entry the server lists for an id. */
  function FirstEntry(list: seq<ServerUser>, id: int): Option<ServerUser> {
    if list == [] then None else if list[0].id == id then Some(list[0]) else FirstEntry(list[1..], id)
  }

  lemma {:induction false} FirstEntrySnoc(list: seq<ServerUser>, u: ServerUser, id: int)
    ensures FirstEntry(list + [u], id)
            == if FirstEntry(list, id).Some? then FirstEntry(list, id) else if u.id == id then Some(u) else None
    decreases |list|
  {
    if list == [] {
      assert ([] + [u])[0] == u;
    } else {
      assert (list + [u])[0] == list[0] && (list + [u])[1..] == list[1..] + [u];
      FirstEntrySnoc(list[1..], u, id);
    }
  }

  /** A user keeps the protocol and level it has, or is created with those of an entry. */
  ghost predicate Descends(before: Pool, after: Pool, list: seq<ServerUser>, id: int) {
    id in after.users ==>
      var e := after.users[id];
      if id in before.users then SameOrigin(before.users[id], e)
      else
        var first := FirstEntry(list, id);
        first.Some? && e.protocol == first.value.protocol && e.level == first.value.level
  }

  predicate SameOrigin(before: Entry, after: Entry) {
    after.protocol == before.protocol && after.level == before.level
  }

  lemma RefreshKeepsOrigin(s: Pool, u: ServerUser, removeFails: bool, x: int)
    requires u.id in s.users
    ensures var s' := Refresh(s, u, removeFails).0;
            (x in s'.users <==> x in s.users) && (x in s.users ==> SameOrigin(s.users[x], s'.users[x]))
  {
  }

  lemma TurnDescends(s: Pool, u: ServerUser, addFails: bool, removeFails: bool, id: int)
    ensures var s' := Reconcile(s, u, addFails, removeFails).0;
      && (id in s'.users <==> id in s.users || id == u.id)
      && (id in s.users ==> SameOrigin(s.users[id], s'.users[id]))
      && (id !in s.users && id == u.id ==>
            s'.users[id].protocol == u.protocol && s'.users[id].level == u.level)
  {
    if u.id in s.users {
      RefreshKeepsOrigin(s, u, removeFails, id);
    } else {
      var created := s.(users := s.users[u.id := Entry(false, u.level, u.protocol, u.profile)]);
    }
  }

  lemma {:induction false} LoopDescends(s: Pool, list: seq<ServerUser>, f: Faults, id: int)
    ensures var s' := ReconcileAll(s, list, f).0;
      && Descends(s, s', list, id)
      && (id in s.users ==> id in s'.users)
      && (FirstEntry(list, id).None? && id !in s.users ==> id !in s'.users)
      && (ReconcileAll(s, list, f).1 && FirstEntry(list, id).Some? ==> id in s'.users)
  {
    if list != [] {
      var n := |list| - 1;
      LoopDescends(s, list[..n], f, id);
      assert list == list[..n] + [list[n]];
      FirstEntrySnoc(list[..n], list[n], id);
      var (s1, ok) := ReconcileAll(s, list[..n], f);
      if ok {
        TurnDescends(s1, list[n], n in f.adds, n in f.removals, id);
      }
    }
  }

  lemma {:induction false} CleanupDescends(s: Pool, order: seq<int>, keep: set<int>, fails: set<int>, id: int)
    ensures var s' := Cleanup(s, order, keep, fails).0;
            id in s'.users ==> id in s.users && SameOrigin(s.users[id], s'.users[id])
  {
    if order != [] {
      CleanupDescends(s, order[..|order| - 1], keep, fails, id);
    }
  }

  /** Whatever fails in a call: a user it creates has the protocol and level of the first entry that names
      it, and a user that stays keeps its own. */
  lemma SyncDescends(s: Pool, a: Attempt, id: int)
    ensures var s' := Sync(s, a.fetched, a.order, a.faults).0;
            Descends(s, s', if a.fetched.Some? then a.fetched.value else [], id)
  {
    if a.fetched.Some? {
      LoopDescends(s, a.fetched.value, a.faults, id);
      var (s1, ok) := ReconcileAll(s, a.fetched.value, a.faults);
      if ok {
        CleanupDescends(s1, a.order, Ids(a.fetched.value), a.faults.cleanups, id);
      }
    }
  }

  /** A user was created in the n-th attempt of a run and has been in the pool since. */
  ghost predicate CreatedIn(attempts: seq<Attempt>, id: int, n: int) {
    && 0 <= n < |attempts| && attempts[n].fetched.Some?
    && id !in After(attempts[..n]).users
    && forall m | n < m <= |attempts| :: id in After(attempts[..m]).users
  }

  lemma {:induction false} CreatedStays(attempts: seq<Attempt>, id: int, n: int)
    requires attempts != [] && CreatedIn(attempts[..|attempts| - 1], id, n) && id in After(attempts).users
    ensures CreatedIn(attempts, id, n)
  {
    var k := |attempts| - 1;
    assert attempts[..k][..n] == attempts[..n] && attempts[..k][n] == attempts[n];
    forall m | n < m <= |attempts| ensures id in After(attempts[..m]).users {
      if m <= k {
        assert attempts[..k][..m] == attempts[..m];
      } else {
        assert attempts[..m] == attempts;
      }
    }
  }

  /** Over every run with any faults, a user in the pool has the protocol and level of the first entry that
      named it in the call that created it. */
  lemma {:induction false} OriginDecides(attempts: seq<Attempt>, id: int) returns (n: int)
    requires id in After(attempts).users
    ensures CreatedIn(attempts, id, n)
    ensures var first := FirstEntry(attempts[n].fetched.value, id);
            var e := After(attempts).users[id];
            first.Some? && e.protocol == first.value.protocol && e.level == first.value.level
  {
    var k := |attempts| - 1;
    var before := After(attempts[..k]);
    SyncDescends(before, attempts[k], id);
    if id in before.users {
      n := OriginDecides(attempts[..k], id);
      CreatedStays(attempts, id, n);
      assert attempts[..k][n] == attempts[n];
    } else {
      n := k;
      forall m | n < m <= |attempts| ensures id in After(attempts[..m]).users {
        assert attempts[..m] == attempts;
      }
    }
  }

  /** What an inbound has to hold for a user, spelled out by protocol. */
  predicate Serves(m: Member, protocol: string, level: int, p: Profile) {
    && m.level == level
    && (protocol == "trojan" ==> m.account == Trojan(p.password))
    && (protocol == "ss" ==> m.account == Shadowsocks(p.password))
    && (protocol == "vless" ==> m.account == Vless(p.password, p.flow))
    && (protocol == "trojan" || protocol == "ss" || protocol == "vless")
  }

  /** After a successful call every listed user is in the pool, and on the inbound exactly if its last entry
      enables it: at the level and with the account of the protocol it was created with, by that call or
      before, and with the credentials of its last entry. */
  lemma SyncServes(s: Pool, list: seq<ServerUser>, order: seq<int>, f: Faults, id: int)
    requires Inv(s) && Sync(s, Some(list), order, f).1 && WalksPool(s, Attempt(Some(list), order, f))
    requires id in Ids(list)
    ensures LastEntry(list, id).Some? && FirstEntry(list, id).Some?
    ensures var s' := Sync(s, Some(list), order, f).0;
            var p := LastEntry(list, id).value.profile;
            var first := FirstEntry(list, id).value;
            && id in s'.users && (id in s'.inbound <==> p.enable)
            && (id in s'.inbound ==>
                  if id in s.users then Serves(s'.inbound[id], s.users[id].protocol, s.users[id].level, p)
                  else Serves(s'.inbound[id], first.protocol, first.level, p))
  {
    SyncConverges(s, list, order, f);
    LastEntryListed(list, id);
    FirstEntryListed(list, id);
    SyncDescends(s, Attempt(Some(list), order, f), id);
  }

  lemma {:induction false} FirstEntryListed(list: seq<ServerUser>, id: int)
    ensures FirstEntry(list, id).Some? <==> id in Ids(list)
    decreases |list|
  {
    if list != [] {
      FirstEntryListed(list[1..], id);
      assert list == [list[0]] + list[1..];
      assert Ids(list) == {list[0].id} + Ids(list[1..]);
    }
  }

  // --- what succeeds ---

  predicate NeedsRemoval(s: Pool, u: ServerUser) {
    u.id in s.users && s.users[u.id].running && s.users[u.id].profile != u.profile
  }

  predicate NeedsAdding(s: Pool, u: ServerUser) {
    u.profile.enable && (u.id in s.users ==> !s.users[u.id].running || s.users[u.id].profile != u.profile)
  }

  /** A turn fails exactly when it needs a removal that fails, or else an addition that fails or that the
      user's protocol has no account for. */
  lemma TurnFailsExactly(s: Pool, u: ServerUser, addFails: bool, removeFails: bool)
    ensures var protocol := if u.id in s.users then s.users[u.id].protocol else u.protocol;
            !Reconcile(s, u, addFails, removeFails).1
            <==> || (NeedsRemoval(s, u) && removeFails)
                 || (NeedsAdding(s, u) && (addFails || protocol !in ["trojan", "ss", "vless"]))
  {
  }

  /** A failed turn has stored the profile all the same; its user runs only if its removal failed, and
      nobody else is affected. */
  lemma FailedTurnLeaves(s: Pool, u: ServerUser, addFails: bool, removeFails: bool)
    requires !Reconcile(s, u, addFails, removeFails).1
    ensures var s' := Reconcile(s, u, addFails, removeFails).0;
      && s'.users.Keys == s.users.Keys + {u.id}
      && s'.users[u.id].profile == u.profile
      && (s'.users[u.id].running <==> NeedsRemoval(s, u) && removeFails)
      && (forall id <- s.users | id != u.id :: s'.users[id] == s.users[id])
      && (forall id | id != u.id :: (id in s'.inbound <==> id in s.inbound)
                                    && (id in s.inbound ==> s'.inbound[id] == s.inbound[id]))
  {
  }

  /** A user that is on the inbound already keeps its entry there, and counts as added. */
  lemma AlreadyThere(s: Pool, id: int)
    requires id in s.users && id in s.inbound && Wanted(s.users[id]).Some?
    ensures var (s', ok) := AddInbound(s, id, false); ok && s'.inbound == s.inbound && s'.users[id].running
  {
  }

  ghost predicate Stuck(s: Pool, order: seq<int>, keep: set<int>, fails: set<int>, i: int) {
    0 <= i < |order| && order[i] in s.users && order[i] !in keep && order[i] in fails
  }

  /** The second loop fails exactly when some user it walks is not listed and cannot be removed. */
  lemma {:induction false} CleanupFailsExactly(s: Pool, order: seq<int>, keep: set<int>, fails: set<int>)
    ensures !Cleanup(s, order, keep, fails).1 <==> exists i :: Stuck(s, order, keep, fails, i)
    ensures forall id <- s.users :: id in Cleanup(s, order, keep, fails).0.users || (id !in keep && id !in fails)
    ensures Cleanup(s, order, keep, fails).0.users.Keys <= s.users.Keys
  {
    if order != [] {
      var n := |order| - 1;
      CleanupFailsExactly(s, order[..n], keep, fails);
      var (s1, ok) := Cleanup(s, order[..n], keep, fails);
      if !ok {
        var i :| Stuck(s, order[..n], keep, fails, i);
        assert Stuck(s, order, keep, fails, i);
      } else {
        forall i | Stuck(s, order, keep, fails, i) ensures i == n {
          assert i < n ==> Stuck(s, order[..n], keep, fails, i);
        }
        assert Stuck(s, order, keep, fails, n) <==> order[n] in s1.users && order[n] !in keep && order[n] in fails;
      }
    }
  }

  /** And it does not heal: the next turn with the same entry succeeds and changes nothing. */
  lemma HardRemovalSticks(s: Pool, u: ServerUser, addFails: bool, again: bool, removeFails: bool)
    requires u.id in s.users && s.users[u.id].running && s.users[u.id].profile != u.profile
    ensures var s' := Reconcile(s, u, addFails, true).0;
            Reconcile(s', u, again, removeFails) == (s', true)
  {
  }

  /** A running user whose entry on the inbound is out of date is put right by the next turn with an
      entry for it exactly when the profile changes again, and either the removal works this time or the
      new profile happens to ask for what the inbound still holds. */
  lemma HealsExactly(s: Pool, u: ServerUser, addFails: bool, removeFails: bool)
    requires u.id in s.users && s.users[u.id].running && u.id in s.inbound && !EntryInv(s, u.id)
    ensures var s' := Reconcile(s, u, addFails, removeFails).0;
      u.id in s'.users &&
      (EntryInv(s', u.id) <==>
        u.profile != s.users[u.id].profile
        && (!removeFails
            || (u.profile.enable && Wanted(s.users[u.id].(profile := u.profile)) == Some(s.inbound[u.id]))))
  {
  }

  /** A running user whose entry on the inbound is out of date. */
  ghost predicate Wrong(s: Pool, id: int) {
    id in s.users && s.users[id].running && id in s.inbound && !EntryInv(s, id)
  }

  ghost predicate SameUser(s: Pool, s': Pool, id: int) {
    id in s.users && id in s.inbound && id in s'.users && id in s'.inbound
    && s'.users[id] == s.users[id] && s'.inbound[id] == s.inbound[id]
  }

  /** A fetch that fails, or a list that names the user, and only with the profile it has. */
  ghost predicate NothingNew(s: Pool, fetched: Option<seq<ServerUser>>, id: int)
    requires id in s.users
  {
    fetched.Some? ==>
      id in Ids(fetched.value) && forall u <- fetched.value | u.id == id :: u.profile == s.users[id].profile
  }

  lemma TurnLeaves(s: Pool, u: ServerUser, addFails: bool, removeFails: bool, id: int)
    requires id in s.users && s.users[id].running && id in s.inbound
    requires u.id == id ==> u.profile == s.users[id].profile
    ensures SameUser(s, Reconcile(s, u, addFails, removeFails).0, id)
  {
  }

  lemma {:induction false} LoopLeaves(s: Pool, list: seq<ServerUser>, f: Faults, id: int)
    requires id in s.users && s.users[id].running && id in s.inbound
    requires forall u <- list | u.id == id :: u.profile == s.users[id].profile
    ensures SameUser(s, ReconcileAll(s, list, f).0, id)
  {
    if list != [] {
      var n := |list| - 1;
      LoopLeaves(s, list[..n], f, id);
      var (s1, ok) := ReconcileAll(s, list[..n], f);
      if ok {
        TurnLeaves(s1, list[n], n in f.adds, n in f.removals, id);
      }
    }
  }

  lemma {:induction false} CleanupLeaves(s: Pool, order: seq<int>, keep: set<int>, fails: set<int>, id: int)
    requires id in s.users && id in s.inbound && id in keep
    ensures SameUser(s, Cleanup(s, order, keep, fails).0, id)
  {
    if order != [] {
      CleanupLeaves(s, order[..|order| - 1], keep, fails, id);
    }
  }

  /** A whole call with any faults leaves such a user as wrong as it was, as long as its profile does not
      change again and it is not dropped. */
  lemma StaysWrong(s: Pool, a: Attempt, id: int)
    requires Wrong(s, id) && NothingNew(s, a.fetched, id)
    ensures var s' := Sync(s, a.fetched, a.order, a.faults).0; SameUser(s, s', id) && Wrong(s', id)
  {
    if a.fetched.Some? {
      LoopLeaves(s, a.fetched.value, a.faults, id);
      var (s1, ok) := ReconcileAll(s, a.fetched.value, a.faults);
      if ok {
        CleanupLeaves(s1, a.order, Ids(a.fetched.value), a.faults.cleanups, id);
      }
    }
  }

  /** The pool after more attempts. */
  function Onward(s: Pool, attempts: seq<Attempt>): Pool {
    if attempts == [] then s
    else
      var a := attempts[|attempts| - 1];
      Sync(Onward(s, attempts[..|attempts| - 1]), a.fetched, a.order, a.faults).0
  }

  /** And so does every run of such calls. */
  lemma {:induction false} StaysWrongForEver(s: Pool, attempts: seq<Attempt>, id: int)
    requires Wrong(s, id) && forall i | 0 <= i < |attempts| :: NothingNew(s, attempts[i].fetched, id)
    ensures SameUser(s, Onward(s, attempts), id) && Wrong(Onward(s, attempts), id)
  {
    if attempts != [] {
      var n := |attempts| - 1;
      StaysWrongForEver(s, attempts[..n], id);
      StaysWrong(Onward(s, attempts[..n]), attempts[n], id);
    }
  }

  /** A run that breaks: a trojan user is added, then its password changes while its removal fails. */
  lemma SomeRunBreaks()
    ensures exists attempts :: !NeverBreaks(attempts)
  {
    var none := Faults({}, {}, {});
    var u := ServerUser(1, 0, "trojan", Profile("", "before", "", true));
    var v := u.(profile := Profile("", "after", "", true));
    var first := Attempt(Some([u]), [1], none);
    var second := Attempt(Some([v]), [1], none.(removals := {0}));
    var attempts := [first, second];
    var s := AddInbound(Pool(map[1 := Entry(false, 0, "trojan", u.profile)], map[]), 1, false).0;
    assert Reconcile(EMPTY, u, false, false) == (s, true);
    assert [u][..0] == [] && [v][..0] == [];
    assert ReconcileAll(EMPTY, [u], none) == (s, true);
    assert 1 in Ids([u]) by {
      assert u in [u];
    }
    assert Cleanup(s, [1], Ids([u]), {}) == (s, true) by {
      assert [1][..0] == [] && Cleanup(s, [], Ids([u]), {}) == (s, true);
    }
    assert Sync(EMPTY, Some([u]), [1], none) == (s, true);
    assert attempts[..1] == [first] && [first][..0] == [];
    assert After(attempts[..1]) == s;
    assert ReconcileAll(s, [], second.faults) == (s, true);
    assert BreaksAt(s, [v], second.faults, 0);
    assert AttemptBreaks(After(attempts[..1]), attempts[1]);
    assert !NeverBreaks(attempts);
  }

  // --- the objects ---

  /** The in-process inbound, as a table of members by user id. */
  class Inbound {
    var members: map<int, Member>

    constructor ()
      ensures members == map[]
    {
      members := map[];
    }
  }

  function EntryOf(u: User): Entry
    reads u
  {
    Entry(u.running, u.Level, u.Protocol, u.profile)
  }

  class UserPool {
    var users: map<int, User>
    const im: Inbound

    ghost predicate Valid()
      reads this
    {
      forall id <- users :: users[id].ID == id
    }

    ghost function View(): Pool
      reads this, im, users.Values
    {
      Pool(map id | id in users :: EntryOf(users[id]), im.members)
    }

    constructor (im: Inbound)
      ensures Valid() && users == map[] && this.im == im
    {
      this.im := im;
      users := map[];
    }

    method CreateUser(su: ServerUser) returns (u: User)
      requires Valid()
      modifies this
      ensures Valid() && fresh(u) && u.ID == su.id && users == old(users)[su.id := u]
      ensures EntryOf(u) == Entry(false, su.level, su.protocol, su.profile)
      ensures View() == old(View()).(users := old(View()).users[su.id := EntryOf(u)])
    {
      u := new User(su.id, su.level, su.protocol, su.profile);
      users := users[su.id := u];
      assert View().users == old(View()).users[su.id := EntryOf(u)];
    }

    /** Changing one user changes one entry: ids tell the users apart. */
    twostate lemma OneUserChanged(user: User)
      requires old(Valid()) && unchanged(this) && user.ID in users && users[user.ID] == user
      requires forall id <- users | users[id] != user :: unchanged(users[id])
      ensures View().users == old(View()).users[user.ID := EntryOf(user)]
    {
      forall id <- users | id != user.ID ensures EntryOf(users[id]) == old(EntryOf(users[id])) {
        assert users[id].ID == id;
        assert unchanged(users[id]);
      }
    }

    method AddInboundUser(user: User, fails: bool) returns (ok: bool)
      requires Valid() && user.ID in users && users[user.ID] == user
      modifies user`running, im
      ensures (View(), ok) == AddInbound(old(View()), user.ID, fails)
    {
      var id := user.ID;
      var account := AccountOf(user.Protocol, user.profile);
      if fails || account.None? {
        return false;
      }
      if id !in im.members {
        im.members := im.members[id := Member(user.Level, account.value)];
      }
      user.running := true;
      OneUserChanged(user);
      return true;
    }

    method RemoveInboundUser(user: User, fails: bool) returns (ok: bool)
      requires Valid() && user.ID in users && users[user.ID] == user
      modifies user`running, im
      ensures (View(), ok) == RemoveInbound(old(View()), user.ID, fails)
    {
      var id := user.ID;
      if fails {
        return false;
      }
      im.members := im.members - {id};
      user.running := false;
      OneUserChanged(user);
      return true;
    }

    /** UpdateFromServer and the removal that follows it. */
    method RefreshUser(user: User, su: ServerUser, removeFails: bool) returns (ok: bool)
      requires Valid() && su.id in users && users[su.id] == user
      modifies user`profile, user`running, im
      ensures (View(), ok) == Refresh(old(View()), su, removeFails)
    {
      if user.profile == su.profile {
        return true;
      }
      user.profile := su.profile;
      OneUserChanged(user);
      if user.running {
        ok := RemoveInboundUser(user, removeFails);
      } else {
        ok := true;
      }
    }

    method ReconcileOne(su: ServerUser, addFails: bool, removeFails: bool) returns (ok: bool)
      requires Valid()
      modifies this, im, users.Values
      ensures Valid() && su.id in users
      ensures forall u <- users.Values :: u in old(users.Values) || fresh(u)
      ensures (View(), ok) == Reconcile(old(View()), su, addFails, removeFails)
    {
      if su.id !in users {
        var created := CreateUser(su);
        if !created.profile.enable {
          return true;
        }
        ok := AddInboundUser(created, addFails);
      } else {
        var oldUser := users[su.id];
        ok := RefreshUser(oldUser, su, removeFails);
        if ok && oldUser.profile.enable && !oldUser.running {
          ok := AddInboundUser(oldUser, addFails);
        }
      }
    }

    /** RemoveUser, with the removal from the inbound that comes before it. */
    method DropUser(user: User, fails: bool) returns (ok: bool)
      requires Valid() && user.ID in users && users[user.ID] == user
      modifies this, user`running, im
      ensures Valid() && users == if ok then old(users) - {user.ID} else old(users)
      ensures var (s, removed) := RemoveInbound(old(View()), user.ID, fails);
              ok == removed && View() == if ok then s.(users := s.users - {user.ID}) else s
    {
      ok := RemoveInboundUser(user, fails);
      if ok {
        ghost var s := View();
        users := users - {user.ID};
        assert View().users == s.users - {user.ID};
      }
    }

    /** The loop over the server's users. */
    method ReconcileList(list: seq<ServerUser>, f: Faults) returns (ok: bool, userM: set<int>)
      requires Valid()
      modifies this, im, users.Values
      ensures Valid() && (ok ==> userM == Ids(list))
      ensures forall u <- users.Values :: u in old(users.Values) || fresh(u)
      ensures (View(), ok) == ReconcileAll(old(View()), list, f)
    {
      userM := {};
      for i := 0 to |list|
        invariant Valid() && userM == Ids(list[..i])
        invariant forall u <- users.Values :: u in old(users.Values) || fresh(u)
        invariant (View(), true) == ReconcileAll(old(View()), list[..i], f)
      {
        LoopNext(old(View()), list, f, i);
        ok := ReconcileOne(list[i], i in f.adds, i in f.removals);
        if !ok {
          FailureStops(old(View()), list, f, i + 1);
          return;
        }
        userM := userM + {list[i].id};
      }
      assert list[..|list|] == list;
      ok := true;
    }

    /** The users as a list, in the arbitrary order of the map. */
    method GetAllUsers() returns (all: seq<User>)
      requires Valid()
      ensures forall i | 0 <= i < |all| :: all[i].ID in users && users[all[i].ID] == all[i]
      ensures forall i, j | 0 <= i < j < |all| :: all[i].ID != all[j].ID
      ensures forall id <- users :: users[id] in all
    {
      all := [];
      var rest := users.Keys;
      while rest != {}
        invariant rest <= users.Keys
        invariant forall u <- all :: u.ID in users.Keys - rest && users[u.ID] == u
        invariant forall i, j | 0 <= i < j < |all| :: all[i].ID != all[j].ID
        invariant forall id <- users.Keys - rest :: users[id] in all
      {
        ghost var some := Base.Member(rest);
        var id :| id in rest;
        all := all + [users[id]];
        rest := rest - {id};
      }
    }

    /** One turn of the loop over the pool. */
    method CleanupUser(user: User, userM: set<int>, fails: set<int>) returns (ok: bool)
      requires Valid() && user.ID in users && users[user.ID] == user
      modifies this, user`running, im
      ensures Valid() && (users == old(users) || users == old(users) - {user.ID})
      ensures (View(), ok) == CleanupOne(old(View()), user.ID, userM, fails)
    {
      ok := true;
      if user.ID !in userM {
        ok := DropUser(user, user.ID in fails);
      }
    }

    /** The loop over the pool, in that order. */
    method CleanupPool(userM: set<int>, fails: set<int>) returns (ok: bool, ghost order: seq<int>)
      requires Valid()
      modifies this, im, users.Values
      ensures Valid() && (View(), ok) == Cleanup(old(View()), order, userM, fails)
      ensures ok ==> forall id <- old(users) :: id in order
    {
      order := [];
      var all := GetAllUsers();
      for i := 0 to |all|
        invariant Valid() && |order| == i && forall j | 0 <= j < i :: order[j] == all[j].ID
        invariant forall u <- users.Values :: u in old(users.Values)
        invariant forall j | i <= j < |all| :: all[j].ID in users && users[all[j].ID] == all[j]
        invariant (View(), true) == Cleanup(old(View()), order, userM, fails)
      {
        var user := all[i];
        order := order + [user.ID];
        ok := CleanupUser(user, userM, fails);
        if !ok {
          return;
        }
      }
      ok := true;
      forall id <- old(users) ensures id in order {
        var i :| 0 <= i < |all| && all[i] == old(users)[id];
        assert order[i] == id;
      }
    }

    /** One call, for a given outcome of the fetch. */
    method SyncUserConfigsFromServer(fetched: Option<seq<ServerUser>>, f: Faults)
      returns (ok: bool, ghost order: seq<int>)
      requires Valid()
      modifies this, im, users.Values
      ensures Valid() && (View(), ok) == Sync(old(View()), fetched, order, f)
      ensures ok ==> WalksPool(old(View()), Attempt(fetched, order, f))
    {
      order := [];
      if fetched.None? {
        return false, order;
      }
      var userM;
      ok, userM := ReconcileList(fetched.value, f);
      if ok {
        ok, order := CleanupPool(userM, f.cleanups);
      }
    }
  }
}

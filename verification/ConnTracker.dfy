/**
 The connection registry of pkg/xray/conn_tracker.go, as used by Dispatch in pkg/xray/outbound.go:
 an index by connection id and one by user that must agree with the set of dispatches in progress.
 */
module ConnTracker {
  import opened Base

  // --- the user id in the email ---

  function DigitOf(c: char): nat
    requires '0' <= c <= '9'
  {
    (c - '0') as int
  }

  function CharOf(d: nat): char
    requires d < 10
  {
    '0' + d as char
  }

  predicate AllDigits(s: string) {
    forall i | 0 <= i < |s| :: '0' <= s[i] <= '9'
  }

  function Value(s: string): nat
    requires AllDigits(s)
  {
    if s == "" then 0 else 10 * Value(s[..|s| - 1]) + DigitOf(s[|s| - 1])
  }

  function Decimal(n: nat): string {
    if n < 10 then [CharOf(n)] else Decimal(n / 10) + [CharOf(n % 10)]
  }

  function GetEmail(id: int): string {
    if id < 0 then "-" + Decimal(-id) else Decimal(id)
  }

  const MIN_INT: int := -0x8000_0000_0000_0000
  const MAX_INT: int := 0x7FFF_FFFF_FFFF_FFFF

  /** strconv.Atoi: an optional sign, at least one digit, and a value that fits. */
  function Atoi(s: string): Option<int> {
    var signed := s != "" && (s[0] == '-' || s[0] == '+');
    var digits := if signed then s[1..] else s;
    if digits == "" || !AllDigits(digits) then None
    else
      var magnitude: int := Value(digits);
      var n: int := if signed && s[0] == '-' then 0 - magnitude else magnitude;
      if MIN_INT <= n <= MAX_INT then Some(n) else None
  }

  /** userIDFromInbound: 0 when there is no user or the email is not a number. */
  function UserIDFromInbound(email: Option<string>): int {
    if email.None? then 0
    else
      var id := Atoi(email.value);
      if id.Some? then id.value else 0
  }

  lemma {:induction false} DecimalValue(n: nat)
    ensures AllDigits(Decimal(n)) && |Decimal(n)| > 0 && Value(Decimal(n)) == n
  {
    if n < 10 {
      assert Decimal(n)[..0] == "";
    } else {
      DecimalValue(n / 10);
      var s := Decimal(n);
      assert s[..|s| - 1] == Decimal(n / 10);
    }
  }

  /** The email is the decimal number, without leading zeros. */
  lemma EmailIs(n: int, d: nat)
    requires n >= 0 && d < 10
    ensures GetEmail(d) == ['0' + d as char]
    ensures n > 0 ==> GetEmail(10 * n + d) == GetEmail(n) + ['0' + d as char]
    ensures n > 0 ==> GetEmail(-n) == "-" + GetEmail(n)
  {
    assert (10 * n + d) / 10 == n && (10 * n + d) % 10 == d;
  }

  /** The id of a dispatch is the id its user was stored under, for every id that fits an int. */
  lemma EmailRoundTrip(id: int)
    ensures UserIDFromInbound(Some(GetEmail(id))) == id <==> MIN_INT <= id <= MAX_INT
  {
    DecimalValue(if id < 0 then -id else id);
    if id < 0 {
      assert GetEmail(id)[1..] == Decimal(-id);
    }
  }

  // --- the registry as a value ---

  /** What a dispatch brings along: the email and source of its inbound session, and its target. */
  datatype Target = Target(address: string, udp: bool)

  datatype Session = Session(email: Option<string>, sourceIP: string, target: Option<Target>)

  /** What List reports of an entry. */
  datatype Info = Info(userID: int, email: string, network: string, target: string, sourceIP: string)

  function Network(target: Option<Target>): string {
    if target.None? then "" else if target.value.udp then "udp" else "tcp"
  }

  function InfoOf(s: Session): Info {
    Info(UserIDFromInbound(s.email), if s.email.Some? then s.email.value else "",
         Network(s.target), if s.target.Some? then s.target.value.address else "", s.sourceIP)
  }

  datatype Registry = Registry(nextID: nat, entries: map<nat, Info>, byUser: map<int, set<nat>>)

  const EMPTY := Registry(0, map[], map[])

  function Bucket(r: Registry, userID: int): set<nat> {
    if userID in r.byUser then r.byUser[userID] else {}
  }

  function Registered(r: Registry, info: Info): Registry {
    var id := r.nextID + 1;
    Registry(id, r.entries[id := info], r.byUser[info.userID := Bucket(r, info.userID) + {id}])
  }

  function Unregistered(r: Registry, id: nat): Registry {
    if id !in r.entries then r
    else
      var userID := r.entries[id].userID;
      var bucket := Bucket(r, userID) - {id};
      Registry(r.nextID, r.entries - {id},
               if userID !in r.byUser then r.byUser
               else if bucket == {} then r.byUser - {userID}
               else r.byUser[userID := bucket])
  }

  function IdsOf(entries: map<nat, Info>, userID: int): set<nat> {
    set id | id in entries && entries[id].userID == userID
  }

  /** byUser is the partition of the entries by user, with no empty bucket, and ids are not ahead
      of the counter. */
  ghost predicate Indexed(r: Registry) {
    && (forall id <- r.entries :: 0 < id <= r.nextID)
    && (forall u <- r.byUser :: r.byUser[u] != {})
    && (forall u: int :: Bucket(r, u) == IdsOf(r.entries, u))
  }

  lemma RegisterKeepsIndex(r: Registry, info: Info)
    requires Indexed(r)
    ensures Indexed(Registered(r, info)) && r.nextID + 1 !in r.entries
  {
    var r' := Registered(r, info);
    forall u: int ensures Bucket(r', u) == IdsOf(r'.entries, u) {
      assert Bucket(r, u) == IdsOf(r.entries, u);
    }
  }

  lemma UnregisterKeepsIndex(r: Registry, id: nat)
    requires Indexed(r)
    ensures Indexed(Unregistered(r, id))
  {
    if id in r.entries {
      var r' := Unregistered(r, id);
      forall u: int ensures Bucket(r', u) == IdsOf(r'.entries, u) {
        assert Bucket(r, u) == IdsOf(r.entries, u);
      }
    }
  }

  // --- runs of dispatches ---

  /** A dispatch in progress: the connection id it registered, and its sessions. */
  datatype Dispatch = Dispatch(id: nat, session: Session)

  /** begun and issued are the dispatches that registered so far and the ids they got, in order. */
  datatype State = State(reg: Registry, inProgress: map<nat, Dispatch>, begun: set<nat>, issued: seq<nat>)

  datatype Label = Begin(d: nat, session: Session) | End(d: nat)

  const INIT := State(EMPTY, map[], {}, [])

  /** Each dispatch registers once, and unregisters the id it got when it returns. */
  predicate Enabled(s: State, l: Label) {
    match l
    case Begin(d, _) => d !in s.begun
    case End(d) => d in s.inProgress
  }

  function Step(s: State, l: Label): State
    requires Enabled(s, l)
  {
    match l
    case Begin(d, session) =>
      var id := s.reg.nextID + 1;
      State(Registered(s.reg, InfoOf(session)), s.inProgress[d := Dispatch(id, session)],
            s.begun + {d}, s.issued + [id])
    case End(d) => s.(reg := Unregistered(s.reg, s.inProgress[d].id), inProgress := s.inProgress - {d})
  }

  ghost predicate Execution(ls: seq<Label>, ss: seq<State>) {
    && |ss| == |ls| + 1 && ss[0] == INIT
    && forall i | 0 <= i < |ls| :: Enabled(ss[i], ls[i]) && ss[i + 1] == Step(ss[i], ls[i])
  }

  ghost predicate Reachable(s: State) {
    exists ls, ss :: Execution(ls, ss) && ss[|ls|] == s
  }

  /** The entries are the dispatches in progress, each under its own id. */
  ghost predicate Mirrors(entries: map<nat, Info>, inProgress: map<nat, Dispatch>) {
    Told(entries, inProgress) && Covered(entries, inProgress) && OwnIds(inProgress)
  }

  ghost predicate Told(entries: map<nat, Info>, inProgress: map<nat, Dispatch>) {
    forall d <- inProgress ::
      inProgress[d].id in entries && entries[inProgress[d].id] == InfoOf(inProgress[d].session)
  }

  ghost predicate Covered(entries: map<nat, Info>, inProgress: map<nat, Dispatch>) {
    forall id <- entries :: exists d :: d in inProgress && inProgress[d].id == id
  }

  ghost predicate OwnIds(inProgress: map<nat, Dispatch>) {
    forall d <- inProgress, e <- inProgress :: inProgress[d].id == inProgress[e].id ==> d == e
  }

  ghost predicate Inv(s: State) {
    && Indexed(s.reg)
    && Mirrors(s.reg.entries, s.inProgress)
    && s.inProgress.Keys <= s.begun
    && IdsGrow(s.issued, s.reg.nextID)
  }

  ghost predicate IdsGrow(issued: seq<nat>, nextID: nat) {
    && (forall i, j | 0 <= i < j < |issued| :: issued[i] < issued[j])
    && (forall i | 0 <= i < |issued| :: issued[i] <= nextID)
  }

  lemma CoveredWith(entries: map<nat, Info>, inProgress: map<nat, Dispatch>, d: nat, id: nat, session: Session,
                    info: Info)
    requires Covered(entries, inProgress) && d !in inProgress
    ensures Covered(entries[id := info], inProgress[d := Dispatch(id, session)])
  {
    var (entries', inProgress') := (entries[id := info], inProgress[d := Dispatch(id, session)]);
    forall i <- entries' ensures exists x :: x in inProgress' && inProgress'[x].id == i {
      if i == id {
        assert inProgress'[d].id == i;
      } else {
        var x :| x in inProgress && inProgress[x].id == i;
        assert inProgress'[x].id == i;
      }
    }
  }

  lemma MirrorsWith(entries: map<nat, Info>, inProgress: map<nat, Dispatch>, d: nat, id: nat, session: Session)
    requires Mirrors(entries, inProgress) && d !in inProgress && id !in entries
    ensures Mirrors(entries[id := InfoOf(session)], inProgress[d := Dispatch(id, session)])
  {
    CoveredWith(entries, inProgress, d, id, session, InfoOf(session));
  }

  lemma BeginKeepsInv(s: State, d: nat, session: Session)
    requires Inv(s) && Enabled(s, Begin(d, session))
    ensures Inv(Step(s, Begin(d, session)))
  {
    RegisterKeepsIndex(s.reg, InfoOf(session));
    MirrorsWith(s.reg.entries, s.inProgress, d, s.reg.nextID + 1, session);
  }

  lemma EndKeepsInv(s: State, d: nat)
    requires Inv(s) && Enabled(s, End(d))
    ensures Inv(Step(s, End(d)))
  {
    var id := s.inProgress[d].id;
    UnregisterKeepsIndex(s.reg, id);
    var s' := Step(s, End(d));
    forall i <- s'.reg.entries ensures exists x :: x in s'.inProgress && s'.inProgress[x].id == i {
      var x :| x in s.inProgress && s.inProgress[x].id == i;
      assert s'.inProgress[x].id == i;
    }
  }

  lemma {:induction false} ExecutionInv(ls: seq<Label>, ss: seq<State>, n: nat)
    requires Execution(ls, ss) && n <= |ls|
    ensures Inv(ss[n])
  {
    if n > 0 {
      ExecutionInv(ls, ss, n - 1);
      match ls[n - 1]
      case Begin(d, session) => BeginKeepsInv(ss[n - 1], d, session);
      case End(d) => EndKeepsInv(ss[n - 1], d);
    }
  }

  lemma ReachableInv(s: State)
    requires Reachable(s)
    ensures Inv(s)
  {
    var ls, ss :| Execution(ls, ss) && ss[|ls|] == s;
    ExecutionInv(ls, ss, |ls|);
  }

  // --- main results ---

  /** In every reachable state byUser is exactly the partition of the entries by user, and no id was
      ever issued twice. */
  lemma IndexesAgree(s: State)
    requires Reachable(s)
    ensures Indexed(s.reg)
    ensures forall i, j | 0 <= i < j < |s.issued| :: s.issued[i] != s.issued[j]
  {
    ReachableInv(s);
  }

  /** The dispatches in progress whose sessions satisfy a question. */
  function Asked(inProgress: map<nat, Dispatch>, q: Session -> bool): set<nat> {
    set d | d in inProgress && q(inProgress[d].session)
  }

  /** A question about sessions, and one about entries, with the same answer. */
  ghost predicate SameQuestion(p: Info -> bool, q: Session -> bool) {
    forall x :: p(InfoOf(x)) <==> q(x)
  }

  function Matching(entries: map<nat, Info>, p: Info -> bool): set<nat> {
    set id | id in entries && p(entries[id])
  }

  lemma MirrorsWithout(entries: map<nat, Info>, inProgress: map<nat, Dispatch>, d: nat)
    requires Mirrors(entries, inProgress) && d in inProgress
    ensures Mirrors(entries - {inProgress[d].id}, inProgress - {d})
  {
    var id := inProgress[d].id;
    var (entries', inProgress') := (entries - {id}, inProgress - {d});
    forall i <- entries' ensures exists x :: x in inProgress' && inProgress'[x].id == i {
      var x :| x in inProgress && inProgress[x].id == i;
      assert inProgress'[x].id == i;
    }
  }

  lemma AskedWithout(inProgress: map<nat, Dispatch>, q: Session -> bool, d: nat)
    requires d in inProgress
    ensures d !in Asked(inProgress - {d}, q)
    ensures Asked(inProgress, q)
            == Asked(inProgress - {d}, q) + if q(inProgress[d].session) then {d} else {}
  {
  }

  lemma MatchingWithout(entries: map<nat, Info>, p: Info -> bool, id: nat)
    requires id in entries
    ensures id !in Matching(entries - {id}, p)
    ensures Matching(entries, p) == Matching(entries - {id}, p) + if p(entries[id]) then {id} else {}
  {
  }

  lemma {:induction false} SameSize(entries: map<nat, Info>, inProgress: map<nat, Dispatch>, p: Info -> bool,
                                    q: Session -> bool)
    requires Mirrors(entries, inProgress) && SameQuestion(p, q)
    ensures |Matching(entries, p)| == |Asked(inProgress, q)|
    decreases |inProgress.Keys|
  {
    if inProgress.Keys == {} {
      assert Asked(inProgress, q) == {};
      assert Matching(entries, p) == {};
    } else {
      var d := Member(inProgress.Keys);
      MirrorsWithout(entries, inProgress, d);
      AskedWithout(inProgress, q, d);
      MatchingWithout(entries, p, inProgress[d].id);
      assert (inProgress - {d}).Keys == inProgress.Keys - {d};
      SameSize(entries - {inProgress[d].id}, inProgress - {d}, p, q);
    }
  }

  /** The tracker answers every question as the plain set of dispatches in progress would, asked about
      their sessions: which connections match, and how many; and each entry tells its own session. */
  lemma TrackerRefinesDispatches(s: State, p: Info -> bool, q: Session -> bool)
    requires Reachable(s) && SameQuestion(p, q)
    ensures |Matching(s.reg.entries, p)| == |Asked(s.inProgress, q)|
    ensures forall id: nat :: id in Matching(s.reg.entries, p)
              <==> exists d :: d in Asked(s.inProgress, q) && s.inProgress[d].id == id
    ensures forall d <- s.inProgress ::
              && s.inProgress[d].id in s.reg.entries
              && s.reg.entries[s.inProgress[d].id] == InfoOf(s.inProgress[d].session)
  {
    ReachableInv(s);
    SameSize(s.reg.entries, s.inProgress, p, q);
  }

  // --- whose connection it is ---

  predicate Fits(id: int) {
    -0x8000_0000_0000_0000 <= id <= 0x7FFF_FFFF_FFFF_FFFF
  }

  /** An email that is not a number: empty, a sign alone, or with some other character. */
  predicate NotANumber(email: string) {
    var start := if email != "" && (email[0] == '-' || email[0] == '+') then 1 else 0;
    |email| == start || exists i :: start <= i < |email| && !('0' <= email[i] <= '9')
  }

  lemma NobodysEmail(email: string)
    requires NotANumber(email)
    ensures UserIDFromInbound(Some(email)) == 0
  {
    var start := if email != "" && (email[0] == '-' || email[0] == '+') then 1 else 0;
    if |email| > start {
      var i :| start <= i < |email| && !('0' <= email[i] <= '9');
      assert email[start..][i - start] == email[i];
      if start == 0 {
        assert email[0..] == email;
      }
    }
  }

  /** What a session's entry tells: the user its email was made from, or 0 if it has none or one that is no
      number; and its email, source and target as they are. */
  lemma EntryTells(session: Session)
    ensures var info := InfoOf(session);
      && (forall u: int | Fits(u) && session.email == Some(GetEmail(u)) :: info.userID == u)
      && (session.email.None? || NotANumber(session.email.value) ==> info.userID == 0)
      && info.email == (if session.email.None? then "" else session.email.value)
      && info.sourceIP == session.sourceIP
      && (info.network == "tcp" <==> session.target.Some? && !session.target.value.udp)
      && (info.network == "udp" <==> session.target.Some? && session.target.value.udp)
      && (info.network == "" <==> session.target.None?)
      && info.target == (if session.target.None? then "" else session.target.value.address)
  {
    forall u: int | Fits(u) && session.email == Some(GetEmail(u)) ensures InfoOf(session).userID == u {
      EmailRoundTrip(u);
    }
    if session.email.Some? && NotANumber(session.email.value) {
      NobodysEmail(session.email.value);
    }
  }

  /** A dispatch is that user's: its email is the user's id. */
  function IsUsers(u: int): Session -> bool {
    (x: Session) => UserIDFromInbound(x.email) == u
  }

  function IsUsersTcp(u: int): Session -> bool {
    (x: Session) => UserIDFromInbound(x.email) == u && x.target.Some? && !x.target.value.udp
  }

  /** In every reachable state whose sessions carry users' emails: the connections of user u, and the TCP
      ones among them, are as many as the dispatches in progress with the email of u. */
  lemma CountsAreDispatches(s: State, u: int)
    requires Reachable(s) && Fits(u)
    requires forall d <- s.inProgress :: exists v: int :: Fits(v) && s.inProgress[d].session.email == Some(GetEmail(v))
    ensures |Matching(s.reg.entries, OfUser(u))|
            == |set d | d in s.inProgress && s.inProgress[d].session.email == Some(GetEmail(u))|
    ensures |Matching(s.reg.entries, TcpOf(u))|
            == |set d | d in s.inProgress && s.inProgress[d].session.email == Some(GetEmail(u))
                        && s.inProgress[d].session.target.Some? && !s.inProgress[d].session.target.value.udp|
  {
    TrackerRefinesDispatches(s, OfUser(u), IsUsers(u));
    TrackerRefinesDispatches(s, TcpOf(u), IsUsersTcp(u));
    forall d <- s.inProgress
      ensures UserIDFromInbound(s.inProgress[d].session.email) == u
              <==> s.inProgress[d].session.email == Some(GetEmail(u))
    {
      var v: int :| Fits(v) && s.inProgress[d].session.email == Some(GetEmail(v));
      EmailRoundTrip(v);
      EmailRoundTrip(u);
    }
    assert Asked(s.inProgress, IsUsers(u))
        == set d | d in s.inProgress && s.inProgress[d].session.email == Some(GetEmail(u));
    assert Asked(s.inProgress, IsUsersTcp(u))
        == set d | d in s.inProgress && s.inProgress[d].session.email == Some(GetEmail(u))
                   && s.inProgress[d].session.target.Some? && !s.inProgress[d].session.target.value.udp;
  }

  /** Among the ids of the user whose email the session has, and of nobody else. */
  ghost predicate FiledUnder(entries: map<nat, Info>, id: nat, session: Session) {
    forall u: int, v: int | Fits(u) && session.email == Some(GetEmail(u)) ::
      id in Matching(entries, OfUser(v)) <==> v == u
  }

  lemma FiledIs(entries: map<nat, Info>, id: nat, session: Session)
    requires id in entries && entries[id] == InfoOf(session)
    ensures FiledUnder(entries, id, session)
  {
    EntryTells(session);
  }

  /** Registering a session with the email of user u: the new id is among those that are killed, listed
      and, exactly for a TCP target, counted for u, and among nobody else's; it is listed for everybody. */
  lemma RegisteredIsUsers(r: Registry, session: Session, u: int, v: int)
    requires Fits(u) && session.email == Some(GetEmail(u))
    ensures var id := r.nextID + 1;
            var entries := Registered(r, InfoOf(session)).entries;
      && (id in Matching(entries, OfUser(v)) <==> v == u)
      && (id in Matching(entries, ListedFor(v)) <==> v == u || v == 0)
      && (id in Matching(entries, TcpOf(v)) <==> v == u && session.target.Some? && !session.target.value.udp)
  {
    EntryTells(session);
  }

  /** The questions the tracker is asked; user 0 asks for everybody. */
  function OfUser(userID: int): Info -> bool {
    (i: Info) => i.userID == userID
  }

  function ListedFor(userID: int): Info -> bool {
    (i: Info) => userID == 0 || i.userID == userID
  }

  function TcpOf(userID: int): Info -> bool {
    (i: Info) => i.userID == userID && i.network == "tcp"
  }

  lemma BucketMatches(r: Registry, userID: int)
    requires Indexed(r)
    ensures Bucket(r, userID) == Matching(r.entries, OfUser(userID))
  {
    assert Bucket(r, userID) == IdsOf(r.entries, userID);
  }

  lemma ListedMatches(r: Registry, userID: int)
    requires Indexed(r)
    ensures Matching(r.entries, ListedFor(userID))
            == if userID == 0 then r.entries.Keys else Bucket(r, userID)
  {
    BucketMatches(r, userID);
  }

  // --- the objects ---

  class NetConn {
    var closed: bool

    constructor ()
      ensures !closed
    {
      closed := false;
    }
  }

  class CancelFunc {
    var called: bool

    constructor ()
      ensures !called
    {
      called := false;
    }
  }

  class ConnEntry {
    const id: nat
    const info: Info
    const cancel: CancelFunc?
    const conn: NetConn?

    constructor (id: nat, info: Info, cancel: CancelFunc?, conn: NetConn?)
      ensures this.id == id && this.info == info && this.cancel == cancel && this.conn == conn
    {
      this.id, this.info, this.cancel, this.conn := id, info, cancel, conn;
    }

    ghost predicate Killed()
      reads cancel, conn
    {
      && (cancel != null ==> cancel.called)
      && (conn != null ==> conn.closed)
    }

    method Kill()
      modifies cancel, conn
      ensures cancel != null ==> cancel.called
      ensures conn != null ==> conn.closed
    {
      if cancel != null {
        cancel.called := true;
      }
      if conn != null {
        conn.closed := true;
      }
    }
  }

  datatype ConnInfo = ConnInfo(id: nat, info: Info)

  /** The reports of some entries, in any order. */
  ghost predicate Reports(out: seq<ConnInfo>, entries: map<nat, Info>, ids: set<nat>) {
    && (forall i | 0 <= i < |out| :: out[i].id in ids && out[i].id in entries && out[i].info == entries[out[i].id])
    && (forall i, j | 0 <= i < j < |out| :: out[i].id != out[j].id)
    && (forall id <- ids :: exists i :: 0 <= i < |out| && out[i].id == id)
    && |out| == |ids|
  }

  ghost function TcpAmong(entries: map<nat, Info>, ids: set<nat>): set<nat> {
    set id | id in ids && id in entries && entries[id].network == "tcp"
  }

  lemma TcpMore(entries: map<nat, Info>, ids: set<nat>, id: nat)
    requires id in entries && id !in ids
    ensures |TcpAmong(entries, ids + {id})|
            == |TcpAmong(entries, ids)| + if entries[id].network == "tcp" then 1 else 0
  {
    assert TcpAmong(entries, ids + {id})
        == TcpAmong(entries, ids) + if entries[id].network == "tcp" then {id} else {};
  }

  lemma ReportsMore(out: seq<ConnInfo>, entries: map<nat, Info>, ids: set<nat>, id: nat)
    requires Reports(out, entries, ids) && id in entries && id !in ids
    ensures Reports(out + [ConnInfo(id, entries[id])], entries, ids + {id})
  {
    var more := out + [ConnInfo(id, entries[id])];
    forall x <- ids + {id} ensures exists i :: 0 <= i < |more| && more[i].id == x {
      if x == id {
        assert more[|out|].id == x;
      } else {
        var i :| 0 <= i < |out| && out[i].id == x;
        assert more[i].id == x;
      }
    }
  }

  class ConnTracker {
    var nextID: nat
    var entries: map<nat, ConnEntry>
    var byUser: map<int, set<nat>>

    ghost function View(): Registry
      reads this
    {
      Registry(nextID, map id | id in entries :: entries[id].info, byUser)
    }

    ghost predicate Valid()
      reads this
    {
      Indexed(View())
    }

    constructor ()
      ensures Valid() && View() == EMPTY
    {
      nextID, entries, byUser := 0, map[], map[];
    }

    method Register(session: Session, conn: NetConn?, cancel: CancelFunc?) returns (id: nat)
      requires Valid()
      modifies this
      ensures Valid()
      ensures View() == Registered(old(View()), InfoOf(session))
      ensures FiledUnder(View().entries, id, session)
      ensures id == nextID == old(nextID) + 1 && id !in old(entries)
      ensures id in entries && entries[id].conn == conn && entries[id].cancel == cancel
      ensures forall i <- old(entries) :: i in entries && entries[i] == old(entries[i])
    {
      var info := InfoOf(session);
      RegisterKeepsIndex(View(), info);
      ghost var was := View();
      nextID := nextID + 1;
      id := nextID;
      assert id !in entries;
      var e := new ConnEntry(id, info, cancel, conn);
      entries := entries[id := e];
      var bucket := if info.userID in byUser then byUser[info.userID] else {};
      byUser := byUser[info.userID := bucket + {id}];
      assert View().entries == was.entries[id := info];
      assert View() == Registered(was, info);
      FiledIs(View().entries, id, session);
    }

    method Unregister(id: nat)
      requires Valid()
      modifies this
      ensures Valid()
      ensures View() == Unregistered(old(View()), id)
      ensures forall i <- entries :: i in old(entries) && entries[i] == old(entries[i])
    {
      UnregisterKeepsIndex(View(), id);
      ghost var was := View();
      if id in entries {
        var e := entries[id];
        entries := entries - {id};
        if e.info.userID in byUser {
          var bucket := byUser[e.info.userID] - {id};
          byUser := byUser[e.info.userID := bucket];
          if bucket == {} {
            byUser := byUser - {e.info.userID};
          }
        }
        assert View().entries == was.entries - {id};
      }
      assert View() == Unregistered(was, id);
    }

    /** The connections and the cancel functions of some entries. */
    ghost function ConnsOf(ids: set<nat>): set<NetConn?>
      reads this
    {
      set id | id in ids && id in entries && entries[id].conn != null :: entries[id].conn
    }

    ghost function CancelsOf(ids: set<nat>): set<CancelFunc?>
      reads this
    {
      set id | id in ids && id in entries && entries[id].cancel != null :: entries[id].cancel
    }

    /** Closes the connections and calls the cancel functions of the victims, and of nobody else. */
    method KillEntries(victims: set<nat>)
      requires victims <= entries.Keys
      modifies ConnsOf(victims), CancelsOf(victims)
      ensures forall c <- ConnsOf(victims) :: c.closed
      ensures forall c <- CancelsOf(victims) :: c.called
    {
      var rest := victims;
      while rest != {}
        invariant rest <= victims
        invariant forall id <- victims - rest :: entries[id].cancel != null ==> entries[id].cancel.called
        invariant forall id <- victims - rest :: entries[id].conn != null ==> entries[id].conn.closed
        decreases |rest|
      {
        ghost var some := Member(rest);
        var id :| id in rest;
        assert entries[id].conn != null ==> entries[id].conn in ConnsOf(victims);
        assert entries[id].cancel != null ==> entries[id].cancel in CancelsOf(victims);
        entries[id].Kill();
        rest := rest - {id};
      }
    }

    /** Only an entry that is there can be killed; it stays registered until its dispatch returns. */
    method Kill(id: nat) returns (ok: bool)
      requires Valid()
      modifies ConnsOf({id}), CancelsOf({id})
      ensures ok <==> id in entries
      ensures ok ==> entries[id].Killed()
    {
      ok := id in entries;
      if ok {
        assert entries[id].conn != null ==> entries[id].conn in ConnsOf({id});
        assert entries[id].cancel != null ==> entries[id].cancel in CancelsOf({id});
        entries[id].Kill();
      }
    }

    /** Kills the connections of one user and returns how many dispatches of that user there were. */
    method KillByUser(userID: int) returns (n: nat)
      requires Valid()
      modifies ConnsOf(Matching(View().entries, OfUser(userID))), CancelsOf(Matching(View().entries, OfUser(userID)))
      ensures n == |Matching(View().entries, OfUser(userID))|
      ensures forall id <- entries :: entries[id].info.userID == userID ==> entries[id].Killed()
      ensures forall c <- ConnsOf(entries.Keys) ::
                c.closed <==> old(c.closed) || c in ConnsOf(Matching(View().entries, OfUser(userID)))
    {
      BucketMatches(View(), userID);
      var bucket := if userID in byUser then byUser[userID] else {};
      var victims := set id | id in bucket && id in entries;
      assert victims == bucket == Matching(View().entries, OfUser(userID));
      KillEntries(victims);
      n := |victims|;
    }

    method KillAll() returns (n: nat)
      requires Valid()
      modifies ConnsOf(entries.Keys), CancelsOf(entries.Keys)
      ensures n == |entries.Keys|
      ensures forall id <- entries :: entries[id].Killed()
    {
      KillEntries(entries.Keys);
      n := |entries.Keys|;
    }

    method Count() returns (n: nat)
      ensures n == |Matching(View().entries, ListedFor(0))|
    {
      n := |entries.Keys|;
      assert Matching(View().entries, ListedFor(0)) == entries.Keys;
    }

    method CountTCPByUser(userID: int) returns (n: nat)
      requires Valid()
      ensures n == |Matching(View().entries, TcpOf(userID))|
    {
      BucketMatches(View(), userID);
      n := 0;
      var rest := if userID in byUser then byUser[userID] else {};
      ghost var (bucket, es) := (rest, View().entries);
      while rest != {}
        invariant rest <= bucket
        invariant n == |TcpAmong(es, bucket - rest)|
        decreases |rest|
      {
        ghost var some := Member(rest);
        var id :| id in rest;
        TcpMore(es, bucket - rest, id);
        assert bucket - (rest - {id}) == (bucket - rest) + {id};
        if entries[id].info.network == "tcp" {
          n := n + 1;
        }
        rest := rest - {id};
      }
      assert bucket - rest == bucket;
      assert TcpAmong(es, bucket) == Matching(es, TcpOf(userID));
    }

    method Snapshot(asked: set<nat>) returns (out: seq<ConnInfo>)
      requires asked <= entries.Keys
      ensures Reports(out, View().entries, asked)
    {
      ghost var es := View().entries;
      out := [];
      var rest := asked;
      assert asked - rest == {};
      while rest != {}
        invariant rest <= asked
        invariant Reports(out, es, asked - rest)
        decreases |rest|
      {
        ghost var some := Member(rest);
        var id :| id in rest;
        ReportsMore(out, es, asked - rest, id);
        assert asked - (rest - {id}) == (asked - rest) + {id};
        out := out + [ConnInfo(id, entries[id].info)];
        rest := rest - {id};
      }
      assert asked - rest == asked;
    }

    /** A snapshot of one user's connections, or of all of them for user 0: each exactly once. */
    method List(userID: int) returns (out: seq<ConnInfo>)
      requires Valid()
      ensures Reports(out, View().entries, Matching(View().entries, ListedFor(userID)))
    {
      ghost var view := View();
      ListedMatches(view, userID);
      var asked := if userID == 0 then entries.Keys else if userID in byUser then byUser[userID] else {};
      assert asked == if userID == 0 then view.entries.Keys else Bucket(view, userID);
      out := Snapshot(asked);
    }
  }
}

/**
 The UDP demultiplexer of internal/conn/udp_listener.go: one socket, one pseudo-connection per
 client address, each with a queue of at most ten datagrams. One turn of the listen loop is one
 step; reads, writes, closes and the clock interleave with it freely.
 */
module UdpListener {
  import opened Base

  type Message = seq<Byte>

  const QUEUE_SIZE: nat := 10
  const UDP_BUFFER_SIZE: nat := 1500

  // --- the queue of one pseudo-connection ---

  /** A non-blocking send on the channel: the datagram is dropped when the queue is full. */
  function Enqueue(queue: seq<Message>, msg: Message): seq<Message> {
    if |queue| < QUEUE_SIZE then queue + [msg] else queue
  }

  datatype ReadResult = Data(bytes: seq<Byte>) | Empty | Eof

  /** What a pseudo-connection holds. */
  datatype Slot = Slot(queue: seq<Message>, lastActivity: int, closed: bool)

  /** One read. A closed channel delivers what it still holds, and then empty messages for ever. */
  function ReadSlot(u: Slot, size: nat, now: int, idleTimeout: int): (ReadResult, Slot) {
    if u.queue != [] then (Data(u.queue[0][..Min(size, |u.queue[0]|)]), u.(queue := u.queue[1..], lastActivity := now))
    else if u.closed then (Empty, u.(lastActivity := now))
    else if now - u.lastActivity > idleTimeout then (Eof, u)
    else (Empty, u)
  }

  /** The table of the listener, by address. */
  type Table = map<string, Slot>

  /** One turn of the listen loop. */
  function Heard(t: Table, addr: string, msg: Message, now: int): Table {
    var u := if addr in t then t[addr] else Slot([], now, false);
    t[addr := u.(queue := Enqueue(u.queue, msg))]
  }

  // --- the demultiplexer as a step system ---

  datatype Datagram = Datagram(addr: string, msg: Message)

  /** born and died are positions in the log of datagrams; received holds what was taken off the queue. */
  datatype Pseudo = Pseudo(
    addr: string,
    queue: seq<Message>,
    received: seq<Message>,
    lastActivity: int,
    born: nat,
    died: Option<nat>)

  datatype State = State(now: int, conns: map<string, nat>, ucs: seq<Pseudo>, log: seq<Datagram>)

  const INIT := State(0, map[], [], [])

  datatype Label =
    | Listen(d: Datagram)
    | Read(id: nat, size: nat)
    | Write(id: nat)
    | Close(id: nat)
    | Tick(to: int)

  predicate Live(s: State, id: nat) {
    id < |s.ucs| && s.ucs[id].died.None?
  }

  predicate Enabled(s: State, l: Label) {
    match l
    case Listen(d) => |d.msg| <= UDP_BUFFER_SIZE && (d.addr in s.conns ==> s.conns[d.addr] < |s.ucs|)
    case Read(id, _) => id < |s.ucs|
    case Write(id) => id < |s.ucs|
    case Close(id) => Live(s, id)
    case Tick(to) => s.now <= to
  }

  function OnListen(s: State, d: Datagram): State
    requires Enabled(s, Listen(d))
  {
    var s1 := if d.addr in s.conns then s
              else s.(conns := s.conns[d.addr := |s.ucs|],
                      ucs := s.ucs + [Pseudo(d.addr, [], [], s.now, |s.log|, None)]);
    var id := s1.conns[d.addr];
    var u := s1.ucs[id];
    s1.(ucs := s1.ucs[id := u.(queue := Enqueue(u.queue, d.msg))], log := s.log + [d])
  }

  function ResultOf(s: State, id: nat, size: nat, idleTimeout: int): ReadResult
    requires id < |s.ucs|
  {
    ReadSlot(SlotOf(s.ucs[id]), size, s.now, idleTimeout).0
  }

  function SlotOf(u: Pseudo): Slot {
    Slot(u.queue, u.lastActivity, u.died.Some?)
  }

  /** What the listener's table holds in a state of the step system. */
  function TableOf(s: State): Table {
    map a | a in s.conns && s.conns[a] < |s.ucs| :: SlotOf(s.ucs[s.conns[a]])
  }

  function OnRead(s: State, id: nat, size: nat): State
    requires id < |s.ucs|
  {
    var u := s.ucs[id];
    if u.queue == [] then (if Live(s, id) then s else s.(ucs := s.ucs[id := u.(lastActivity := s.now)]))
    else s.(ucs := s.ucs[id := u.(queue := u.queue[1..], received := u.received + [u.queue[0]], lastActivity := s.now)])
  }

  function Step(s: State, l: Label): State
    requires Enabled(s, l)
  {
    match l
    case Listen(d) => OnListen(s, d)
    case Read(id, size) => OnRead(s, id, size)
    case Write(id) => s.(ucs := s.ucs[id := s.ucs[id].(lastActivity := s.now)])
    case Close(id) => s.(conns := s.conns - {s.ucs[id].addr}, ucs := s.ucs[id := s.ucs[id].(died := Some(|s.log|))])
    case Tick(to) => s.(now := to)
  }

  /** A run is a list of states joined by enabled steps. */
  ghost predicate Execution(ls: seq<Label>, ss: seq<State>) {
    && |ss| == |ls| + 1 && ss[0] == INIT
    && forall i | 0 <= i < |ls| :: Enabled(ss[i], ls[i]) && ss[i + 1] == Step(ss[i], ls[i])
  }

  ghost predicate Reachable(s: State) {
    exists ls, ss :: Execution(ls, ss) && ss[|ls|] == s
  }

  // --- what the log says ---

  /** The datagrams of an address, in order. */
  function From(log: seq<Datagram>, addr: string): seq<Message> {
    if log == [] then []
    else
      var before := From(log[..|log| - 1], addr);
      if log[|log| - 1].addr == addr then before + [log[|log| - 1].msg] else before
  }

  /** a is obtained from b by leaving messages out. */
  predicate Subsequence(a: seq<Message>, b: seq<Message>)
    decreases |b|
  {
    if a == [] then true
    else if b == [] then false
    else
      (a[|a| - 1] == b[|b| - 1] && Subsequence(a[..|a| - 1], b[..|b| - 1])) || Subsequence(a, b[..|b| - 1])
  }

  /** The datagrams a pseudo-connection was there for. */
  function Lifetime(s: State, u: Pseudo): seq<Datagram> {
    var end := if u.died.Some? then u.died.value else |s.log|;
    if u.born <= end <= |s.log| then s.log[u.born..end] else []
  }

  ghost predicate PseudoInv(s: State, u: Pseudo) {
    && u.born <= |s.log|
    && (u.died.Some? ==> u.born <= u.died.value <= |s.log|)
    && |u.queue| <= QUEUE_SIZE
    && Subsequence(u.received + u.queue, From(Lifetime(s, u), u.addr))
    && (forall m <- u.queue :: |m| <= UDP_BUFFER_SIZE)
  }

  /** The table holds exactly the live pseudo-connections, under their addresses. */
  ghost predicate TableInv(s: State) {
    && (forall a <- s.conns :: Live(s, s.conns[a]) && s.ucs[s.conns[a]].addr == a)
    && (forall id: nat | Live(s, id) :: s.ucs[id].addr in s.conns && s.conns[s.ucs[id].addr] == id)
  }

  ghost predicate Inv(s: State) {
    TableInv(s) && forall i | 0 <= i < |s.ucs| :: PseudoInv(s, s.ucs[i])
  }

  lemma ListenKeepsTable(s: State, d: Datagram)
    requires TableInv(s) && Enabled(s, Listen(d))
    ensures TableInv(OnListen(s, d))
  {
  }

  lemma CloseKeepsTable(s: State, id: nat)
    requires TableInv(s) && Live(s, id)
    ensures TableInv(Step(s, Close(id)))
  {
  }

  lemma TableKept(s: State, l: Label)
    requires TableInv(s) && Enabled(s, l)
    ensures TableInv(Step(s, l))
  {
    if l.Listen? {
      ListenKeepsTable(s, l.d);
    } else if l.Close? {
      CloseKeepsTable(s, l.id);
    }
  }

  lemma LifetimeGrows(s: State, s': State, u: Pseudo, d: Datagram)
    requires u.born <= |s.log| && s'.log == s.log + [d]
    requires u.died.Some? ==> u.born <= u.died.value <= |s.log|
    ensures Lifetime(s', u) == if u.died.None? then Lifetime(s, u) + [d] else Lifetime(s, u)
  {
  }

  lemma LogGrows(s: State, s': State, u: Pseudo, d: Datagram)
    requires PseudoInv(s, u) && s'.log == s.log + [d]
    requires u.died.None? ==> u.addr != d.addr
    ensures PseudoInv(s', u)
  {
    LifetimeGrows(s, s', u, d);
  }

  lemma EnqueueInOrder(received: seq<Message>, queue: seq<Message>, sent: seq<Message>, msg: Message)
    requires Subsequence(received + queue, sent)
    ensures Subsequence(received + Enqueue(queue, msg), sent + [msg])
  {
    assert received + (queue + [msg]) == (received + queue) + [msg];
  }

  lemma QueueGrows(s: State, s': State, u: Pseudo, d: Datagram)
    requires PseudoInv(s, u) && s'.log == s.log + [d] && u.died.None? && u.addr == d.addr
    requires |d.msg| <= UDP_BUFFER_SIZE
    ensures PseudoInv(s', u.(queue := Enqueue(u.queue, d.msg)))
  {
    var u' := u.(queue := Enqueue(u.queue, d.msg));
    var life := Lifetime(s, u);
    LifetimeGrows(s, s', u', d);
    assert Lifetime(s', u') == life + [d];
    EnqueueInOrder(u.received, u.queue, From(life, u.addr), d.msg);
  }

  lemma ListenKeepsInv(s: State, d: Datagram)
    requires Inv(s) && Enabled(s, Listen(d))
    ensures Inv(OnListen(s, d))
  {
    TableKept(s, Listen(d));
    var s' := OnListen(s, d);
    var id := s'.conns[d.addr];
    forall i | 0 <= i < |s'.ucs| ensures PseudoInv(s', s'.ucs[i]) {
      if i != id {
        assert Live(s, i) ==> s.conns[s.ucs[i].addr] == i;
        LogGrows(s, s', s.ucs[i], d);
      } else if i < |s.ucs| {
        QueueGrows(s, s', s.ucs[i], d);
      } else {
        var u := Pseudo(d.addr, [], [], s.now, |s.log|, None);
        assert s.log[|s.log|..] == [];
        QueueGrows(s, s', u, d);
      }
    }
  }

  lemma Shifted(a: seq<Message>, b: seq<Message>)
    requires b != []
    ensures (a + [b[0]]) + b[1..] == a + b
  {
  }

  lemma ReadKeepsPseudo(s: State, id: nat, size: nat)
    requires id < |s.ucs| && PseudoInv(s, s.ucs[id])
    ensures var s' := OnRead(s, id, size); PseudoInv(s', s'.ucs[id])
  {
    var u := s.ucs[id];
    var s' := OnRead(s, id, size);
    var u' := s'.ucs[id];
    assert u'.received + u'.queue == u.received + u.queue by {
      if u.queue != [] {
        Shifted(u.received, u.queue);
      }
    }
  }

  lemma OthersKeepPseudo(s: State, l: Label, i: nat)
    requires !l.Listen? && Enabled(s, l) && i < |s.ucs| && PseudoInv(s, s.ucs[i])
    requires !(l.Read? && l.id == i)
    ensures i < |Step(s, l).ucs| && PseudoInv(Step(s, l), Step(s, l).ucs[i])
  {
  }

  lemma StepKeepsInv(s: State, l: Label)
    requires Inv(s) && Enabled(s, l)
    ensures Inv(Step(s, l))
  {
    TableKept(s, l);
    if l.Listen? {
      ListenKeepsInv(s, l.d);
    } else {
      var s' := Step(s, l);
      forall i | 0 <= i < |s'.ucs| ensures PseudoInv(s', s'.ucs[i]) {
        assert PseudoInv(s, s.ucs[i]);
        if l.Read? && l.id == i {
          ReadKeepsPseudo(s, i, l.size);
        } else {
          OthersKeepPseudo(s, l, i);
        }
      }
    }
  }

  lemma {:induction false} ExecutionInv(ls: seq<Label>, ss: seq<State>, n: nat)
    requires Execution(ls, ss) && n <= |ls|
    ensures Inv(ss[n])
  {
    if n > 0 {
      ExecutionInv(ls, ss, n - 1);
      StepKeepsInv(ss[n - 1], ls[n - 1]);
    }
  }

  lemma ReachableInv(s: State)
    requires Reachable(s)
    ensures Inv(s)
  {
    var ls, ss :| Execution(ls, ss) && ss[|ls|] == s;
    ExecutionInv(ls, ss, |ls|);
  }

  // --- main results ---

  /** What a pseudo-connection has received and still has queued is an in-order subsequence of the
      datagrams its address sent while it lived, and never more than ten wait. */
  lemma InOrderDelivery(s: State, id: nat)
    requires Reachable(s) && id < |s.ucs|
    ensures var u := s.ucs[id];
            && u.born <= (if u.died.Some? then u.died.value else |s.log|) <= |s.log|
            && Subsequence(u.received + u.queue, From(Lifetime(s, u), u.addr))
            && |u.queue| <= 10
  {
    ReachableInv(s);
    assert PseudoInv(s, s.ucs[id]);
  }

  /** No two live pseudo-connections share an address, and the table finds the live one. */
  lemma OneLivePerAddress(s: State, i: nat, j: nat)
    requires Reachable(s) && Live(s, i) && Live(s, j) && s.ucs[i].addr == s.ucs[j].addr
    ensures i == j && s.ucs[i].addr in s.conns && s.conns[s.ucs[i].addr] == i
  {
    ReachableInv(s);
  }

  /** A datagram goes to the live pseudo-connection of its address, creating one if there is none;
      it is dropped exactly when ten datagrams wait there, and no other queue changes. */
  lemma DroppedExactlyWhenFull(s: State, d: Datagram)
    requires Reachable(s) && Enabled(s, Listen(d))
    ensures var s' := OnListen(s, d);
      && d.addr in s'.conns && Live(s', s'.conns[d.addr])
      && var id := s'.conns[d.addr];
      && (d.addr in s.conns <==> id < |s.ucs|)
      && s'.ucs[id].queue == (var before := if id < |s.ucs| then s.ucs[id].queue else [];
                              if |before| == 10 then before else before + [d.msg])
      && (forall i: nat | i < |s.ucs| && i != id :: s'.ucs[i] == s.ucs[i])
  {
    ReachableInv(s);
    TableKept(s, Listen(d));
  }

  lemma QueuedFit(s: State, id: nat)
    requires Reachable(s) && id < |s.ucs|
    ensures forall i | 0 <= i < |s.ucs[id].queue| :: |s.ucs[id].queue[i]| <= UDP_BUFFER_SIZE
  {
    ReachableInv(s);
    assert PseudoInv(s, s.ucs[id]);
  }

  /** A read returns the oldest queued datagram whole if its buffer holds a full UDP buffer, also after
      the close; end of file means not closed, an empty queue and more than the idle timeout without a
      read or write. */
  lemma ReadIsWhole(s: State, id: nat, size: nat, idleTimeout: int)
    requires Reachable(s) && id < |s.ucs| && size >= 1500
    ensures var u := s.ucs[id]; var r := ResultOf(s, id, size, idleTimeout);
      && (u.queue != [] <==> r.Data?)
      && (r.Data? ==> r.bytes == u.queue[0])
      && (r.Eof? <==> Live(s, id) && u.queue == [] && s.now - u.lastActivity > idleTimeout)
  {
    QueuedFit(s, id);
  }

  // --- when a pseudo-connection ends ---

  /** Whether a step is activity of a pseudo-connection: a datagram that creates it, a read that takes one
      (or finds the channel closed), or a write. */
  predicate Touches(s: State, l: Label, id: nat) {
    || (id == |s.ucs| && l.Listen?)
    || (id < |s.ucs| && l == Write(id))
    || (id < |s.ucs| && l.Read? && l.id == id && (s.ucs[id].queue != [] || s.ucs[id].died.Some?))
  }

  /** The time of the last such step among the first n. */
  function LastTouch(ls: seq<Label>, ss: seq<State>, n: nat, id: nat): int
    requires n <= |ls| <= |ss|
  {
    if n == 0 then 0
    else if Touches(ss[n - 1], ls[n - 1], id) then ss[n - 1].now
    else LastTouch(ls, ss, n - 1, id)
  }

  lemma {:induction false} TouchIs(ls: seq<Label>, ss: seq<State>, n: nat, id: nat)
    requires Execution(ls, ss) && n <= |ls| && id < |ss[n].ucs|
    ensures ss[n].ucs[id].lastActivity == LastTouch(ls, ss, n, id)
  {
    if n > 0 {
      if !Touches(ss[n - 1], ls[n - 1], id) {
        TouchIs(ls, ss, n - 1, id);
      }
    }
  }

  /** Over every run: a read of a pseudo-connection finds the end of file exactly when it is open, nothing
      is queued, and more than the idle timeout has passed since its creation, the last datagram it
      delivered and the last write to it. */
  lemma EofExactly(ls: seq<Label>, ss: seq<State>, n: nat, id: nat, size: nat, idleTimeout: int)
    requires Execution(ls, ss) && n <= |ls| && id < |ss[n].ucs|
    ensures ResultOf(ss[n], id, size, idleTimeout).Eof?
            <==> Live(ss[n], id) && ss[n].ucs[id].queue == [] && ss[n].now - LastTouch(ls, ss, n, id) > idleTimeout
  {
    TouchIs(ls, ss, n, id);
  }

  // --- the steps are what the objects do ---

  predicate AgreeAt(t: Table, t': Table, a: string) {
    (a in t <==> a in t') && (a in t ==> t[a] == t'[a])
  }

  lemma SameTable(t: Table, t': Table)
    requires forall a :: AgreeAt(t, t', a)
    ensures t == t'
  {
    forall a ensures (a in t <==> a in t') && (a in t ==> t[a] == t'[a]) {
      assert AgreeAt(t, t', a);
    }
  }

  lemma TableHolds(s: State, l: Label)
    requires Reachable(s) && Enabled(s, l)
    ensures TableInv(s) && TableInv(Step(s, l))
  {
    ReachableInv(s);
    TableKept(s, l);
  }

  /** A turn of the listen loop changes the table as the listener's method does. */
  lemma ListenIsHeard(s: State, d: Datagram)
    requires Reachable(s) && Enabled(s, Listen(d))
    ensures TableOf(OnListen(s, d)) == Heard(TableOf(s), d.addr, d.msg, s.now)
  {
    TableHolds(s, Listen(d));
    SameTable(TableOf(OnListen(s, d)), Heard(TableOf(s), d.addr, d.msg, s.now));
  }

  lemma ReadAt(s: State, id: nat, size: nat, a: string)
    requires TableInv(s) && id < |s.ucs| && a in s.conns && s.conns[a] != id
    ensures SlotOf(OnRead(s, id, size).ucs[s.conns[a]]) == SlotOf(s.ucs[s.conns[a]])
  {
  }

  function AfterRead(s: State, id: nat, u: Slot): Table
    requires id < |s.ucs|
  {
    if Live(s, id) then TableOf(s)[s.ucs[id].addr := u] else TableOf(s)
  }

  lemma ReadTableAt(s: State, id: nat, size: nat, a: string)
    requires TableInv(s) && id < |s.ucs| && TableInv(OnRead(s, id, size))
    ensures AgreeAt(TableOf(OnRead(s, id, size)), AfterRead(s, id, SlotOf(OnRead(s, id, size).ucs[id])), a)
  {
    if a in s.conns && s.conns[a] != id {
      ReadAt(s, id, size, a);
    }
  }

  /** A read changes its pseudo-connection as its method does, and no other. */
  lemma ReadIsReadSlot(s: State, id: nat, size: nat, idleTimeout: int)
    requires Reachable(s) && id < |s.ucs|
    ensures var u := ReadSlot(SlotOf(s.ucs[id]), size, s.now, idleTimeout).1;
            SlotOf(OnRead(s, id, size).ucs[id]) == u && TableOf(OnRead(s, id, size)) == AfterRead(s, id, u)
  {
    TableHolds(s, Read(id, size));
    var u := SlotOf(OnRead(s, id, size).ucs[id]);
    forall a ensures AgreeAt(TableOf(OnRead(s, id, size)), AfterRead(s, id, u), a) {
      ReadTableAt(s, id, size, a);
    }
    SameTable(TableOf(OnRead(s, id, size)), AfterRead(s, id, u));
  }

  /** A close takes its pseudo-connection out of the table. */
  lemma CloseIsRemoval(s: State, id: nat)
    requires Reachable(s) && Live(s, id)
    ensures TableOf(Step(s, Close(id))) == TableOf(s) - {s.ucs[id].addr}
    ensures SlotOf(Step(s, Close(id)).ucs[id]) == SlotOf(s.ucs[id]).(closed := true)
  {
    TableHolds(s, Close(id));
    SameTable(TableOf(Step(s, Close(id))), TableOf(s) - {s.ucs[id].addr});
  }

  // --- the objects ---

  class Uc {
    const addr: string
    var msgCh: seq<Message>
    var lastActivity: int
    var closed: bool

    function View(): Slot
      reads this
    {
      Slot(msgCh, lastActivity, closed)
    }

    constructor (addr: string, now: int)
      ensures this.addr == addr && View() == Slot([], now, false)
    {
      this.addr, this.msgCh, this.lastActivity, this.closed := addr, [], now, false;
    }

    method Read(size: nat, now: int, idleTimeout: int) returns (r: ReadResult)
      modifies this
      ensures (r, View()) == ReadSlot(old(View()), size, now, idleTimeout)
    {
      if |msgCh| > 0 {
        var msg := msgCh[0];
        msgCh := msgCh[1..];
        lastActivity := now;
        return Data(msg[..Min(size, |msg|)]);
      }
      if closed {
        lastActivity := now;
        return Empty;
      }
      if now - lastActivity > idleTimeout {
        return Eof;
      }
      return Empty;
    }

    /** The non-blocking send of the listen loop. */
    method Offer(msg: Message)
      modifies this`msgCh
      ensures View() == old(View()).(queue := Enqueue(old(msgCh), msg))
    {
      if |msgCh| < QUEUE_SIZE {
        msgCh := msgCh + [msg];
      }
    }

    /** The datagram is sent, or not; either way the pseudo-connection was active. */
    method Write(now: int)
      modifies this
      ensures View() == old(View()).(lastActivity := now)
    {
      lastActivity := now;
    }
  }

  class UDPListener {
    var conns: map<string, Uc>

    ghost predicate Valid()
      reads this, conns.Values
    {
      forall a <- conns :: conns[a].addr == a && !conns[a].closed
    }

    ghost function View(): Table
      reads this, conns.Values
    {
      map a | a in conns :: conns[a].View()
    }

    constructor ()
      ensures Valid() && conns == map[] && View() == map[]
    {
      conns := map[];
    }

    /** The pseudo-connection of an address, created if there is none. */
    method Find(addr: string, now: int) returns (c: Uc, created: Option<Uc>)
      requires Valid()
      modifies this
      ensures Valid() && addr in conns && conns[addr] == c
      ensures View() == if addr in old(conns) then old(View()) else old(View())[addr := Slot([], now, false)]
      ensures if addr in old(conns) then created.None? && conns == old(conns)
              else created == Some(c) && fresh(c) && conns == old(conns)[addr := c]
    {
      created := None;
      if addr !in conns {
        var u := new Uc(addr, now);
        conns := conns[addr := u];
        created := Some(u);
      }
      c := conns[addr];
    }

    /** One turn of the listen loop after a datagram came in. */
    method Handle(addr: string, msg: Message, now: int) returns (created: Option<Uc>)
      requires Valid()
      modifies this, conns.Values
      ensures Valid() && addr in conns && View() == Heard(old(View()), addr, msg, now)
      ensures if addr in old(conns) then created.None? && conns == old(conns)
              else created.Some? && fresh(created.value) && conns == old(conns)[addr := created.value]
    {
      var c;
      c, created := Find(addr, now);
      ghost var slots := View();
      forall a <- conns | a != addr ensures conns[a] != c {
        assert conns[a].addr == a;
      }
      c.Offer(msg);
      assert View() == slots[addr := c.View()];
    }

    /** uc.Close: the address is free again, whoever holds it now, and the channel is closed; closing it
        a second time panics. */
    method Close(u: Uc) returns (panics: bool)
      requires Valid()
      modifies this, u
      ensures Valid() && conns == old(conns) - {u.addr} && View() == old(View()) - {u.addr}
      ensures panics == old(u.closed) && u.View() == old(u.View()).(closed := true)
    {
      conns := conns - {u.addr};
      panics := u.closed;
      u.closed := true;
      forall a <- conns ensures conns[a].View() == old(conns[a].View()) {
        assert conns[a].addr == a;
      }
    }
  }
}

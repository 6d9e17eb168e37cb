/**
 One side of the relay: innerConn of internal/conn/relay_conn.go, whose Read retries on a
 timeout until the side has been idle too long. The other direction writes to the same side
 while a read waits; the times of its successful writes are given.
 */
module InnerConn {
  import opened Base

  datatype Incoming = Bytes(bytes: seq<Byte>) | Eof | Broken(code: int)

  datatype Arrival = Never | Arrives(at: int, what: Incoming)

  datatype NetRead = TimedOut | Arrived(what: Incoming)

  datatype ReadResult = ErrIdleTimeout | DeadlineRefused | Returned(what: Incoming)

  // --- what a read returns, and when ---

  /** The last activity on the side by time t: its own, or a write of the other direction. */
  function LastTouch(active: int, writes: seq<int>, t: int): int {
    if writes == [] then active
    else
      var w := writes[|writes| - 1];
      var before := LastTouch(active, writes[..|writes| - 1], t);
      if w <= t then Max(w, before) else before
  }

  function Latest(active: int, writes: seq<int>): int {
    if writes == [] then active else Max(writes[|writes| - 1], Latest(active, writes[..|writes| - 1]))
  }

  lemma {:induction false} TouchMonotone(active: int, writes: seq<int>, t: int, later: int)
    requires t <= later
    ensures active <= LastTouch(active, writes, t) <= LastTouch(active, writes, later) <= Latest(active, writes)
  {
    if writes != [] {
      TouchMonotone(active, writes[..|writes| - 1], t, later);
    }
  }

  /** Knowing the last touch at one time is enough to know it at every later one. */
  lemma {:induction false} TouchAgain(active: int, writes: seq<int>, t: int, later: int)
    requires t <= later
    ensures LastTouch(LastTouch(active, writes, t), writes, later) == LastTouch(active, writes, later)
    ensures Latest(LastTouch(active, writes, t), writes) == Latest(active, writes)
  {
    TouchMonotone(active, writes, t, later);
    TouchIsMax(active, LastTouch(active, writes, t), writes, later);
    LatestIsMax(active, LastTouch(active, writes, t), writes);
  }

  lemma {:induction false} TouchIsMax(active: int, base: int, writes: seq<int>, t: int)
    requires active <= base
    ensures LastTouch(base, writes, t) == Max(base, LastTouch(active, writes, t))
  {
    if writes != [] {
      TouchIsMax(active, base, writes[..|writes| - 1], t);
    }
    TouchMonotone(active, writes, t, t);
  }

  lemma {:induction false} LatestIsMax(active: int, base: int, writes: seq<int>)
    requires active <= base
    ensures Latest(base, writes) == Max(base, Latest(active, writes))
  {
    if writes != [] {
      LatestIsMax(active, base, writes[..|writes| - 1]);
    }
    TouchMonotone(active, writes, 0, 0);
  }

  /** How a read to which nothing arrives ends: it gives up at a deadline, or is refused a deadline
      because the connection is broken by then. */
  datatype End = IdleAt(t: int) | RefusedAt(t: int)

  predicate Refuses(broken: Option<int>, now: int) {
    broken.Some? && broken.value <= now
  }

  function EndOf(now: int, active: int, writes: seq<int>, readTimeout: int, idleTimeout: int, broken: Option<int>): End
    requires readTimeout > 0
    decreases Max(0, Latest(active, writes) + idleTimeout - now)
  {
    var deadline := now + readTimeout;
    TouchMonotone(active, writes, deadline, deadline);
    if Refuses(broken, now) then RefusedAt(now)
    else if deadline - LastTouch(active, writes, deadline) > idleTimeout then IdleAt(deadline)
    else EndOf(deadline, active, writes, readTimeout, idleTimeout, broken)
  }

  /** The idle bound: giving up means the side was idle for longer than the timeout, and happens
      within one read timeout of the call or of the moment the side became idle. A refusal comes no
      later than that moment, and never without the connection being broken. */
  lemma {:induction false} IdleBound(now: int, active: int, writes: seq<int>, readTimeout: int, idleTimeout: int,
                                     broken: Option<int>)
    requires readTimeout > 0
    ensures var e := EndOf(now, active, writes, readTimeout, idleTimeout, broken);
            var touched := LastTouch(active, writes, e.t);
            if e.IdleAt? then e.t - touched > idleTimeout && now < e.t <= Max(now, touched + idleTimeout) + readTimeout
            else Refuses(broken, e.t) && now <= e.t <= Max(now, touched + idleTimeout)
    decreases Max(0, Latest(active, writes) + idleTimeout - now)
  {
    var deadline := now + readTimeout;
    TouchMonotone(active, writes, deadline, deadline);
    if !Refuses(broken, now) && deadline - LastTouch(active, writes, deadline) <= idleTimeout {
      IdleBound(deadline, active, writes, readTimeout, idleTimeout, broken);
      TouchMonotone(active, writes, deadline, EndOf(now, active, writes, readTimeout, idleTimeout, broken).t);
    }
  }

  /** One turn of the retry loop that is granted its deadline: the read ends there or later. */
  lemma OneDeadline(now: int, active: int, writes: seq<int>, readTimeout: int, idleTimeout: int, broken: Option<int>)
    requires readTimeout > 0 && !Refuses(broken, now)
    ensures var deadline := now + readTimeout;
            var end := EndOf(now, active, writes, readTimeout, idleTimeout, broken);
            var idle := deadline - LastTouch(active, writes, deadline) > idleTimeout;
            && deadline <= end.t
            && (if idle then end == IdleAt(deadline)
                else end == EndOf(deadline, active, writes, readTimeout, idleTimeout, broken)
                     && deadline <= Latest(active, writes) + idleTimeout)
  {
    var deadline := now + readTimeout;
    TouchMonotone(active, writes, deadline, deadline);
    IdleBound(deadline, active, writes, readTimeout, idleTimeout, broken);
  }

  /** What a read of at most size bytes takes of what arrived. */
  function Taken(what: Incoming, size: nat): Incoming {
    if what.Bytes? then Bytes(what.bytes[..Min(size, |what.bytes|)]) else what
  }

  function Length(r: ReadResult): nat {
    if r.Returned? && r.what.Bytes? then |r.what.bytes| else 0
  }

  /** What is still to arrive after a read of at most size bytes: nothing it left is lost. */
  function Rest(a: Arrival, size: nat, now: int): Arrival {
    if a.Arrives? && a.what.Bytes? then
      var b := a.what.bytes;
      if size < |b| then Arrives(now, Bytes(b[size..])) else Never
    else a
  }

  /** A read takes as much as fits of what arrived, and leaves exactly the rest. */
  lemma ReadLosesNothing(b: seq<Byte>, at: int, size: nat, now: int)
    ensures var left := Rest(Arrives(at, Bytes(b)), size, now);
      && Taken(Bytes(b), size).Bytes? && |Taken(Bytes(b), size).bytes| == Min(size, |b|)
      && b == Taken(Bytes(b), size).bytes + (if left.Arrives? && left.what.Bytes? then left.what.bytes else [])
  {
  }

  // --- the objects ---

  class Stats {
    var Up: int
    var Down: int

    constructor ()
      ensures Up == 0 && Down == 0
    {
      Up, Down := 0, 0;
    }

    method Record(up: int, down: int)
      modifies this
      ensures Up == old(Up) + up && Down == old(Down) + down
    {
      Up := Up + up;
      Down := Down + down;
    }
  }

  /** The wrapped net.Conn, with its clock: something arrives on it at some time, or never; from the
      time broken on, if there is one, it takes no deadline. */
  class NetConn {
    const broken: Option<int>
    var now: int
    var readDeadline: int
    var arrival: Arrival

    constructor (now: int, arrival: Arrival, broken: Option<int>)
      ensures this.now == now && this.arrival == arrival && this.broken == broken
    {
      this.now, this.readDeadline, this.arrival, this.broken := now, now, arrival, broken;
    }

    method SetReadDeadline(deadline: int) returns (ok: bool)
      modifies this`readDeadline
      ensures ok == !Refuses(broken, now)
      ensures readDeadline == if ok then deadline else old(readDeadline)
    {
      ok := !Refuses(broken, now);
      if ok {
        readDeadline := deadline;
      }
    }

    /** Returns what arrives by the deadline, at most size bytes of it, or times out. */
    method Read(size: nat) returns (r: NetRead)
      modifies this`now, this`arrival
      ensures old(arrival).Arrives? && old(arrival).at <= readDeadline ==>
                && now == Max(old(now), old(arrival).at)
                && arrival == Rest(old(arrival), size, now)
                && r == Arrived(Taken(old(arrival).what, size))
      ensures !(old(arrival).Arrives? && old(arrival).at <= readDeadline) ==>
                r == TimedOut && now == Max(old(now), readDeadline) && arrival == old(arrival)
    {
      if arrival.Arrives? && arrival.at <= readDeadline {
        now := Max(now, arrival.at);
        r := Arrived(Taken(arrival.what, size));
        arrival := Rest(arrival, size, now);
      } else {
        now := Max(now, readDeadline);
        r := TimedOut;
      }
    }

    /** Sends any prefix of p, with or without an error; a short write without one is possible. */
    method Write(p: seq<Byte>, sent: nat, failed: bool) returns (n: nat, ok: bool)
      requires sent <= |p|
      ensures n == sent && ok == !failed
    {
      n, ok := sent, !failed;
    }
  }

  class InnerConn {
    const conn: NetConn
    const stats: Stats
    const readTimeout: int
    const idleTimeout: int
    var lastActive: int

    constructor (conn: NetConn, stats: Stats, readTimeout: int, idleTimeout: int)
      ensures this.conn == conn && this.stats == stats && lastActive == conn.now
      ensures this.readTimeout == readTimeout && this.idleTimeout == idleTimeout
    {
      this.conn, this.stats := conn, stats;
      this.readTimeout, this.idleTimeout := readTimeout, idleTimeout;
      lastActive := conn.now;
    }

    /** Read returns the arrival if it comes before the side gives up or is refused a deadline, and the
        error of that moment otherwise. Only a read without error is counted and noted as activity. */
    method Read(size: nat, writes: seq<int>) returns (r: ReadResult)
      requires readTimeout > 0
      modifies this, conn, stats
      ensures var end := EndOf(old(conn.now), old(lastActive), writes, readTimeout, idleTimeout, conn.broken);
              var a := old(conn.arrival);
              if a.Arrives? && a.at <= end.t && end != RefusedAt(old(conn.now)) then
                && conn.now == Max(old(conn.now), a.at)
                && conn.arrival == Rest(a, size, conn.now)
                && r == Returned(Taken(a.what, size))
              else
                && r == (if end.IdleAt? then ErrIdleTimeout else DeadlineRefused)
                && conn.now == end.t && conn.arrival == a
      ensures r.ErrIdleTimeout? ==> conn.now - LastTouch(old(lastActive), writes, conn.now) > idleTimeout
      ensures r.DeadlineRefused? ==> Refuses(conn.broken, conn.now)
      ensures stats.Up == old(stats.Up) && stats.Down == old(stats.Down) + Length(r)
      ensures lastActive == if r.Returned? && r.what.Bytes? then conn.now
                            else if conn.now == old(conn.now) && r.DeadlineRefused? then old(lastActive)
                            else LastTouch(old(lastActive), writes, conn.now)
    {
      ghost var first := lastActive;
      ghost var end := EndOf(conn.now, first, writes, readTimeout, idleTimeout, conn.broken);
      IdleBound(conn.now, first, writes, readTimeout, idleTimeout, conn.broken);
      while true
        invariant old(conn.now) <= conn.now && conn.arrival == old(conn.arrival)
        invariant stats.Up == old(stats.Up) && stats.Down == old(stats.Down)
        invariant lastActive == if conn.now == old(conn.now) then first else LastTouch(first, writes, conn.now)
        invariant conn.now > old(conn.now) && conn.arrival.Arrives? ==> conn.arrival.at > conn.now
        invariant EndOf(conn.now, first, writes, readTimeout, idleTimeout, conn.broken) == end
        decreases Max(0, Latest(first, writes) + idleTimeout - conn.now)
      {
        var deadline := conn.now + readTimeout;
        var granted := conn.SetReadDeadline(deadline);
        if !granted {
          return DeadlineRefused;
        }
        OneDeadline(conn.now, first, writes, readTimeout, idleTimeout, conn.broken);
        ghost var before := conn.now;
        var got := conn.Read(size);
        TouchAgain(first, writes, before, conn.now);
        lastActive := LastTouch(lastActive, writes, conn.now); // the other direction's updates meanwhile
        if got.Arrived? {
          if got.what.Bytes? {
            stats.Record(0, |got.what.bytes|);
            lastActive := conn.now;
          }
          return Returned(got.what);
        }
        var since := conn.now - lastActive;
        if since > idleTimeout {
          return ErrIdleTimeout;
        }
      }
    }

    /** Only a write without error is counted and noted as activity. */
    method Write(p: seq<Byte>, sent: nat, failed: bool) returns (n: nat, ok: bool)
      requires sent <= |p|
      modifies this, stats
      ensures n == sent && ok == !failed
      ensures stats.Down == old(stats.Down) && stats.Up == old(stats.Up) + if ok then n else 0
      ensures lastActive == if ok then conn.now else old(lastActive)
    {
      n, ok := conn.Write(p, sent, failed);
      if ok {
        stats.Record(n, 0);
        lastActive := conn.now;
      }
    }
  }
}

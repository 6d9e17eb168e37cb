/**
 The per-IP rate limiter of pkg/limiter/limiter.go: a two-generation cache that throws
 idle token buckets away, and the reason nobody can tell. Times and rates are reals (seconds
 and tokens per second); one timestamp stands for all clock readings of one call.
 */
module Limiter {
  const GC_INTERVAL: real := 60.0

  /** The rate and the capacity every bucket of one limiter shares. */
  datatype Params = Params(limit: real, burst: nat)

  /** The state of one token bucket: what it held when it last let a request through. */
  datatype Bucket = Bucket(tokens: real, last: real)

  /** A bucket starts full, with the zero time as its last event. */
  function Fresh(p: Params): Bucket {
    Bucket(p.burst as real, 0.0)
  }

  /** Tokens that arrive between two moments. */
  function Refill(p: Params, from: real, to: real): real {
    p.limit * (to - from)
  }

  /** Tokens available at time t: refilled at the limit rate, capped at the burst. */
  function Level(p: Params, b: Bucket, t: real): real {
    var since := if t < b.last then t else b.last;
    var refilled := b.tokens + Refill(p, since, t);
    if refilled > p.burst as real then p.burst as real else refilled
  }

  function Take(p: Params, b: Bucket, t: real): (bool, Bucket) {
    var level := Level(p, b, t);
    if level >= 1.0 then (true, Bucket(level - 1.0, t)) else (false, b)
  }

  /** The contract of a token bucket: a request is let through exactly when a token is there, counting what
      arrived since the last one up to the burst, and takes it. */
  lemma TakeIs(p: Params, b: Bucket, t: real)
    requires b.last <= t
    ensures var arrived := b.tokens + p.limit * (t - b.last);
            var there := if arrived > p.burst as real then p.burst as real else arrived;
            Take(p, b, t) == if there >= 1.0 then (true, Bucket(there - 1.0, t)) else (false, b)
    ensures Fresh(p).tokens == p.burst as real
  {
    var arrived := Refill(p, b.last, t);
    assert arrived == p.limit * (t - b.last);
    assert Level(p, b, t) == if b.tokens + arrived > p.burst as real then p.burst as real else b.tokens + arrived;
  }

  // --- the two-generation cache as a value ---

  datatype Cache = Cache(previous: map<string, Bucket>, current: map<string, Bucket>, lastGc: real)

  function Fetch(p: Params, c: Cache, ip: string): Cache {
    if ip in c.current then c
    else if ip in c.previous then
      Cache(c.previous - {ip}, c.current[ip := c.previous[ip]], c.lastGc)
    else c.(current := c.current[ip := Fresh(p)])
  }

  function Collect(c: Cache, now: real): Cache {
    if now - c.lastGc > GC_INTERVAL then Cache(c.current, map[], now) else c
  }

  function Put(c: Cache, ip: string, b: Bucket): Cache {
    if ip in c.current then c.(current := c.current[ip := b]) else c.(previous := c.previous[ip := b])
  }

  /** One CanServe call: fetch the bucket, collect if the interval passed, take a token. */
  function Serve(p: Params, c: Cache, ip: string, now: real): (bool, Cache) {
    var fetched := Fetch(p, c, ip);
    var (ok, b) := Take(p, fetched.current[ip], now);
    (ok, Put(Collect(fetched, now), ip, b))
  }

  // --- the reference: one permanent bucket per IP ---

  function Remembered(p: Params, m: map<string, Bucket>, ip: string): Bucket {
    if ip in m then m[ip] else Fresh(p)
  }

  function Permanent(p: Params, m: map<string, Bucket>, ip: string, now: real): (bool, map<string, Bucket>) {
    var (ok, b) := Take(p, Remembered(p, m, ip), now);
    (ok, m[ip := b])
  }

  // --- runs of calls ---

  datatype Call = Call(ip: string, at: real)

  function Answers(p: Params, c: Cache, calls: seq<Call>): seq<bool>
    decreases |calls|
  {
    if calls == [] then []
    else
      var (ok, c') := Serve(p, c, calls[0].ip, calls[0].at);
      [ok] + Answers(p, c', calls[1..])
  }

  function PermanentAnswers(p: Params, m: map<string, Bucket>, calls: seq<Call>): seq<bool>
    decreases |calls|
  {
    if calls == [] then []
    else
      var (ok, m') := Permanent(p, m, calls[0].ip, calls[0].at);
      [ok] + PermanentAnswers(p, m', calls[1..])
  }

  ghost predicate Ordered(start: real, calls: seq<Call>)
    decreases |calls|
  {
    calls != [] ==> start <= calls[0].at && Ordered(calls[0].at, calls[1..])
  }

  function NewCache(start: real): Cache {
    Cache(map[], map[], start)
  }

  // --- the refinement ---

  ghost predicate FullAt(p: Params, b: Bucket, t: real) {
    b.last <= t && b.tokens + Refill(p, b.last, t) >= p.burst as real
  }

  /** The cache and the permanent map agree on every IP the cache still holds, and every IP
      it has dropped was already full when it was dropped. */
  ghost predicate Coupled(p: Params, c: Cache, m: map<string, Bucket>, now: real) {
    && c.lastGc <= now
    && c.current.Keys !! c.previous.Keys
    && (forall ip <- c.current :: ip in m && m[ip] == c.current[ip])
    && (forall ip <- c.previous :: ip in m && m[ip] == c.previous[ip] && m[ip].last <= c.lastGc)
    && (forall ip <- m :: m[ip].last <= now && m[ip].tokens >= 0.0)
    && (forall ip <- m | ip !in c.current && ip !in c.previous :: FullAt(p, m[ip], c.lastGc))
    && (p.burst == 0 ==> forall ip <- m :: m[ip] == Fresh(p))
  }

  lemma RefillMonotone(p: Params, from: real, t: real, later: real)
    requires p.limit >= 0.0 && t <= later
    ensures Refill(p, from, t) <= Refill(p, from, later)
  {
    assert p.limit * (later - t) >= 0.0;
    assert p.limit * (later - from) == p.limit * (t - from) + p.limit * (later - t);
  }

  /** A bucket left alone for longer than the collection interval is full. */
  lemma IdleBucketIsFull(p: Params, b: Bucket, t: real)
    requires p.limit >= 0.0 && p.burst as real <= p.limit * GC_INTERVAL
    requires b.tokens >= 0.0 && t - b.last > GC_INTERVAL
    ensures FullAt(p, b, t)
  {
    RefillMonotone(p, b.last, b.last + GC_INTERVAL, t);
  }

  lemma FullStaysFull(p: Params, b: Bucket, t: real, later: real)
    requires p.limit >= 0.0 && FullAt(p, b, t) && t <= later
    ensures FullAt(p, b, later) && Level(p, b, later) == p.burst as real
  {
    RefillMonotone(p, b.last, t, later);
  }

  lemma FreshIsFull(p: Params, t: real)
    requires p.limit >= 0.0 && t >= 0.0
    ensures FullAt(p, Fresh(p), t) && Level(p, Fresh(p), t) == p.burst as real
  {
    RefillMonotone(p, 0.0, 0.0, t);
  }

  /** Collecting keeps the coupling: what falls out of the old generation has been idle for
      more than the interval. */
  lemma CollectKeepsCoupling(p: Params, c: Cache, m: map<string, Bucket>, now: real)
    requires p.limit >= 0.0 && p.burst as real <= p.limit * GC_INTERVAL
    requires Coupled(p, c, m, now)
    ensures Coupled(p, Collect(c, now), m, now)
  {
    if now - c.lastGc > GC_INTERVAL {
      forall ip <- m | ip !in c.current ensures FullAt(p, m[ip], now) {
        if ip in c.previous {
          IdleBucketIsFull(p, m[ip], now);
        } else {
          FullStaysFull(p, m[ip], c.lastGc, now);
        }
      }
    }
  }

  lemma PromoteKeepsCoupling(p: Params, c: Cache, m: map<string, Bucket>, ip: string, now: real)
    requires Coupled(p, c, m, now) && ip !in c.current && ip in c.previous
    ensures Coupled(p, Fetch(p, c, ip), m, now) && m[ip := Fetch(p, c, ip).current[ip]] == m
  {
  }

  lemma NewKeepsCoupling(p: Params, c: Cache, m: map<string, Bucket>, ip: string, now: real)
    requires p.limit >= 0.0 && now >= 0.0
    requires Coupled(p, c, m, now) && ip !in c.current && ip !in c.previous
    ensures Coupled(p, Fetch(p, c, ip), m[ip := Fresh(p)], now)
    ensures Take(p, Fresh(p), now) == Take(p, Remembered(p, m, ip), now)
  {
    FreshIsFull(p, now);
    if ip in m {
      FullStaysFull(p, m[ip], c.lastGc, now);
    }
  }

  /** Fetching an IP couples its cached bucket with a permanent one that behaves the same now. */
  lemma FetchKeepsCoupling(p: Params, c: Cache, m: map<string, Bucket>, ip: string, now: real)
    requires p.limit >= 0.0 && now >= 0.0
    requires Coupled(p, c, m, now)
    ensures var f := Fetch(p, c, ip);
      && Coupled(p, f, m[ip := f.current[ip]], now)
      && Take(p, f.current[ip], now) == Take(p, Remembered(p, m, ip), now)
  {
    if ip in c.current {
      assert m[ip := c.current[ip]] == m;
    } else if ip in c.previous {
      PromoteKeepsCoupling(p, c, m, ip, now);
    } else {
      NewKeepsCoupling(p, c, m, ip, now);
    }
  }

  lemma AfterFetch(p: Params, f: Cache, m: map<string, Bucket>, ip: string, now: real)
    requires p.limit >= 0.0 && p.burst as real <= p.limit * GC_INTERVAL
    requires Coupled(p, f, m, now) && ip in f.current
    ensures var b := Take(p, f.current[ip], now).1; Coupled(p, Put(Collect(f, now), ip, b), m[ip := b], now)
  {
    assert m[ip] == f.current[ip];
    CollectKeepsCoupling(p, f, m, now);
  }

  /** One call answers as the permanent bucket does, and keeps the coupling. */
  lemma ServeRefines(p: Params, c: Cache, m: map<string, Bucket>, ip: string, now: real)
    requires p.limit >= 0.0 && p.burst as real <= p.limit * GC_INTERVAL && now >= 0.0
    requires Coupled(p, c, m, now)
    ensures Serve(p, c, ip, now).0 == Permanent(p, m, ip, now).0
    ensures Coupled(p, Serve(p, c, ip, now).1, Permanent(p, m, ip, now).1, now)
  {
    FetchKeepsCoupling(p, c, m, ip, now);
    var f := Fetch(p, c, ip);
    var held := f.current[ip];
    var (ok, b) := Take(p, held, now);
    assert Serve(p, c, ip, now) == (ok, Put(Collect(f, now), ip, b));
    assert m[ip := held][ip := b] == m[ip := b];
    assert Permanent(p, m, ip, now) == (ok, m[ip := b]);
    AfterFetch(p, f, m[ip := held], ip, now);
  }

  lemma {:induction false} RunRefines(p: Params, c: Cache, m: map<string, Bucket>, start: real, calls: seq<Call>)
    requires p.limit >= 0.0 && p.burst as real <= p.limit * GC_INTERVAL && start >= 0.0
    requires Coupled(p, c, m, start) && Ordered(start, calls)
    ensures Answers(p, c, calls) == PermanentAnswers(p, m, calls)
    decreases |calls|
  {
    if calls != [] {
      var call := calls[0];
      ServeRefines(p, c, m, call.ip, call.at);
      RunRefines(p, Serve(p, c, call.ip, call.at).1, Permanent(p, m, call.ip, call.at).1, call.at, calls[1..]);
    }
  }

  // --- the bound on the burst is exact ---

  function After(p: Params, c: Cache, calls: seq<Call>): Cache
    decreases |calls|
  {
    if calls == [] then c else After(p, Serve(p, c, calls[0].ip, calls[0].at).1, calls[1..])
  }

  function PermanentAfter(p: Params, m: map<string, Bucket>, calls: seq<Call>): map<string, Bucket>
    decreases |calls|
  {
    if calls == [] then m else PermanentAfter(p, Permanent(p, m, calls[0].ip, calls[0].at).1, calls[1..])
  }

  lemma {:induction false} AnswersConcat(p: Params, c: Cache, a: seq<Call>, b: seq<Call>)
    ensures Answers(p, c, a + b) == Answers(p, c, a) + Answers(p, After(p, c, a), b)
    ensures |Answers(p, c, a)| == |a|
    decreases |a|
  {
    if a == [] {
      assert a + b == b;
    } else {
      assert (a + b)[0] == a[0] && (a + b)[1..] == a[1..] + b;
      var (ok, c') := Serve(p, c, a[0].ip, a[0].at);
      AnswersConcat(p, c', a[1..], b);
      Regroup(ok, Answers(p, c', a[1..]), Answers(p, After(p, c', a[1..]), b));
    }
  }

  lemma Regroup(x: bool, a: seq<bool>, b: seq<bool>)
    ensures [x] + (a + b) == ([x] + a) + b
  {
  }

  lemma {:induction false} PermanentAnswersConcat(p: Params, m: map<string, Bucket>, a: seq<Call>, b: seq<Call>)
    ensures PermanentAnswers(p, m, a + b) == PermanentAnswers(p, m, a) + PermanentAnswers(p, PermanentAfter(p, m, a), b)
    ensures |PermanentAnswers(p, m, a)| == |a|
    decreases |a|
  {
    if a == [] {
      assert a + b == b;
    } else {
      assert (a + b)[0] == a[0] && (a + b)[1..] == a[1..] + b;
      var m' := Permanent(p, m, a[0].ip, a[0].at).1;
      PermanentAnswersConcat(p, m', a[1..], b);
      assert PermanentAfter(p, m, a) == PermanentAfter(p, m', a[1..]);
    }
  }

  /** n requests from one IP at one instant. */
  function Burst(ip: string, t: real, n: nat): seq<Call> {
    if n == 0 then [] else [Call(ip, t)] + Burst(ip, t, n - 1)
  }

  function Granted(n: nat): seq<bool> {
    if n == 0 then [] else [true] + Granted(n - 1)
  }

  lemma LevelAfterTake(p: Params, b: Bucket, t: real)
    requires b.last <= t && Level(p, b, t) >= 1.0
    ensures var taken := Take(p, b, t).1; taken.last == t && Level(p, taken, t) == Level(p, b, t) - 1.0
  {
    var level := Level(p, b, t);
    assert level <= p.burst as real;
    var taken := Bucket(level - 1.0, t);
    assert Level(p, taken, t) == level - 1.0;
  }

  /** A cache that does not collect at t grants a burst when the bucket holds enough. */
  lemma {:induction false} CacheBurst(p: Params, c: Cache, ip: string, t: real, n: nat)
    requires t - c.lastGc <= GC_INTERVAL
    requires var b := Fetch(p, c, ip).current[ip]; b.last <= t && Level(p, b, t) >= n as real
    ensures Answers(p, c, Burst(ip, t, n)) == Granted(n)
    ensures n > 0 ==> var f := Fetch(p, c, ip);
                      After(p, c, Burst(ip, t, n)) ==
                      f.(current := f.current[ip := Bucket(Level(p, f.current[ip], t) - n as real, t)])
    decreases n
  {
    if n > 0 {
      var c' := Serve(p, c, ip, t).1;
      var f := Fetch(p, c, ip);
      LevelAfterTake(p, f.current[ip], t);
      assert c' == f.(current := f.current[ip := Take(p, f.current[ip], t).1]);
      assert Burst(ip, t, n)[1..] == Burst(ip, t, n - 1);
      CacheBurst(p, c', ip, t, n - 1);
    }
  }

  /** The permanent bucket grants the whole burst only if it holds enough. */
  lemma {:induction false} PermanentBurst(p: Params, m: map<string, Bucket>, ip: string, t: real, n: nat)
    requires ip in m && m[ip].last <= t
    ensures PermanentAnswers(p, m, Burst(ip, t, n)) == Granted(n) && n > 0 ==> Level(p, m[ip], t) >= n as real
    ensures Level(p, m[ip], t) >= n as real && n > 0 ==>
              PermanentAfter(p, m, Burst(ip, t, n)) == m[ip := Bucket(Level(p, m[ip], t) - n as real, t)]
    decreases n
  {
    if n > 0 {
      if Level(p, m[ip], t) >= 1.0 {
        LevelAfterTake(p, m[ip], t);
      }
      var (ok, m') := Permanent(p, m, ip, t);
      assert Burst(ip, t, n)[1..] == Burst(ip, t, n - 1);
      assert Granted(n)[1..] == Granted(n - 1);
      PermanentBurst(p, m', ip, t, n - 1);
      var answers := PermanentAnswers(p, m, Burst(ip, t, n));
      assert answers[0] == ok && answers[1..] == PermanentAnswers(p, m', Burst(ip, t, n - 1));
    }
  }

  /** The two collections that evict "a" while its bucket, drained at time 60, is still short of
      the burst by the time t of the second one. */
  function Drain(p: Params): seq<Call> {
    Burst("a", GC_INTERVAL, p.burst)
  }

  function Evict(d: real): seq<Call> {
    [Call("b", GC_INTERVAL + d), Call("b", 2.0 * GC_INTERVAL + 2.0 * d)]
  }

  lemma CacheForgets(p: Params, d: real)
    requires p.burst > 0 && p.limit >= 0.0 && d > 0.0
    ensures var t := 2.0 * GC_INTERVAL + 2.0 * d;
            Answers(p, After(p, After(p, NewCache(0.0), Drain(p)), Evict(d)), Burst("a", t, p.burst))
            == Granted(p.burst)
  {
    var t := 2.0 * GC_INTERVAL + 2.0 * d;
    FreshIsFull(p, GC_INTERVAL);
    FreshIsFull(p, t);
    CacheBurst(p, NewCache(0.0), "a", GC_INTERVAL, p.burst);
    var c := After(p, NewCache(0.0), Drain(p));
    var c1 := Serve(p, c, "b", GC_INTERVAL + d).1;
    var c2 := Serve(p, c1, "b", t).1;
    assert Evict(d)[1..] == [Call("b", t)] && [Call("b", t)][1..] == [];
    assert After(p, c, Evict(d)) == After(p, c1, [Call("b", t)]) == c2;
    assert c2.lastGc == t && "a" !in c2.current && "a" !in c2.previous;
    CacheBurst(p, c2, "a", t, p.burst);
  }

  lemma DrainEmpties(p: Params)
    requires p.burst > 0 && p.limit >= 0.0
    ensures var m := PermanentAfter(p, map[], Drain(p)); "a" in m && m["a"] == Bucket(0.0, GC_INTERVAL)
  {
    FreshIsFull(p, GC_INTERVAL);
    var m0 := map["a" := Fresh(p)];
    assert Drain(p)[0] == Call("a", GC_INTERVAL);
    var b := Take(p, Fresh(p), GC_INTERVAL).1;
    var none: map<string, Bucket> := map[];
    assert m0["a" := b] == none["a" := b];
    PermanentBurst(p, m0, "a", GC_INTERVAL, p.burst);
  }

  lemma EvictLeavesDrained(p: Params, m: map<string, Bucket>, d: real)
    requires "a" in m
    ensures var m' := PermanentAfter(p, m, Evict(d)); "a" in m' && m'["a"] == m["a"]
  {
    var t := 2.0 * GC_INTERVAL + 2.0 * d;
    var m1 := Permanent(p, m, "b", GC_INTERVAL + d).1;
    assert Evict(d)[1..] == [Call("b", t)] && [Call("b", t)][1..] == [];
    assert PermanentAfter(p, m, Evict(d)) == PermanentAfter(p, m1, [Call("b", t)]) == Permanent(p, m1, "b", t).1;
  }

  lemma DrainedStaysShort(p: Params, d: real)
    requires p.limit >= 0.0 && d > 0.0 && p.limit * (GC_INTERVAL + 2.0 * d) < p.burst as real
    ensures Level(p, Bucket(0.0, GC_INTERVAL), 2.0 * GC_INTERVAL + 2.0 * d) < p.burst as real
  {
    var t := 2.0 * GC_INTERVAL + 2.0 * d;
    assert t - GC_INTERVAL == GC_INTERVAL + 2.0 * d;
    assert Refill(p, GC_INTERVAL, t) == p.limit * (GC_INTERVAL + 2.0 * d);
  }

  lemma PermanentRemembers(p: Params, d: real)
    requires p.burst > 0 && p.limit >= 0.0 && d > 0.0
    requires p.limit * (GC_INTERVAL + 2.0 * d) < p.burst as real
    ensures var t := 2.0 * GC_INTERVAL + 2.0 * d;
            PermanentAnswers(p, PermanentAfter(p, PermanentAfter(p, map[], Drain(p)), Evict(d)), Burst("a", t, p.burst))
            != Granted(p.burst)
  {
    var t := 2.0 * GC_INTERVAL + 2.0 * d;
    var m := PermanentAfter(p, map[], Drain(p));
    DrainEmpties(p);
    EvictLeavesDrained(p, m, d);
    DrainedStaysShort(p, d);
    PermanentBurst(p, PermanentAfter(p, m, Evict(d)), "a", t, p.burst);
  }

  /** A slow enough limiter leaves a gap between one interval's refill and the burst. */
  lemma ShortOfBurst(p: Params) returns (d: real)
    requires p.limit >= 0.0 && p.burst as real > p.limit * GC_INTERVAL
    ensures d > 0.0 && p.limit * (GC_INTERVAL + 2.0 * d) < p.burst as real
  {
    var gap := p.burst as real - p.limit * GC_INTERVAL;
    d := gap / (4.0 * (p.limit + 1.0));
    assert p.limit * (2.0 * d) <= (p.limit + 1.0) * (2.0 * d) == gap / 2.0;
  }

  lemma {:induction false} BurstOrdered(start: real, ip: string, t: real, n: nat, rest: seq<Call>)
    requires start <= t && Ordered(t, rest)
    ensures Ordered(start, Burst(ip, t, n) + rest)
    decreases n
  {
    var calls := Burst(ip, t, n) + rest;
    if n == 0 {
      assert calls == rest;
    } else {
      BurstOrdered(t, ip, t, n - 1, rest);
      assert calls[1..] == Burst(ip, t, n - 1) + rest;
    }
  }

  lemma EndsDiffer(a: seq<bool>, b: seq<bool>, x: seq<bool>, y: seq<bool>)
    requires |a| == |b| && x != y
    ensures a + x != b + y
  {
    assert (a + x)[|a|..] == x && (b + y)[|b|..] == y;
  }

  /** If two histories answer the last part of a run differently, they answer the run differently. */
  lemma LastPartShows(p: Params, c: Cache, m: map<string, Bucket>, a: seq<Call>, b: seq<Call>, last: seq<Call>)
    requires Answers(p, After(p, After(p, c, a), b), last)
             != PermanentAnswers(p, PermanentAfter(p, PermanentAfter(p, m, a), b), last)
    ensures Answers(p, c, a + (b + last)) != PermanentAnswers(p, m, a + (b + last))
  {
    var (c1, m1) := (After(p, c, a), PermanentAfter(p, m, a));
    var (x, y) := (Answers(p, After(p, c1, b), last), PermanentAnswers(p, PermanentAfter(p, m1, b), last));
    AnswersConcat(p, c, a, b + last);
    AnswersConcat(p, c1, b, last);
    PermanentAnswersConcat(p, m, a, b + last);
    PermanentAnswersConcat(p, m1, b, last);
    EndsDiffer(Answers(p, c1, b), PermanentAnswers(p, m1, b), x, y);
    EndsDiffer(Answers(p, c, a), PermanentAnswers(p, m, a), Answers(p, c1, b) + x, PermanentAnswers(p, m1, b) + y);
  }

  lemma WitnessOrdered(p: Params, d: real)
    requires d > 0.0
    ensures Ordered(0.0, Drain(p) + (Evict(d) + Burst("a", 2.0 * GC_INTERVAL + 2.0 * d, p.burst)))
  {
    var t := 2.0 * GC_INTERVAL + 2.0 * d;
    var again := Burst("a", t, p.burst);
    BurstOrdered(t, "a", t, p.burst, []);
    assert again + [] == again;
    var rest := Evict(d) + again;
    assert rest[1..] == [Call("b", t)] + again && rest[1..][1..] == again;
    BurstOrdered(0.0, "a", GC_INTERVAL, p.burst, rest);
  }

  /** Above the bound there is a run on which forgetting a drained bucket shows. */
  lemma EvictionShows(p: Params) returns (calls: seq<Call>)
    requires p.limit >= 0.0 && p.burst as real > p.limit * GC_INTERVAL
    ensures Ordered(0.0, calls)
    ensures Answers(p, NewCache(0.0), calls) != PermanentAnswers(p, map[], calls)
  {
    var d := ShortOfBurst(p);
    var again := Burst("a", 2.0 * GC_INTERVAL + 2.0 * d, p.burst);
    calls := Drain(p) + (Evict(d) + again);
    WitnessOrdered(p, d);
    CacheForgets(p, d);
    PermanentRemembers(p, d);
    LastPartShows(p, NewCache(0.0), map[], Drain(p), Evict(d), again);
  }

  /** What a call does to the two generations: its IP is in the current one, unless more than 60 seconds
      have passed since the last collection; then the current one with the IP becomes the old one, the old
      one is gone, and the next 60 seconds begin. */
  lemma GenerationsAre(p: Params, c: Cache, ip: string, now: real)
    ensures var c' := Serve(p, c, ip, now).1;
            if now - c.lastGc > 60.0 then
              c'.previous.Keys == c.current.Keys + {ip} && c'.current == map[] && c'.lastGc == now
            else
              && c'.current.Keys == c.current.Keys + {ip}
              && c'.previous.Keys == (if ip in c.current then c.previous.Keys else c.previous.Keys - {ip})
              && c'.lastGc == c.lastGc
  {
  }

  /** The main result: no ordered run of calls can tell the collected cache from one permanent
      bucket per IP, exactly when one interval refills a whole burst. */
  lemma EvictionInvisibleExactly(p: Params)
    requires p.limit >= 0.0
    ensures (forall start: real, calls :: start >= 0.0 && Ordered(start, calls) ==>
              Answers(p, NewCache(start), calls) == PermanentAnswers(p, map[], calls))
            <==> p.burst as real <= p.limit * 60.0
  {
    if p.burst as real <= p.limit * GC_INTERVAL {
      forall start: real, calls | start >= 0.0 && Ordered(start, calls)
        ensures Answers(p, NewCache(start), calls) == PermanentAnswers(p, map[], calls)
      {
        RunRefines(p, NewCache(start), map[], start, calls);
      }
    } else {
      var calls := EvictionShows(p);
    }
  }

  // --- the objects of the source, proved against the value-level cache ---

  /** One token bucket (golang.org/x/time/rate); only its state and Allow are modelled. */
  class RateLimiter {
    const p: Params
    var tokens: real
    var last: real

    ghost function View(): Bucket
      reads this
    {
      Bucket(tokens, last)
    }

    constructor (p: Params)
      ensures this.p == p && View() == Fresh(p)
    {
      this.p := p;
      tokens, last := p.burst as real, 0.0;
    }

    method Allow(now: real) returns (ok: bool)
      modifies this
      ensures (ok, View()) == Take(p, old(View()), now)
    {
      var (granted, b) := Take(p, Bucket(tokens, last), now);
      tokens, last := b.tokens, b.last;
      ok := granted;
    }
  }

  class IPRateLimiter {
    const p: Params
    var previousRateM: map<string, RateLimiter>
    var currentRateM: map<string, RateLimiter>
    var lastGcTime: real

    ghost predicate OwnBuckets(m: map<string, RateLimiter>) {
      && (forall a <- m, b <- m :: m[a] == m[b] ==> a == b)
      && (forall a <- m :: m[a].p == p)
    }

    ghost predicate Apart(m: map<string, RateLimiter>, n: map<string, RateLimiter>) {
      forall a <- m, b <- n :: m[a] != n[b]
    }

    lemma MovedOver(current: map<string, RateLimiter>, previous: map<string, RateLimiter>, ip: string)
      requires OwnBuckets(current) && OwnBuckets(previous) && Apart(current, previous)
      requires ip in previous && ip !in current
      ensures OwnBuckets(current[ip := previous[ip]]) && OwnBuckets(previous - {ip})
      ensures Apart(current[ip := previous[ip]], previous - {ip})
    {
    }

    /** Every IP has a bucket of its own. */
    ghost predicate Valid()
      reads this
    {
      && OwnBuckets(currentRateM) && OwnBuckets(previousRateM)
      && Apart(currentRateM, previousRateM)
    }

    ghost function View(): Cache
      reads this, previousRateM.Values, currentRateM.Values
    {
      Cache(Buckets(previousRateM), Buckets(currentRateM), lastGcTime)
    }

    ghost function Buckets(m: map<string, RateLimiter>): map<string, Bucket>
      reads m.Values
    {
      map ip | ip in m :: m[ip].View()
    }

    lemma BucketsChanged(m: map<string, RateLimiter>, ip: string, limiter: RateLimiter)
      ensures Buckets(m[ip := limiter]) == Buckets(m)[ip := limiter.View()]
      ensures Buckets(m - {ip}) == Buckets(m) - {ip}
    {
    }

    constructor (p: Params, now: real)
      ensures Valid() && this.p == p && View() == NewCache(now)
    {
      this.p := p;
      previousRateM, currentRateM := map[], map[];
      lastGcTime := now;
    }

    method GetOreCreateLimiter(ip: string) returns (limiter: RateLimiter)
      requires Valid()
      modifies this
      ensures Valid() && View() == Fetch(p, old(View()), ip)
      ensures ip in currentRateM && currentRateM[ip] == limiter
      ensures fresh(limiter) || limiter in old(currentRateM.Values) || limiter in old(previousRateM.Values)
    {
      if ip in currentRateM {
        return currentRateM[ip];
      }
      if ip in previousRateM {
        limiter := Promote(ip);
      } else {
        limiter := new RateLimiter(p);
        BucketsChanged(currentRateM, ip, limiter);
        currentRateM := currentRateM[ip := limiter];
      }
    }

    /** The second branch of GetOreCreateLimiter: an IP of the old generation is still alive. */
    method Promote(ip: string) returns (limiter: RateLimiter)
      requires Valid() && ip !in currentRateM && ip in previousRateM
      modifies this
      ensures Valid() && View() == Fetch(p, old(View()), ip)
      ensures limiter == old(previousRateM[ip]) && ip in currentRateM && currentRateM[ip] == limiter
    {
      MovedOver(currentRateM, previousRateM, ip);
      limiter := previousRateM[ip];
      BucketsChanged(currentRateM, ip, limiter);
      BucketsChanged(previousRateM, ip, limiter);
      currentRateM := currentRateM[ip := limiter];
      previousRateM := previousRateM - {ip};
    }

    method Gc(now: real)
      requires Valid()
      modifies this
      ensures Valid() && View() == Cache(old(View()).current, map[], now)
      ensures previousRateM == old(currentRateM) && currentRateM == map[]
    {
      lastGcTime := now;
      previousRateM := currentRateM;
      currentRateM := map[];
    }

    /** The last line of CanServe. Only one bucket changes, since no other IP shares it. */
    method Charge(ip: string, limiter: RateLimiter, now: real) returns (ok: bool)
      requires Valid()
      requires if ip in currentRateM then currentRateM[ip] == limiter
               else ip in previousRateM && previousRateM[ip] == limiter
      modifies limiter
      ensures Valid()
      ensures var (granted, b) := Take(p, old(limiter.View()), now);
              ok == granted && View() == Put(old(View()), ip, b)
    {
      ghost var (previous, current) := (Buckets(previousRateM), Buckets(currentRateM));
      ok := limiter.Allow(now);
      assert Buckets(currentRateM) == if ip in currentRateM then current[ip := limiter.View()] else current;
      assert Buckets(previousRateM) == if ip in currentRateM then previous else previous[ip := limiter.View()];
    }

    method CanServe(ip: string, now: real) returns (ok: bool)
      requires Valid()
      modifies this, currentRateM.Values, previousRateM.Values
      ensures Valid() && (ok, View()) == Serve(p, old(View()), ip, now)
    {
      var limiter := GetOreCreateLimiter(ip);
      assert limiter.View() == View().current[ip];
      if now - lastGcTime > GC_INTERVAL {
        Gc(now);
      }
      assert View() == Collect(Fetch(p, old(View()), ip), now);
      ok := Charge(ip, limiter, now);
    }
  }
}

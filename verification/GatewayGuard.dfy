/** The token bucket of the gateway (src/gateway/gateway-guard.ts) with its in-memory cache,
    its write-through store and the pruning of idle buckets.

    `TokenBucket` holds the decision on values, runs of calls and restarts, and the ideal
    limiter that never forgets a key. The guard makes the ideal decisions, and keeps the
    promised rate, exactly when the shortest time after which a bucket can be found idle refills
    a whole burst. */
module TokenBucket {
  import opened Prelude

  const BUCKET_TTL_MS := 3_600_000.0

  /** `Date.now()` counts whole milliseconds; a guard may be given another clock. */
  datatype Clock = WholeMilliseconds | RealTime {
    ghost predicate Shows(t: real) {
      RealTime? || t == t.Floor as real
    }

    /** The shortest time, in seconds, after which this clock can show a bucket as idle. */
    function IdleSeconds(): real {
      if RealTime? then 3600.0 else 3600.001
    }
  }

  /** The configuration schema asks for a positive integer burst and a positive refill rate. */
  datatype Limits = Limits(burst: int, refillPerSecond: real) {
    ghost predicate Valid() {
      burst >= 1 && refillPerSecond > 0.0
    }

    /** An idle bucket is full again by the time it may be pruned. */
    predicate RefillsWhileIdle(clock: Clock) {
      refillPerSecond * clock.IdleSeconds() >= burst as real
    }
  }

  datatype Bucket = Bucket(tokens: real, updatedAtMs: real)

  function Replenished(l: Limits, b: Bucket, now: real): real {
    var elapsedMs := now - b.updatedAtMs;
    var elapsedSeconds := if elapsedMs > 0.0 then elapsedMs / 1000.0 else 0.0;
    MinReal(l.burst as real, b.tokens + elapsedSeconds * l.refillPerSecond)
  }

  datatype Decision = Decision(allowed: bool, bucket: Bucket)

  /** One call for a key whose bucket is `existing`. */
  function Decide(l: Limits, existing: Option<Bucket>, now: real): Decision {
    match existing
    case None => Decision(true, Bucket(l.burst as real - 1.0, now))
    case Some(b) =>
      var tokens := Replenished(l, b, now);
      if tokens < 1.0 then Decision(false, Bucket(tokens, now)) else Decision(true, Bucket(tokens - 1.0, now))
  }

  // ----- The guard's memory and store -----

  type Buckets = map<string, Bucket>

  datatype GuardState = GuardState(memory: Buckets, store: Option<Buckets>)

  predicate IsIdle(b: Bucket, now: real) {
    now - b.updatedAtMs > BUCKET_TTL_MS
  }

  function PruneMemory(m: Buckets, now: real): Buckets {
    map k | k in m && !IsIdle(m[k], now) :: m[k]
  }

  /** `DELETE ... WHERE updated_at_ms < cutoff`. */
  function PruneStore(m: Buckets, cutoff: real): Buckets {
    map k | k in m && !(m[k].updatedAtMs < cutoff) :: m[k]
  }

  function Prune(g: GuardState, now: real): GuardState {
    GuardState(PruneMemory(g.memory, now),
               match g.store case None => None case Some(rows) => Some(PruneStore(rows, now - BUCKET_TTL_MS)))
  }

  function Load(g: GuardState, key: string): Option<Bucket> {
    if key in g.memory then Some(g.memory[key])
    else match g.store case None => None case Some(rows) => Get(rows, key)
  }

  function Save(g: GuardState, key: string, b: Bucket): GuardState {
    GuardState(g.memory[key := b], match g.store case None => None case Some(rows) => Some(rows[key := b]))
  }

  /** One `consume`: the clock is read once for pruning and once for the decision. */
  function GuardDecision(l: Limits, g: GuardState, key: string, pruneAt: real, now: real): Decision {
    Decide(l, Load(Prune(g, pruneAt), key), now)
  }

  function GuardStep(l: Limits, g: GuardState, key: string, pruneAt: real, now: real): GuardState {
    Save(Prune(g, pruneAt), key, GuardDecision(l, g, key, pruneAt, now).bucket)
  }

  // ----- Runs -----

  /** A call reads the clock at `pruneAt` and again at `now`; a restart empties the memory. */
  datatype Event = Call(key: string, pruneAt: real, now: real) | Restart

  /** The readings are readings of `clock` and do not run backwards. */
  ghost predicate ClockOrdered(clock: Clock, es: seq<Event>, from: real)
    decreases |es|
  {
    es == [] ||
    match es[0]
    case Call(_, pruneAt, now) =>
      clock.Shows(pruneAt) && clock.Shows(now) && from <= pruneAt <= now && ClockOrdered(clock, es[1..], now)
    case Restart => ClockOrdered(clock, es[1..], from)
  }

  /** The decisions of the guard, `false` at restarts. */
  function GuardRun(l: Limits, g: GuardState, es: seq<Event>): (ds: seq<bool>)
    ensures |ds| == |es|
    decreases |es|
  {
    if es == [] then []
    else
      match es[0]
      case Call(key, pruneAt, now) =>
        [GuardDecision(l, g, key, pruneAt, now).allowed] + GuardRun(l, GuardStep(l, g, key, pruneAt, now), es[1..])
      case Restart => [false] + GuardRun(l, g.(memory := map[]), es[1..])
  }

  /** The state of the guard after the run. */
  function GuardAfter(l: Limits, g: GuardState, es: seq<Event>): GuardState
    decreases |es|
  {
    if es == [] then g
    else
      match es[0]
      case Call(key, pruneAt, now) => GuardAfter(l, GuardStep(l, g, key, pruneAt, now), es[1..])
      case Restart => GuardAfter(l, g.(memory := map[]), es[1..])
  }

  /** The ideal limiter: one bucket for every key ever seen, no cache, no pruning, no restarts. */
  function IdealRun(l: Limits, m: Buckets, es: seq<Event>): (ds: seq<bool>)
    ensures |ds| == |es|
    decreases |es|
  {
    if es == [] then []
    else
      match es[0]
      case Call(key, _, now) =>
        var d := Decide(l, Get(m, key), now);
        [d.allowed] + IdealRun(l, m[key := d.bucket], es[1..])
      case Restart => [false] + IdealRun(l, m, es[1..])
  }

  /** Without a store a restart loses every bucket, so restarts are only considered with one. */
  ghost predicate Restartable(g: GuardState, es: seq<Event>) {
    g.store.Some? || forall i :: 0 <= i < |es| ==> es[i].Call?
  }

  // ----- Tokens stay in range -----

  ghost predicate InRange(l: Limits, b: Bucket) {
    0.0 <= b.tokens <= l.burst as real
  }

  ghost predicate AllInRange(l: Limits, m: Buckets) {
    forall k :: k in m ==> InRange(l, m[k])
  }

  ghost predicate GuardInRange(l: Limits, g: GuardState) {
    AllInRange(l, g.memory) && (g.store.Some? ==> AllInRange(l, g.store.value))
  }

  lemma DecideInRange(l: Limits, existing: Option<Bucket>, now: real)
    requires l.Valid() && (existing.Some? ==> InRange(l, existing.value))
    ensures InRange(l, Decide(l, existing, now).bucket)
  {
    if existing.Some? {
      var b := existing.value;
      if now > b.updatedAtMs { assert (now - b.updatedAtMs) / 1000.0 * l.refillPerSecond >= 0.0; }
    }
  }

  lemma StepKeepsRange(l: Limits, g: GuardState, key: string, pruneAt: real, now: real)
    requires l.Valid() && GuardInRange(l, g)
    ensures GuardInRange(l, GuardStep(l, g, key, pruneAt, now))
  {
    DecideInRange(l, Load(Prune(g, pruneAt), key), now);
  }

  /** Whatever the clock does, every run keeps the stored token counts between 0 and the burst. */
  lemma {:induction false} TokensStayInRange(l: Limits, g: GuardState, es: seq<Event>)
    requires l.Valid() && GuardInRange(l, g)
    ensures GuardInRange(l, GuardAfter(l, g, es))
    decreases |es|
  {
    if es != [] {
      match es[0]
      case Call(key, pruneAt, now) =>
        StepKeepsRange(l, g, key, pruneAt, now);
        TokensStayInRange(l, GuardStep(l, g, key, pruneAt, now), es[1..]);
      case Restart =>
        TokensStayInRange(l, g.(memory := map[]), es[1..]);
    }
  }

  // ----- The guard refines the ideal limiter -----

  ghost predicate CacheAgrees(g: GuardState) {
    g.store.Some? ==> forall k :: k in g.memory ==> k in g.store.value && g.store.value[k] == g.memory[k]
  }

  /** What the guard remembers is what the ideal limiter knows; what it has forgotten was idle for
      longer than the time to live at the last clock reading `t`. */
  ghost predicate Refines(l: Limits, clock: Clock, g: GuardState, m: Buckets, t: real) {
    && CacheAgrees(g)
    && (forall k :: k in m ==> InRange(l, m[k]) && clock.Shows(m[k].updatedAtMs) && m[k].updatedAtMs <= t)
    && (forall k :: Load(g, k).Some? ==> k in m && m[k] == Load(g, k).value)
    && (forall k :: k in m && Load(g, k).None? ==> IsIdle(m[k], t))
  }

  lemma LoadAfterPrune(g: GuardState, now: real, k: string)
    requires CacheAgrees(g)
    ensures CacheAgrees(Prune(g, now))
    ensures Load(Prune(g, now), k) == if Load(g, k).Some? && !IsIdle(Load(g, k).value, now) then Load(g, k) else None
  {
  }

  lemma LoadAfterSave(g: GuardState, key: string, b: Bucket, k: string)
    requires CacheAgrees(g)
    ensures CacheAgrees(Save(g, key, b))
    ensures Load(Save(g, key, b), k) == if k == key then Some(b) else Load(g, k)
  {
  }

  lemma ShortestIdle(clock: Clock, start: real, now: real)
    requires clock.Shows(start) && clock.Shows(now) && now - start > BUCKET_TTL_MS
    ensures (now - start) / 1000.0 >= clock.IdleSeconds()
  {
    if clock.WholeMilliseconds? { WholeGap(start.Floor, now.Floor); }
  }

  lemma WholeGap(m: int, n: int)
    requires n as real - m as real > BUCKET_TTL_MS
    ensures (n as real - m as real) / 1000.0 >= 3600.001
  {
    assert n - m >= 3_600_001;
  }

  lemma ProductGrows(x: real, y: real, r: real)
    requires x >= y && r > 0.0
    ensures x * r >= r * y
  {
  }

  /** A bucket that is full again decides like no bucket at all. */
  lemma FullBucketDecides(l: Limits, b: Bucket, now: real)
    requires l.Valid() && InRange(l, b) && now > b.updatedAtMs
    requires (now - b.updatedAtMs) / 1000.0 * l.refillPerSecond >= l.burst as real
    ensures Decide(l, Some(b), now) == Decide(l, None, now)
  {
    var refill := (now - b.updatedAtMs) / 1000.0 * l.refillPerSecond;
    assert b.tokens + refill >= l.burst as real;
    assert Replenished(l, b, now) == MinReal(l.burst as real, b.tokens + refill);
  }

  lemma RefilledWhileIdle(l: Limits, clock: Clock, idleSeconds: real)
    requires l.Valid() && l.RefillsWhileIdle(clock) && idleSeconds >= clock.IdleSeconds()
    ensures idleSeconds * l.refillPerSecond >= l.burst as real
  {
    ProductGrows(idleSeconds, clock.IdleSeconds(), l.refillPerSecond);
  }

  lemma IdleBucketIsFull(l: Limits, clock: Clock, b: Bucket, pruneAt: real, now: real)
    requires l.Valid() && l.RefillsWhileIdle(clock) && InRange(l, b) && IsIdle(b, pruneAt) && pruneAt <= now
    requires clock.Shows(b.updatedAtMs) && clock.Shows(now)
    ensures Decide(l, Some(b), now) == Decide(l, None, now)
  {
    assert now - b.updatedAtMs > BUCKET_TTL_MS;
    ShortestIdle(clock, b.updatedAtMs, now);
    RefilledWhileIdle(l, clock, (now - b.updatedAtMs) / 1000.0);
    FullBucketDecides(l, b, now);
  }

  lemma SameDecision(l: Limits, clock: Clock, g: GuardState, m: Buckets, t: real, key: string, pruneAt: real, now: real)
    requires l.Valid() && l.RefillsWhileIdle(clock) && Refines(l, clock, g, m, t)
    requires t <= pruneAt <= now && clock.Shows(now)
    ensures GuardDecision(l, g, key, pruneAt, now) == Decide(l, Get(m, key), now)
  {
    LoadAfterPrune(g, pruneAt, key);
    if key in m && Load(Prune(g, pruneAt), key).None? {
      assert IsIdle(m[key], pruneAt);
      IdleBucketIsFull(l, clock, m[key], pruneAt, now);
    }
  }

  lemma PruneRefines(l: Limits, clock: Clock, g: GuardState, m: Buckets, t: real, pruneAt: real)
    requires Refines(l, clock, g, m, t) && t <= pruneAt
    ensures Refines(l, clock, Prune(g, pruneAt), m, pruneAt)
  {
    forall k
      ensures Load(Prune(g, pruneAt), k)
              == if Load(g, k).Some? && !IsIdle(Load(g, k).value, pruneAt) then Load(g, k) else None
    {
      LoadAfterPrune(g, pruneAt, k);
    }
    LoadAfterPrune(g, pruneAt, "");
  }

  lemma SaveRefines(l: Limits, clock: Clock, g: GuardState, m: Buckets, t: real, key: string, b: Bucket)
    requires Refines(l, clock, g, m, t) && InRange(l, b) && t <= b.updatedAtMs && clock.Shows(b.updatedAtMs)
    ensures Refines(l, clock, Save(g, key, b), m[key := b], b.updatedAtMs)
  {
    forall k
      ensures Load(Save(g, key, b), k) == if k == key then Some(b) else Load(g, k)
    {
      LoadAfterSave(g, key, b, k);
    }
    LoadAfterSave(g, key, b, key);
  }

  lemma RefinementStep(l: Limits, clock: Clock, g: GuardState, m: Buckets, t: real, key: string, pruneAt: real,
                       now: real)
    requires l.Valid() && l.RefillsWhileIdle(clock) && Refines(l, clock, g, m, t)
    requires t <= pruneAt <= now && clock.Shows(now)
    ensures GuardDecision(l, g, key, pruneAt, now) == Decide(l, Get(m, key), now)
    ensures Refines(l, clock, GuardStep(l, g, key, pruneAt, now), m[key := Decide(l, Get(m, key), now).bucket], now)
  {
    SameDecision(l, clock, g, m, t, key, pruneAt, now);
    PruneRefines(l, clock, g, m, t, pruneAt);
    DecideInRange(l, Get(m, key), now);
    SaveRefines(l, clock, Prune(g, pruneAt), m, pruneAt, key, Decide(l, Get(m, key), now).bucket);
  }

  lemma RestartStep(l: Limits, clock: Clock, g: GuardState, m: Buckets, t: real)
    requires Refines(l, clock, g, m, t) && g.store.Some?
    ensures Refines(l, clock, g.(memory := map[]), m, t)
  {
    assert forall k :: Load(g.(memory := map[]), k) == Load(g, k);
  }

  /** Pruning, caching, write-through and restarts are invisible: same decisions as the ideal limiter. */
  lemma {:induction false} GuardRefinesIdeal(l: Limits, clock: Clock, g: GuardState, m: Buckets, t: real,
                                             es: seq<Event>)
    requires l.Valid() && l.RefillsWhileIdle(clock) && Refines(l, clock, g, m, t)
    requires ClockOrdered(clock, es, t) && Restartable(g, es)
    ensures GuardRun(l, g, es) == IdealRun(l, m, es)
    decreases |es|
  {
    if es != [] {
      match es[0]
      case Call(key, pruneAt, now) =>
        RefinementStep(l, clock, g, m, t, key, pruneAt, now);
        GuardRefinesIdeal(l, clock, GuardStep(l, g, key, pruneAt, now),
                          m[key := Decide(l, Get(m, key), now).bucket], now, es[1..]);
      case Restart =>
        RestartStep(l, clock, g, m, t);
        GuardRefinesIdeal(l, clock, g.(memory := map[]), m, t, es[1..]);
    }
  }

  // ----- Restarts -----

  /** Two guards on the same rows whose caches agree with them. */
  ghost predicate SameRows(g: GuardState, h: GuardState) {
    g.store.Some? && h.store == g.store && CacheAgrees(g) && CacheAgrees(h)
  }

  lemma SameRowsSameLoad(g: GuardState, h: GuardState, now: real, key: string)
    requires SameRows(g, h)
    ensures SameRows(Prune(g, now), Prune(h, now))
    ensures Load(Prune(g, now), key) == Load(Prune(h, now), key)
  {
    LoadAfterPrune(g, now, key);
    LoadAfterPrune(h, now, key);
  }

  lemma SameRowsSameStep(l: Limits, g: GuardState, h: GuardState, key: string, pruneAt: real, now: real)
    requires SameRows(g, h)
    ensures GuardDecision(l, g, key, pruneAt, now) == GuardDecision(l, h, key, pruneAt, now)
    ensures SameRows(GuardStep(l, g, key, pruneAt, now), GuardStep(l, h, key, pruneAt, now))
  {
    SameRowsSameLoad(g, h, pruneAt, key);
  }

  lemma {:induction false} SameRowsSameRun(l: Limits, g: GuardState, h: GuardState, es: seq<Event>)
    requires SameRows(g, h)
    ensures GuardRun(l, g, es) == GuardRun(l, h, es)
    decreases |es|
  {
    if es != [] {
      match es[0]
      case Call(key, pruneAt, now) =>
        SameRowsSameStep(l, g, h, key, pruneAt, now);
        SameRowsSameRun(l, GuardStep(l, g, key, pruneAt, now), GuardStep(l, h, key, pruneAt, now), es[1..]);
      case Restart =>
        SameRowsSameRun(l, g.(memory := map[]), h.(memory := map[]), es[1..]);
    }
  }

  lemma {:induction false} RunKeepsCacheAgreeing(l: Limits, g: GuardState, es: seq<Event>)
    requires g.store.Some? && CacheAgrees(g)
    ensures GuardAfter(l, g, es).store.Some? && CacheAgrees(GuardAfter(l, g, es))
    decreases |es|
  {
    if es != [] {
      match es[0]
      case Call(key, pruneAt, now) =>
        LoadAfterPrune(g, pruneAt, key);
        RunKeepsCacheAgreeing(l, GuardStep(l, g, key, pruneAt, now), es[1..]);
      case Restart =>
        RunKeepsCacheAgreeing(l, g.(memory := map[]), es[1..]);
    }
  }

  /** Stopped after any run and started again with empty memory on the same store, the guard decides
      every later call as if it had never stopped, whatever the limits and the clock. */
  lemma RestartIsInvisible(l: Limits, g: GuardState, es: seq<Event>, later: seq<Event>)
    requires g.store.Some? && CacheAgrees(g)
    ensures var stopped := GuardAfter(l, g, es);
            GuardRun(l, stopped.(memory := map[]), later) == GuardRun(l, stopped, later)
  {
    RunKeepsCacheAgreeing(l, g, es);
    var stopped := GuardAfter(l, g, es);
    SameRowsSameRun(l, stopped.(memory := map[]), stopped, later);
  }

  // ----- The rate bound -----

  /** Admitted calls for `key` whose decision was taken in the window [a, b]. */
  function AdmittedIn(es: seq<Event>, ds: seq<bool>, key: string, a: real, b: real): nat
    requires |es| == |ds|
    decreases |es|
  {
    if es == [] then 0
    else (if ds[0] && es[0].Call? && es[0].key == key && a <= es[0].now <= b then 1 else 0)
         + AdmittedIn(es[1..], ds[1..], key, a, b)
  }

  /** What flows into a bucket in `ms` milliseconds. */
  function Refill(l: Limits, ms: real): real {
    ms / 1000.0 * l.refillPerSecond
  }

  lemma RefillAdds(l: Limits, a: real, b: real)
    ensures Refill(l, a + b) == Refill(l, a) + Refill(l, b)
    ensures Refill(l, 0.0) == 0.0
  {
  }

  lemma RefillGrows(l: Limits, ms: real)
    requires l.Valid() && ms >= 0.0
    ensures Refill(l, ms) >= 0.0
  {
  }

  lemma ReplenishedCases(l: Limits, b: Bucket, now: real)
    ensures now <= b.updatedAtMs ==> Replenished(l, b, now) == MinReal(l.burst as real, b.tokens)
    ensures now >= b.updatedAtMs ==>
              Replenished(l, b, now) == MinReal(l.burst as real, b.tokens + Refill(l, now - b.updatedAtMs))
  {
    RefillAdds(l, 0.0, 0.0);
  }

  function WindowStart(b: Option<Bucket>, a: real): real {
    if b.Some? && a < b.value.updatedAtMs then b.value.updatedAtMs else a
  }

  function TokensAt(l: Limits, b: Option<Bucket>, now: real): real {
    if b.None? then l.burst as real else Replenished(l, b.value, now)
  }

  /** The most a key with bucket `b` can be admitted in the window [a, z]. */
  function WindowCapacity(l: Limits, b: Option<Bucket>, a: real, z: real): real {
    var s := WindowStart(b, a);
    if z < s then 0.0 else TokensAt(l, b, s) + Refill(l, z - s)
  }

  lemma ReplenishLater(l: Limits, b: Bucket, s: real, u: real)
    requires l.Valid() && b.updatedAtMs <= s <= u
    ensures Replenished(l, b, s) <= Replenished(l, b, u) <= Replenished(l, b, s) + Refill(l, u - s)
  {
    ReplenishedCases(l, b, s);
    ReplenishedCases(l, b, u);
    RefillAdds(l, s - b.updatedAtMs, u - s);
    assert (s - b.updatedAtMs) + (u - s) == u - b.updatedAtMs;
    RefillGrows(l, u - s);
  }

  lemma TokensInRange(l: Limits, b: Option<Bucket>, s: real)
    requires l.Valid() && (b.Some? ==> InRange(l, b.value) && b.value.updatedAtMs <= s)
    ensures 0.0 <= TokensAt(l, b, s) <= l.burst as real
  {
    if b.Some? {
      ReplenishedCases(l, b.value, s);
      RefillGrows(l, s - b.value.updatedAtMs);
    }
  }

  lemma CapacityNonNegative(l: Limits, b: Option<Bucket>, a: real, z: real)
    requires l.Valid() && (b.Some? ==> InRange(l, b.value))
    ensures WindowCapacity(l, b, a, z) >= 0.0
  {
    var s := WindowStart(b, a);
    if z >= s {
      TokensInRange(l, b, s);
      RefillGrows(l, z - s);
    }
  }

  function Taken(d: Decision): real {
    if d.allowed then 1.0 else 0.0
  }

  lemma DecisionConserves(l: Limits, existing: Option<Bucket>, now: real)
    ensures var d := Decide(l, existing, now);
            d.bucket.updatedAtMs == now && d.bucket.tokens + Taken(d) == TokensAt(l, existing, now)
  {
  }

  /** A decision before the window leaves no more for the window. */
  lemma BeforeWindow(l: Limits, existing: Option<Bucket>, a: real, now: real)
    requires l.Valid() && now <= a
    requires existing.Some? ==> InRange(l, existing.value) && existing.value.updatedAtMs <= now
    ensures TokensAt(l, Some(Decide(l, existing, now).bucket), a) <= TokensAt(l, existing, a)
  {
    var d := Decide(l, existing, now);
    DecisionConserves(l, existing, now);
    ReplenishedCases(l, d.bucket, a);
    if existing.Some? {
      var b := existing.value;
      ReplenishedCases(l, b, now);
      ReplenishedCases(l, b, a);
      RefillAdds(l, now - b.updatedAtMs, a - now);
      assert (now - b.updatedAtMs) + (a - now) == a - b.updatedAtMs;
    }
  }

  /** A decision in the window takes what it admits out of the capacity. */
  lemma InsideWindow(l: Limits, existing: Option<Bucket>, a: real, z: real, now: real)
    requires l.Valid() && a <= now <= z
    requires existing.Some? ==> InRange(l, existing.value) && existing.value.updatedAtMs <= now
    ensures var d := Decide(l, existing, now);
            WindowCapacity(l, Some(d.bucket), a, z) + Taken(d) <= WindowCapacity(l, existing, a, z)
  {
    var d := Decide(l, existing, now);
    var s := WindowStart(existing, a);
    DecisionConserves(l, existing, now);
    ReplenishedCases(l, d.bucket, now);
    assert TokensAt(l, existing, now) <= TokensAt(l, existing, s) + Refill(l, now - s) by {
      if existing.Some? { ReplenishLater(l, existing.value, s, now); } else { RefillGrows(l, now - s); }
    }
    RefillAdds(l, now - s, z - now);
    assert (now - s) + (z - now) == z - s;
  }

  lemma CapacityShrinks(l: Limits, existing: Option<Bucket>, a: real, z: real, now: real)
    requires l.Valid() && (existing.Some? ==> InRange(l, existing.value) && existing.value.updatedAtMs <= now)
    ensures var d := Decide(l, existing, now);
            WindowCapacity(l, Some(d.bucket), a, z) + (if a <= now <= z then Taken(d) else 0.0)
            <= WindowCapacity(l, existing, a, z)
  {
    DecisionConserves(l, existing, now);
    if z < now {
      CapacityNonNegative(l, existing, a, z);
    } else if now < a {
      BeforeWindow(l, existing, a, now);
    } else {
      InsideWindow(l, existing, a, z, now);
    }
  }

  lemma {:induction false} IdealWindowBound(l: Limits, clock: Clock, m: Buckets, t: real, es: seq<Event>, key: string,
                                            a: real, z: real)
    requires l.Valid() && ClockOrdered(clock, es, t)
    requires key in m ==> InRange(l, m[key]) && m[key].updatedAtMs <= t
    ensures AdmittedIn(es, IdealRun(l, m, es), key, a, z) as real <= WindowCapacity(l, Get(m, key), a, z)
    decreases |es|
  {
    if es == [] {
      CapacityNonNegative(l, Get(m, key), a, z);
    } else {
      match es[0]
      case Call(k, pruneAt, now) =>
        var d := Decide(l, Get(m, k), now);
        assert IdealRun(l, m, es)[1..] == IdealRun(l, m[k := d.bucket], es[1..]);
        if k == key {
          DecideInRange(l, Get(m, key), now);
          CapacityShrinks(l, Get(m, key), a, z, now);
        }
        IdealWindowBound(l, clock, m[k := d.bucket], now, es[1..], key, a, z);
      case Restart =>
        assert IdealRun(l, m, es)[1..] == IdealRun(l, m, es[1..]);
        IdealWindowBound(l, clock, m, t, es[1..], key, a, z);
    }
  }

  lemma CapacityOfNewKey(l: Limits, a: real, seconds: real)
    requires seconds >= 0.0
    ensures WindowCapacity(l, None, a, a + seconds * 1000.0) == l.burst as real + l.refillPerSecond * seconds
  {
    assert (a + seconds * 1000.0 - a) == seconds * 1000.0;
  }

  ghost predicate IsEmpty(g: GuardState) {
    g.memory == map[] && (g.store.Some? ==> g.store.value == map[])
  }

  lemma EmptyRefinesEmpty(l: Limits, clock: Clock, g: GuardState, t: real)
    requires IsEmpty(g)
    ensures Refines(l, clock, g, map[], t)
  {
  }

  /** In the run `es` and the window of `seconds` from `a`, `key` is admitted at most
      burst + refillPerSecond * seconds times. */
  ghost predicate KeepsRate(l: Limits, g: GuardState, es: seq<Event>, key: string, a: real, seconds: real) {
    AdmittedIn(es, GuardRun(l, g, es), key, a, a + seconds * 1000.0) as real
    <= l.burst as real + l.refillPerSecond * seconds
  }

  /** In every run and every window of `seconds`, one key is admitted at most
      burst + refillPerSecond * seconds times, buckets pruned and recreated included. */
  lemma RateBound(l: Limits, clock: Clock, g: GuardState, es: seq<Event>, t: real, key: string, a: real, seconds: real)
    requires l.Valid() && l.RefillsWhileIdle(clock) && seconds >= 0.0
    requires IsEmpty(g) && ClockOrdered(clock, es, t) && Restartable(g, es)
    ensures KeepsRate(l, g, es, key, a, seconds)
  {
    EmptyRefinesEmpty(l, clock, g, t);
    GuardRefinesIdeal(l, clock, g, map[], t, es);
    IdealWindowBound(l, clock, map[], t, es, key, a, a + seconds * 1000.0);
    CapacityOfNewKey(l, a, seconds);
  }

  // ----- Every refusal is forced -----

  /** After the calls `es` with the decisions `ds`, admitting one more call for `key` at `now` keeps the rate in
      the window [a, now]. */
  ghost predicate HasRoom(l: Limits, es: seq<Event>, ds: seq<bool>, key: string, a: real, now: real)
    requires |es| == |ds|
  {
    AdmittedIn(es, ds, key, a, now) as real + 1.0 <= l.burst as real + l.refillPerSecond * ((now - a) / 1000.0)
  }

  lemma {:induction false} AdmittedConcat(es: seq<Event>, ds: seq<bool>, fs: seq<Event>, bs: seq<bool>, key: string,
                                          a: real, b: real)
    requires |es| == |ds| && |fs| == |bs|
    ensures AdmittedIn(es + fs, ds + bs, key, a, b) == AdmittedIn(es, ds, key, a, b) + AdmittedIn(fs, bs, key, a, b)
    decreases |es|
  {
    if es == [] {
      assert es + fs == fs && ds + bs == bs;
    } else {
      assert (es + fs)[1..] == es[1..] + fs && (ds + bs)[1..] == ds[1..] + bs;
      AdmittedConcat(es[1..], ds[1..], fs, bs, key, a, b);
    }
  }

  lemma AdmittedOne(es: seq<Event>, ds: seq<bool>, e: Event, d: bool, key: string, a: real, b: real)
    requires |es| == |ds|
    ensures AdmittedIn(es + [e], ds + [d], key, a, b)
            == AdmittedIn(es, ds, key, a, b) + (if d && e.Call? && e.key == key && a <= e.now <= b then 1 else 0)
  {
    AdmittedConcat(es, ds, [e], [d], key, a, b);
    assert [e][1..] == [] && [d][1..] == [];
  }

  lemma {:induction false} LongerWindowAdmitsMore(es: seq<Event>, ds: seq<bool>, key: string, a: real, b: real, z: real)
    requires |es| == |ds| && b <= z
    ensures AdmittedIn(es, ds, key, a, b) <= AdmittedIn(es, ds, key, a, z)
    decreases |es|
  {
    if es != [] { LongerWindowAdmitsMore(es[1..], ds[1..], key, a, b, z); }
  }

  /** What is missing in a bucket was admitted: from some time on, at least as much as flowed in on top of a
      burst and is not there any more. */
  ghost predicate AccountedFor(l: Limits, es: seq<Event>, ds: seq<bool>, key: string, a: real, b: Bucket)
    requires |es| == |ds|
  {
    && a <= b.updatedAtMs
    && AdmittedIn(es, ds, key, a, b.updatedAtMs) as real >= l.burst as real + Refill(l, b.updatedAtMs - a) - b.tokens
  }

  ghost predicate Accounted(l: Limits, es: seq<Event>, ds: seq<bool>, key: string, b: Option<Bucket>) {
    |es| == |ds| && (b.Some? ==> exists a :: AccountedFor(l, es, ds, key, a, b.value))
  }

  /** The bucket just before a decision at `now` is accounted for, too. */
  lemma AccountedUntil(l: Limits, es: seq<Event>, ds: seq<bool>, key: string, b: Bucket, now: real) returns (a: real)
    requires l.Valid() && Accounted(l, es, ds, key, Some(b)) && b.updatedAtMs <= now
    ensures AccountedFor(l, es, ds, key, a, Bucket(Replenished(l, b, now), now))
  {
    a :| AccountedFor(l, es, ds, key, a, b);
    ReplenishedCases(l, b, now);
    if Replenished(l, b, now) == l.burst as real {
      a := now;
      RefillAdds(l, 0.0, 0.0);
      assert now - a == 0.0;
    } else {
      LongerWindowAdmitsMore(es, ds, key, a, b.updatedAtMs, now);
      RefillAdds(l, b.updatedAtMs - a, now - b.updatedAtMs);
      assert (b.updatedAtMs - a) + (now - b.updatedAtMs) == now - a;
    }
  }

  lemma NewBucketAccounted(l: Limits, es: seq<Event>, ds: seq<bool>, key: string, pruneAt: real, now: real)
    requires |es| == |ds|
    ensures var d := Decide(l, None, now);
            Accounted(l, es + [Call(key, pruneAt, now)], ds + [d.allowed], key, Some(d.bucket))
  {
    var d := Decide(l, None, now);
    AdmittedOne(es, ds, Call(key, pruneAt, now), d.allowed, key, now, now);
    RefillAdds(l, 0.0, 0.0);
    assert now - now == 0.0;
    assert AccountedFor(l, es + [Call(key, pruneAt, now)], ds + [d.allowed], key, now, d.bucket);
  }

  /** A decision keeps the account, and if it refuses, some window ending now has no room. */
  lemma DecisionAccounted(l: Limits, es: seq<Event>, ds: seq<bool>, key: string, b: Option<Bucket>, pruneAt: real,
                          now: real)
    requires l.Valid() && Accounted(l, es, ds, key, b) && (b.Some? ==> b.value.updatedAtMs <= now)
    ensures var d := Decide(l, b, now);
            && Accounted(l, es + [Call(key, pruneAt, now)], ds + [d.allowed], key, Some(d.bucket))
            && (d.allowed || exists a :: a <= now && !HasRoom(l, es, ds, key, a, now))
  {
    if b.None? {
      NewBucketAccounted(l, es, ds, key, pruneAt, now);
    } else {
      var d := Decide(l, b, now);
      var a := AccountedUntil(l, es, ds, key, b.value, now);
      AdmittedOne(es, ds, Call(key, pruneAt, now), d.allowed, key, a, now);
      DecisionConserves(l, b, now);
      assert AccountedFor(l, es + [Call(key, pruneAt, now)], ds + [d.allowed], key, a, d.bucket);
      if !d.allowed { assert !HasRoom(l, es, ds, key, a, now); }
    }
  }

  lemma OtherEventAccounted(l: Limits, es: seq<Event>, ds: seq<bool>, key: string, b: Option<Bucket>, e: Event, d: bool)
    requires Accounted(l, es, ds, key, b) && (e.Call? ==> e.key != key)
    ensures Accounted(l, es + [e], ds + [d], key, b)
  {
    if b.Some? {
      var a :| AccountedFor(l, es, ds, key, a, b.value);
      AdmittedOne(es, ds, e, d, key, a, b.value.updatedAtMs);
      assert AccountedFor(l, es + [e], ds + [d], key, a, b.value);
    }
  }

  lemma ShiftOne<T>(past: seq<T>, s: seq<T>, j: nat)
    requires 0 < j <= |s|
    ensures past + s[..j] == (past + [s[0]]) + s[1..][..j - 1]
  {
  }

  /** The ideal limiter refuses call `j`, made after the calls `past`, only if a window ending then has no room. */
  lemma {:induction false} IdealRefusalIsForced(l: Limits, clock: Clock, past: seq<Event>, before: seq<bool>,
                                                m: Buckets, t: real, es: seq<Event>, j: nat)
    requires l.Valid() && ClockOrdered(clock, es, t) && j < |es| && es[j].Call? && !IdealRun(l, m, es)[j]
    requires Accounted(l, past, before, es[j].key, Get(m, es[j].key))
    requires es[j].key in m ==> m[es[j].key].updatedAtMs <= t
    ensures exists a ::
              a <= es[j].now &&
              !HasRoom(l, past + es[..j], before + IdealRun(l, m, es)[..j], es[j].key, a, es[j].now)
    decreases |es|
  {
    var key, ds := es[j].key, IdealRun(l, m, es);
    if es[0].Call? && es[0].key == key {
      DecisionAccounted(l, past, before, key, Get(m, key), es[0].pruneAt, es[0].now);
    } else {
      OtherEventAccounted(l, past, before, key, Get(m, key), es[0], ds[0]);
    }
    if j == 0 {
      assert past + es[..0] == past && before + ds[..0] == before;
    } else {
      var next, u := m, t;
      if es[0].Call? { next, u := m[es[0].key := Decide(l, Get(m, es[0].key), es[0].now).bucket], es[0].now; }
      assert ds[1..] == IdealRun(l, next, es[1..]);
      assert Get(next, key) == if es[0].Call? && es[0].key == key then Some(next[key]) else Get(m, key);
      IdealRefusalIsForced(l, clock, past + [es[0]], before + [ds[0]], next, u, es[1..], j - 1);
      ShiftOne(past, es, j);
      ShiftOne(before, ds, j);
    }
  }

  lemma {:induction false} IdealRunPrefix(l: Limits, m: Buckets, es: seq<Event>, n: nat)
    requires n <= |es|
    ensures IdealRun(l, m, es)[..n] == IdealRun(l, m, es[..n])
    decreases |es|
  {
    if n > 0 {
      assert es[..n][1..] == es[1..][..n - 1] && es[..n][0] == es[0];
      var next := if es[0].Call? then m[es[0].key := Decide(l, Get(m, es[0].key), es[0].now).bucket] else m;
      IdealRunPrefix(l, next, es[1..], n - 1);
    }
  }

  lemma {:induction false} OrderedPrefix(clock: Clock, es: seq<Event>, t: real, n: nat)
    requires ClockOrdered(clock, es, t) && n <= |es|
    ensures ClockOrdered(clock, es[..n], t)
    decreases |es|
  {
    if n > 0 {
      assert es[..n][1..] == es[1..][..n - 1] && es[..n][0] == es[0];
      OrderedPrefix(clock, es[1..], if es[0].Call? then es[0].now else t, n - 1);
    }
  }

  lemma AdmittedWithCall(es: seq<Event>, ds: seq<bool>, j: nat, a: real)
    requires j < |es| == |ds| && es[j].Call? && ds[j] && a <= es[j].now
    ensures AdmittedIn(es[..j + 1], ds[..j + 1], es[j].key, a, es[j].now)
            == AdmittedIn(es[..j], ds[..j], es[j].key, a, es[j].now) + 1
  {
    assert es[..j + 1] == es[..j] + [es[j]] && ds[..j + 1] == ds[..j] + [ds[j]];
    AdmittedOne(es[..j], ds[..j], es[j], ds[j], es[j].key, a, es[j].now);
  }

  lemma PrefixWithinCapacity(l: Limits, clock: Clock, t: real, es: seq<Event>, n: nat, key: string, a: real, now: real)
    requires l.Valid() && ClockOrdered(clock, es, t) && n <= |es|
    ensures AdmittedIn(es[..n], IdealRun(l, map[], es)[..n], key, a, now) as real <= WindowCapacity(l, None, a, now)
  {
    OrderedPrefix(clock, es, t, n);
    IdealRunPrefix(l, map[], es, n);
    IdealWindowBound(l, clock, map[], t, es[..n], key, a, now);
  }

  lemma AdmissionWithinCapacity(l: Limits, clock: Clock, t: real, es: seq<Event>, j: nat, a: real)
    requires l.Valid() && ClockOrdered(clock, es, t) && j < |es| && es[j].Call? && a <= es[j].now
    requires IdealRun(l, map[], es)[j]
    ensures AdmittedIn(es[..j], IdealRun(l, map[], es)[..j], es[j].key, a, es[j].now) as real + 1.0
            <= WindowCapacity(l, None, a, es[j].now)
  {
    PrefixWithinCapacity(l, clock, t, es, j + 1, es[j].key, a, es[j].now);
    AdmittedWithCall(es, IdealRun(l, map[], es), j, a);
  }

  lemma RoomWithinCapacity(l: Limits, es: seq<Event>, ds: seq<bool>, key: string, a: real, now: real)
    requires |es| == |ds| && a <= now
    requires AdmittedIn(es, ds, key, a, now) as real + 1.0 <= WindowCapacity(l, None, a, now)
    ensures HasRoom(l, es, ds, key, a, now)
  {
    CapacityUntil(l, a, now);
  }

  /** If the ideal limiter admits call `j`, every window ending then has had room for it. */
  lemma IdealAdmissionHadRoom(l: Limits, clock: Clock, t: real, es: seq<Event>, j: nat, a: real)
    requires l.Valid() && ClockOrdered(clock, es, t) && j < |es| && es[j].Call? && a <= es[j].now
    requires IdealRun(l, map[], es)[j]
    ensures HasRoom(l, es[..j], IdealRun(l, map[], es)[..j], es[j].key, a, es[j].now)
  {
    AdmissionWithinCapacity(l, clock, t, es, j, a);
    RoomWithinCapacity(l, es[..j], IdealRun(l, map[], es)[..j], es[j].key, a, es[j].now);
  }

  lemma CapacityUntil(l: Limits, a: real, now: real)
    requires a <= now
    ensures WindowCapacity(l, None, a, now) == l.burst as real + l.refillPerSecond * ((now - a) / 1000.0)
  {
  }

  /** The guard admits exactly what the rate allows: in every run from an empty guard, a call is admitted if and
      only if in no window that ends with it the admissions before it and itself exceed
      burst + refillPerSecond * length. Every refusal is forced, every admission is covered. */
  lemma AdmittedIffEveryWindowHasRoom(l: Limits, clock: Clock, g: GuardState, es: seq<Event>, t: real, j: nat)
    requires l.Valid() && l.RefillsWhileIdle(clock) && IsEmpty(g)
    requires ClockOrdered(clock, es, t) && Restartable(g, es) && j < |es| && es[j].Call?
    ensures var ds := GuardRun(l, g, es);
            ds[j] <==> forall a :: a <= es[j].now ==> HasRoom(l, es[..j], ds[..j], es[j].key, a, es[j].now)
  {
    EmptyRefinesEmpty(l, clock, g, t);
    GuardRefinesIdeal(l, clock, g, map[], t, es);
    var ds := IdealRun(l, map[], es);
    if ds[j] {
      forall a | a <= es[j].now ensures HasRoom(l, es[..j], ds[..j], es[j].key, a, es[j].now) {
        IdealAdmissionHadRoom(l, clock, t, es, j, a);
      }
    } else {
      IdealRefusalIsForced(l, clock, [], [], map[], t, es, j);
      assert [] + es[..j] == es[..j] && [] + ds[..j] == ds[..j];
    }
  }

  /** A clock that stands still or was set back refills nothing: the call is admitted if a token is left. */
  lemma NoRefillBackwards(l: Limits, g: GuardState, key: string, pruneAt: real, now: real)
    requires l.Valid() && GuardInRange(l, g) && Load(Prune(g, pruneAt), key).Some?
    requires now <= Load(Prune(g, pruneAt), key).value.updatedAtMs
    ensures var tokens := Load(Prune(g, pruneAt), key).value.tokens;
            && (GuardDecision(l, g, key, pruneAt, now).allowed <==> tokens >= 1.0)
            && GuardDecision(l, g, key, pruneAt, now).bucket
               == Bucket(if tokens >= 1.0 then tokens - 1.0 else tokens, now)
  {
    ReplenishedCases(l, Load(Prune(g, pruneAt), key).value, now);
  }

  // ----- The condition on the limits is exact -----

  /** The guard decides like the ideal limiter in every run from the empty state. */
  ghost predicate AlwaysIdeal(l: Limits, clock: Clock, g: GuardState) {
    forall es :: ClockOrdered(clock, es, 0.0) && Restartable(g, es) ==> GuardRun(l, g, es) == IdealRun(l, map[], es)
  }

  /** The guard keeps the promised rate in every run from the empty state. */
  ghost predicate AlwaysKeepsRate(l: Limits, clock: Clock, g: GuardState) {
    forall es, key, a, seconds :: ClockOrdered(clock, es, 0.0) && Restartable(g, es) && seconds >= 0.0 ==>
      KeepsRate(l, g, es, key, a, seconds)
  }

  const PROBE_KEY := "probe"

  function Calls(now: real, n: nat): seq<Event> {
    if n == 0 then [] else [Call(PROBE_KEY, now, now)] + Calls(now, n - 1)
  }

  lemma {:induction false} CallsOrdered(clock: Clock, now: real, n: nat, from: real, tail: seq<Event>)
    requires from <= now && clock.Shows(now) && ClockOrdered(clock, tail, now)
    ensures ClockOrdered(clock, Calls(now, n) + tail, from)
    decreases n
  {
    if n == 0 {
      assert Calls(now, n) + tail == tail;
      OrderedFromEarlier(clock, tail, now, from);
    } else {
      CallsOrdered(clock, now, n - 1, now, tail);
      CallsUnfold(now, n, tail);
    }
  }

  lemma CallsUnfold(now: real, n: nat, tail: seq<Event>)
    requires n > 0
    ensures Calls(now, n) + tail == [Call(PROBE_KEY, now, now)] + (Calls(now, n - 1) + tail)
    ensures (Calls(now, n) + tail)[0] == Call(PROBE_KEY, now, now)
    ensures (Calls(now, n) + tail)[1..] == Calls(now, n - 1) + tail
  {
  }

  lemma {:induction false} CallsAreCalls(now: real, n: nat)
    ensures forall i :: 0 <= i < |Calls(now, n)| ==> Calls(now, n)[i].Call?
    decreases n
  {
    if n > 0 { CallsAreCalls(now, n - 1); }
  }

  lemma {:induction false} OrderedFromEarlier(clock: Clock, es: seq<Event>, t: real, from: real)
    requires ClockOrdered(clock, es, t) && from <= t
    ensures ClockOrdered(clock, es, from)
    decreases |es|
  {
    if es != [] && es[0].Restart? { OrderedFromEarlier(clock, es[1..], t, from); }
  }

  /** At `now` the probe's bucket is missing, or fresh with at least `n` tokens. */
  ghost predicate Holds(l: Limits, g: GuardState, now: real, n: int) {
    && CacheAgrees(g)
    && var b := Load(Prune(g, now), PROBE_KEY);
       b.Some? ==> b.value.updatedAtMs == now && l.burst as real >= b.value.tokens >= n as real
  }

  lemma OneOfBatch(l: Limits, g: GuardState, now: real, n: nat) returns (next: GuardState)
    requires l.Valid() && 1 <= n <= l.burst && Holds(l, g, now, n)
    ensures GuardDecision(l, g, PROBE_KEY, now, now).allowed && next == GuardStep(l, g, PROBE_KEY, now, now)
    ensures Holds(l, next, now, n - 1) && Load(next, PROBE_KEY).Some? && Load(next, PROBE_KEY).value.updatedAtMs == now
  {
    var p := Prune(g, now);
    var d := GuardDecision(l, g, PROBE_KEY, now, now);
    LoadAfterPrune(g, now, PROBE_KEY);
    DecisionConserves(l, Load(p, PROBE_KEY), now);
    if Load(p, PROBE_KEY).Some? { ReplenishedCases(l, Load(p, PROBE_KEY).value, now); }
    LoadAfterSave(p, PROBE_KEY, d.bucket, PROBE_KEY);
    next := Save(p, PROBE_KEY, d.bucket);
    LoadAfterPrune(next, now, PROBE_KEY);
  }

  /** A bucket holding `n` tokens at `now` admits `n` calls made at that instant. */
  lemma {:induction false} BatchAdmitted(l: Limits, g: GuardState, now: real, n: nat, tail: seq<Event>, z: real)
      returns (g': GuardState)
    requires l.Valid() && n <= l.burst && Holds(l, g, now, n) && 0.0 <= now <= z
    ensures CacheAgrees(g')
    ensures AdmittedIn(Calls(now, n) + tail, GuardRun(l, g, Calls(now, n) + tail), PROBE_KEY, 0.0, z)
            == n + AdmittedIn(tail, GuardRun(l, g', tail), PROBE_KEY, 0.0, z)
    ensures if n == 0 then g' == g else Load(g', PROBE_KEY).Some? && Load(g', PROBE_KEY).value.updatedAtMs == now
    decreases n
  {
    g' := g;
    if n == 0 {
      assert Calls(now, n) + tail == tail;
    } else {
      var next := OneOfBatch(l, g, now, n);
      g' := BatchAdmitted(l, next, now, n - 1, tail, z);
      CallsUnfold(now, n, tail);
      OneAdmitted(l, g, now, Calls(now, n - 1) + tail, z);
    }
  }

  lemma OneAdmitted(l: Limits, g: GuardState, now: real, rest: seq<Event>, z: real)
    requires GuardDecision(l, g, PROBE_KEY, now, now).allowed && 0.0 <= now <= z
    ensures var es := [Call(PROBE_KEY, now, now)] + rest;
            AdmittedIn(es, GuardRun(l, g, es), PROBE_KEY, 0.0, z)
            == 1 + AdmittedIn(rest, GuardRun(l, GuardStep(l, g, PROBE_KEY, now, now), rest), PROBE_KEY, 0.0, z)
  {
    var es := [Call(PROBE_KEY, now, now)] + rest;
    assert es[1..] == rest;
    assert GuardRun(l, g, es)[1..] == GuardRun(l, GuardStep(l, g, PROBE_KEY, now, now), rest);
  }

  function TwoBurstRun(n: nat, later: real): seq<Event> {
    Calls(0.0, n) + (Calls(later, n) + [])
  }

  lemma TwoBurstRunIsARun(clock: Clock, g: GuardState, n: nat, later: real)
    requires later >= 0.0 && clock.Shows(later)
    ensures ClockOrdered(clock, TwoBurstRun(n, later), 0.0) && Restartable(g, TwoBurstRun(n, later))
  {
    CallsOrdered(clock, later, n, 0.0, []);
    CallsOrdered(clock, 0.0, n, 0.0, Calls(later, n) + []);
    CallsAreCalls(0.0, n);
    CallsAreCalls(later, n);
  }

  lemma TwoBurstsAdmitted(l: Limits, g: GuardState, n: nat, later: real)
    requires l.Valid() && IsEmpty(g) && n == l.burst && later > BUCKET_TTL_MS
    ensures AdmittedIn(TwoBurstRun(n, later), GuardRun(l, g, TwoBurstRun(n, later)), PROBE_KEY, 0.0, later) == 2 * n
  {
    var g1 := BatchAdmitted(l, g, 0.0, n, Calls(later, n) + [], later);
    LoadAfterPrune(g1, later, PROBE_KEY);
    var g2 := BatchAdmitted(l, g1, later, n, [], later);
  }

  lemma TwoBurstsAreTooMany(l: Limits, g: GuardState, es: seq<Event>, seconds: real, refill: real)
    requires AdmittedIn(es, GuardRun(l, g, es), PROBE_KEY, 0.0, 0.0 + seconds * 1000.0) == 2 * l.burst
    requires refill == l.refillPerSecond * seconds && refill < l.burst as real
    ensures !KeepsRate(l, g, es, PROBE_KEY, 0.0, seconds)
  {
  }

  /** Below the refill condition: spend a burst, wait just over the time to live, spend a burst again.
      The guard admits both, more than the rate allows. */
  lemma TwoBursts(l: Limits, clock: Clock, g: GuardState) returns (es: seq<Event>, seconds: real)
    requires l.Valid() && !l.RefillsWhileIdle(clock) && IsEmpty(g)
    ensures ClockOrdered(clock, es, 0.0) && Restartable(g, es) && seconds >= 0.0
    ensures !KeepsRate(l, g, es, PROBE_KEY, 0.0, seconds)
  {
    seconds := PauseBetweenBursts(l, clock);
    es := TwoBurstRun(l.burst, 0.0 + seconds * 1000.0);
    TwoBurstRunIsARun(clock, g, l.burst, 0.0 + seconds * 1000.0);
    TwoBurstsAdmitted(l, g, l.burst, 0.0 + seconds * 1000.0);
    TwoBurstsAreTooMany(l, g, es, seconds, l.refillPerSecond * seconds);
  }

  lemma QuotientAbove(x: real, y: real, c: real)
    requires y > 0.0 && x > c * y
    ensures x / y > c
  {
    DivideThenMultiply(x, y);
    assert (x / y - c) * y > 0.0;
  }

  /** A pause that this clock can show, long enough to forget a bucket and too short to refill it. */
  lemma PauseBetweenBursts(l: Limits, clock: Clock) returns (seconds: real)
    requires l.Valid() && !l.RefillsWhileIdle(clock)
    ensures seconds > 3600.0 && l.refillPerSecond * seconds < l.burst as real && clock.Shows(0.0 + seconds * 1000.0)
  {
    if clock.WholeMilliseconds? {
      seconds := 3600.001;
      assert 0.0 + seconds * 1000.0 == 3_600_001 as real;
    } else {
      var q := l.burst as real / l.refillPerSecond;
      seconds := (3600.0 + q) / 2.0;
      DivideThenMultiply(l.burst as real, l.refillPerSecond);
      QuotientAbove(l.burst as real, l.refillPerSecond, 3600.0);
      assert l.refillPerSecond * seconds == (l.refillPerSecond * 3600.0 + q * l.refillPerSecond) / 2.0;
    }
  }

  /** The guard keeps the promised rate if and only if the shortest idle time that its clock can
      show refills a whole burst. */
  lemma RateConditionIsExact(l: Limits, clock: Clock, g: GuardState)
    requires l.Valid() && IsEmpty(g)
    ensures AlwaysKeepsRate(l, clock, g) <==> l.RefillsWhileIdle(clock)
  {
    if l.RefillsWhileIdle(clock) {
      forall es, key, a, seconds {:trigger KeepsRate(l, g, es, key, a, seconds)}
        | ClockOrdered(clock, es, 0.0) && Restartable(g, es) && seconds >= 0.0
        ensures KeepsRate(l, g, es, key, a, seconds)
      {
        RateBound(l, clock, g, es, 0.0, key, a, seconds);
      }
    } else {
      var es, seconds := TwoBursts(l, clock, g);
    }
  }

  /** Likewise it is the ideal limiter in disguise if and only if the shortest idle time that its
      clock can show refills a whole burst. */
  lemma RefinementConditionIsExact(l: Limits, clock: Clock, g: GuardState)
    requires l.Valid() && IsEmpty(g)
    ensures AlwaysIdeal(l, clock, g) <==> l.RefillsWhileIdle(clock)
  {
    if l.RefillsWhileIdle(clock) {
      forall es | ClockOrdered(clock, es, 0.0) && Restartable(g, es)
        ensures GuardRun(l, g, es) == IdealRun(l, map[], es)
      {
        EmptyRefinesEmpty(l, clock, g, 0.0);
        GuardRefinesIdeal(l, clock, g, map[], 0.0, es);
      }
    } else {
      var es, seconds := TwoBursts(l, clock, g);
      IdealWindowBound(l, clock, map[], 0.0, es, PROBE_KEY, 0.0, 0.0 + seconds * 1000.0);
      CapacityOfNewKey(l, 0.0, seconds);
    }
  }
}

/** The guard itself: fields, cache and store updated in place. */
module GatewayGuard {
  import opened Prelude
  import opened TokenBucket

  /** `GatewayRateLimitStore` as the SQLite repository implements it. */
  class RateLimitStore {
    var rows: Buckets

    constructor ()
      ensures rows == map[]
    {
      rows := map[];
    }

    method Load(key: string) returns (b: Option<Bucket>)
      ensures b == Get(rows, key)
    {
      b := if key in rows then Some(rows[key]) else None;
    }

    method Save(key: string, b: Bucket)
      modifies this
      ensures rows == old(rows)[key := b]
    {
      rows := rows[key := b];
    }

    method Prune(olderThanMs: real)
      modifies this
      ensures rows == PruneStore(old(rows), olderThanMs)
    {
      rows := map k | k in rows && rows[k].updatedAtMs >= olderThanMs :: rows[k];
    }
  }

  /** What `loadBucket` put into the memory is overwritten by the next save. */
  lemma SaveForgetsLoad(g: GuardState, key: string, loaded: Bucket)
    ensures forall b :: Save(g.(memory := g.memory[key := loaded]), key, b) == Save(g, key, b)
  {
    forall b
      ensures Save(g.(memory := g.memory[key := loaded]), key, b) == Save(g, key, b)
    {
      assert g.memory[key := loaded][key := b] == g.memory[key := b];
    }
  }

  class Guard {
    const limits: Limits
    const store: RateLimitStore?
    var buckets: Buckets

    constructor (limits: Limits, store: RateLimitStore?)
      ensures this.limits == limits && this.store == store && buckets == map[]
    {
      this.limits := limits;
      this.store := store;
      this.buckets := map[];
    }

    ghost function State(): GuardState
      reads this, store
    {
      GuardState(buckets, if store == null then None else Some(store.rows))
    }

    /** `consume`; `pruneAt` and `now` are its two readings of the clock. */
    method Consume(key: string, pruneAt: real, now: real) returns (allowed: bool)
      modifies this, store
      ensures allowed == GuardDecision(limits, old(State()), key, pruneAt, now).allowed
      ensures State() == GuardStep(limits, old(State()), key, pruneAt, now)
    {
      PruneBuckets(pruneAt);
      ghost var pruned := State();
      var existing := LoadBucket(key);
      if existing.Some? { SaveForgetsLoad(pruned, key, existing.value); }
      if existing.None? {
        SaveBucket(key, Bucket(limits.burst as real - 1.0, now));
        return true;
      }
      var elapsedMs := now - existing.value.updatedAtMs;
      var elapsedSeconds := if elapsedMs > 0.0 then elapsedMs / 1000.0 else 0.0;
      var replenished := MinReal(limits.burst as real, existing.value.tokens + elapsedSeconds * limits.refillPerSecond);
      assert replenished == Replenished(limits, existing.value, now);
      if replenished < 1.0 {
        SaveBucket(key, Bucket(replenished, now));
        return false;
      }
      SaveBucket(key, Bucket(replenished - 1.0, now));
      return true;
    }

    method LoadBucket(key: string) returns (b: Option<Bucket>)
      modifies this
      ensures b == Load(old(State()), key)
      ensures buckets == if b.Some? then old(buckets)[key := b.value] else old(buckets)
    {
      if key in buckets {
        b := Some(buckets[key]);
        assert buckets == buckets[key := b.value];
        return;
      }
      if store == null {
        return None;
      }
      b := store.Load(key);
      if b.Some? {
        buckets := buckets[key := b.value];
      }
    }

    method SaveBucket(key: string, b: Bucket)
      modifies this, store
      ensures State() == Save(old(State()), key, b)
    {
      buckets := buckets[key := b];
      if store != null {
        store.Save(key, b);
      }
    }

    method PruneBuckets(now: real)
      modifies this, store
      ensures State() == Prune(old(State()), now)
    {
      var todo := buckets.Keys;
      while todo != {}
        invariant todo <= buckets.Keys <= old(buckets).Keys
        invariant store != null ==> store.rows == old(store.rows)
        invariant forall k :: k in buckets ==> buckets[k] == old(buckets)[k]
        invariant forall k :: k in old(buckets) && k !in todo ==> (k in buckets <==> !IsIdle(old(buckets)[k], now))
        decreases |todo|
      {
        var key :| key in todo;
        if now - buckets[key].updatedAtMs > BUCKET_TTL_MS {
          buckets := buckets - {key};
        }
        todo := todo - {key};
      }
      assert buckets == PruneMemory(old(buckets), now);
      if store != null {
        store.Prune(now - BUCKET_TTL_MS);
      }
    }
  }
}

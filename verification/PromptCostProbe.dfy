/** Prompt cache accounting (src/diagnostics/prompt-cost-probe.ts).

    Hashing and token estimation are parameters; the hash is taken to be injective. */
module CacheAccounting {
  import opened Conversation
  import opened Prelude
  import opened PromptPrefix

  // ----- Common prefixes and token sums -----

  /** Length of the longest common prefix. */
  function CommonPrefix<T(==)>(a: seq<T>, b: seq<T>): (n: nat)
    ensures n <= |a| && n <= |b| && a[..n] == b[..n]
    ensures n < |a| && n < |b| ==> a[n] != b[n]
  {
    if a != [] && b != [] && a[0] == b[0] then
      var n := CommonPrefix(a[1..], b[1..]);
      assert a[..n + 1] == [a[0]] + a[1..][..n] && b[..n + 1] == [b[0]] + b[1..][..n];
      n + 1
    else 0
  }

  lemma {:induction false} LongerThanEveryCommonPrefix<T>(a: seq<T>, b: seq<T>, k: nat)
    requires k <= |a| && k <= |b| && a[..k] == b[..k]
    ensures k <= CommonPrefix(a, b)
    decreases k
  {
    if k > 0 {
      assert a[0] == a[..k][0] == b[..k][0] == b[0];
      assert a[1..][..k - 1] == a[..k][1..] == b[..k][1..] == b[1..][..k - 1];
      LongerThanEveryCommonPrefix(a[1..], b[1..], k - 1);
    }
  }

  lemma {:induction false} PrefixUpToDifference<T>(a: seq<T>, b: seq<T>, k: nat)
    requires k <= |a| && k <= |b| && a[..k] == b[..k] && (k == |a| || k == |b| || a[k] != b[k])
    ensures k == CommonPrefix(a, b)
    decreases k
  {
    if k > 0 {
      assert a[0] == a[..k][0] == b[..k][0] == b[0];
      assert a[1..][..k - 1] == a[..k][1..] == b[..k][1..] == b[1..][..k - 1];
      PrefixUpToDifference(a[1..], b[1..], k - 1);
    }
  }

  function Sum(xs: seq<int>): int {
    if xs == [] then 0 else xs[0] + Sum(xs[1..])
  }

  lemma {:induction false} SumConcat(a: seq<int>, b: seq<int>)
    ensures Sum(a + b) == Sum(a) + Sum(b)
    decreases |a|
  {
    if a == [] {
      assert a + b == b;
    } else {
      assert (a + b)[1..] == a[1..] + b;
      SumConcat(a[1..], b);
    }
  }

  function Tokens(ms: seq<Message>, estimate: Message -> nat): (t: nat) {
    if ms == [] then 0 else estimate(ms[0]) + Tokens(ms[1..], estimate)
  }

  lemma {:induction false} TokensConcat(a: seq<Message>, b: seq<Message>, estimate: Message -> nat)
    ensures Tokens(a + b, estimate) == Tokens(a, estimate) + Tokens(b, estimate)
    decreases |a|
  {
    if a == [] {
      assert a + b == b;
    } else {
      assert (a + b)[1..] == a[1..] + b;
      TokensConcat(a[1..], b, estimate);
    }
  }

  lemma {:induction false} SumOfMap(ms: seq<Message>, estimate: Message -> nat)
    ensures Sum(Map(ms, estimate)) == Tokens(ms, estimate)
    decreases |ms|
  {
    if ms != [] {
      assert Map(ms, estimate)[1..] == Map(ms[1..], estimate);
      SumOfMap(ms[1..], estimate);
    }
  }

  lemma TokensOfPrefix(ms: seq<Message>, k: nat, estimate: Message -> nat)
    requires k <= |ms|
    ensures Tokens(ms[..k], estimate) <= Tokens(ms, estimate)
  {
    TokensConcat(ms[..k], ms[k..], estimate);
    assert ms == ms[..k] + ms[k..];
  }

  // ----- Records -----

  datatype Record = Record(cachedTokens: int, inputTokens: int, lcpMessageCount: nat, requestIndex: nat,
                           uncachedTokens: int)

  /** What the probe assumes about its environment. */
  datatype Meter = Meter(hash: Message -> string, estimate: Message -> nat, blockTokens: nat) {
    ghost predicate Valid() {
      blockTokens > 0 && forall a, b :: hash(a) == hash(b) ==> a == b
    }

    /** Tokens rounded down to whole cache blocks. */
    function WholeBlocks(tokens: nat): (t: nat)
      requires blockTokens > 0
      ensures t <= tokens < t + blockTokens
    {
      tokens / blockTokens * blockTokens
    }

    /** The credit for a request that follows `previous`. */
    function Credit(previous: seq<Message>, current: seq<Message>): (t: nat)
      requires blockTokens > 0
    {
      WholeBlocks(Tokens(current[..CommonPrefix(previous, current)], estimate))
    }

    function RecordOf(previous: seq<Message>, current: seq<Message>, index: nat): Record
      requires blockTokens > 0
    {
      var input, cached := Tokens(current, estimate), Credit(previous, current);
      Record(cached, input, CommonPrefix(previous, current), index, input - cached)
    }

    /** The records of a whole session; the first request follows nothing. */
    function Session(requests: seq<seq<Message>>): (r: seq<Record>)
      requires blockTokens > 0
      ensures |r| == |requests|
    {
      if requests == [] then []
      else
        var before := Init(requests);
        Session(before) + [RecordOf(if before == [] then [] else Last(before), Last(requests), |before|)]
    }

    lemma WholeBlocksMonotone(a: nat, b: nat)
      requires blockTokens > 0 && a <= b
      ensures WholeBlocks(a) <= WholeBlocks(b)
    {
      if WholeBlocks(b) < WholeBlocks(a) {
        BlocksApart(a / blockTokens, b / blockTokens);
      }
    }

    lemma BlocksApart(i: nat, j: nat)
      requires blockTokens > 0
      ensures j < i ==> j * blockTokens + blockTokens <= i * blockTokens
    {
      if j < i {
        var d := i - j - 1;
        assert i * blockTokens == j * blockTokens + blockTokens + d * blockTokens;
      }
    }

    lemma {:induction false} SameHashesSamePrefix(a: seq<Message>, b: seq<Message>)
      requires Valid()
      ensures CommonPrefix(Map(a, hash), Map(b, hash)) == CommonPrefix(a, b)
    {
      var x, y := Map(a, hash), Map(b, hash);
      var n, k := CommonPrefix(x, y), CommonPrefix(a, b);
      assert forall i :: 0 <= i < k ==> a[i] == a[..k][i] == b[..k][i] == b[i];
      assert x[..k] == y[..k];
      LongerThanEveryCommonPrefix(x, y, k);
      assert forall i :: 0 <= i < n ==> hash(a[i]) == x[..n][i] == y[..n][i] == hash(b[i]);
      assert a[..n] == b[..n];
      LongerThanEveryCommonPrefix(a, b, n);
    }
  }

  /** Cached and uncached tokens add up to the input. */
  predicate Balanced(r: Record) {
    r.cachedTokens + r.uncachedTokens == r.inputTokens && 0 <= r.cachedTokens <= r.inputTokens
  }

  lemma {:induction false} SessionIsBalanced(meter: Meter, requests: seq<seq<Message>>)
    requires meter.Valid()
    ensures forall r :: r in meter.Session(requests) ==> Balanced(r)
    decreases |requests|
  {
    if requests != [] {
      SessionIsBalanced(meter, Init(requests));
      var before := Init(requests);
      var previous := if before == [] then [] else Last(before);
      TokensOfPrefix(Last(requests), CommonPrefix(previous, Last(requests)), meter.estimate);
    }
  }

  lemma {:induction false} RecordAt(meter: Meter, requests: seq<seq<Message>>, i: nat)
    requires meter.Valid() && i < |requests|
    ensures meter.Session(requests)[i] == meter.RecordOf(if i == 0 then [] else requests[i - 1], requests[i], i)
    decreases |requests|
  {
    if i < |requests| - 1 { RecordAt(meter, Init(requests), i); }
  }

  lemma CountOfBlocks(meter: Meter, tokens: nat) returns (blocks: nat)
    requires meter.blockTokens > 0
    ensures meter.WholeBlocks(tokens) == blocks * meter.blockTokens
  {
    blocks := tokens / meter.blockTokens;
  }

  /** What every record of a session says about its request and the one before: the input is the sum over its
      messages, the prefix is the longest one that both requests start with, and the credit is as many tokens of
      that prefix as fill whole blocks. */
  lemma RecordsOfSession(meter: Meter, requests: seq<seq<Message>>, i: nat) returns (prefix: seq<Message>, blocks: nat)
    requires meter.Valid() && i < |requests|
    ensures var previous, current := if i == 0 then [] else requests[i - 1], requests[i];
            var r := meter.Session(requests)[i];
            && prefix <= previous && prefix <= current
            && (|prefix| < |previous| && |prefix| < |current| ==> previous[|prefix|] != current[|prefix|])
            && r.requestIndex == i && r.lcpMessageCount == |prefix|
            && r.inputTokens == Sum(Map(current, meter.estimate))
            && r.cachedTokens == blocks * meter.blockTokens
            && r.cachedTokens <= Sum(Map(prefix, meter.estimate)) < r.cachedTokens + meter.blockTokens
            && r.uncachedTokens == r.inputTokens - r.cachedTokens
  {
    var previous, current := if i == 0 then [] else requests[i - 1], requests[i];
    RecordAt(meter, requests, i);
    prefix, blocks := RecordContents(meter, previous, current, i);
  }

  lemma RecordContents(meter: Meter, previous: seq<Message>, current: seq<Message>, index: nat)
      returns (prefix: seq<Message>, blocks: nat)
    requires meter.blockTokens > 0
    ensures var r := meter.RecordOf(previous, current, index);
            && prefix <= previous && prefix <= current
            && (|prefix| < |previous| && |prefix| < |current| ==> previous[|prefix|] != current[|prefix|])
            && r.requestIndex == index && r.lcpMessageCount == |prefix|
            && r.inputTokens == Sum(Map(current, meter.estimate))
            && r.cachedTokens == blocks * meter.blockTokens
            && r.cachedTokens <= Sum(Map(prefix, meter.estimate)) < r.cachedTokens + meter.blockTokens
            && r.uncachedTokens == r.inputTokens - r.cachedTokens
  {
    prefix := current[..CommonPrefix(previous, current)];
    blocks := CountOfBlocks(meter, Tokens(prefix, meter.estimate));
    SumOfMap(current, meter.estimate);
    SumOfMap(prefix, meter.estimate);
  }

  // ----- Reports -----

  datatype Pricing = Pricing(cacheHitPerMillion: real, missPerMillion: real)

  datatype Report = Report(
    cacheHitRate: real,
    effectiveCostUsd: real,
    pricing: Pricing,
    requests: seq<Record>,
    totalCachedTokens: int,
    totalInputTokens: int,
    totalUncachedTokens: int)

  function Cached(rs: seq<Record>): int {
    if rs == [] then 0 else rs[0].cachedTokens + Cached(rs[1..])
  }

  function Input(rs: seq<Record>): int {
    if rs == [] then 0 else rs[0].inputTokens + Input(rs[1..])
  }

  function Uncached(rs: seq<Record>): int {
    if rs == [] then 0 else rs[0].uncachedTokens + Uncached(rs[1..])
  }

  function Cost(uncached: int, cached: int, pricing: Pricing): real {
    (uncached as real / 1_000_000.0) * pricing.missPerMillion
    + (cached as real / 1_000_000.0) * pricing.cacheHitPerMillion
  }

  function ReportOn(requests: seq<Record>, cached: int, input: int, pricing: Pricing): Report {
    var uncached := Max(0, input - cached);
    var rate := if input == 0 then 0.0 else cached as real / input as real;
    Report(rate, Cost(uncached, cached, pricing), pricing, requests, cached, input, uncached)
  }

  function GetReport(records: seq<Record>, pricing: Pricing): Report {
    ReportOn(records, Cached(records), Input(records), pricing)
  }

  const DEFAULT_PRICING := Pricing(0.07, 0.56)

  function CachedOfReports(reports: seq<Report>): int {
    if reports == [] then 0 else reports[0].totalCachedTokens + CachedOfReports(reports[1..])
  }

  function InputOfReports(reports: seq<Report>): int {
    if reports == [] then 0 else reports[0].totalInputTokens + InputOfReports(reports[1..])
  }

  function RequestsOf(report: Report): seq<Record> {
    report.requests
  }

  function AllRequests(reports: seq<Report>): seq<Record> {
    Concat(Map(reports, RequestsOf))
  }

  function AggregateProbeReports(reports: seq<Report>): Report {
    if reports == [] then Report(0.0, 0.0, DEFAULT_PRICING, [], 0, 0, 0)
    else ReportOn(AllRequests(reports), CachedOfReports(reports), InputOfReports(reports), reports[0].pricing)
  }

  ghost predicate AllBalanced(rs: seq<Record>) {
    forall i :: 0 <= i < |rs| ==> Balanced(rs[i])
  }

  lemma {:induction false} TotalsBalance(rs: seq<Record>)
    requires AllBalanced(rs)
    ensures Cached(rs) + Uncached(rs) == Input(rs) && 0 <= Cached(rs) <= Input(rs)
    decreases |rs|
  {
    if rs != [] { TotalsBalance(rs[1..]); }
  }

  lemma RateInUnitInterval(cached: int, input: int)
    requires 0 <= cached <= input && input > 0
    ensures 0.0 <= cached as real / input as real <= 1.0
  {
    var q := cached as real / input as real;
    assert q * input as real == cached as real;
    OutsideUnitInterval(q, input as real);
  }

  lemma OutsideUnitInterval(q: real, n: real)
    requires n > 0.0
    ensures q < 0.0 ==> q * n < 0.0
    ensures q > 1.0 ==> q * n > n
  {
    if q > 1.0 { assert (q - 1.0) * n > 0.0; }
  }

  /** The report of a session balances, its uncached total is the sum over the records, and the hit
      rate is a fraction. */
  lemma ReportBalances(rs: seq<Record>, pricing: Pricing)
    requires AllBalanced(rs)
    ensures var r := GetReport(rs, pricing);
            && r.totalCachedTokens + r.totalUncachedTokens == r.totalInputTokens
            && r.totalUncachedTokens == Uncached(rs)
            && 0.0 <= r.cacheHitRate <= 1.0
  {
    TotalsBalance(rs);
    if Input(rs) > 0 { RateInUnitInterval(Cached(rs), Input(rs)); }
  }

  /** The amounts of a report in terms of its totals: the hit rate is the cached share of the input, and a million times
      the cost is every uncached token at the price of a miss and every cached one at the price of a hit. So the
      cache saves the difference of the prices on every cached token. */
  lemma ReportAmounts(rs: seq<Record>, pricing: Pricing)
    requires AllBalanced(rs)
    ensures var r := GetReport(rs, pricing);
            && r.requests == rs && r.pricing == pricing
            && r.totalCachedTokens == Cached(rs) && r.totalInputTokens == Input(rs)
            && r.cacheHitRate * r.totalInputTokens as real
               == (if r.totalInputTokens == 0 then 0.0 else r.totalCachedTokens as real)
            && r.effectiveCostUsd * 1_000_000.0
               == r.totalUncachedTokens as real * pricing.missPerMillion
                  + r.totalCachedTokens as real * pricing.cacheHitPerMillion
            && r.effectiveCostUsd * 1_000_000.0
               == r.totalInputTokens as real * pricing.missPerMillion
                  - r.totalCachedTokens as real * (pricing.missPerMillion - pricing.cacheHitPerMillion)
  {
    ReportBalances(rs, pricing);
    var cached, uncached := Cached(rs), Uncached(rs);
    if Input(rs) != 0 { DivideThenMultiply(cached as real, Input(rs) as real); }
    MillionTimes(uncached as real, pricing.missPerMillion);
    MillionTimes(cached as real, pricing.cacheHitPerMillion);
    PriceOfBoth(uncached as real, cached as real, pricing.missPerMillion, pricing.cacheHitPerMillion);
  }

  lemma MillionTimes(x: real, price: real)
    ensures (x / 1_000_000.0) * price * 1_000_000.0 == x * price
  {
  }

  lemma PriceOfBoth(u: real, c: real, miss: real, hit: real)
    ensures u * miss + c * hit == (u + c) * miss - c * (miss - hit)
  {
  }

  lemma {:induction false} TotalsConcat(a: seq<Record>, b: seq<Record>)
    ensures Cached(a + b) == Cached(a) + Cached(b)
    ensures Input(a + b) == Input(a) + Input(b)
    decreases |a|
  {
    if a == [] {
      assert a + b == b;
    } else {
      assert (a + b)[1..] == a[1..] + b;
      TotalsConcat(a[1..], b);
    }
  }

  /** `reports` are those of sessions with the records `sessions`, all at the same prices. */
  ghost predicate Reports(reports: seq<Report>, sessions: seq<seq<Record>>, pricing: Pricing) {
    && |reports| == |sessions|
    && forall i :: 0 <= i < |reports| ==> AllBalanced(sessions[i]) && reports[i] == GetReport(sessions[i], pricing)
  }

  lemma {:induction false} AggregateTotals(reports: seq<Report>, sessions: seq<seq<Record>>, pricing: Pricing)
    requires Reports(reports, sessions, pricing)
    ensures AllRequests(reports) == Concat(sessions) && AllBalanced(Concat(sessions))
    ensures CachedOfReports(reports) == Cached(Concat(sessions)) && InputOfReports(reports) == Input(Concat(sessions))
    decreases |reports|
  {
    if reports != [] {
      AggregateTotals(reports[1..], sessions[1..], pricing);
      assert Map(reports, RequestsOf)[1..] == Map(reports[1..], RequestsOf);
      TotalsConcat(sessions[0], Concat(sessions[1..]));
    }
  }

  /** Aggregating the reports of several sessions gives the report on all their requests together. */
  lemma AggregateIsReportOnAllRequests(reports: seq<Report>, sessions: seq<seq<Record>>, pricing: Pricing)
    requires Reports(reports, sessions, pricing) && reports != []
    ensures AggregateProbeReports(reports) == GetReport(Concat(sessions), pricing)
    ensures var r := AggregateProbeReports(reports);
            r.totalCachedTokens + r.totalUncachedTokens == r.totalInputTokens
  {
    AggregateTotals(reports, sessions, pricing);
    ReportBalances(Concat(sessions), pricing);
  }

  function CostOfReports(reports: seq<Report>): real {
    if reports == [] then 0.0 else reports[0].effectiveCostUsd + CostOfReports(reports[1..])
  }

  lemma CostAdds(u: int, c: int, v: int, d: int, p: Pricing)
    ensures Cost(u + v, c + d, p) == Cost(u, c, p) + Cost(v, d, p)
  {
  }

  /** ... and it costs what the sessions cost. */
  lemma {:induction false} AggregateCostIsTheSum(reports: seq<Report>, sessions: seq<seq<Record>>, pricing: Pricing)
    requires Reports(reports, sessions, pricing)
    ensures CostOfReports(reports) == GetReport(Concat(sessions), pricing).effectiveCostUsd
    decreases |reports|
  {
    if reports != [] {
      var rest := Concat(sessions[1..]);
      AggregateCostIsTheSum(reports[1..], sessions[1..], pricing);
      AggregateTotals(reports[1..], sessions[1..], pricing);
      CostOfTwo(sessions[0], rest, pricing);
    }
  }

  lemma CostOfTwo(a: seq<Record>, b: seq<Record>, pricing: Pricing)
    requires AllBalanced(a) && AllBalanced(b)
    ensures GetReport(a + b, pricing).effectiveCostUsd
            == GetReport(a, pricing).effectiveCostUsd + GetReport(b, pricing).effectiveCostUsd
  {
    TotalsConcat(a, b);
    TotalsBalance(a);
    TotalsBalance(b);
    CostAdds(Uncached(a), Cached(a), Uncached(b), Cached(b), pricing);
  }

  // ----- Stabilised requests -----

  /** The stable messages of the leading run, in the order in which they are sent. */
  function StableLeading(ms: seq<Message>): seq<Message> {
    Filter(Leading(ms), IsStableSystem) + Filter(Leading(ms), IsStableMemory)
  }

  lemma StabilizedStart(ms: seq<Message>)
    ensures Stabilized(ms) == StableLeading(ms) + (Filter(Leading(ms), IsVariable) + Turns(ms))
  {
  }

  lemma CommonStartCredited(meter: Meter, previous: seq<Message>, current: seq<Message>, start: seq<Message>)
    requires meter.Valid() && start <= previous && start <= current
    ensures meter.Credit(previous, current) >= meter.WholeBlocks(Tokens(start, meter.estimate))
  {
    var n := CommonPrefix(previous, current);
    LongerThanEveryCommonPrefix(previous, current, |start|);
    TokensOfPrefix(current[..n], |start|, meter.estimate);
    assert current[..n][..|start|] == start;
    meter.WholeBlocksMonotone(Tokens(start, meter.estimate), Tokens(current[..n], meter.estimate));
  }

  /** Two consecutive stabilised requests with equal stable leading messages are credited at least
      these messages, rounded down to a whole block. */
  lemma StableLeadingIsCredited(meter: Meter, previous: seq<Message>, current: seq<Message>)
    requires meter.Valid() && StableLeading(previous) == StableLeading(current)
    ensures meter.Credit(Stabilized(previous), Stabilized(current))
            >= meter.WholeBlocks(Tokens(StableLeading(current), meter.estimate))
  {
    StabilizedStart(previous);
    StabilizedStart(current);
    CommonStartCredited(meter, Stabilized(previous), Stabilized(current), StableLeading(current));
  }

  lemma {:induction false} TokensByClass(s: seq<Message>, estimate: Message -> nat)
    ensures Tokens(s, estimate) ==
            Tokens(Filter(s, IsStableSystem), estimate) + Tokens(Filter(s, IsStableMemory), estimate)
            + Tokens(Filter(s, IsVariable), estimate)
    decreases |s|
  {
    if s != [] {
      TokensByClass(s[1..], estimate);
      assert s == [s[0]] + s[1..];
      TokensFilterCons(s[0], s[1..], IsStableSystem, estimate);
      TokensFilterCons(s[0], s[1..], IsStableMemory, estimate);
      TokensFilterCons(s[0], s[1..], IsVariable, estimate);
    }
  }

  lemma TokensFilterCons(m: Message, rest: seq<Message>, p: Message -> bool, estimate: Message -> nat)
    ensures Tokens(Filter([m] + rest, p), estimate)
            == (if p(m) then estimate(m) else 0) + Tokens(Filter(rest, p), estimate)
  {
    FilterCons(m, rest, p);
    assert ([m] + Filter(rest, p))[1..] == Filter(rest, p);
  }

  lemma FilteredStart(s: seq<Message>, k: nat, p: Message -> bool, estimate: Message -> nat)
    requires k <= |s|
    ensures Filter(s[..k], p) <= Filter(s, p)
    ensures Tokens(Filter(s[..k], p), estimate) <= Tokens(Filter(s, p), estimate)
  {
    assert s == s[..k] + s[k..];
    FilterConcat(s[..k], s[k..], p);
    StartOfConcat(Filter(s[..k], p), Filter(s[k..], p), estimate);
  }

  lemma StartOfConcat(a: seq<Message>, b: seq<Message>, estimate: Message -> nat)
    ensures a <= a + b && Tokens(a, estimate) <= Tokens(a + b, estimate)
  {
    TokensConcat(a, b, estimate);
  }

  /** A common prefix that ends inside both leading runs: the sorted runs share at least as much. */
  lemma PrefixInsideRuns(a: seq<Message>, b: seq<Message>, k: nat, estimate: Message -> nat)
      returns (start: seq<Message>)
    requires k <= LeadingCount(a) && k <= LeadingCount(b) && a[..k] == b[..k] && StableLeading(a) == StableLeading(b)
    ensures start <= Stabilized(a) && start <= Stabilized(b)
    ensures Tokens(start, estimate) >= Tokens(a[..k], estimate)
  {
    var shared := Filter(a[..k], IsVariable);
    start := StableLeading(a) + shared;
    assert Leading(a)[..k] == a[..k] && Leading(b)[..k] == a[..k];
    FilteredStart(Leading(a), k, IsVariable, estimate);
    FilteredStart(Leading(b), k, IsVariable, estimate);
    FilteredStart(Leading(a), k, IsStableSystem, estimate);
    FilteredStart(Leading(a), k, IsStableMemory, estimate);
    StabilizedStart(a);
    StabilizedStart(b);
    StartsAlike(StableLeading(a), shared, Filter(Leading(a), IsVariable), Turns(a));
    StartsAlike(StableLeading(b), shared, Filter(Leading(b), IsVariable), Turns(b));
    TokensByClass(a[..k], estimate);
    TokensConcat(StableLeading(a), shared, estimate);
    TokensConcat(Filter(Leading(a), IsStableSystem), Filter(Leading(a), IsStableMemory), estimate);
  }

  lemma StartsAlike(stable: seq<Message>, shared: seq<Message>, variable: seq<Message>, turns: seq<Message>)
    requires shared <= variable
    ensures stable + shared <= stable + (variable + turns)
  {
  }

  lemma SameLeadingRun(a: seq<Message>, b: seq<Message>, k: nat)
    requires LeadingCount(a) < k <= |a| && k <= |b| && a[..k] == b[..k]
    ensures LeadingCount(b) == LeadingCount(a) && Leading(b) == Leading(a)
  {
    LeadingAreSystem(a);
    assert forall i :: 0 <= i < k ==> a[i] == a[..k][i] == b[..k][i] == b[i];
    LeadingCountIsExact(b, LeadingCount(a));
  }

  lemma TokensOfByClass(run: seq<Message>, estimate: Message -> nat)
    ensures Tokens(ByClass(run), estimate) == Tokens(run, estimate)
  {
    TokensByClass(run, estimate);
    TokensConcat(Filter(run, IsStableSystem) + Filter(run, IsStableMemory), Filter(run, IsVariable), estimate);
    TokensConcat(Filter(run, IsStableSystem), Filter(run, IsStableMemory), estimate);
  }

  /** A common prefix that reaches past the leading runs: the runs are equal and sort alike. */
  lemma PrefixPastRuns(a: seq<Message>, b: seq<Message>, k: nat, estimate: Message -> nat) returns (start: seq<Message>)
    requires LeadingCount(a) < k <= |a| && k <= |b| && a[..k] == b[..k]
    ensures start <= Stabilized(a) && start <= Stabilized(b)
    ensures Tokens(start, estimate) == Tokens(a[..k], estimate)
  {
    SameLeadingRun(a, b, k);
    var run, tail := Leading(a), a[LeadingCount(a)..k];
    start := ByClass(run) + tail;
    assert a[..k] == run + tail && b[..k] == run + b[LeadingCount(a)..k];
    assert tail == a[..k][LeadingCount(a)..] == b[..k][LeadingCount(a)..];
    assert tail <= Turns(a) && tail <= Turns(b);
    TokensOfByClass(run, estimate);
    TokensConcat(ByClass(run), tail, estimate);
    TokensConcat(run, tail, estimate);
  }

  /** As long as the stable leading messages stay the same, stabilising never lowers the credit. */
  lemma StabilizingNeverLowersTheCredit(meter: Meter, previous: seq<Message>, current: seq<Message>)
    requires meter.Valid() && StableLeading(previous) == StableLeading(current)
    ensures meter.Credit(Stabilized(previous), Stabilized(current)) >= meter.Credit(previous, current)
  {
    var k := CommonPrefix(previous, current);
    var start;
    if LeadingCount(previous) < k {
      start := PrefixPastRuns(previous, current, k, meter.estimate);
    } else if LeadingCount(current) < k {
      start := PrefixPastRuns(current, previous, k, meter.estimate);
    } else {
      start := PrefixInsideRuns(previous, current, k, meter.estimate);
    }
    CommonStartCredited(meter, Stabilized(previous), Stabilized(current), start);
    meter.WholeBlocksMonotone(Tokens(current[..k], meter.estimate), Tokens(start, meter.estimate));
  }
}

/** The probe itself: a provider that records every request before passing it on. */
module PromptCostProbe {
  import opened CacheAccounting
  import opened Conversation
  import opened Prelude

  /** A missing estimate counts as 0. */
  function EstimateAt(estimates: seq<nat>, index: nat): nat {
    if index < |estimates| then estimates[index] else 0
  }

  method LongestCommonPrefixTokens(previousHashes: seq<string>, currentHashes: seq<string>, tokenEstimates: seq<nat>)
    returns (lcpMessageCount: nat, lcpTokens: nat)
    ensures lcpMessageCount == CommonPrefix(previousHashes, currentHashes)
    ensures lcpTokens == Sum(seq(lcpMessageCount, i requires 0 <= i => EstimateAt(tokenEstimates, i)))
  {
    lcpMessageCount, lcpTokens := 0, 0;
    var limit := Min(|previousHashes|, |currentHashes|);
    var index := 0;
    while index < limit
      invariant 0 <= index == lcpMessageCount <= limit
      invariant previousHashes[..index] == currentHashes[..index]
      invariant lcpTokens == Sum(seq(index, i requires 0 <= i => EstimateAt(tokenEstimates, i)))
    {
      if previousHashes[index] != currentHashes[index] {
        break;
      }
      SumConcat(seq(index, i requires 0 <= i => EstimateAt(tokenEstimates, i)), [EstimateAt(tokenEstimates, index)]);
      assert seq(index + 1, i requires 0 <= i => EstimateAt(tokenEstimates, i))
          == seq(index, i requires 0 <= i => EstimateAt(tokenEstimates, i)) + [EstimateAt(tokenEstimates, index)];
      lcpMessageCount := lcpMessageCount + 1;
      lcpTokens := lcpTokens + EstimateAt(tokenEstimates, index);
      index := index + 1;
    }
    PrefixUpToDifference(previousHashes, currentHashes, index);
  }

  class Probe {
    const meter: Meter
    const pricing: Pricing
    var previousHashes: seq<string>
    var records: seq<Record>
    /** All requests since the last reset. */
    ghost var requests: seq<seq<Message>>

    ghost function Previous(): seq<Message>
      reads this
    {
      if requests == [] then [] else Last(requests)
    }

    ghost predicate Valid()
      reads this
    {
      meter.Valid() && previousHashes == Map(Previous(), meter.hash) && records == meter.Session(requests)
    }

    constructor (meter: Meter, pricing: Pricing)
      requires meter.Valid()
      ensures Valid() && requests == [] && this.meter == meter && this.pricing == pricing
    {
      this.meter, this.pricing := meter, pricing;
      previousHashes, records, requests := [], [], [];
    }

    /** Equal hashes stand for the common prefix with the previous request, and the estimates for its tokens. */
    lemma NextRecord(messages: seq<Message>, lcp: nat, lcpTokens: nat, input: int, cached: nat)
      requires Valid() && lcp == CommonPrefix(Map(Previous(), meter.hash), Map(messages, meter.hash))
      requires lcpTokens ==
               Sum(seq(lcp, i requires 0 <= i => EstimateAt(Map(messages, meter.estimate), i)))
      requires input == Sum(Map(messages, meter.estimate)) && cached == meter.WholeBlocks(lcpTokens)
      ensures Record(cached, input, lcp, |records|, Max(0, input - cached))
              == meter.RecordOf(Previous(), messages, |requests|)
    {
      meter.SameHashesSamePrefix(Previous(), messages);
      assert seq(lcp, i requires 0 <= i => EstimateAt(Map(messages, meter.estimate), i))
             == Map(messages[..lcp], meter.estimate);
      SumOfMap(messages[..lcp], meter.estimate);
      SumOfMap(messages, meter.estimate);
      TokensOfPrefix(messages, lcp, meter.estimate);
    }

    method Generate(messages: seq<Message>)
      requires Valid()
      modifies this
      ensures Valid() && requests == old(requests) + [messages]
    {
      var hashes := Map(messages, meter.hash);
      var tokenEstimates := Map(messages, meter.estimate);
      var totalInput := Sum(tokenEstimates);
      var lcpMessageCount, lcpTokens := LongestCommonPrefixTokens(previousHashes, hashes, tokenEstimates);
      var cachedTokens := meter.WholeBlocks(lcpTokens);
      var uncachedTokens := Max(0, totalInput - cachedTokens);
      NextRecord(messages, lcpMessageCount, lcpTokens, totalInput, cachedTokens);
      records := records + [Record(cachedTokens, totalInput, lcpMessageCount, |records|, uncachedTokens)];
      previousHashes := hashes;
      requests := requests + [messages];
      assert Init(requests) == old(requests);
    }

    method Report() returns (r: Report)
      requires Valid()
      ensures r == GetReport(meter.Session(requests), pricing)
      ensures r.totalCachedTokens + r.totalUncachedTokens == r.totalInputTokens
    {
      SessionIsBalanced(meter, requests);
      ReportBalances(records, pricing);
      r := GetReport(records, pricing);
    }

    method Reset()
      requires Valid()
      modifies this
      ensures Valid() && requests == []
    {
      previousHashes, records, requests := [], [], [];
    }
  }
}

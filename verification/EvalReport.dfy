/** Grouping of trials into task results (src/evaluation/runner.ts, `assembleTaskResults`), and
    the end-to-end statement: a run that finishes within its budget, however often it was stopped
    and resumed, reports trials 1 to `repetitions` of every task and arm, each once. */
module EvalReport {
  import opened Prelude
  import opened EvalWork
  import opened EvalPool
  import opened Combinatorics
  import opened EvalStatistics

  datatype Group = Group(item: WorkItem, trials: seq<Trial>)

  datatype Assembly = Assembly(remaining: seq<Trial>, groups: seq<Group>)

  /** `findIndex`: the first trial of `item`, or the length if there is none. */
  function FindTrial(remaining: seq<Trial>, item: WorkItem): (i: nat)
    ensures i <= |remaining|
    ensures i < |remaining| ==> remaining[i].item == item
  {
    if remaining == [] || remaining[0].item == item then 0 else 1 + FindTrial(remaining[1..], item)
  }

  function FindGroup(groups: seq<Group>, key: string): (i: nat)
    ensures i <= |groups|
    ensures i < |groups| ==> GroupKey(groups[i].item) == key
    ensures forall j :: 0 <= j < i ==> GroupKey(groups[j].item) != key
  {
    if groups == [] || GroupKey(groups[0].item) == key then 0 else 1 + FindGroup(groups[1..], key)
  }

  datatype Taken = Taken(found: Option<Trial>, remaining: seq<Trial>)

  function TakeFrom(remaining: seq<Trial>, item: WorkItem): Taken {
    var i := FindTrial(remaining, item);
    if i < |remaining| then Taken(Some(remaining[i]), remaining[..i] + remaining[i + 1..]) else Taken(None, remaining)
  }

  function WithTrial(group: Group, found: Option<Trial>): Group {
    if found.Some? then Group(group.item, group.trials + [found.value]) else group
  }

  function PutInto(groups: seq<Group>, item: WorkItem, found: Option<Trial>): seq<Group> {
    var g := FindGroup(groups, GroupKey(item));
    if g < |groups| then groups[g := WithTrial(groups[g], found)] else groups + [WithTrial(Group(item, []), found)]
  }

  /** One work item: take its trial out of the rest and put it into the group of its task and arm. */
  function AssembleStep(a: Assembly, item: WorkItem): Assembly {
    var taken := TakeFrom(a.remaining, item);
    Assembly(taken.remaining, PutInto(a.groups, item, taken.found))
  }

  function Assembled(trials: seq<Trial>, items: seq<WorkItem>): Assembly {
    if items == [] then Assembly(trials, []) else AssembleStep(Assembled(trials, Init(items)), Last(items))
  }

  /** Stable sort by trial number. */
  function InsertByTrial(t: Trial, sorted: seq<Trial>): seq<Trial> {
    if sorted == [] || t.item.trial < sorted[0].item.trial then [t] + sorted
    else [sorted[0]] + InsertByTrial(t, sorted[1..])
  }

  function SortByTrial(ts: seq<Trial>): seq<Trial> {
    if ts == [] then [] else InsertByTrial(Last(ts), SortByTrial(Init(ts)))
  }

  datatype TaskResult = TaskResult(item: WorkItem, passAtK: real, passPowerK: real, successRate: real,
                                     trials: seq<Trial>)

  predicate IsScorable(t: Trial) {
    t.outcome != HarnessError
  }

  predicate IsSuccess(t: Trial) {
    t.outcome == Succeeded
  }

  /** Successes, scorable trials and the sample size of the metrics: trials lost to harness errors count
      as failures up to `repetitions`. */
  function Tally(trials: seq<Trial>, repetitions: nat): (nat, nat, nat) {
    var scorable := Filter(trials, IsScorable);
    (|Filter(scorable, IsSuccess)|, |scorable|, Max(|scorable|, repetitions))
  }

  /** The result of one group; `passAtK` enters with the value that its loop computes. */
  function Summary(g: Group, repetitions: nat, k: int): TaskResult {
    var ordered := SortByTrial(g.trials);
    var (successes, scorable, n) := Tally(ordered, repetitions);
    TaskResult(g.item, PassAtKValue(successes, n, k), PassPowerK(successes, n, k),
               if scorable == 0 then 0.0 else successes as real / scorable as real, ordered)
  }

  /** The closure `take`: removes and returns the first trial of `item`. */
  method Take(trials: seq<Trial>, item: WorkItem) returns (taken: Taken)
    ensures taken == TakeFrom(trials, item)
  {
    var index := 0;
    while index < |trials| && trials[index].item != item
      invariant 0 <= index <= |trials|
      invariant FindTrial(trials, item) == index + FindTrial(trials[index..], item)
    {
      assert trials[index..][1..] == trials[index + 1..];
      index := index + 1;
    }
    if index < |trials| {
      return Taken(Some(trials[index]), trials[..index] + trials[index + 1..]);
    }
    return Taken(None, trials);
  }

  /** The loop over the work items. */
  method GroupTrials(workItems: seq<WorkItem>, trials: seq<Trial>) returns (groups: seq<Group>)
    ensures groups == Assembled(trials, workItems).groups
  {
    var remaining := trials;
    groups := [];
    var n := 0;
    while n < |workItems|
      invariant 0 <= n <= |workItems|
      invariant Assembly(remaining, groups) == Assembled(trials, workItems[..n])
    {
      var item := workItems[n];
      AssembledUnfold(trials, workItems, n);
      var g := FindGroup(groups, GroupKey(item));
      var group := if g < |groups| then groups[g] else Group(item, []);
      var taken := Take(remaining, item);
      remaining := taken.remaining;
      if taken.found.Some? {
        group := group.(trials := group.trials + [taken.found.value]);
      }
      groups := if g < |groups| then groups[g := group] else groups + [group];
      n := n + 1;
    }
    assert workItems[..n] == workItems;
  }

  lemma AssembledUnfold(trials: seq<Trial>, items: seq<WorkItem>, n: nat)
    requires n < |items|
    ensures Assembled(trials, items[..n + 1]) == AssembleStep(Assembled(trials, items[..n]), items[n])
  {
    assert Init(items[..n + 1]) == items[..n];
  }

  function Summaries(groups: seq<Group>, repetitions: nat, k: int): (r: seq<TaskResult>)
    ensures |r| == |groups| && forall i :: 0 <= i < |r| ==> r[i] == Summary(groups[i], repetitions, k)
  {
    seq(|groups|, i requires 0 <= i < |groups| => Summary(groups[i], repetitions, k))
  }

  method AssembleTaskResults(workItems: seq<WorkItem>, trials: seq<Trial>, repetitions: nat, passAtKSize: int)
    returns (results: seq<TaskResult>)
    ensures results == Summaries(Assembled(trials, workItems).groups, repetitions, passAtKSize)
  {
    var groups := GroupTrials(workItems, trials);
    results := Summaries(groups, repetitions, passAtKSize);
  }

  // ----- The metrics of a report -----

  lemma {:induction false} FilteredTwice(ts: seq<Trial>, p: Trial -> bool, q: Trial -> bool)
    requires forall t :: q(t) ==> p(t)
    ensures Filter(Filter(ts, p), q) == Filter(ts, q)
    decreases |ts|
  {
    if ts != [] {
      FilteredTwice(ts[1..], p, q);
      FilterConcat(if p(ts[0]) then [ts[0]] else [], Filter(ts[1..], p), q);
    }
  }

  lemma TallyCounts(g: Group, repetitions: nat)
    ensures var (successes, scorable, n) := Tally(SortByTrial(g.trials), repetitions);
            && successes == |set i: nat | i < |g.trials| && g.trials[i].outcome == Succeeded|
            && scorable == |set i: nat | i < |g.trials| && g.trials[i].outcome != HarnessError|
            && successes <= scorable <= n && n == if scorable < repetitions then repetitions else scorable
  {
    var ordered := SortByTrial(g.trials);
    FilteredTwice(ordered, IsScorable, IsSuccess);
    FilterLength(ordered, IsScorable);
    FilterLength(ordered, IsSuccess);
    SortKeepsCount(g.trials, IsScorable);
    SortKeepsCount(g.trials, IsSuccess);
    CountIsPositions(g.trials, IsScorable);
    CountIsPositions(g.trials, IsSuccess);
    assert Positions(g.trials, IsSuccess) == set i: nat | i < |g.trials| && g.trials[i].outcome == Succeeded;
    assert Positions(g.trials, IsScorable) == set i: nat | i < |g.trials| && g.trials[i].outcome != HarnessError;
    FewerSuccesses(ordered);
  }

  lemma {:induction false} FewerSuccesses(ts: seq<Trial>)
    ensures Count(ts, IsSuccess) <= Count(ts, IsScorable)
    decreases |ts|
  {
    if ts != [] { FewerSuccesses(ts[1..]); }
  }

  /** What the metrics of a task result are, by the outcomes of its trials: with `s` trials that succeeded and
      `c` that did not end in a harness error, the success rate is s / c. The other two metrics take the larger of
      `c` and the repetitions for their number of trials: passAtK is the chance that `k` of them drawn without
      repetition hold a success, and passPowerK the chance that `k` independent ones all succeed. */
  lemma MetricsCountOutcomes(g: Group, repetitions: nat, k: int)
    ensures var r := Summary(g, repetitions, k);
            var s := |set i: nat | i < |g.trials| && g.trials[i].outcome == Succeeded|;
            var c := |set i: nat | i < |g.trials| && g.trials[i].outcome != HarnessError|;
            var n := if c < repetitions then repetitions else c;
            && r.item == g.item
            && r.successRate == (if c == 0 then 0.0 else s as real / c as real)
            && (n == 0 || k <= 0 ==> r.passAtK == 0.0 && r.passPowerK == 0.0)
            && (0 < n < k ==> r.passAtK == 1.0)
            && (0 < k <= n && s <= n ==>
                  Binomial(n, k) > 0 && r.passAtK == 1.0 - Binomial(n - s, k) as real / Binomial(n, k) as real)
            && (0 < k && 0 < n ==> r.passPowerK == Power(s as real / n as real, k))
            && s <= c <= n
  {
    TallyCounts(g, repetitions);
    var (s, c, n) := Tally(SortByTrial(g.trials), repetitions);
    if 0 < k <= n { BinomialRange(n, k); }
  }

  /** In every task result the metrics are probabilities in the right order. With samples no larger
      than the repetitions, which is the default, a task without a success scores 0. */
  lemma ReportedMetrics(g: Group, repetitions: nat, k: int)
    ensures var r := Summary(g, repetitions, k);
            && 0.0 <= r.passPowerK <= r.passAtK <= 1.0 && 0.0 <= r.successRate <= 1.0
            && (k <= repetitions && (forall t :: t in g.trials ==> t.outcome != Succeeded) ==>
                  r.passAtK == 0.0 && r.successRate == 0.0)
  {
    var (s, scorable, n) := Tally(SortByTrial(g.trials), repetitions);
    TallyCounts(g, repetitions);
    PassPowerNeverExceedsPassAtK(s, n, k);
    MetricsAreProbabilities(s, n, k);
    if scorable > 0 { UnitFraction(s, scorable); }
    if forall t :: t in g.trials ==> t.outcome != Succeeded {
      assert (set i: nat | i < |g.trials| && g.trials[i].outcome == Succeeded) == {};
      if k <= repetitions { NoSuccessScoresZero(n, k); }
    }
  }

  lemma NoSuccessScoresZero(n: nat, k: int)
    requires k <= n
    ensures PassAtKValue(0, n, k) == 0.0
  {
    if n > 0 && k > 0 { WithoutSuccessZeroIffEnoughTrials(n, k); }
  }

  lemma MetricsAreProbabilities(s: nat, n: nat, k: int)
    requires s <= n
    ensures 0.0 <= PassPowerK(s, n, k) && PassAtKValue(s, n, k) <= 1.0
  {
    if n > 0 && k > 0 {
      UnitFraction(s, n);
      PowerInUnit(s as real / n as real, k);
      if k <= n { ReliabilityChain(s, n, k); }
    }
  }

  // ----- Counting through the grouping -----

  lemma {:induction false} FindTrialFinds(remaining: seq<Trial>, item: WorkItem)
    ensures FindTrial(remaining, item) < |remaining| <==> Count(remaining, TrialOf(item)) > 0
    decreases |remaining|
  {
    if remaining != [] && remaining[0].item != item { FindTrialFinds(remaining[1..], item); }
  }

  lemma RemoveCount(ts: seq<Trial>, i: nat, x: WorkItem)
    requires i < |ts|
    ensures Count(ts[..i] + ts[i + 1..], TrialOf(x)) == Count(ts, TrialOf(x)) - (if ts[i].item == x then 1 else 0)
  {
    CutAt(ts, i);
    CountAround(ts[..i], ts[i], ts[i + 1..], TrialOf(x));
  }

  lemma CutAt<T>(s: seq<T>, i: nat)
    requires i < |s|
    ensures s == s[..i] + ([s[i]] + s[i + 1..])
  {
  }

  lemma CountAround(a: seq<Trial>, t: Trial, b: seq<Trial>, p: Trial -> bool)
    ensures Count(a + ([t] + b), p) == Count(a + b, p) + (if p(t) then 1 else 0)
  {
    CountConcat(a, [t] + b, p);
    CountConcat(a, b, p);
    assert ([t] + b)[1..] == b;
  }

  /** How many trials of `x` the grouping of `items` takes out of `trials`. */
  function Expected(trials: seq<Trial>, items: seq<WorkItem>, x: WorkItem): nat {
    if Count(items, Is(x)) > 0 && Count(trials, TrialOf(x)) > 0 then 1 else 0
  }

  ghost predicate GroupHolds(trials: seq<Trial>, items: seq<WorkItem>, g: Group, x: WorkItem) {
    Count(g.trials, TrialOf(x)) == if GroupKey(x) == GroupKey(g.item) then Expected(trials, items, x) else 0
  }

  ghost predicate AssemblyOk(trials: seq<Trial>, items: seq<WorkItem>, a: Assembly) {
    && (forall x :: Count(a.remaining, TrialOf(x)) == Count(trials, TrialOf(x)) - Expected(trials, items, x))
    && (forall i, j :: 0 <= i < j < |a.groups| ==> GroupKey(a.groups[i].item) != GroupKey(a.groups[j].item))
    && (forall i, x :: 0 <= i < |a.groups| ==> GroupHolds(trials, items, a.groups[i], x))
    && (forall i :: 0 <= i < |a.groups| ==> Count(items, Is(a.groups[i].item)) > 0)
    && (forall x :: Count(items, Is(x)) > 0 ==> FindGroup(a.groups, GroupKey(x)) < |a.groups|)
  }

  lemma {:induction false} FindGroupFinds(groups: seq<Group>, i: nat)
    requires i < |groups|
    ensures FindGroup(groups, GroupKey(groups[i].item)) <= i
    decreases |groups|
  {
    if i > 0 { FindGroupFinds(groups[1..], i - 1); }
  }

  lemma WithTrialCount(group: Group, found: Option<Trial>, x: WorkItem)
    ensures Count(WithTrial(group, found).trials, TrialOf(x))
            == Count(group.trials, TrialOf(x)) + (if found.Some? && found.value.item == x then 1 else 0)
  {
    if found.Some? { CountAppend(group.trials, found.value, TrialOf(x)); }
  }

  lemma FoundOk(trials: seq<Trial>, items: seq<WorkItem>, a: Assembly, item: WorkItem)
    requires AssemblyOk(trials, items, a) && Count(items, Is(item)) == 0
    ensures var found := TakeFrom(a.remaining, item).found;
            (found.Some? ==> found.value.item == item) && (found.Some? <==> Count(trials, TrialOf(item)) > 0)
  {
    FindTrialFinds(a.remaining, item);
    assert Count(a.remaining, TrialOf(item)) == Count(trials, TrialOf(item)) - Expected(trials, items, item);
  }

  lemma ExpectedStep(trials: seq<Trial>, items: seq<WorkItem>, item: WorkItem, x: WorkItem)
    requires Count(items, Is(item)) == 0
    ensures Expected(trials, items + [item], x)
            == Expected(trials, items, x) + (if x == item && Count(trials, TrialOf(x)) > 0 then 1 else 0)
  {
    CountAppend(items, item, Is(x));
  }

  lemma CountAfterTaking(remaining: seq<Trial>, item: WorkItem, x: WorkItem)
    ensures var taken := TakeFrom(remaining, item);
            Count(taken.remaining, TrialOf(x)) ==
            Count(remaining, TrialOf(x)) - (if taken.found.Some? && taken.found.value.item == x then 1 else 0)
  {
    var i := FindTrial(remaining, item);
    if i < |remaining| { RemoveCount(remaining, i, x); }
  }

  lemma RemainingOk(trials: seq<Trial>, items: seq<WorkItem>, a: Assembly, item: WorkItem, x: WorkItem)
    requires AssemblyOk(trials, items, a) && Count(items, Is(item)) == 0
    ensures Count(AssembleStep(a, item).remaining, TrialOf(x))
            == Count(trials, TrialOf(x)) - Expected(trials, items + [item], x)
  {
    ExpectedStep(trials, items, item, x);
    FoundOk(trials, items, a, item);
    CountAfterTaking(a.remaining, item, x);
    assert Count(a.remaining, TrialOf(x)) == Count(trials, TrialOf(x)) - Expected(trials, items, x);
  }

  lemma GroupOk(trials: seq<Trial>, items: seq<WorkItem>, a: Assembly, item: WorkItem, x: WorkItem, k: nat)
    requires AssemblyOk(trials, items, a) && Count(items, Is(item)) == 0
    requires k < |AssembleStep(a, item).groups|
    ensures GroupHolds(trials, items + [item], AssembleStep(a, item).groups[k], x)
  {
    ExpectedStep(trials, items, item, x);
    FoundOk(trials, items, a, item);
    var found := TakeFrom(a.remaining, item).found;
    var g := FindGroup(a.groups, GroupKey(item));
    if k < |a.groups| {
      assert GroupHolds(trials, items, a.groups[k], x);
      if k == g { WithTrialCount(a.groups[k], found, x); } else { OtherGroup(a.groups, item, k); }
    } else {
      WithTrialCount(Group(item, []), found, x);
      NoEarlierMember(trials, items, a, item, x);
    }
  }

  lemma OtherGroup(groups: seq<Group>, item: WorkItem, k: nat)
    requires k < |groups| && k != FindGroup(groups, GroupKey(item))
    requires forall i, j :: 0 <= i < j < |groups| ==> GroupKey(groups[i].item) != GroupKey(groups[j].item)
    ensures GroupKey(groups[k].item) != GroupKey(item)
  {
    if GroupKey(groups[k].item) == GroupKey(item) { FindGroupFinds(groups, k); }
  }

  lemma NoEarlierMember(trials: seq<Trial>, items: seq<WorkItem>, a: Assembly, item: WorkItem, x: WorkItem)
    requires AssemblyOk(trials, items, a) && FindGroup(a.groups, GroupKey(item)) == |a.groups|
    ensures GroupKey(x) == GroupKey(item) ==> Count(items, Is(x)) == 0
  {
    assert Count(items, Is(x)) > 0 ==> FindGroup(a.groups, GroupKey(x)) < |a.groups|;
  }

  lemma KeysStayDistinct(groups: seq<Group>, item: WorkItem, found: Option<Trial>)
    requires forall i, j :: 0 <= i < j < |groups| ==> GroupKey(groups[i].item) != GroupKey(groups[j].item)
    ensures var b := PutInto(groups, item, found);
            forall i, j :: 0 <= i < j < |b| ==> GroupKey(b[i].item) != GroupKey(b[j].item)
  {
  }

  lemma ItemsOfGroups(trials: seq<Trial>, items: seq<WorkItem>, a: Assembly, item: WorkItem, i: nat)
    requires AssemblyOk(trials, items, a) && i < |AssembleStep(a, item).groups|
    ensures Count(items + [item], Is(AssembleStep(a, item).groups[i].item)) > 0
  {
    CountAppend(items, item, Is(AssembleStep(a, item).groups[i].item));
  }

  lemma GroupOfItem(trials: seq<Trial>, items: seq<WorkItem>, a: Assembly, item: WorkItem, x: WorkItem)
    requires AssemblyOk(trials, items, a) && Count(items + [item], Is(x)) > 0
    ensures var b := AssembleStep(a, item); FindGroup(b.groups, GroupKey(x)) < |b.groups|
  {
    var b := AssembleStep(a, item);
    CountAppend(items, item, Is(x));
    var k := if x == item then FindGroup(a.groups, GroupKey(item)) else FindGroup(a.groups, GroupKey(x));
    assert GroupKey(b.groups[k].item) == GroupKey(x);
    FindGroupFinds(b.groups, k);
  }

  /** After any number of work items, every group holds exactly the trials of its own items. */
  lemma {:induction false} AssembledOk(trials: seq<Trial>, items: seq<WorkItem>)
    requires forall x :: Count(items, Is(x)) <= 1
    ensures AssemblyOk(trials, items, Assembled(trials, items))
    decreases |items|
  {
    if items != [] {
      var before, item := Init(items), Last(items);
      assert items == before + [item];
      forall x ensures Count(before, Is(x)) <= 1 { CountAppend(before, item, Is(x)); }
      CountAppend(before, item, Is(item));
      AssembledOk(trials, before);
      var a, b := Assembled(trials, before), Assembled(trials, items);
      KeysStayDistinct(a.groups, item, TakeFrom(a.remaining, item).found);
      forall i | 0 <= i < |b.groups| ensures Count(items, Is(b.groups[i].item)) > 0 {
        ItemsOfGroups(trials, before, a, item, i);
      }
      forall x | Count(items, Is(x)) > 0 ensures FindGroup(b.groups, GroupKey(x)) < |b.groups| {
        GroupOfItem(trials, before, a, item, x);
      }
      forall x
        ensures Count(b.remaining, TrialOf(x)) == Count(trials, TrialOf(x)) - Expected(trials, items, x)
      {
        RemainingOk(trials, before, a, item, x);
      }
      forall i, x | 0 <= i < |b.groups|
        ensures GroupHolds(trials, items, b.groups[i], x)
      {
        GroupOk(trials, before, a, item, x, i);
      }
    }
  }

  /** All trials of the groups. */
  function Grouped(groups: seq<Group>): seq<Trial> {
    if groups == [] then [] else groups[0].trials + Grouped(groups[1..])
  }

  lemma {:induction false} GroupedAppend(groups: seq<Group>, g: Group)
    ensures Grouped(groups + [g]) == Grouped(groups) + g.trials
    decreases |groups|
  {
    if groups == [] {
      assert Grouped([g]) == g.trials + [];
    } else {
      assert (groups + [g])[1..] == groups[1..] + [g];
      GroupedAppend(groups[1..], g);
      ConcatAssociates(groups[0].trials, Grouped(groups[1..]), g.trials);
    }
  }

  lemma {:induction false} GroupedUpdate(groups: seq<Group>, i: nat, t: Trial)
    requires i < |groups|
    ensures multiset(Grouped(groups[i := Group(groups[i].item, groups[i].trials + [t])]))
            == multiset(Grouped(groups)) + multiset{t}
    decreases i
  {
    var g := Group(groups[i].item, groups[i].trials + [t]);
    if i == 0 {
      assert groups[0 := g][1..] == groups[1..];
    } else {
      assert groups[i := g][1..] == groups[1..][i - 1 := g];
      GroupedUpdate(groups[1..], i - 1, t);
    }
  }

  lemma PutIntoGroups(groups: seq<Group>, item: WorkItem, found: Option<Trial>)
    ensures multiset(Grouped(PutInto(groups, item, found))) == multiset(Grouped(groups)) + multiset(found.ToSeq())
  {
    var g := FindGroup(groups, GroupKey(item));
    if g < |groups| {
      if found.Some? { GroupedUpdate(groups, g, found.value); } else { assert groups[g := groups[g]] == groups; }
    } else {
      GroupedAppend(groups, WithTrial(Group(item, []), found));
      assert [] + found.ToSeq() == found.ToSeq();
    }
  }

  lemma TakeFromRest(remaining: seq<Trial>, item: WorkItem)
    ensures var taken := TakeFrom(remaining, item);
            multiset(remaining) == multiset(taken.remaining) + multiset(taken.found.ToSeq())
  {
    var i := FindTrial(remaining, item);
    if i < |remaining| { assert remaining == remaining[..i] + [remaining[i]] + remaining[i + 1..]; }
  }

  /** The grouping moves the trials themselves: those of the groups and the rest are the trials it was given. */
  lemma {:induction false} GroupingMovesTrials(trials: seq<Trial>, items: seq<WorkItem>)
    ensures var a := Assembled(trials, items);
            multiset(trials) == multiset(a.remaining) + multiset(Grouped(a.groups))
    decreases |items|
  {
    if items != [] {
      GroupingMovesTrials(trials, Init(items));
      var a := Assembled(trials, Init(items));
      TakeFromRest(a.remaining, Last(items));
      PutIntoGroups(a.groups, Last(items), TakeFrom(a.remaining, Last(items)).found);
    }
  }

  lemma {:induction false} MembersAreGrouped(groups: seq<Group>, g: nat)
    requires g < |groups|
    ensures forall t :: t in groups[g].trials ==> t in Grouped(groups)
    decreases g
  {
    if g > 0 { MembersAreGrouped(groups[1..], g - 1); }
  }

  lemma GroupMembersAreGiven(trials: seq<Trial>, items: seq<WorkItem>, g: nat)
    requires g < |Assembled(trials, items).groups|
    ensures forall t :: t in Assembled(trials, items).groups[g].trials ==> t in trials
  {
    var a := Assembled(trials, items);
    GroupingMovesTrials(trials, items);
    MembersAreGrouped(a.groups, g);
    forall t | t in a.groups[g].trials ensures t in trials {
      assert t in multiset(Grouped(a.groups));
      assert t in multiset(trials);
    }
  }

  // ----- Order inside a group -----

  ghost predicate SortedByTrial(ts: seq<Trial>) {
    forall i, j :: 0 <= i < j < |ts| ==> ts[i].item.trial <= ts[j].item.trial
  }

  lemma {:induction false} InsertMembers(t: Trial, sorted: seq<Trial>)
    ensures forall i :: 0 <= i < |InsertByTrial(t, sorted)| ==>
              InsertByTrial(t, sorted)[i] == t || InsertByTrial(t, sorted)[i] in sorted
    decreases |sorted|
  {
    if sorted != [] && t.item.trial >= sorted[0].item.trial { InsertMembers(t, sorted[1..]); }
  }

  lemma {:induction false} InsertSorts(t: Trial, sorted: seq<Trial>)
    requires SortedByTrial(sorted)
    ensures SortedByTrial(InsertByTrial(t, sorted))
    decreases |sorted|
  {
    if sorted != [] && t.item.trial >= sorted[0].item.trial {
      InsertSorts(t, sorted[1..]);
      InsertMembers(t, sorted[1..]);
      assert forall x :: x in sorted[1..] ==> sorted[0].item.trial <= x.item.trial;
    }
  }

  lemma {:induction false} InsertCount(t: Trial, sorted: seq<Trial>, p: Trial -> bool)
    ensures Count(InsertByTrial(t, sorted), p) == Count(sorted, p) + (if p(t) then 1 else 0)
    decreases |sorted|
  {
    if sorted == [] || t.item.trial < sorted[0].item.trial {
      CountConcat([t], sorted, p);
    } else {
      InsertCount(t, sorted[1..], p);
      CountConcat([sorted[0]], InsertByTrial(t, sorted[1..]), p);
    }
  }

  lemma {:induction false} SortKeepsCount(ts: seq<Trial>, p: Trial -> bool)
    ensures Count(SortByTrial(ts), p) == Count(ts, p)
    decreases |ts|
  {
    if ts != [] {
      SortKeepsCount(Init(ts), p);
      InsertCount(Last(ts), SortByTrial(Init(ts)), p);
      assert ts == Init(ts) + [Last(ts)];
      CountAppend(Init(ts), Last(ts), p);
    }
  }

  lemma {:induction false} SortSorts(ts: seq<Trial>)
    ensures SortedByTrial(SortByTrial(ts))
    ensures forall i :: 0 <= i < |SortByTrial(ts)| ==> SortByTrial(ts)[i] in ts
    decreases |ts|
  {
    if ts != [] {
      SortSorts(Init(ts));
      InsertSorts(Last(ts), SortByTrial(Init(ts)));
      InsertMembers(Last(ts), SortByTrial(Init(ts)));
      assert forall t :: t in Init(ts) ==> t in ts;
    }
  }

  /** One trial for each number from 1 to `n` and nothing else, in order, is the list 1, 2, ..., n. */
  lemma {:induction false} OneOfEach(ts: seq<Trial>, task: string, arm: Option<Arm>, n: nat)
    requires SortedByTrial(ts)
    requires forall x :: Count(ts, TrialOf(x)) == if x.task == task && x.arm == arm && 1 <= x.trial <= n then 1 else 0
    ensures |ts| == n && forall j :: 0 <= j < n ==> ts[j].item == WorkItem(task, j + 1, arm)
    decreases n
  {
    if ts == [] {
      assert Count(ts, TrialOf(WorkItem(task, 1, arm))) == 0;
    } else {
      var last := Last(ts).item;
      CountPositive(ts, |ts| - 1, TrialOf(last));
      var top := WorkItem(task, n, arm);
      assert Count(ts, TrialOf(top)) == 1;
      var i := FindTrial(ts, top);
      FindTrialFinds(ts, top);
      assert ts[i].item.trial <= last.trial;
      assert last == top;
      assert ts == Init(ts) + [Last(ts)];
      forall x
        ensures Count(Init(ts), TrialOf(x)) == if x.task == task && x.arm == arm && 1 <= x.trial <= n - 1 then 1 else 0
      {
        CountAppend(Init(ts), Last(ts), TrialOf(x));
      }
      OneOfEach(Init(ts), task, arm, n - 1);
    }
  }

  // ----- End to end -----

  /** For every interleaving and every sequence of stops and resumes: if the last run finishes within
      its budget, the report holds, for each of its tasks and arms, the trials 1 to `repetitions` in
      order and nothing else, as that run holds them, and every task and arm has its entry. */
  lemma ReportIsComplete(tasks: seq<string>, arms: seq<Option<Arm>>, repetitions: nat, k: int, cfg: Config,
                         log: seq<LogEntry>, steps: seq<Step>)
    requires Distinct(tasks) && Distinct(arms)
    requires cfg.items == ExpandWorkItems(tasks, arms, repetitions) && cfg.concurrency >= 1
    requires LogOk(log) && IsRun(cfg, System(log, None), steps)
    requires var p := After(cfg, System(log, None), steps).pool; p.Some? && Finished(p.value) && !p.value.exhausted
    ensures var p := After(cfg, System(log, None), steps).pool.value;
            var groups := Assembled(p.results, cfg.items).groups;
            && (forall g :: 0 <= g < |groups| ==>
                  var r := Summary(groups[g], repetitions, k);
                  && r.item.task in tasks && r.item.arm in arms && |r.trials| == repetitions
                  && forall j :: 0 <= j < repetitions ==>
                       r.trials[j] in p.results && r.trials[j].item == WorkItem(r.item.task, j + 1, r.item.arm))
            && (repetitions >= 1 ==> forall task, arm :: task in tasks && arm in arms ==>
                  FindGroup(groups, GroupKey(WorkItem(task, 1, arm))) < |groups|)
            && (forall i, j :: 0 <= i < j < |groups| ==> GroupKey(groups[i].item) != GroupKey(groups[j].item))
  {
    forall x ensures Count(cfg.items, Is(x)) <= 1 { ExpandCount(tasks, arms, repetitions, x); }
    FinishedRunHasOneTrialPerItem(cfg, log, steps);
    var p := After(cfg, System(log, None), steps).pool.value;
    AssembledOk(p.results, cfg.items);
    var groups := Assembled(p.results, cfg.items).groups;
    forall g | 0 <= g < |groups|
      ensures var r := Summary(groups[g], repetitions, k);
              && r.item.task in tasks && r.item.arm in arms && |r.trials| == repetitions
              && forall j :: 0 <= j < repetitions ==>
                   r.trials[j] in p.results && r.trials[j].item == WorkItem(r.item.task, j + 1, r.item.arm)
    {
      GroupMembersAreGiven(p.results, cfg.items, g);
      GroupIsComplete(tasks, arms, repetitions, k, cfg.items, p.results, groups[g]);
    }
    forall task, arm | repetitions >= 1 && task in tasks && arm in arms
      ensures FindGroup(groups, GroupKey(WorkItem(task, 1, arm))) < |groups|
    {
      ExpandCount(tasks, arms, repetitions, WorkItem(task, 1, arm));
    }
  }

  lemma GroupIsComplete(tasks: seq<string>, arms: seq<Option<Arm>>, repetitions: nat, k: int, items: seq<WorkItem>,
                        trials: seq<Trial>, g: Group)
    requires Distinct(tasks) && Distinct(arms) && items == ExpandWorkItems(tasks, arms, repetitions)
    requires forall x :: Count(items, Is(x)) == 1 ==> Count(trials, TrialOf(x)) == 1
    requires Count(items, Is(g.item)) > 0 && forall x :: GroupHolds(trials, items, g, x)
    ensures var r := Summary(g, repetitions, k);
            && r.item.task in tasks && r.item.arm in arms && |r.trials| == repetitions
            && forall j :: 0 <= j < repetitions ==>
                 r.trials[j] in g.trials && r.trials[j].item == WorkItem(r.item.task, j + 1, r.item.arm)
  {
    ExpandCount(tasks, arms, repetitions, g.item);
    var sorted := SortByTrial(g.trials);
    forall x
      ensures Count(sorted, TrialOf(x))
              == if x.task == g.item.task && x.arm == g.item.arm && 1 <= x.trial <= repetitions then 1 else 0
    {
      SortKeepsCount(g.trials, TrialOf(x));
      ExpandCount(tasks, arms, repetitions, x);
      assert GroupHolds(trials, items, g, x);
      GroupKeyInjective(x, g.item);
    }
    SortSorts(g.trials);
    OneOfEach(sorted, g.item.task, g.item.arm, repetitions);
  }
}

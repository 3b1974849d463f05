/** The worker pool of `runCapabilityEval` (src/evaluation/runner.ts) as a state machine.

    JavaScript runs a worker without interruption from one `await` to the next, so a run is an
    interleaving of the steps below: claiming the next index, a trial coming back, its line
    reaching the log, and its cost being counted. A process may stop after any step and a later
    one resumes from the log. History variables record what was claimed and given up. Without a
    log the source counts a cost in the same step in which the trial comes back; letting other
    workers in between, as here, only adds runs. */
module EvalPool {
  import opened Prelude
  import opened EvalWork

  /** A trial carries the item it was run for; `cost` is 0 where the source has no cost. */
  datatype Trial = Trial(item: WorkItem, cost: real, outcome: Outcome)

  /** A harness error says nothing about the task; every other failure counts. */
  datatype Outcome = Succeeded | Failed | HarnessError

  datatype LogEntry = LogEntry(key: string, trial: Trial)

  datatype Config = Config(items: seq<WorkItem>, concurrency: nat, maxCost: Option<real>, resumable: bool)

  datatype Worker =
    | Ready
    | Running(index: nat)
    | Appending(index: nat, trial: Trial)
    | Settling(index: nat, trial: Trial)
    | Done

  datatype Pool = Pool(
    pending: seq<WorkItem>,
    cursor: nat,
    workers: seq<Worker>,
    results: seq<Trial>,
    spent: real,
    exhausted: bool,
    claimed: seq<nat>,
    abandoned: seq<WorkItem>)

  datatype System = System(log: seq<LogEntry>, pool: Option<Pool>)

  function TotalCost(trials: seq<Trial>): real {
    if trials == [] then 0.0 else TotalCost(Init(trials)) + Last(trials).cost
  }

  predicate Over(cfg: Config, spent: real) {
    cfg.maxCost.Some? && spent > cfg.maxCost.value
  }

  // ----- Loading the log -----

  /** `Map.set`: a key seen before keeps its place and gets the new value. */
  function SetEntry(entries: seq<LogEntry>, e: LogEntry): seq<LogEntry> {
    if entries == [] then [e]
    else if entries[0].key == e.key then [e] + entries[1..]
    else [entries[0]] + SetEntry(entries[1..], e)
  }

  function Loaded(log: seq<LogEntry>): seq<LogEntry> {
    if log == [] then [] else SetEntry(Loaded(Init(log)), Last(log))
  }

  method LoadCompletedTrials(log: seq<LogEntry>) returns (completed: seq<LogEntry>)
    ensures completed == Loaded(log)
  {
    completed := [];
    var i := 0;
    while i < |log|
      invariant 0 <= i <= |log|
      invariant completed == Loaded(log[..i])
    {
      assert Init(log[..i + 1]) == log[..i];
      completed := SetEntry(completed, log[i]);
      i := i + 1;
    }
    assert log[..i] == log;
  }

  function Keys(entries: seq<LogEntry>): (keys: seq<string>)
    ensures |keys| == |entries| && forall i :: 0 <= i < |keys| ==> keys[i] == entries[i].key
  {
    seq(|entries|, i requires 0 <= i < |entries| => entries[i].key)
  }

  /** `e` is the last line of the log with its key. */
  ghost predicate IsLastLine(log: seq<LogEntry>, e: LogEntry) {
    exists i :: 0 <= i < |log| && log[i] == e && forall k :: i < k < |log| ==> log[k].key != e.key
  }

  lemma {:induction false} SetEntryAt(entries: seq<LogEntry>, e: LogEntry, p: nat)
    requires p < |entries| && entries[p].key == e.key && forall i :: 0 <= i < p ==> entries[i].key != e.key
    ensures SetEntry(entries, e) == entries[p := e]
    decreases p
  {
    if p > 0 {
      SetEntryAt(entries[1..], e, p - 1);
      assert entries[p := e] == [entries[0]] + entries[1..][p - 1 := e];
    }
  }

  lemma {:induction false} SetNew(entries: seq<LogEntry>, e: LogEntry)
    requires forall i :: 0 <= i < |entries| ==> entries[i].key != e.key
    ensures SetEntry(entries, e) == entries + [e]
    decreases |entries|
  {
    if entries != [] { SetNew(entries[1..], e); }
  }

  lemma SetPresentEntry(entries: seq<LogEntry>, e: LogEntry, p: nat)
    requires Distinct(Keys(entries)) && p < |entries| && entries[p].key == e.key
    ensures SetEntry(entries, e) == entries[p := e]
    ensures forall i :: 0 <= i < |entries| && i != p ==> entries[i].key != e.key
  {
    forall i | 0 <= i < |entries| && i != p ensures entries[i].key != e.key {
      assert Keys(entries)[i] != Keys(entries)[p];
    }
    SetEntryAt(entries, e, p);
  }

  lemma ReplacedMembers(entries: seq<LogEntry>, e: LogEntry, p: nat)
    requires p < |entries| && entries[p].key == e.key
    requires forall i :: 0 <= i < |entries| && i != p ==> entries[i].key != e.key
    ensures Keys(entries[p := e]) == Keys(entries)
    ensures forall x :: x in entries[p := e] <==> x == e || (x in entries && x.key != e.key)
  {
    var r := entries[p := e];
    assert r[p] == e;
    forall x | x in entries && x.key != e.key ensures x in r {
      var i :| 0 <= i < |entries| && entries[i] == x;
      assert r[i] == x;
    }
  }

  /** Setting an entry replaces the one with its key, or appends it. */
  lemma SetEntryMeaning(entries: seq<LogEntry>, e: LogEntry)
    requires Distinct(Keys(entries))
    ensures Keys(SetEntry(entries, e)) == if e.key in Keys(entries) then Keys(entries) else Keys(entries) + [e.key]
    ensures forall x :: x in SetEntry(entries, e) <==> x == e || (x in entries && x.key != e.key)
  {
    if e.key in Keys(entries) {
      var p :| 0 <= p < |entries| && Keys(entries)[p] == e.key;
      SetPresentEntry(entries, e, p);
      ReplacedMembers(entries, e, p);
    } else {
      forall i | 0 <= i < |entries| ensures entries[i].key != e.key { assert Keys(entries)[i] in Keys(entries); }
      SetNew(entries, e);
    }
  }

  lemma LastLineStep(before: seq<LogEntry>, e: LogEntry, x: LogEntry)
    ensures IsLastLine(before + [e], x) <==> x == e || (IsLastLine(before, x) && x.key != e.key)
  {
    var log := before + [e];
    if x == e { assert log[|before|] == x; }
    if IsLastLine(before, x) && x.key != e.key {
      var i :| 0 <= i < |before| && before[i] == x && forall k :: i < k < |before| ==> before[k].key != x.key;
      assert log[i] == x;
    }
    if IsLastLine(log, x) && x != e {
      var i :| 0 <= i < |log| && log[i] == x && forall k :: i < k < |log| ==> log[k].key != x.key;
      assert log[|before|].key == e.key;
      assert before[i] == x && forall k :: i < k < |before| ==> before[k] == log[k];
    }
  }

  /** Loading keeps every key once, in the order of first appearance, with the last line of that key. */
  lemma {:induction false} LoadingKeepsLastLines(log: seq<LogEntry>)
    ensures Keys(Loaded(log)) == FirstOccurrences(Keys(log)) && Distinct(Keys(Loaded(log)))
    ensures forall x :: x in Loaded(log) <==> IsLastLine(log, x)
    decreases |log|
  {
    FirstOccurrencesAreDistinct(Keys(log));
    if log != [] {
      var before, e := Init(log), Last(log);
      LoadingKeepsLastLines(before);
      assert log == before + [e];
      assert Init(Keys(log)) == Keys(before);
      SetEntryMeaning(Loaded(before), e);
      forall x ensures x in Loaded(log) <==> IsLastLine(log, x) { LastLineStep(before, e, x); }
    }
  }

  predicate HasKey(entries: seq<LogEntry>, key: string) {
    exists i :: 0 <= i < |entries| && entries[i].key == key
  }

  function Trials(entries: seq<LogEntry>): seq<Trial> {
    seq(|entries|, i requires 0 <= i < |entries| => entries[i].trial)
  }

  function Remaining(items: seq<WorkItem>, entries: seq<LogEntry>): seq<WorkItem> {
    if items == [] then []
    else (if HasKey(entries, WorkKey(items[0])) then [] else [items[0]]) + Remaining(items[1..], entries)
  }

  // ----- Steps -----

  datatype Step =
    | Launch
    | Stop
    | Claim(w: nat)
    | Finish(w: nat, trial: Trial)
    | Append(w: nat)
    | Settle(w: nat)

  function LaunchPool(cfg: Config, log: seq<LogEntry>): Pool {
    var completed := if cfg.resumable then Loaded(log) else [];
    var pending := Remaining(cfg.items, completed);
    var spent := TotalCost(Trials(completed));
    var size := Min(cfg.concurrency, Max(1, |pending|));
    Pool(pending, 0, if size > 0 then seq(size, _ => Ready) else [], Trials(completed), spent, Over(cfg, spent), [], [])
  }

  ghost predicate Enabled(cfg: Config, s: System, step: Step) {
    match step
    case Launch => s.pool.None?
    case Stop => s.pool.Some?
    case Claim(w) => s.pool.Some? && w < |s.pool.value.workers| && s.pool.value.workers[w] == Ready
    case Finish(w, trial) =>
      && s.pool.Some? && w < |s.pool.value.workers| && s.pool.value.workers[w].Running?
      && s.pool.value.workers[w].index < |s.pool.value.pending|
      && trial.item == s.pool.value.pending[s.pool.value.workers[w].index]
      && trial.cost >= 0.0
    case Append(w) => s.pool.Some? && w < |s.pool.value.workers| && s.pool.value.workers[w].Appending?
    case Settle(w) => s.pool.Some? && w < |s.pool.value.workers| && s.pool.value.workers[w].Settling?
  }

  /** Claims the next index; the item is lost to this run if the budget is already exhausted. */
  function ClaimNext(p: Pool, w: nat): Pool
    requires w < |p.workers|
  {
    if p.cursor >= |p.pending| then p.(workers := p.workers[w := Done])
    else
      var q := p.(cursor := p.cursor + 1, claimed := p.claimed + [p.cursor]);
      if p.exhausted then q.(workers := p.workers[w := Done], abandoned := p.abandoned + [p.pending[p.cursor]])
      else q.(workers := p.workers[w := Running(p.cursor)])
  }

  function FinishTrial(cfg: Config, p: Pool, w: nat, trial: Trial): Pool
    requires w < |p.workers| && p.workers[w].Running?
  {
    var i := p.workers[w].index;
    p.(results := p.results + [trial],
       workers := p.workers[w := if cfg.resumable then Appending(i, trial) else Settling(i, trial)])
  }

  function SettleCost(cfg: Config, p: Pool, w: nat): Pool
    requires w < |p.workers| && p.workers[w].Settling?
  {
    var spent := p.spent + p.workers[w].trial.cost;
    p.(spent := spent, exhausted := p.exhausted || Over(cfg, spent), workers := p.workers[w := Ready])
  }

  ghost function Apply(cfg: Config, s: System, step: Step): System
    requires Enabled(cfg, s, step)
  {
    match step
    case Launch => s.(pool := Some(LaunchPool(cfg, s.log)))
    case Stop => s.(pool := None)
    case Claim(w) => s.(pool := Some(ClaimNext(s.pool.value, w)))
    case Finish(w, trial) => s.(pool := Some(FinishTrial(cfg, s.pool.value, w, trial)))
    case Append(w) =>
      var p := s.pool.value;
      var trial := p.workers[w].trial;
      System(s.log + [LogEntry(WorkKey(trial.item), trial)],
             Some(p.(workers := p.workers[w := Settling(p.workers[w].index, trial)])))
    case Settle(w) => s.(pool := Some(SettleCost(cfg, s.pool.value, w)))
  }

  /** `steps` is a run from `s`: every step is enabled when it is taken. */
  ghost predicate IsRun(cfg: Config, s: System, steps: seq<Step>)
    decreases |steps|
  {
    steps == [] || (Enabled(cfg, s, steps[0]) && IsRun(cfg, Apply(cfg, s, steps[0]), steps[1..]))
  }

  ghost function After(cfg: Config, s: System, steps: seq<Step>): System
    requires IsRun(cfg, s, steps)
    decreases |steps|
  {
    if steps == [] then s else After(cfg, Apply(cfg, s, steps[0]), steps[1..])
  }

  // ----- Where an item is -----

  function TrialOf(x: WorkItem): Trial -> bool {
    (t: Trial) => t.item == x
  }

  function EntryOf(x: WorkItem): LogEntry -> bool {
    (e: LogEntry) => e.key == WorkKey(x)
  }

  /** Workers running a trial of `x`. */
  function RunningOn(pending: seq<WorkItem>, x: WorkItem): Worker -> bool {
    (w: Worker) => w.Running? && w.index < |pending| && pending[w.index] == x
  }

  /** Workers whose trial of `x` has not reached the log. */
  function UnloggedOn(pending: seq<WorkItem>, x: WorkItem): Worker -> bool {
    (w: Worker) => (w.Running? || w.Appending?) && w.index < |pending| && pending[w.index] == x
  }

  /** The places where the trial of `x` can be: done, running, waiting, given up. */
  function Places(p: Pool, x: WorkItem): int
    requires p.cursor <= |p.pending|
  {
    Count(p.results, TrialOf(x)) + Count(p.workers, RunningOn(p.pending, x))
    + Count(p.pending[p.cursor..], Is(x)) + Count(p.abandoned, Is(x))
  }

  /** The same with respect to the log: a trial is logged, or not yet. */
  function LogPlaces(log: seq<LogEntry>, p: Pool, x: WorkItem): int
    requires p.cursor <= |p.pending|
  {
    Count(log, EntryOf(x)) + Count(p.workers, UnloggedOn(p.pending, x))
    + Count(p.pending[p.cursor..], Is(x)) + Count(p.abandoned, Is(x))
  }

  ghost predicate WorkersOk(p: Pool) {
    && p.cursor <= |p.pending|
    && forall w :: 0 <= w < |p.workers| ==>
         match p.workers[w]
         case Ready => true
         case Running(i) => i < |p.pending|
         case Appending(i, t) => i < |p.pending| && t.item == p.pending[i]
         case Settling(i, t) => i < |p.pending| && t.item == p.pending[i]
         case Done => p.cursor == |p.pending| || p.exhausted
  }

  /** The log agrees with itself: an entry is filed under the key of its own trial. */
  ghost predicate LogOk(log: seq<LogEntry>) {
    && FiledUnderOwnKeys(log)
    && (forall x :: Count(log, EntryOf(x)) <= 1)
  }

  ghost predicate ItemsDistinct(cfg: Config) {
    forall x :: Count(cfg.items, Is(x)) <= 1
  }

  ghost predicate PoolOk(cfg: Config, log: seq<LogEntry>, p: Pool) {
    && WorkersOk(p)
    && p.claimed == seq(p.cursor, i => i)
    && |p.workers| == Min(cfg.concurrency, Max(1, |p.pending|))
    && (p.abandoned != [] ==> p.exhausted)
    && (!cfg.resumable ==> forall w :: 0 <= w < |p.workers| ==> !p.workers[w].Appending?)
    && (forall x :: Count(cfg.items, Is(x)) == 1 ==> Places(p, x) == 1)
    && (cfg.resumable ==> forall x :: LogPlaces(log, p, x) <= 1)
  }

  ghost predicate SystemOk(cfg: Config, s: System) {
    ItemsDistinct(cfg) && LogOk(s.log) && (s.pool.Some? ==> PoolOk(cfg, s.log, s.pool.value))
  }

  // ----- Launch -----

  lemma {:induction false} LoadedDistinct(log: seq<LogEntry>)
    requires LogOk(log)
    ensures Loaded(log) == log
    decreases |log|
  {
    if log != [] {
      var before, e := Init(log), Last(log);
      assert log == before + [e];
      forall x ensures Count(before, EntryOf(x)) <= 1 { CountAppend(before, e, EntryOf(x)); }
      LoadedDistinct(before);
      forall i | 0 <= i < |before| ensures before[i].key != e.key {
        if before[i].key == e.key {
          CountPositive(before, i, EntryOf(e.trial.item));
          CountAppend(before, e, EntryOf(e.trial.item));
          assert false;
        }
      }
      SetNew(before, e);
    }
  }

  lemma {:induction false} RemainingCount(items: seq<WorkItem>, entries: seq<LogEntry>, x: WorkItem)
    ensures Count(Remaining(items, entries), Is(x)) == if HasKey(entries, WorkKey(x)) then 0 else Count(items, Is(x))
    decreases |items|
  {
    if items != [] {
      RemainingCount(items[1..], entries, x);
      var head := if HasKey(entries, WorkKey(items[0])) then [] else [items[0]];
      CountConcat(head, Remaining(items[1..], entries), Is(x));
    }
  }

  lemma HasKeyCons(entries: seq<LogEntry>, key: string)
    requires entries != []
    ensures HasKey(entries, key) <==> entries[0].key == key || HasKey(entries[1..], key)
  {
    if HasKey(entries[1..], key) {
      var i :| 0 <= i < |entries[1..]| && entries[1..][i].key == key;
      assert entries[i + 1].key == key;
    }
    if HasKey(entries, key) && entries[0].key != key {
      var i :| 0 <= i < |entries| && entries[i].key == key;
      assert entries[1..][i - 1].key == key;
    }
  }

  ghost predicate FiledUnderOwnKeys(entries: seq<LogEntry>) {
    forall i :: 0 <= i < |entries| ==> entries[i].key == WorkKey(entries[i].trial.item)
  }

  lemma OwnKeysOfRest(entries: seq<LogEntry>)
    requires FiledUnderOwnKeys(entries) && entries != []
    ensures FiledUnderOwnKeys(entries[1..]) && entries[0].key == WorkKey(entries[0].trial.item)
  {
  }

  lemma {:induction false} EntriesWithKey(entries: seq<LogEntry>, x: WorkItem)
    ensures Count(entries, EntryOf(x)) > 0 <==> HasKey(entries, WorkKey(x))
    decreases |entries|
  {
    if entries != [] {
      EntriesWithKey(entries[1..], x);
      HasKeyCons(entries, WorkKey(x));
    }
  }

  lemma {:induction false} TrialsOfEntries(entries: seq<LogEntry>, x: WorkItem)
    requires FiledUnderOwnKeys(entries)
    ensures Count(Trials(entries), TrialOf(x)) == Count(entries, EntryOf(x))
    decreases |entries|
  {
    if entries != [] {
      OwnKeysOfRest(entries);
      TrialsOfEntries(entries[1..], x);
      WorkKeyInjective(entries[0].trial.item, x);
      assert Trials(entries)[1..] == Trials(entries[1..]);
    }
  }

  lemma TrialsCount(entries: seq<LogEntry>, x: WorkItem)
    requires FiledUnderOwnKeys(entries)
    ensures Count(Trials(entries), TrialOf(x)) == Count(entries, EntryOf(x))
    ensures Count(entries, EntryOf(x)) > 0 <==> HasKey(entries, WorkKey(x))
  {
    EntriesWithKey(entries, x);
    TrialsOfEntries(entries, x);
  }

  lemma LaunchPlaces(cfg: Config, log: seq<LogEntry>, x: WorkItem)
    requires ItemsDistinct(cfg) && LogOk(log)
    ensures var p := LaunchPool(cfg, log);
            (Count(cfg.items, Is(x)) == 1 ==> Places(p, x) == 1) && (cfg.resumable ==> LogPlaces(log, p, x) <= 1)
  {
    var p := LaunchPool(cfg, log);
    var entries := if cfg.resumable then log else [];
    LoadedDistinct(log);
    assert p.pending[0..] == p.pending;
    TrialsCount(entries, x);
    RemainingCount(cfg.items, entries, x);
    CountZero(p.workers, RunningOn(p.pending, x));
    CountZero(p.workers, UnloggedOn(p.pending, x));
    assert Count(log, EntryOf(x)) <= 1;
  }

  lemma LaunchOk(cfg: Config, log: seq<LogEntry>)
    requires ItemsDistinct(cfg) && LogOk(log)
    ensures PoolOk(cfg, log, LaunchPool(cfg, log))
  {
    var p := LaunchPool(cfg, log);
    forall x
      ensures Count(cfg.items, Is(x)) == 1 ==> Places(p, x) == 1
      ensures cfg.resumable ==> LogPlaces(log, p, x) <= 1
    {
      LaunchPlaces(cfg, log, x);
    }
  }

  // ----- Every step keeps the item in exactly one place -----

  lemma ClaimConserves(cfg: Config, s: System, w: nat, x: WorkItem)
    requires s.pool.Some? && WorkersOk(s.pool.value) && Enabled(cfg, s, Claim(w))
    ensures var p, q := s.pool.value, ClaimNext(s.pool.value, w);
            q.cursor <= |q.pending| && Places(q, x) == Places(p, x) && LogPlaces(s.log, q, x) == LogPlaces(s.log, p, x)
  {
    var p, q := s.pool.value, ClaimNext(s.pool.value, w);
    CountUpdate(p.workers, w, q.workers[w], RunningOn(p.pending, x));
    CountUpdate(p.workers, w, q.workers[w], UnloggedOn(p.pending, x));
    if p.cursor < |p.pending| {
      assert p.pending[p.cursor..][1..] == p.pending[p.cursor + 1..];
      if p.exhausted { CountAppend(p.abandoned, p.pending[p.cursor], Is(x)); }
    }
  }

  lemma FinishConserves(cfg: Config, s: System, w: nat, trial: Trial, x: WorkItem)
    requires s.pool.Some? && WorkersOk(s.pool.value) && Enabled(cfg, s, Finish(w, trial))
    ensures var p, q := s.pool.value, FinishTrial(cfg, s.pool.value, w, trial);
            Places(q, x) == Places(p, x) && (cfg.resumable ==> LogPlaces(s.log, q, x) == LogPlaces(s.log, p, x))
  {
    var p, q := s.pool.value, FinishTrial(cfg, s.pool.value, w, trial);
    CountAppend(p.results, trial, TrialOf(x));
    CountUpdate(p.workers, w, q.workers[w], RunningOn(p.pending, x));
    CountUpdate(p.workers, w, q.workers[w], UnloggedOn(p.pending, x));
  }

  lemma AppendConserves(cfg: Config, s: System, w: nat, x: WorkItem)
    requires s.pool.Some? && WorkersOk(s.pool.value) && Enabled(cfg, s, Append(w))
    ensures var p, t := s.pool.value, Apply(cfg, s, Append(w));
            Places(t.pool.value, x) == Places(p, x) && LogPlaces(t.log, t.pool.value, x) == LogPlaces(s.log, p, x)
  {
    var p, t := s.pool.value, Apply(cfg, s, Append(w));
    var q := t.pool.value;
    CountAppend(s.log, Last(t.log), EntryOf(x));
    WorkKeyInjective(p.workers[w].trial.item, x);
    CountUpdate(p.workers, w, q.workers[w], RunningOn(p.pending, x));
    CountUpdate(p.workers, w, q.workers[w], UnloggedOn(p.pending, x));
  }

  lemma SettleConserves(cfg: Config, s: System, w: nat, x: WorkItem)
    requires s.pool.Some? && WorkersOk(s.pool.value) && Enabled(cfg, s, Settle(w))
    ensures var p, q := s.pool.value, SettleCost(cfg, s.pool.value, w);
            Places(q, x) == Places(p, x) && LogPlaces(s.log, q, x) == LogPlaces(s.log, p, x)
  {
    var p, q := s.pool.value, SettleCost(cfg, s.pool.value, w);
    CountUpdate(p.workers, w, q.workers[w], RunningOn(p.pending, x));
    CountUpdate(p.workers, w, q.workers[w], UnloggedOn(p.pending, x));
  }

  // ----- The invariant of all runs -----

  lemma ClaimOk(cfg: Config, s: System, w: nat)
    requires SystemOk(cfg, s) && Enabled(cfg, s, Claim(w))
    ensures SystemOk(cfg, Apply(cfg, s, Claim(w)))
  {
    var p, q := s.pool.value, ClaimNext(s.pool.value, w);
    forall x
      ensures q.cursor <= |q.pending| && Places(q, x) == Places(p, x)
              && LogPlaces(s.log, q, x) == LogPlaces(s.log, p, x)
    {
      ClaimConserves(cfg, s, w, x);
    }
    assert q.claimed == seq(q.cursor, i => i);
  }

  lemma FinishOk(cfg: Config, s: System, w: nat, trial: Trial)
    requires SystemOk(cfg, s) && Enabled(cfg, s, Finish(w, trial))
    ensures SystemOk(cfg, Apply(cfg, s, Finish(w, trial)))
  {
    var p, q := s.pool.value, FinishTrial(cfg, s.pool.value, w, trial);
    forall x
      ensures Places(q, x) == Places(p, x) && (cfg.resumable ==> LogPlaces(s.log, q, x) == LogPlaces(s.log, p, x))
    {
      FinishConserves(cfg, s, w, trial, x);
    }
  }

  lemma AppendOk(cfg: Config, s: System, w: nat)
    requires SystemOk(cfg, s) && Enabled(cfg, s, Append(w))
    ensures SystemOk(cfg, Apply(cfg, s, Append(w)))
  {
    var p, t := s.pool.value, Apply(cfg, s, Append(w));
    var q := t.pool.value;
    assert cfg.resumable;
    forall x
      ensures Places(q, x) == Places(p, x) && LogPlaces(t.log, q, x) == LogPlaces(s.log, p, x)
    {
      AppendConserves(cfg, s, w, x);
    }
    forall x
      ensures Count(t.log, EntryOf(x)) <= 1
    {
      assert LogPlaces(s.log, p, x) <= 1;
    }
  }

  lemma SettleOk(cfg: Config, s: System, w: nat)
    requires SystemOk(cfg, s) && Enabled(cfg, s, Settle(w))
    ensures SystemOk(cfg, Apply(cfg, s, Settle(w)))
  {
    var p, q := s.pool.value, SettleCost(cfg, s.pool.value, w);
    forall x
      ensures Places(q, x) == Places(p, x) && LogPlaces(s.log, q, x) == LogPlaces(s.log, p, x)
    {
      SettleConserves(cfg, s, w, x);
    }
  }

  lemma StepOk(cfg: Config, s: System, step: Step)
    requires SystemOk(cfg, s) && Enabled(cfg, s, step)
    ensures SystemOk(cfg, Apply(cfg, s, step))
  {
    match step
    case Launch => LaunchOk(cfg, s.log);
    case Stop =>
    case Claim(w) => ClaimOk(cfg, s, w);
    case Finish(w, trial) => FinishOk(cfg, s, w, trial);
    case Append(w) => AppendOk(cfg, s, w);
    case Settle(w) => SettleOk(cfg, s, w);
  }

  /** Whatever the interleaving, and however often the process stops and resumes, the invariant holds. */
  lemma {:induction false} RunOk(cfg: Config, s: System, steps: seq<Step>)
    requires SystemOk(cfg, s) && IsRun(cfg, s, steps)
    ensures SystemOk(cfg, After(cfg, s, steps))
    decreases |steps|
  {
    if steps != [] {
      StepOk(cfg, s, steps[0]);
      RunOk(cfg, Apply(cfg, s, steps[0]), steps[1..]);
    }
  }

  // ----- Exactly-once results -----

  /** The claimed indexes are 0, 1, ..., cursor - 1, each claimed once. */
  lemma ClaimsAreExact(cfg: Config, log: seq<LogEntry>, steps: seq<Step>)
    requires ItemsDistinct(cfg) && LogOk(log) && IsRun(cfg, System(log, None), steps)
    ensures var p := After(cfg, System(log, None), steps).pool;
            p.Some? ==> p.value.cursor <= |p.value.pending| && p.value.claimed == seq(p.value.cursor, i => i)
  {
    RunOk(cfg, System(log, None), steps);
  }

  /** No logged item is ever run again, in this process or after any number of restarts, and the log
      never gets a second line for an item. */
  lemma LoggedItemsNeverRunAgain(cfg: Config, log: seq<LogEntry>, steps: seq<Step>)
    requires cfg.resumable && ItemsDistinct(cfg) && LogOk(log) && IsRun(cfg, System(log, None), steps)
    ensures var s := After(cfg, System(log, None), steps);
            && (forall x :: Count(s.log, EntryOf(x)) <= 1)
            && (s.pool.Some? ==> forall w :: 0 <= w < |s.pool.value.workers| && s.pool.value.workers[w].Running? ==>
                  && s.pool.value.workers[w].index < |s.pool.value.pending|
                  && !HasKey(s.log, WorkKey(s.pool.value.pending[s.pool.value.workers[w].index])))
  {
    RunOk(cfg, System(log, None), steps);
    var s := After(cfg, System(log, None), steps);
    if s.pool.Some? {
      var p := s.pool.value;
      forall w | 0 <= w < |p.workers| && p.workers[w].Running?
        ensures !HasKey(s.log, WorkKey(p.pending[p.workers[w].index]))
      {
        var x := p.pending[p.workers[w].index];
        CountPositive(p.workers, w, UnloggedOn(p.pending, x));
        assert LogPlaces(s.log, p, x) <= 1;
        TrialsCount(s.log, x);
      }
    }
  }

  ghost predicate Finished(p: Pool) {
    forall w :: 0 <= w < |p.workers| ==> p.workers[w] == Done
  }

  /** A run that finishes within the budget has exactly one trial for every work item, counting those
      taken over from the log; one that exhausts the budget has at most one. */
  lemma FinishedRunHasOneTrialPerItem(cfg: Config, log: seq<LogEntry>, steps: seq<Step>)
    requires cfg.concurrency >= 1 && ItemsDistinct(cfg) && LogOk(log) && IsRun(cfg, System(log, None), steps)
    ensures var p := After(cfg, System(log, None), steps).pool;
            p.Some? && Finished(p.value) ==>
              forall x :: Count(cfg.items, Is(x)) == 1 ==>
                && Count(p.value.results, TrialOf(x)) <= 1
                && (!p.value.exhausted ==> Count(p.value.results, TrialOf(x)) == 1)
  {
    RunOk(cfg, System(log, None), steps);
    var s := After(cfg, System(log, None), steps);
    if s.pool.Some? && Finished(s.pool.value) {
      var p := s.pool.value;
      forall x | Count(cfg.items, Is(x)) == 1
        ensures Count(p.results, TrialOf(x)) <= 1 && (!p.exhausted ==> Count(p.results, TrialOf(x)) == 1)
      {
        assert Places(p, x) == 1;
        CountZero(p.workers, RunningOn(p.pending, x));
        if !p.exhausted {
          assert p.workers[0] == Done;
          assert p.pending[p.cursor..] == [] && p.abandoned == [];
        }
      }
    }
  }

  // ----- Budget -----

  predicate IsBusy(w: Worker) {
    w.Running? || w.Appending? || w.Settling?
  }

  /** Costs of trials that came back but are not counted yet. */
  function Uncounted(workers: seq<Worker>): real {
    if workers == [] then 0.0
    else CostOf(workers[0]) + Uncounted(workers[1..])
  }

  function CostOf(w: Worker): real {
    if w.Appending? || w.Settling? then w.trial.cost else 0.0
  }

  lemma {:induction false} UncountedUpdate(workers: seq<Worker>, i: nat, v: Worker)
    requires i < |workers|
    ensures Uncounted(workers[i := v]) == Uncounted(workers) - CostOf(workers[i]) + CostOf(v)
    decreases |workers|
  {
    if i == 0 {
      assert workers[i := v][1..] == workers[1..];
    } else {
      assert workers[i := v][1..] == workers[1..][i - 1 := v];
      UncountedUpdate(workers[1..], i - 1, v);
    }
  }

  /** A step of the pool itself, with trials that cost at most `c`. */
  ghost predicate PoolStep(step: Step, c: real) {
    !step.Launch? && !step.Stop? && (step.Finish? ==> step.trial.cost <= c)
  }

  /** `n * c`, by addition. */
  function Times(n: nat, c: real): real {
    if n == 0 then 0.0 else c + Times(n - 1, c)
  }

  lemma {:induction false} TimesIsProduct(n: nat, c: real)
    ensures Times(n, c) == n as real * c
    decreases n
  {
    if n > 0 {
      TimesIsProduct(n - 1, c);
      assert (n - 1) as real * c + c == ((n - 1) as real + 1.0) * c;
    }
  }

  lemma {:induction false} TimesGrows(m: nat, n: nat, c: real)
    requires m <= n && c >= 0.0
    ensures 0.0 <= Times(m, c) <= Times(n, c)
    decreases n
  {
    if m < n { TimesGrows(m, n - 1, c); } else if n > 0 { TimesGrows(m - 1, n - 1, c); }
  }

  /** Every counted cost and every trial still under way fits under the limit plus `size` trials. */
  ghost predicate Overshoots(cfg: Config, spent: real, busy: nat, size: nat, c: real) {
    cfg.maxCost.Some? ==> spent + Times(busy, c) <= cfg.maxCost.value + Times(size, c)
  }

  ghost predicate CostsOk(workers: seq<Worker>, c: real) {
    forall w :: 0 <= w < |workers| ==> 0.0 <= CostOf(workers[w]) <= c
  }

  ghost predicate BudgetOk(cfg: Config, p: Pool, c: real) {
    && c >= 0.0
    && CostsOk(p.workers, c)
    && p.spent + Uncounted(p.workers) == TotalCost(p.results)
    && p.exhausted == Over(cfg, p.spent)
    && Overshoots(cfg, p.spent, Count(p.workers, IsBusy), |p.workers|, c)
  }

  lemma {:induction false} CountBelowLength<T>(s: seq<T>, q: T -> bool)
    ensures Count(s, q) <= |s|
    decreases |s|
  {
    if s != [] { CountBelowLength(s[1..], q); }
  }

  lemma WithinLimit(cfg: Config, spent: real, busy: nat, size: nat, c: real)
    requires !Over(cfg, spent) && busy <= size && c >= 0.0
    ensures Overshoots(cfg, spent, busy, size, c)
  {
    TimesGrows(busy, size, c);
  }

  lemma CountedOne(cfg: Config, spent: real, cost: real, busy: nat, size: nat, c: real)
    requires Overshoots(cfg, spent, busy, size, c) && cost <= c && busy > 0
    ensures Overshoots(cfg, spent + cost, busy - 1, size, c)
  {
  }

  /** What putting `v` in the place of worker `w` does to the sums over the workers. */
  lemma WorkerUpdate(workers: seq<Worker>, w: nat, v: Worker, c: real)
    requires w < |workers| && CostsOk(workers, c) && 0.0 <= CostOf(v) <= c
    ensures CostsOk(workers[w := v], c)
    ensures Uncounted(workers[w := v]) == Uncounted(workers) - CostOf(workers[w]) + CostOf(v)
    ensures Count(workers[w := v], IsBusy)
            == Count(workers, IsBusy) - (if IsBusy(workers[w]) then 1 else 0) + (if IsBusy(v) then 1 else 0)
    ensures Count(workers[w := v], IsBusy) <= |workers|
  {
    CountUpdate(workers, w, v, IsBusy);
    UncountedUpdate(workers, w, v);
    CountBelowLength(workers[w := v], IsBusy);
  }

  lemma ClaimKeepsBudget(cfg: Config, p: Pool, w: nat, c: real)
    requires BudgetOk(cfg, p, c) && w < |p.workers| && p.workers[w] == Ready
    ensures BudgetOk(cfg, ClaimNext(p, w), c)
  {
    var q := ClaimNext(p, w);
    WorkerUpdate(p.workers, w, q.workers[w], c);
    if !p.exhausted {
      WithinLimit(cfg, p.spent, Count(q.workers, IsBusy), |q.workers|, c);
    }
  }

  lemma FinishKeepsBudget(cfg: Config, p: Pool, w: nat, trial: Trial, c: real)
    requires BudgetOk(cfg, p, c) && w < |p.workers| && p.workers[w].Running? && 0.0 <= trial.cost <= c
    ensures BudgetOk(cfg, FinishTrial(cfg, p, w, trial), c)
  {
    var q := FinishTrial(cfg, p, w, trial);
    var v := q.workers[w];
    assert q.workers == p.workers[w := v] && CostOf(v) == trial.cost && IsBusy(v) && CostOf(p.workers[w]) == 0.0;
    WorkerUpdate(p.workers, w, v, c);
    CollectedOne(p.results, trial);
  }

  lemma CollectedOne(results: seq<Trial>, trial: Trial)
    ensures TotalCost(results + [trial]) == TotalCost(results) + trial.cost
  {
    assert Init(results + [trial]) == results;
  }

  lemma SettleKeepsBudget(cfg: Config, p: Pool, w: nat, c: real)
    requires BudgetOk(cfg, p, c) && w < |p.workers| && p.workers[w].Settling?
    ensures BudgetOk(cfg, SettleCost(cfg, p, w), c)
  {
    assert 0.0 <= CostOf(p.workers[w]) <= c;
    WorkerUpdate(p.workers, w, Ready, c);
    CountedOne(cfg, p.spent, p.workers[w].trial.cost, Count(p.workers, IsBusy), |p.workers|, c);
  }

  lemma AppendKeepsBudget(cfg: Config, p: Pool, w: nat, c: real)
    requires BudgetOk(cfg, p, c) && w < |p.workers| && p.workers[w].Appending?
    ensures BudgetOk(cfg, p.(workers := p.workers[w := Settling(p.workers[w].index, p.workers[w].trial)]), c)
  {
    assert 0.0 <= CostOf(p.workers[w]) <= c;
    WorkerUpdate(p.workers, w, Settling(p.workers[w].index, p.workers[w].trial), c);
  }

  lemma {:induction false} BudgetKept(cfg: Config, s: System, steps: seq<Step>, c: real)
    requires s.pool.Some? && BudgetOk(cfg, s.pool.value, c) && IsRun(cfg, s, steps)
    requires forall i :: 0 <= i < |steps| ==> PoolStep(steps[i], c)
    ensures After(cfg, s, steps).pool.Some? && BudgetOk(cfg, After(cfg, s, steps).pool.value, c)
    ensures |After(cfg, s, steps).pool.value.workers| == |s.pool.value.workers|
    decreases |steps|
  {
    if steps != [] {
      assert PoolStep(steps[0], c);
      match steps[0] {
        case Claim(w) => ClaimKeepsBudget(cfg, s.pool.value, w, c);
        case Finish(w, trial) => FinishKeepsBudget(cfg, s.pool.value, w, trial, c);
        case Append(w) => AppendKeepsBudget(cfg, s.pool.value, w, c);
        case Settle(w) => SettleKeepsBudget(cfg, s.pool.value, w, c);
      }
      BudgetKept(cfg, Apply(cfg, s, steps[0]), steps[1..], c);
    }
  }

  lemma {:induction false} NothingUncounted(workers: seq<Worker>)
    requires forall w :: 0 <= w < |workers| ==> workers[w] == Ready || workers[w] == Done
    ensures Uncounted(workers) == 0.0 && Count(workers, IsBusy) == 0
    decreases |workers|
  {
    if workers != [] { NothingUncounted(workers[1..]); }
  }

  lemma LaunchWithinBudget(cfg: Config, log: seq<LogEntry>, c: real)
    requires c >= 0.0
    requires cfg.maxCost.Some? ==> LaunchPool(cfg, log).spent <= cfg.maxCost.value
    ensures BudgetOk(cfg, LaunchPool(cfg, log), c)
  {
    var p := LaunchPool(cfg, log);
    NothingUncounted(p.workers);
    WithinLimit(cfg, p.spent, 0, |p.workers|, c);
  }

  /** If the spend loaded from the log is within the limit, then at every moment of the run the trials
      that came back, counted or not, cost at most the limit plus one trial per worker; the flag that
      invalidates the report says exactly whether the counted spend is over the limit; and at the end
      everything is counted. */
  lemma BudgetOvershootIsBounded(cfg: Config, log: seq<LogEntry>, steps: seq<Step>, c: real)
    requires c >= 0.0 && cfg.maxCost.Some? && LaunchPool(cfg, log).spent <= cfg.maxCost.value
    requires IsRun(cfg, System(log, Some(LaunchPool(cfg, log))), steps)
    requires forall i :: 0 <= i < |steps| ==> PoolStep(steps[i], c)
    ensures var p := After(cfg, System(log, Some(LaunchPool(cfg, log))), steps).pool;
            && p.Some? && |p.value.workers| <= cfg.concurrency
            && BudgetKeptBy(cfg, p.value, c)
  {
    LaunchWithinBudget(cfg, log, c);
    BudgetKept(cfg, System(log, Some(LaunchPool(cfg, log))), steps, c);
    BudgetOkMeans(cfg, After(cfg, System(log, Some(LaunchPool(cfg, log))), steps).pool.value, c);
  }

  ghost predicate BudgetKeptBy(cfg: Config, p: Pool, c: real)
    requires cfg.maxCost.Some?
  {
    && p.spent <= TotalCost(p.results) <= cfg.maxCost.value + |p.workers| as real * c
    && p.exhausted == Over(cfg, p.spent)
    && (Finished(p) ==> p.spent == TotalCost(p.results))
  }

  lemma BudgetOkMeans(cfg: Config, p: Pool, c: real)
    requires cfg.maxCost.Some? && BudgetOk(cfg, p, c)
    ensures BudgetKeptBy(cfg, p, c)
  {
    UncountedBelowBusy(p.workers, c);
    TimesIsProduct(|p.workers|, c);
    if Finished(p) { NothingUncounted(p.workers); }
  }

  lemma {:induction false} UncountedBelowBusy(workers: seq<Worker>, c: real)
    requires CostsOk(workers, c) && c >= 0.0
    ensures 0.0 <= Uncounted(workers) <= Times(Count(workers, IsBusy), c)
    decreases |workers|
  {
    if workers != [] {
      CostsOfRest(workers, c);
      UncountedBelowBusy(workers[1..], c);
    }
  }

  lemma CostsOfRest(workers: seq<Worker>, c: real)
    requires CostsOk(workers, c) && workers != []
    ensures CostsOk(workers[1..], c) && 0.0 <= CostOf(workers[0]) <= c
  {
    forall w | 0 <= w < |workers| - 1 ensures 0.0 <= CostOf(workers[1..][w]) <= c {
      assert workers[1..][w] == workers[w + 1];
    }
  }

  // ----- What reaches the log and the results -----

  /** The trial that worker `w` last came back with. */
  function LastFinished(steps: seq<Step>, w: nat): Option<Trial> {
    if steps == [] then None
    else if Last(steps).Finish? && Last(steps).w == w then Some(Last(steps).trial)
    else LastFinished(Init(steps), w)
  }

  /** For every line that the steps append, the trial that its worker had come back with. */
  function AppendedTrials(steps: seq<Step>): seq<Trial> {
    if steps == [] then []
    else AppendedTrials(Init(steps))
         + (if Last(steps).Append? then LastFinished(Init(steps), Last(steps).w).ToSeq() else [])
  }

  /** What the running process has in its results: what it loaded, then the trials that came back since. */
  function CollectedTrials(cfg: Config, log: seq<LogEntry>, steps: seq<Step>): seq<Trial> {
    if steps == [] then []
    else
      match Last(steps)
      case Launch => if cfg.resumable then Trials(log) + AppendedTrials(Init(steps)) else []
      case Finish(_, trial) => CollectedTrials(cfg, log, Init(steps)) + [trial]
      case _ => CollectedTrials(cfg, log, Init(steps))
  }

  lemma {:induction false} RunInit(cfg: Config, s: System, steps: seq<Step>)
    requires IsRun(cfg, s, steps) && steps != []
    ensures IsRun(cfg, s, Init(steps)) && Enabled(cfg, After(cfg, s, Init(steps)), Last(steps))
    ensures After(cfg, s, steps) == Apply(cfg, After(cfg, s, Init(steps)), Last(steps))
    decreases |steps|
  {
    if |steps| > 1 {
      assert Init(steps)[1..] == Init(steps[1..]) && Last(steps[1..]) == Last(steps);
      RunInit(cfg, Apply(cfg, s, steps[0]), steps[1..]);
    }
  }

  /** Lines filed under the keys of these trials. */
  function LinesOf(trials: seq<Trial>): (r: seq<LogEntry>)
    ensures |r| == |trials|
    ensures forall i :: 0 <= i < |r| ==> r[i].trial == trials[i] && r[i].key == WorkKey(trials[i].item)
  {
    seq(|trials|, i requires 0 <= i < |trials| => LogEntry(WorkKey(trials[i].item), trials[i]))
  }

  ghost predicate HoldsFinished(s: System, steps: seq<Step>) {
    s.pool.Some? ==> forall w :: 0 <= w < |s.pool.value.workers| ==>
      var v := s.pool.value.workers[w];
      v.Appending? || v.Settling? ==> LastFinished(steps, w) == Some(v.trial)
  }

  lemma StepHoldsFinished(cfg: Config, s: System, steps: seq<Step>)
    requires steps != [] && HoldsFinished(s, Init(steps)) && Enabled(cfg, s, Last(steps))
    ensures HoldsFinished(Apply(cfg, s, Last(steps)), steps)
  {
  }

  lemma StepAppends(cfg: Config, s: System, log: seq<LogEntry>, steps: seq<Step>)
    requires steps != [] && HoldsFinished(s, Init(steps)) && Enabled(cfg, s, Last(steps))
    requires s.log == log + LinesOf(AppendedTrials(Init(steps)))
    ensures Apply(cfg, s, Last(steps)).log == log + LinesOf(AppendedTrials(steps))
  {
    var before, after := AppendedTrials(Init(steps)), AppendedTrials(steps);
    if Last(steps).Append? {
      var trial := s.pool.value.workers[Last(steps).w].trial;
      assert after == before + [trial];
      assert LinesOf(after) == LinesOf(before) + [LogEntry(WorkKey(trial.item), trial)];
    } else {
      assert after == before;
    }
  }

  /** Over every run, stops and resumes included, the log is the log at the start followed by one line for every
      append: the trial that the appending worker came back with, unchanged, under the key of its item. */
  lemma {:induction false} LogHoldsWhatCameBack(cfg: Config, log: seq<LogEntry>, steps: seq<Step>)
    requires IsRun(cfg, System(log, None), steps)
    ensures var s := After(cfg, System(log, None), steps);
            s.log == log + LinesOf(AppendedTrials(steps)) && HoldsFinished(s, steps)
    decreases |steps|
  {
    if steps != [] {
      RunInit(cfg, System(log, None), steps);
      LogHoldsWhatCameBack(cfg, log, Init(steps));
      StepAppends(cfg, After(cfg, System(log, None), Init(steps)), log, steps);
      StepHoldsFinished(cfg, After(cfg, System(log, None), Init(steps)), steps);
    }
  }

  lemma TrialsOfLog(log: seq<LogEntry>, trials: seq<Trial>)
    ensures Trials(log + LinesOf(trials)) == Trials(log) + trials
  {
  }

  lemma {:induction false} TotalCostConcat(a: seq<Trial>, b: seq<Trial>)
    ensures TotalCost(a + b) == TotalCost(a) + TotalCost(b)
    decreases |b|
  {
    if b == [] {
      assert a + b == a;
    } else {
      assert Init(a + b) == a + Init(b);
      TotalCostConcat(a, Init(b));
    }
  }

  /** A process that is launched from the log after any such run loads every logged trial, and their cost. */
  lemma RelaunchLoadsEverything(cfg: Config, log: seq<LogEntry>, steps: seq<Step>)
    requires cfg.resumable && ItemsDistinct(cfg) && LogOk(log) && IsRun(cfg, System(log, None), steps)
    ensures var p := LaunchPool(cfg, After(cfg, System(log, None), steps).log);
            && p.results == Trials(log) + AppendedTrials(steps)
            && p.spent == TotalCost(Trials(log)) + TotalCost(AppendedTrials(steps))
  {
    RunOk(cfg, System(log, None), steps);
    LogHoldsWhatCameBack(cfg, log, steps);
    LoadedDistinct(After(cfg, System(log, None), steps).log);
    TrialsOfLog(log, AppendedTrials(steps));
    TotalCostConcat(Trials(log), AppendedTrials(steps));
  }

  /** The results of a running process are what it loaded and what came back since, unchanged and in order. */
  lemma {:induction false} ResultsAreWhatCameBack(cfg: Config, log: seq<LogEntry>, steps: seq<Step>)
    requires ItemsDistinct(cfg) && LogOk(log) && IsRun(cfg, System(log, None), steps)
    ensures var p := After(cfg, System(log, None), steps).pool;
            p.Some? ==> p.value.results == CollectedTrials(cfg, log, steps)
    decreases |steps|
  {
    if steps != [] {
      RunInit(cfg, System(log, None), steps);
      ResultsAreWhatCameBack(cfg, log, Init(steps));
      if Last(steps).Launch? && cfg.resumable { RelaunchLoadsEverything(cfg, log, Init(steps)); }
    }
  }

  function AppendingTrial(t: Trial): Worker -> bool {
    (w: Worker) => w.Appending? && w.trial == t
  }

  function Same(t: Trial): Trial -> bool {
    (u: Trial) => u == t
  }

  /** Every trial is as often among the results as in the log and on its way there. */
  ghost predicate LogCatchesUp(s: System) {
    s.pool.Some? ==> forall t ::
      Count(s.pool.value.results, Same(t))
      == Count(Trials(s.log), Same(t)) + Count(s.pool.value.workers, AppendingTrial(t))
  }

  lemma StepCatchesUp(cfg: Config, s: System, step: Step, t: Trial)
    requires cfg.resumable && s.pool.Some? && Enabled(cfg, s, step) && !step.Stop?
    requires Count(s.pool.value.results, Same(t))
             == Count(Trials(s.log), Same(t)) + Count(s.pool.value.workers, AppendingTrial(t))
    ensures var r := Apply(cfg, s, step);
            Count(r.pool.value.results, Same(t))
            == Count(Trials(r.log), Same(t)) + Count(r.pool.value.workers, AppendingTrial(t))
  {
    var p, r := s.pool.value, Apply(cfg, s, step);
    var w := step.w;
    CountUpdate(p.workers, w, r.pool.value.workers[w], AppendingTrial(t));
    match step
    case Finish(_, trial) => CountAppend(p.results, trial, Same(t));
    case Append(_) =>
      var trial := p.workers[w].trial;
      assert Trials(r.log) == Trials(s.log) + [trial];
      CountAppend(Trials(s.log), trial, Same(t));
    case _ =>
  }

  lemma LaunchCatchesUp(cfg: Config, log: seq<LogEntry>)
    requires cfg.resumable && LogOk(log)
    ensures LogCatchesUp(System(log, Some(LaunchPool(cfg, log))))
  {
    LoadedDistinct(log);
    var p := LaunchPool(cfg, log);
    forall t ensures Count(p.workers, AppendingTrial(t)) == 0 { CountZero(p.workers, AppendingTrial(t)); }
  }

  /** Over every run of a resumable pool, the results are the logged trials and those still being appended. */
  lemma {:induction false} ResultsAreLoggedOrAppending(cfg: Config, s: System, steps: seq<Step>)
    requires cfg.resumable && SystemOk(cfg, s) && LogCatchesUp(s) && IsRun(cfg, s, steps)
    ensures LogCatchesUp(After(cfg, s, steps))
    decreases |steps|
  {
    if steps != [] {
      StepOk(cfg, s, steps[0]);
      var r := Apply(cfg, s, steps[0]);
      if steps[0].Launch? {
        LaunchCatchesUp(cfg, s.log);
      } else if r.pool.Some? {
        forall t
          ensures Count(r.pool.value.results, Same(t))
                  == Count(Trials(r.log), Same(t)) + Count(r.pool.value.workers, AppendingTrial(t))
        {
          StepCatchesUp(cfg, s, steps[0], t);
        }
      }
      ResultsAreLoggedOrAppending(cfg, r, steps[1..]);
    }
  }

  // ----- The budget over stops and resumes -----

  /** Costs of trials that came back but are not in the log yet. */
  function Unlogged(workers: seq<Worker>): real {
    if workers == [] then 0.0
    else (if workers[0].Appending? then workers[0].trial.cost else 0.0) + Unlogged(workers[1..])
  }

  lemma {:induction false} UnloggedUpdate(workers: seq<Worker>, i: nat, v: Worker)
    requires i < |workers|
    ensures Unlogged(workers[i := v])
            == Unlogged(workers) - (if workers[i].Appending? then workers[i].trial.cost else 0.0)
               + (if v.Appending? then v.trial.cost else 0.0)
    decreases |workers|
  {
    if i == 0 {
      assert workers[i := v][1..] == workers[1..];
    } else {
      assert workers[i := v][1..] == workers[1..][i - 1 := v];
      UnloggedUpdate(workers[1..], i - 1, v);
    }
  }

  lemma {:induction false} UnloggedNonNegative(workers: seq<Worker>, c: real)
    requires CostsOk(workers, c)
    ensures Unlogged(workers) >= 0.0
    decreases |workers|
  {
    if workers != [] {
      assert CostOf(workers[0]) >= 0.0;
      UnloggedNonNegative(workers[1..], c);
    }
  }

  lemma {:induction false} NothingUnlogged(workers: seq<Worker>)
    requires forall w :: 0 <= w < |workers| ==> !workers[w].Appending?
    ensures Unlogged(workers) == 0.0
    decreases |workers|
  {
    if workers != [] { NothingUnlogged(workers[1..]); }
  }

  /** A pool that started over the limit: nothing runs. */
  ghost predicate StartedOver(cfg: Config, p: Pool) {
    p.exhausted && forall w :: 0 <= w < |p.workers| ==> p.workers[w] == Ready || p.workers[w] == Done
  }

  ghost predicate LogWithinBudget(cfg: Config, s: System, c: real)
    requires cfg.maxCost.Some?
  {
    && TotalCost(Trials(s.log)) <= cfg.maxCost.value + Times(cfg.concurrency, c)
    && (s.pool.Some? ==>
          var p := s.pool.value;
          && |p.workers| <= cfg.concurrency
          && TotalCost(p.results) == TotalCost(Trials(s.log)) + Unlogged(p.workers)
          && (BudgetOk(cfg, p, c) || StartedOver(cfg, p)))
  }

  lemma LaunchedPool(cfg: Config, log: seq<LogEntry>)
    requires cfg.resumable && LogOk(log)
    ensures var p := LaunchPool(cfg, log);
            && |p.workers| <= cfg.concurrency && p.spent == TotalCost(Trials(log)) == TotalCost(p.results)
            && Unlogged(p.workers) == 0.0 && p.exhausted == Over(cfg, p.spent)
            && forall w :: 0 <= w < |p.workers| ==> p.workers[w] == Ready
  {
    LoadedDistinct(log);
    NothingUnlogged(LaunchPool(cfg, log).workers);
  }

  lemma LaunchWithinLogBudget(cfg: Config, log: seq<LogEntry>, c: real)
    requires cfg.resumable && cfg.maxCost.Some? && c >= 0.0 && LogOk(log)
    requires LogWithinBudget(cfg, System(log, None), c)
    ensures LogWithinBudget(cfg, System(log, Some(LaunchPool(cfg, log))), c)
  {
    var p := LaunchPool(cfg, log);
    LaunchedPool(cfg, log);
    if p.spent <= cfg.maxCost.value {
      LaunchWithinBudget(cfg, log, c);
    } else {
      assert StartedOver(cfg, p);
    }
  }

  lemma PoolKeepsBudget(cfg: Config, s: System, step: Step, c: real)
    requires s.pool.Some? && BudgetOk(cfg, s.pool.value, c) && Enabled(cfg, s, step) && PoolStep(step, c)
    ensures BudgetOk(cfg, Apply(cfg, s, step).pool.value, c)
  {
    match step
    case Claim(w) => ClaimKeepsBudget(cfg, s.pool.value, w, c);
    case Finish(w, trial) => FinishKeepsBudget(cfg, s.pool.value, w, trial, c);
    case Append(w) => AppendKeepsBudget(cfg, s.pool.value, w, c);
    case Settle(w) => SettleKeepsBudget(cfg, s.pool.value, w, c);
  }

  /** A step moves the cost of a trial from the results on into the log and neither adds nor loses any. */
  lemma StepMovesCost(cfg: Config, s: System, step: Step, c: real)
    requires cfg.resumable && s.pool.Some? && Enabled(cfg, s, step) && PoolStep(step, c)
    requires TotalCost(s.pool.value.results) == TotalCost(Trials(s.log)) + Unlogged(s.pool.value.workers)
    ensures var r := Apply(cfg, s, step);
            TotalCost(r.pool.value.results) == TotalCost(Trials(r.log)) + Unlogged(r.pool.value.workers)
  {
    var p, r := s.pool.value, Apply(cfg, s, step);
    var w := step.w;
    UnloggedUpdate(p.workers, w, r.pool.value.workers[w]);
    match step
    case Finish(_, trial) => CollectedOne(p.results, trial);
    case Append(_) =>
      var trial := p.workers[w].trial;
      assert Trials(r.log) == Trials(s.log) + [trial];
      CollectedOne(Trials(s.log), trial);
    case _ =>
  }

  lemma ResultsBelow(cfg: Config, p: Pool, c: real)
    requires cfg.maxCost.Some? && BudgetOk(cfg, p, c) && |p.workers| <= cfg.concurrency
    ensures TotalCost(p.results) <= cfg.maxCost.value + Times(cfg.concurrency, c) && Unlogged(p.workers) >= 0.0
  {
    UncountedBelowBusy(p.workers, c);
    UnloggedNonNegative(p.workers, c);
    TimesGrows(|p.workers|, cfg.concurrency, c);
  }

  lemma SameWorkers(cfg: Config, s: System, step: Step)
    requires s.pool.Some? && Enabled(cfg, s, step) && !step.Stop? && !step.Launch?
    ensures Apply(cfg, s, step).pool.Some? && |Apply(cfg, s, step).pool.value.workers| == |s.pool.value.workers|
  {
  }

  lemma StepBelowLimit(cfg: Config, s: System, step: Step, c: real)
    requires cfg.resumable && cfg.maxCost.Some? && c >= 0.0 && s.pool.Some? && BudgetOk(cfg, s.pool.value, c)
    requires Enabled(cfg, s, step) && PoolStep(step, c) && |s.pool.value.workers| <= cfg.concurrency
    requires TotalCost(s.pool.value.results) == TotalCost(Trials(s.log)) + Unlogged(s.pool.value.workers)
    ensures LogWithinBudget(cfg, Apply(cfg, s, step), c)
  {
    SameWorkers(cfg, s, step);
    StepMovesCost(cfg, s, step, c);
    PoolKeepsBudget(cfg, s, step, c);
    ResultsBelow(cfg, Apply(cfg, s, step).pool.value, c);
  }

  lemma StepOverLimit(cfg: Config, s: System, step: Step, c: real)
    requires cfg.resumable && cfg.maxCost.Some? && LogWithinBudget(cfg, s, c) && s.pool.Some?
    requires StartedOver(cfg, s.pool.value) && Enabled(cfg, s, step) && PoolStep(step, c)
    ensures LogWithinBudget(cfg, Apply(cfg, s, step), c)
  {
    StepMovesCost(cfg, s, step, c);
    assert step.Claim? && Apply(cfg, s, step).log == s.log;
    assert StartedOver(cfg, Apply(cfg, s, step).pool.value);
  }

  lemma StepKeepsLogBudget(cfg: Config, s: System, step: Step, c: real)
    requires cfg.resumable && cfg.maxCost.Some? && c >= 0.0 && LogOk(s.log) && LogWithinBudget(cfg, s, c)
    requires Enabled(cfg, s, step) && (step.Finish? ==> step.trial.cost <= c)
    ensures LogWithinBudget(cfg, Apply(cfg, s, step), c)
  {
    if step.Launch? {
      LaunchWithinLogBudget(cfg, s.log, c);
    } else if !step.Stop? {
      if BudgetOk(cfg, s.pool.value, c) { StepBelowLimit(cfg, s, step, c); } else { StepOverLimit(cfg, s, step, c); }
    }
  }

  ghost predicate TrialsCostAtMost(steps: seq<Step>, c: real) {
    forall i :: 0 <= i < |steps| && steps[i].Finish? ==> steps[i].trial.cost <= c
  }

  lemma {:induction false} LoggedSpendIsBounded(cfg: Config, s: System, steps: seq<Step>, c: real)
    requires cfg.resumable && cfg.maxCost.Some? && c >= 0.0 && SystemOk(cfg, s) && LogWithinBudget(cfg, s, c)
    requires IsRun(cfg, s, steps) && TrialsCostAtMost(steps, c)
    ensures LogWithinBudget(cfg, After(cfg, s, steps), c)
    decreases |steps|
  {
    if steps != [] {
      StepOk(cfg, s, steps[0]);
      StepKeepsLogBudget(cfg, s, steps[0], c);
      LoggedSpendIsBounded(cfg, Apply(cfg, s, steps[0]), steps[1..], c);
    }
  }

  lemma LoggedCost(cfg: Config, log: seq<LogEntry>, steps: seq<Step>)
    requires IsRun(cfg, System(log, None), steps)
    ensures TotalCost(Trials(After(cfg, System(log, None), steps).log))
            == TotalCost(Trials(log)) + TotalCost(AppendedTrials(steps))
  {
    LogHoldsWhatCameBack(cfg, log, steps);
    TrialsOfLog(log, AppendedTrials(steps));
    TotalCostConcat(Trials(log), AppendedTrials(steps));
  }

  lemma StartsWithinBudget(cfg: Config, log: seq<LogEntry>, c: real)
    requires cfg.maxCost.Some? && c >= 0.0 && TotalCost(Trials(log)) <= cfg.maxCost.value
    ensures LogWithinBudget(cfg, System(log, None), c)
  {
    TimesGrows(0, cfg.concurrency, c);
  }

  /** However often the process stops and resumes, in any interleaving: if the log starts within the limit and no
      trial costs more than `c`, everything in the log together never costs more than the limit plus one trial per
      worker (`Times` is the product, by `TimesIsProduct`). Trials that a stop lost before they reached the log are not
      counted. */
  lemma ResumedSpendIsBounded(cfg: Config, log: seq<LogEntry>, steps: seq<Step>, c: real)
    requires cfg.resumable && cfg.maxCost.Some? && c >= 0.0 && ItemsDistinct(cfg) && LogOk(log)
    requires TotalCost(Trials(log)) <= cfg.maxCost.value && IsRun(cfg, System(log, None), steps)
    requires TrialsCostAtMost(steps, c)
    ensures TotalCost(Trials(log)) + TotalCost(AppendedTrials(steps)) <= cfg.maxCost.value + Times(cfg.concurrency, c)
  {
    StartsWithinBudget(cfg, log, c);
    LoggedSpendIsBounded(cfg, System(log, None), steps, c);
    LoggedCost(cfg, log, steps);
  }

  // ----- The overshoot bound is attained -----

  ghost predicate PoolSteps(steps: seq<Step>, c: real) {
    forall i :: 0 <= i < |steps| ==> PoolStep(steps[i], c)
  }

  lemma OneMoreStep(cfg: Config, s: System, step: Step, t: System, rest: seq<Step>, c: real) returns (steps: seq<Step>)
    requires Enabled(cfg, s, step) && t == Apply(cfg, s, step) && PoolStep(step, c)
    requires IsRun(cfg, t, rest) && PoolSteps(rest, c)
    ensures steps == [step] + rest && IsRun(cfg, s, steps) && PoolSteps(steps, c)
    ensures After(cfg, s, steps) == After(cfg, t, rest)
  {
    steps := [step] + rest;
    assert steps[1..] == rest;
  }

  /** The first `k` workers run a trial each, the others are ready; there is an item for every worker. */
  ghost predicate Claimed(s: System, pending: seq<WorkItem>, k: nat, spent: real) {
    && s.pool.Some?
    && var p := s.pool.value;
       && p.pending == pending && |p.workers| == |pending| && p.cursor == k && !p.exhausted && p.spent == spent
       && forall i :: 0 <= i < |p.workers| ==> p.workers[i] == if i < k then Running(i) else Ready
  }

  lemma ClaimOne(cfg: Config, s: System, pending: seq<WorkItem>, k: nat, spent: real)
    requires Claimed(s, pending, k, spent) && k < |pending|
    ensures Enabled(cfg, s, Claim(k)) && Claimed(Apply(cfg, s, Claim(k)), pending, k + 1, spent)
  {
  }

  /** The trials of the first `k` workers are counted, the others are still running. */
  ghost predicate Counted(s: System, pending: seq<WorkItem>, k: nat, spent: real) {
    && s.pool.Some?
    && var p := s.pool.value;
       && p.pending == pending && |p.workers| == |pending| && p.spent == spent
       && forall i :: 0 <= i < |p.workers| ==> p.workers[i] == if i < k then Ready else Running(i)
  }

  /** One trial comes back, reaches the log and is counted. */
  lemma CountOne(cfg: Config, s: System, pending: seq<WorkItem>, k: nat, spent: real, c: real)
      returns (finish: Step, s1: System, s2: System, t: System)
    requires cfg.resumable && c >= 0.0 && Counted(s, pending, k, spent) && k < |pending|
    ensures finish == Finish(k, Trial(pending[k], c, Failed)) && Enabled(cfg, s, finish) && s1 == Apply(cfg, s, finish)
    ensures Enabled(cfg, s1, Append(k)) && s2 == Apply(cfg, s1, Append(k))
    ensures Enabled(cfg, s2, Settle(k)) && t == Apply(cfg, s2, Settle(k))
    ensures Counted(t, pending, k + 1, spent + c)
  {
    finish := Finish(k, Trial(pending[k], c, Failed));
    s1 := Apply(cfg, s, finish);
    assert s1.pool.value.workers[k] == Appending(k, finish.trial);
    s2 := Apply(cfg, s1, Append(k));
    assert s2.pool.value.workers[k] == Settling(k, finish.trial);
    t := Apply(cfg, s2, Settle(k));
  }

  lemma OneMoreRound(cfg: Config, s: System, pending: seq<WorkItem>, k: nat, spent: real, c: real)
      returns (t: System, round: seq<Step>)
    requires cfg.resumable && c >= 0.0 && Counted(s, pending, k, spent) && k < |pending|
    ensures Counted(t, pending, k + 1, spent + c)
    ensures forall rest :: IsRun(cfg, t, rest) && PoolSteps(rest, c) ==>
              && IsRun(cfg, s, round + rest) && PoolSteps(round + rest, c)
              && After(cfg, s, round + rest) == After(cfg, t, rest)
  {
    var finish, s1, s2;
    finish, s1, s2, t := CountOne(cfg, s, pending, k, spent, c);
    round := [finish, Append(k), Settle(k)];
    forall rest | IsRun(cfg, t, rest) && PoolSteps(rest, c)
      ensures IsRun(cfg, s, round + rest) && PoolSteps(round + rest, c)
              && After(cfg, s, round + rest) == After(cfg, t, rest)
    {
      var steps := OneMoreStep(cfg, s2, Settle(k), t, rest, c);
      steps := OneMoreStep(cfg, s1, Append(k), s2, steps, c);
      steps := OneMoreStep(cfg, s, finish, s1, steps, c);
      assert steps == round + rest;
    }
  }

  lemma {:induction false} CountAll(cfg: Config, s: System, pending: seq<WorkItem>, k: nat, spent: real, total: real,
                                    c: real) returns (steps: seq<Step>)
    requires cfg.resumable && c >= 0.0 && Counted(s, pending, k, spent) && k <= |pending|
    requires total == spent + Times(|pending| - k, c)
    ensures IsRun(cfg, s, steps) && PoolSteps(steps, c)
    ensures Counted(After(cfg, s, steps), pending, |pending|, total)
    decreases |pending| - k
  {
    steps := [];
    if k < |pending| {
      var t, round := OneMoreRound(cfg, s, pending, k, spent, c);
      var rest := CountAll(cfg, t, pending, k + 1, spent + c, total, c);
      steps := round + rest;
    }
  }

  /** The remaining workers claim, then all trials are counted one after the other. */
  lemma {:induction false} ClaimThenCount(cfg: Config, s: System, pending: seq<WorkItem>, k: nat, limit: real, c: real)
      returns (steps: seq<Step>)
    requires cfg.resumable && c >= 0.0 && Claimed(s, pending, k, limit) && k <= |pending|
    ensures IsRun(cfg, s, steps) && PoolSteps(steps, c)
    ensures Counted(After(cfg, s, steps), pending, |pending|, limit + Times(|pending|, c))
    decreases |pending| - k
  {
    if k == |pending| {
      ClaimedIsCounted(s, pending, limit);
      steps := CountAll(cfg, s, pending, 0, limit, limit + Times(|pending|, c), c);
    } else {
      ClaimOne(cfg, s, pending, k, limit);
      steps := ClaimThenCount(cfg, Apply(cfg, s, Claim(k)), pending, k + 1, limit, c);
      steps := OneMoreStep(cfg, s, Claim(k), Apply(cfg, s, Claim(k)), steps, c);
    }
  }

  lemma OneEntryLoads(e: LogEntry)
    ensures Loaded([e]) == [e] && TotalCost(Trials([e])) == e.trial.cost
  {
    assert Init([e]) == [] && Trials([e]) == [e.trial] && Init([e.trial]) == [];
  }

  lemma LoggedOnlyFirst(item: WorkItem, first: WorkItem, e: LogEntry)
    requires e.key == WorkKey(first)
    ensures HasKey([e], WorkKey(item)) <==> item == first
  {
    WorkKeyInjective(item, first);
    assert [e][0].key == WorkKey(first);
  }

  lemma RemainingHead(items: seq<WorkItem>, entries: seq<LogEntry>)
    requires items != [] && !HasKey(entries, WorkKey(items[0])) && Remaining(items[1..], entries) == items[1..]
    ensures Remaining(items, entries) == items
  {
    assert items == [items[0]] + items[1..];
  }

  lemma {:induction false} OthersRemain(items: seq<WorkItem>, first: WorkItem, e: LogEntry)
    requires e.key == WorkKey(first) && first !in items
    ensures Remaining(items, [e]) == items
    decreases |items|
  {
    if items != [] {
      LoggedOnlyFirst(items[0], first, e);
      OthersRemain(items[1..], first, e);
      RemainingHead(items, [e]);
    }
  }

  lemma OnlyFirstLogged(items: seq<WorkItem>, first: WorkItem, e: LogEntry)
    requires e.key == WorkKey(first) && first !in items
    ensures Remaining([first] + items, [e]) == items
  {
    OthersRemain(items, first, e);
    LoggedOnlyFirst(first, first, e);
    assert ([first] + items)[1..] == items && [] + items == items;
  }

  /** A log with one trial that has used up the limit, and as many other items as workers. */
  lemma LaunchAtLimit(cfg: Config, first: WorkItem, others: seq<WorkItem>, limit: real, e: LogEntry)
    requires cfg == Config([first] + others, |others|, Some(limit), true) && others != [] && first !in others
    requires e.key == WorkKey(first) && e.trial.cost == limit
    ensures Claimed(System([e], Some(LaunchPool(cfg, [e]))), others, 0, limit)
  {
    OneEntryLoads(e);
    OnlyFirstLogged(others, first, e);
  }

  lemma ClaimedIsCounted(s: System, pending: seq<WorkItem>, spent: real)
    requires Claimed(s, pending, |pending|, spent)
    ensures Counted(s, pending, 0, spent)
  {
  }

  lemma RunToTheBound(cfg: Config, s: System, pending: seq<WorkItem>, limit: real, c: real) returns (steps: seq<Step>)
    requires cfg.resumable && c >= 0.0 && Claimed(s, pending, 0, limit)
    ensures IsRun(cfg, s, steps) && PoolSteps(steps, c) && After(cfg, s, steps).pool.Some?
    ensures After(cfg, s, steps).pool.value.spent == limit + |pending| as real * c
  {
    steps := ClaimThenCount(cfg, s, pending, 0, limit, c);
    TimesIsProduct(|pending|, c);
  }

  /** The bound is attained for every number of workers and every limit that the logged trials can reach:
      the log has used up the limit exactly, every worker claims an item, and then the trials come back
      and are logged and counted one after the other. The logged trial costs the whole limit, so `c` is the
      largest cost of a trial of this run only. */
  lemma OvershootBoundIsTight(first: WorkItem, others: seq<WorkItem>, limit: real, c: real)
      returns (cfg: Config, log: seq<LogEntry>, s: System, steps: seq<Step>)
    requires others != [] && first !in others && limit >= 0.0 && c >= 0.0
    ensures cfg == Config([first] + others, |others|, Some(limit), true)
    ensures s == System(log, Some(LaunchPool(cfg, log)))
    ensures s.pool.value.spent <= limit && |s.pool.value.workers| == |others|
    ensures IsRun(cfg, s, steps) && PoolSteps(steps, c) && After(cfg, s, steps).pool.Some?
    ensures After(cfg, s, steps).pool.value.spent == limit + |others| as real * c
  {
    cfg := Config([first] + others, |others|, Some(limit), true);
    var e := LogEntry(WorkKey(first), Trial(first, limit, Succeeded));
    log := [e];
    s := System(log, Some(LaunchPool(cfg, log)));
    LaunchAtLimit(cfg, first, others, limit, e);
    steps := RunToTheBound(cfg, s, others, limit, c);
  }

  // ----- Progress -----

  /** As long as a worker is not done, some step of the pool can be taken. */
  lemma UnfinishedPoolHasAStep(cfg: Config, log: seq<LogEntry>, steps: seq<Step>) returns (step: Step)
    requires ItemsDistinct(cfg) && LogOk(log) && IsRun(cfg, System(log, None), steps)
    ensures var s := After(cfg, System(log, None), steps);
            s.pool.Some? && !Finished(s.pool.value) ==> Enabled(cfg, s, step) && PoolStep(step, 0.0)
  {
    var s := After(cfg, System(log, None), steps);
    RunOk(cfg, System(log, None), steps);
    step := Stop;
    if s.pool.Some? && !Finished(s.pool.value) {
      var p := s.pool.value;
      var w :| 0 <= w < |p.workers| && p.workers[w] != Done;
      match p.workers[w] {
        case Ready => step := Claim(w);
        case Running(i) => step := Finish(w, Trial(p.pending[i], 0.0, Failed));
        case Appending(_, _) => step := Append(w);
        case Settling(_, _) => step := Settle(w);
      }
    }
  }

  /** The steps a worker can still take with the item it has, and the one that finds nothing left. */
  function StepsLeft(w: Worker): nat {
    match w
    case Ready => 1
    case Running(_) => 4
    case Appending(_, _) => 3
    case Settling(_, _) => 2
    case Done => 0
  }

  function AllStepsLeft(workers: seq<Worker>): nat {
    if workers == [] then 0 else StepsLeft(workers[0]) + AllStepsLeft(workers[1..])
  }

  lemma {:induction false} StepsLeftUpdate(workers: seq<Worker>, w: nat, v: Worker)
    requires w < |workers|
    ensures AllStepsLeft(workers[w := v]) == AllStepsLeft(workers) - StepsLeft(workers[w]) + StepsLeft(v)
    decreases |workers|
  {
    if w == 0 {
      assert workers[w := v][1..] == workers[1..];
    } else {
      assert workers[w := v][1..] == workers[1..][w - 1 := v];
      StepsLeftUpdate(workers[1..], w - 1, v);
    }
  }

  /** An upper bound for the pool steps to come. */
  function PoolStepsLeft(p: Pool): int {
    4 * (|p.pending| - p.cursor) + AllStepsLeft(p.workers)
  }

  lemma StepUsesOne(cfg: Config, s: System, step: Step, c: real)
    requires s.pool.Some? && s.pool.value.cursor <= |s.pool.value.pending| && Enabled(cfg, s, step) && PoolStep(step, c)
    ensures Apply(cfg, s, step).pool.Some?
    ensures var p, q := s.pool.value, Apply(cfg, s, step).pool.value;
            q.cursor <= |q.pending| && PoolStepsLeft(q) < PoolStepsLeft(p)
  {
    var p, q := s.pool.value, Apply(cfg, s, step).pool.value;
    var w := step.w;
    StepsLeftUpdate(p.workers, w, q.workers[w]);
    assert q.workers == p.workers[w := q.workers[w]];
  }

  lemma {:induction false} StepsFitTheBound(cfg: Config, s: System, steps: seq<Step>, c: real)
    requires s.pool.Some? && s.pool.value.cursor <= |s.pool.value.pending|
    requires IsRun(cfg, s, steps) && PoolSteps(steps, c)
    ensures After(cfg, s, steps).pool.Some?
    ensures |steps| <= PoolStepsLeft(s.pool.value)
    decreases |steps|
  {
    if steps != [] {
      assert PoolStep(steps[0], c);
      StepUsesOne(cfg, s, steps[0], c);
      StepsFitTheBound(cfg, Apply(cfg, s, steps[0]), steps[1..], c);
    }
  }

  lemma {:induction false} ReadyWorkersHaveOneStep(workers: seq<Worker>)
    requires forall i :: 0 <= i < |workers| ==> workers[i] == Ready
    ensures AllStepsLeft(workers) == |workers|
    decreases |workers|
  {
    if workers != [] { ReadyWorkersHaveOneStep(workers[1..]); }
  }

  /** From a launch the pool takes at most four steps for every pending item and one for every worker. */
  lemma PoolStepsAreBounded(cfg: Config, log: seq<LogEntry>, steps: seq<Step>, c: real)
    requires IsRun(cfg, System(log, Some(LaunchPool(cfg, log))), steps) && PoolSteps(steps, c)
    ensures |steps| <= 4 * |LaunchPool(cfg, log).pending| + |LaunchPool(cfg, log).workers|
  {
    ReadyWorkersHaveOneStep(LaunchPool(cfg, log).workers);
    StepsFitTheBound(cfg, System(log, Some(LaunchPool(cfg, log))), steps, c);
  }

  // ----- A spent budget -----

  /** If the loaded spend is over the limit already, no trial starts. */
  ghost predicate Idle(p: Pool, results: seq<Trial>) {
    && p.exhausted && p.results == results
    && forall w :: 0 <= w < |p.workers| ==> p.workers[w] == Ready || p.workers[w] == Done
  }

  lemma {:induction false} StaysIdle(cfg: Config, s: System, steps: seq<Step>, results: seq<Trial>, c: real)
    requires s.pool.Some? && Idle(s.pool.value, results) && IsRun(cfg, s, steps)
    requires forall i :: 0 <= i < |steps| ==> PoolStep(steps[i], c)
    ensures After(cfg, s, steps).pool.Some? && Idle(After(cfg, s, steps).pool.value, results)
    ensures After(cfg, s, steps).log == s.log
    decreases |steps|
  {
    if steps != [] {
      assert PoolStep(steps[0], c);
      StaysIdle(cfg, Apply(cfg, s, steps[0]), steps[1..], results, c);
    }
  }

  lemma NoTrialStartsOverBudget(cfg: Config, log: seq<LogEntry>, steps: seq<Step>, c: real)
    requires Over(cfg, LaunchPool(cfg, log).spent)
    requires IsRun(cfg, System(log, Some(LaunchPool(cfg, log))), steps)
    requires forall i :: 0 <= i < |steps| ==> PoolStep(steps[i], c)
    ensures var s := After(cfg, System(log, Some(LaunchPool(cfg, log))), steps);
            && s.log == log && s.pool.Some? && s.pool.value.results == LaunchPool(cfg, log).results
            && forall w :: 0 <= w < |s.pool.value.workers| ==> !IsBusy(s.pool.value.workers[w])
  {
    StaysIdle(cfg, System(log, Some(LaunchPool(cfg, log))), steps, LaunchPool(cfg, log).results, c);
  }
}

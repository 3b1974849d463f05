/** Greedy selection of core memories under a token budget (`selectCore` in
    src/memory/core-memory-service.ts). */
module CoreMemory {
  import opened Prelude
  import opened MemoryRecords

  // ----- Eligibility, order and cost -----

  predicate Eligible(m: MemoryRecord, now: int) {
    m.status == Verified && m.tier == Core && m.privacy != Restricted && !Expired(m, now)
  }

  /** `compareTimestamp`: an absent time is the empty string and sorts below every time. */
  predicate Later(a: Option<int>, b: Option<int>) {
    a.Some? && (b.None? || a.value > b.value)
  }

  /** The sort order: confidence, last verification and last update, all descending, then the id. */
  predicate Precedes(a: MemoryRecord, b: MemoryRecord) {
    || a.confidence > b.confidence
    || (a.confidence == b.confidence &&
        (|| Later(a.lastVerifiedAt, b.lastVerifiedAt)
         || (a.lastVerifiedAt == b.lastVerifiedAt &&
             (|| a.updatedAt > b.updatedAt
              || (a.updatedAt == b.updatedAt && a.memoryId < b.memoryId)))))
  }

  lemma PrecedesIsAStrictOrder(a: MemoryRecord, b: MemoryRecord, c: MemoryRecord)
    ensures !Precedes(a, a)
    ensures Precedes(a, b) && Precedes(b, c) ==> Precedes(a, c)
    ensures a.memoryId != b.memoryId ==> Precedes(a, b) || Precedes(b, a)
    ensures !(Precedes(a, b) && Precedes(b, a))
  {
  }

  /** `estimateTokens`: a quarter of the length, rounded up, at least 1. */
  function Cost(m: MemoryRecord): nat {
    Max(1, (|m.content| + 3) / 4)
  }

  function TotalCost(ms: seq<MemoryRecord>): nat {
    if ms == [] then 0 else TotalCost(Init(ms)) + Cost(Last(ms))
  }

  // ----- Sorting -----

  function Insert(m: MemoryRecord, sorted: seq<MemoryRecord>): seq<MemoryRecord> {
    if sorted == [] || !Precedes(sorted[0], m) then [m] + sorted else [sorted[0]] + Insert(m, sorted[1..])
  }

  function SortRecords(ms: seq<MemoryRecord>): seq<MemoryRecord> {
    if ms == [] then [] else Insert(ms[0], SortRecords(ms[1..]))
  }

  ghost predicate UniqueIds(ms: seq<MemoryRecord>) {
    forall i, j :: 0 <= i < j < |ms| ==> ms[i].memoryId != ms[j].memoryId
  }

  ghost predicate Sorted(ms: seq<MemoryRecord>) {
    forall i, j :: 0 <= i < j < |ms| ==> Precedes(ms[i], ms[j])
  }

  lemma {:induction false} InsertMembers(m: MemoryRecord, sorted: seq<MemoryRecord>)
    ensures multiset(Insert(m, sorted)) == multiset{m} + multiset(sorted)
    decreases |sorted|
  {
    if sorted != [] && Precedes(sorted[0], m) {
      InsertMembers(m, sorted[1..]);
      assert sorted == [sorted[0]] + sorted[1..];
    }
  }

  lemma {:induction false} InsertSorted(m: MemoryRecord, sorted: seq<MemoryRecord>)
    requires Sorted(sorted) && forall i :: 0 <= i < |sorted| ==> sorted[i].memoryId != m.memoryId
    ensures Sorted(Insert(m, sorted))
    decreases |sorted|
  {
    if sorted == [] {
    } else if !Precedes(sorted[0], m) {
      PrecedesIsAStrictOrder(m, sorted[0], m);
      forall j | 0 <= j < |sorted| ensures Precedes(m, sorted[j]) {
        if j > 0 { PrecedesIsAStrictOrder(m, sorted[0], sorted[j]); }
      }
    } else {
      InsertSorted(m, sorted[1..]);
      InsertMembers(m, sorted[1..]);
      forall j | 0 <= j < |Insert(m, sorted[1..])| ensures Precedes(sorted[0], Insert(m, sorted[1..])[j]) {
        InMultiset(Insert(m, sorted[1..]), j, m, sorted[1..]);
      }
    }
  }

  lemma InMultiset(r: seq<MemoryRecord>, j: nat, m: MemoryRecord, s: seq<MemoryRecord>)
    requires j < |r| && multiset(r) == multiset{m} + multiset(s)
    ensures r[j] == m || r[j] in s
  {
    assert r[j] in multiset(r);
  }

  lemma RestHasOtherIds(ms: seq<MemoryRecord>, rest: seq<MemoryRecord>)
    requires UniqueIds(ms) && ms != [] && multiset(rest) == multiset(ms[1..])
    ensures forall i :: 0 <= i < |rest| ==> rest[i].memoryId != ms[0].memoryId
  {
    forall i | 0 <= i < |rest| ensures rest[i].memoryId != ms[0].memoryId {
      assert rest[i] in multiset(ms[1..]);
    }
  }

  lemma {:induction false} SortRecordsSorts(ms: seq<MemoryRecord>)
    requires UniqueIds(ms)
    ensures multiset(SortRecords(ms)) == multiset(ms)
    ensures Sorted(SortRecords(ms))
    decreases |ms|
  {
    if ms != [] {
      var rest := SortRecords(ms[1..]);
      SortRecordsSorts(ms[1..]);
      assert ms == [ms[0]] + ms[1..];
      InsertMembers(ms[0], rest);
      RestHasOtherIds(ms, rest);
      InsertSorted(ms[0], rest);
    }
  }

  lemma SameHead(a: seq<MemoryRecord>, b: seq<MemoryRecord>)
    requires Sorted(a) && Sorted(b) && a != [] && b != [] && a[0] in b && b[0] in a
    ensures a[0] == b[0]
  {
    var i :| 0 <= i < |b| && b[i] == a[0];
    var j :| 0 <= j < |a| && a[j] == b[0];
    PrecedesIsAStrictOrder(a[0], b[0], a[0]);
  }

  lemma TailMembers(a: seq<MemoryRecord>)
    requires a != []
    ensures multiset(a[1..]) == multiset(a) - multiset{a[0]}
  {
    assert a == [a[0]] + a[1..];
  }

  lemma SortedTails(a: seq<MemoryRecord>, b: seq<MemoryRecord>)
    requires Sorted(a) && Sorted(b) && a != [] && multiset(a) == multiset(b)
    ensures b != [] && a[0] == b[0] && multiset(a[1..]) == multiset(b[1..])
  {
    assert a[0] in multiset(b);
    assert b[0] in multiset(a);
    SameHead(a, b);
    TailMembers(a);
    TailMembers(b);
  }

  /** Two sorted lists of the same records are the same list. */
  lemma {:induction false} SortedIsUnique(a: seq<MemoryRecord>, b: seq<MemoryRecord>)
    requires Sorted(a) && Sorted(b) && multiset(a) == multiset(b)
    ensures a == b
    decreases |a|
  {
    if a == [] {
      assert |b| == |multiset(b)| == 0;
    } else {
      SortedTails(a, b);
      SortedIsUnique(a[1..], b[1..]);
      assert a == [a[0]] + a[1..] && b == [b[0]] + b[1..];
    }
  }

  // ----- The greedy pass -----

  datatype Selection = Selection(memories: seq<MemoryRecord>, tokens: nat)

  function Ids(ms: seq<MemoryRecord>): set<nat> {
    set i | 0 <= i < |ms| :: ms[i].memoryId
  }

  predicate Clashes(m: MemoryRecord, chosen: seq<MemoryRecord>) {
    m.conflictsWith * Ids(chosen) != {}
  }

  predicate Fits(m: MemoryRecord, tokens: nat, budget: int) {
    tokens + Cost(m) <= Max(0, budget)
  }

  function Greedy(sorted: seq<MemoryRecord>, budget: int): Selection {
    if sorted == [] then Selection([], 0)
    else
      var before := Greedy(Init(sorted), budget);
      var m := Last(sorted);
      if Clashes(m, before.memories) || !Fits(m, before.tokens, budget) then before
      else Selection(before.memories + [m], before.tokens + Cost(m))
  }

  function Candidates(records: seq<MemoryRecord>, now: int): seq<MemoryRecord> {
    if records == [] then []
    else (if Eligible(records[0], now) then [records[0]] else []) + Candidates(records[1..], now)
  }

  function Select(records: seq<MemoryRecord>, budget: int, now: int): Selection {
    Greedy(SortRecords(Candidates(records, now)), budget)
  }

  method SelectCore(records: seq<MemoryRecord>, tokenBudget: int, now: int) returns (r: Selection)
    ensures r == Select(records, tokenBudget, now)
  {
    var sorted := SortRecords(Candidates(records, now));
    var selected: seq<MemoryRecord> := [];
    var selectedIds: set<nat> := {};
    var tokens: nat := 0;
    var n := 0;
    while n < |sorted|
      invariant 0 <= n <= |sorted|
      invariant Selection(selected, tokens) == Greedy(sorted[..n], tokenBudget)
      invariant selectedIds == Ids(selected)
    {
      var record := sorted[n];
      assert Init(sorted[..n + 1]) == sorted[..n];
      n := n + 1;
      if record.conflictsWith * selectedIds != {} {
        continue;
      }
      var cost := Cost(record);
      if tokens + cost > Max(0, tokenBudget) {
        continue;
      }
      IdsAppend(selected, record);
      selected := selected + [record];
      selectedIds := selectedIds + {record.memoryId};
      tokens := tokens + cost;
    }
    assert sorted[..n] == sorted;
    r := Selection(selected, tokens);
  }

  lemma IdsAppend(ms: seq<MemoryRecord>, m: MemoryRecord)
    ensures Ids(ms + [m]) == Ids(ms) + {m.memoryId}
  {
    forall x | x in Ids(ms) ensures x in Ids(ms + [m]) {
      var i :| 0 <= i < |ms| && ms[i].memoryId == x;
      assert (ms + [m])[i].memoryId == x;
    }
    assert (ms + [m])[|ms|].memoryId == m.memoryId;
  }

  // ----- Cost and maximality -----

  /** The chosen costs add up to the returned tokens and fit the budget. */
  lemma {:induction false} GreedyFitsBudget(sorted: seq<MemoryRecord>, budget: int)
    ensures var g := Greedy(sorted, budget);
            g.tokens == TotalCost(g.memories) && g.tokens <= Max(0, budget)
    decreases |sorted|
  {
    if sorted != [] {
      GreedyFitsBudget(Init(sorted), budget);
      var before := Greedy(Init(sorted), budget);
      assert Init(before.memories + [Last(sorted)]) == before.memories;
    }
  }

  lemma {:induction false} GreedyGrows(sorted: seq<MemoryRecord>, budget: int, n: nat)
    requires n <= |sorted|
    ensures Greedy(sorted[..n], budget).memories <= Greedy(sorted, budget).memories
    ensures Greedy(sorted[..n], budget).tokens <= Greedy(sorted, budget).tokens
    ensures forall i :: 0 <= i < |Greedy(sorted, budget).memories| ==> Greedy(sorted, budget).memories[i] in sorted
    decreases |sorted|
  {
    if n == |sorted| {
      assert sorted[..n] == sorted;
      if sorted != [] { GreedyGrows(Init(sorted), budget, n - 1); }
    } else {
      GreedyGrows(Init(sorted), budget, n);
      assert Init(sorted)[..n] == sorted[..n];
    }
  }

  lemma ClashesWithMore(m: MemoryRecord, a: seq<MemoryRecord>, b: seq<MemoryRecord>)
    requires a <= b && Clashes(m, a)
    ensures Clashes(m, b)
  {
    var x :| x in m.conflictsWith * Ids(a);
    var i :| 0 <= i < |a| && a[i].memoryId == x;
    assert b[i].memoryId == x;
    assert x in m.conflictsWith * Ids(b);
  }

  lemma FittingRecordIsTaken(sorted: seq<MemoryRecord>, budget: int, p: nat)
    requires p < |sorted|
    requires var before := Greedy(sorted[..p], budget);
             !Clashes(sorted[p], before.memories) && Fits(sorted[p], before.tokens, budget)
    ensures sorted[p] in Greedy(sorted, budget).memories
  {
    var before, next := Greedy(sorted[..p], budget), Greedy(sorted[..p + 1], budget);
    assert Init(sorted[..p + 1]) == sorted[..p];
    assert next.memories[|before.memories|] == sorted[p];
    GreedyGrows(sorted, budget, p + 1);
    assert Greedy(sorted, budget).memories[|before.memories|] == sorted[p];
  }

  /** No skipped record could be added to the final choice: it would overflow the budget or lists a
      chosen record. */
  lemma GreedyIsMaximal(sorted: seq<MemoryRecord>, budget: int, p: nat)
    requires p < |sorted| && sorted[p] !in Greedy(sorted, budget).memories
    ensures var g := Greedy(sorted, budget);
            Clashes(sorted[p], g.memories) || !Fits(sorted[p], g.tokens, budget)
  {
    var g, before := Greedy(sorted, budget), Greedy(sorted[..p], budget);
    GreedyGrows(sorted, budget, p);
    if Clashes(sorted[p], before.memories) {
      ClashesWithMore(sorted[p], before.memories, g.memories);
    } else if Fits(sorted[p], before.tokens, budget) {
      FittingRecordIsTaken(sorted, budget, p);
    }
  }

  // ----- Lexicographic optimality -----

  /** The records that `choice` takes out of `sorted`. */
  function Chosen(sorted: seq<MemoryRecord>, choice: seq<bool>): seq<MemoryRecord>
    requires |sorted| == |choice|
  {
    if sorted == [] then [] else Chosen(Init(sorted), Init(choice)) + (if Last(choice) then [Last(sorted)] else [])
  }

  /** A choice within the budget in which no record lists a record chosen before it. */
  ghost predicate Feasible(sorted: seq<MemoryRecord>, choice: seq<bool>, budget: int)
    requires |sorted| == |choice|
  {
    && TotalCost(Chosen(sorted, choice)) <= Max(0, budget)
    && forall p :: 0 <= p < |sorted| && choice[p] ==> !Clashes(sorted[p], Chosen(sorted[..p], choice[..p]))
  }

  function GreedyChoice(sorted: seq<MemoryRecord>, budget: int): (choice: seq<bool>)
    ensures |choice| == |sorted|
  {
    if sorted == [] then []
    else
      var before := Greedy(Init(sorted), budget);
      GreedyChoice(Init(sorted), budget)
      + [!Clashes(Last(sorted), before.memories) && Fits(Last(sorted), before.tokens, budget)]
  }

  lemma {:induction false} GreedyChoiceIsGreedy(sorted: seq<MemoryRecord>, budget: int)
    ensures Chosen(sorted, GreedyChoice(sorted, budget)) == Greedy(sorted, budget).memories
    decreases |sorted|
  {
    if sorted != [] {
      var before := GreedyChoice(Init(sorted), budget);
      GreedyChoiceIsGreedy(Init(sorted), budget);
      assert Init(GreedyChoice(sorted, budget)) == before;
      assert Greedy(Init(sorted), budget).memories + [] == Greedy(Init(sorted), budget).memories;
    }
  }

  lemma {:induction false} GreedyChoicePrefix(sorted: seq<MemoryRecord>, budget: int, n: nat)
    requires n <= |sorted|
    ensures GreedyChoice(sorted, budget)[..n] == GreedyChoice(sorted[..n], budget)
    decreases |sorted|
  {
    if n == |sorted| {
      assert sorted[..n] == sorted;
    } else {
      GreedyChoicePrefix(Init(sorted), budget, n);
      assert Init(sorted)[..n] == sorted[..n];
      assert GreedyChoice(sorted, budget)[..n] == GreedyChoice(Init(sorted), budget)[..n];
    }
  }

  lemma {:induction false} ChosenPrefixCost(sorted: seq<MemoryRecord>, choice: seq<bool>, n: nat)
    requires |sorted| == |choice| && n <= |sorted|
    ensures TotalCost(Chosen(sorted[..n], choice[..n])) <= TotalCost(Chosen(sorted, choice))
    decreases |sorted|
  {
    if n == |sorted| {
      assert sorted[..n] == sorted && choice[..n] == choice;
    } else {
      ChosenPrefixCost(Init(sorted), Init(choice), n);
      assert Init(sorted)[..n] == sorted[..n] && Init(choice)[..n] == choice[..n];
      var before := Chosen(Init(sorted), Init(choice));
      if Last(choice) { assert Init(before + [Last(sorted)]) == before; } else { assert before + [] == before; }
    }
  }

  lemma GreedyIsFeasible(sorted: seq<MemoryRecord>, budget: int)
    ensures Feasible(sorted, GreedyChoice(sorted, budget), budget)
  {
    var choice := GreedyChoice(sorted, budget);
    GreedyChoiceIsGreedy(sorted, budget);
    GreedyFitsBudget(sorted, budget);
    forall p | 0 <= p < |sorted| && choice[p]
      ensures !Clashes(sorted[p], Chosen(sorted[..p], choice[..p]))
    {
      GreedyChoicePrefix(sorted, budget, p);
      GreedyChoiceIsGreedy(sorted[..p], budget);
      GreedyChoiceAt(sorted, budget, p);
    }
  }

  lemma GreedyChoiceAt(sorted: seq<MemoryRecord>, budget: int, p: nat)
    requires p < |sorted|
    ensures var before := Greedy(sorted[..p], budget);
            GreedyChoice(sorted, budget)[p] <==>
                !Clashes(sorted[p], before.memories) && Fits(sorted[p], before.tokens, budget)
  {
    GreedyChoicePrefix(sorted, budget, p + 1);
    assert Init(sorted[..p + 1]) == sorted[..p];
    assert GreedyChoice(sorted, budget)[..p + 1][p] == GreedyChoice(sorted, budget)[p];
  }

  lemma ChosenStep(sorted: seq<MemoryRecord>, choice: seq<bool>, p: nat)
    requires |sorted| == |choice| && p < |sorted| && choice[p]
    ensures Chosen(sorted[..p + 1], choice[..p + 1]) == Chosen(sorted[..p], choice[..p]) + [sorted[p]]
    ensures TotalCost(Chosen(sorted[..p + 1], choice[..p + 1]))
            == TotalCost(Chosen(sorted[..p], choice[..p])) + Cost(sorted[p])
  {
    assert Init(sorted[..p + 1]) == sorted[..p] && Init(choice[..p + 1]) == choice[..p];
    assert Init(Chosen(sorted[..p], choice[..p]) + [sorted[p]]) == Chosen(sorted[..p], choice[..p]);
  }

  /** Where a feasible choice that agreed so far takes a record, the greedy choice takes it too. */
  lemma GreedyTakesWhatFits(sorted: seq<MemoryRecord>, budget: int, choice: seq<bool>, p: nat)
    requires |sorted| == |choice| && Feasible(sorted, choice, budget)
    requires p < |sorted| && choice[..p] == GreedyChoice(sorted, budget)[..p] && choice[p]
    ensures GreedyChoice(sorted, budget)[p]
  {
    GreedyChoicePrefix(sorted, budget, p);
    GreedyChoiceIsGreedy(sorted[..p], budget);
    GreedyFitsBudget(sorted[..p], budget);
    ChosenStep(sorted, choice, p);
    ChosenPrefixCost(sorted, choice, p + 1);
    GreedyChoiceAt(sorted, budget, p);
  }

  /** At the first record in sort order on which a feasible choice and the greedy one differ, the
      greedy one has the record. */
  lemma GreedyIsLexicographicallyFirst(sorted: seq<MemoryRecord>, budget: int, choice: seq<bool>, p: nat)
    requires |sorted| == |choice| && Feasible(sorted, choice, budget)
    requires p < |sorted| && choice[..p] == GreedyChoice(sorted, budget)[..p]
             && choice[p] != GreedyChoice(sorted, budget)[p]
    ensures GreedyChoice(sorted, budget)[p] && !choice[p]
  {
    if choice[p] { GreedyTakesWhatFits(sorted, budget, choice, p); }
  }

  // ----- Independence of the input order -----

  lemma {:induction false} CandidatesMembers(records: seq<MemoryRecord>, now: int, m: MemoryRecord)
    ensures multiset(Candidates(records, now))[m] == if Eligible(m, now) then multiset(records)[m] else 0
    decreases |records|
  {
    if records != [] {
      CandidatesMembers(records[1..], now, m);
      assert records == [records[0]] + records[1..];
    }
  }

  lemma {:induction false} CandidatesUnique(records: seq<MemoryRecord>, now: int)
    requires UniqueIds(records)
    ensures UniqueIds(Candidates(records, now))
    ensures forall i :: 0 <= i < |Candidates(records, now)| ==>
              Candidates(records, now)[i] in records && Eligible(Candidates(records, now)[i], now)
    decreases |records|
  {
    if records != [] { CandidatesUnique(records[1..], now); }
  }

  /** The selection is the same for every order in which the repository lists the records. */
  lemma SelectionIgnoresInputOrder(a: seq<MemoryRecord>, b: seq<MemoryRecord>, budget: int, now: int)
    requires UniqueIds(a) && UniqueIds(b) && multiset(a) == multiset(b)
    ensures Select(a, budget, now) == Select(b, budget, now)
  {
    var ca, cb := Candidates(a, now), Candidates(b, now);
    CandidatesUnique(a, now);
    CandidatesUnique(b, now);
    forall m ensures multiset(ca)[m] == multiset(cb)[m] {
      CandidatesMembers(a, now, m);
      CandidatesMembers(b, now, m);
    }
    assert multiset(ca) == multiset(cb);
    SortRecordsSorts(ca);
    SortRecordsSorts(cb);
    SortedIsUnique(SortRecords(ca), SortRecords(cb));
  }

  // ----- Conflicting memories -----

  /** No chosen memory lists another one. */
  ghost predicate ConflictFree(ms: seq<MemoryRecord>) {
    forall i, j :: 0 <= i < |ms| && 0 <= j < |ms| && i != j ==> ms[j].memoryId !in ms[i].conflictsWith
  }

  /** `a` comes first and lists `b`, but `b` does not list `a`. */
  ghost predicate OneSided(a: MemoryRecord, b: MemoryRecord) {
    Precedes(a, b) && b.memoryId in a.conflictsWith && a.memoryId !in b.conflictsWith
  }

  /** The pass looks back only: a chosen record never lists one that was chosen before it. */
  lemma {:induction false} GreedyNeverListsEarlier(sorted: seq<MemoryRecord>, budget: int, i: nat, j: nat)
    requires i < j < |Greedy(sorted, budget).memories|
    ensures var ms := Greedy(sorted, budget).memories; ms[i].memoryId !in ms[j].conflictsWith
    decreases |sorted|
  {
    var before, ms := Greedy(Init(sorted), budget), Greedy(sorted, budget).memories;
    if j < |before.memories| {
      GreedyNeverListsEarlier(Init(sorted), budget, i, j);
    } else {
      assert before.memories[i].memoryId in Ids(before.memories);
      assert ms[i].memoryId !in ms[j].conflictsWith * Ids(before.memories);
    }
  }

  lemma {:induction false} GreedyKeepsOrder(sorted: seq<MemoryRecord>, budget: int)
    requires Sorted(sorted)
    ensures Sorted(Greedy(sorted, budget).memories)
    ensures forall i :: 0 <= i < |Greedy(sorted, budget).memories| ==> Greedy(sorted, budget).memories[i] in sorted
    decreases |sorted|
  {
    if sorted != [] {
      GreedyKeepsOrder(Init(sorted), budget);
      assert forall m :: m in Init(sorted) ==> Precedes(m, Last(sorted));
    }
  }

  lemma SelectedAreCandidates(records: seq<MemoryRecord>, budget: int, now: int)
    requires UniqueIds(records)
    ensures var ms := Select(records, budget, now).memories;
            Sorted(ms) && forall i :: 0 <= i < |ms| ==> ms[i] in records && Eligible(ms[i], now)
  {
    var sorted := SortRecords(Candidates(records, now));
    CandidatesUnique(records, now);
    SortRecordsSorts(Candidates(records, now));
    GreedyKeepsOrder(sorted, budget);
    forall m | m in sorted
      ensures m in records && Eligible(m, now)
    {
      assert m in multiset(sorted);
      assert m in Candidates(records, now);
    }
  }

  ghost predicate NoOneSidedLink(records: seq<MemoryRecord>, now: int) {
    forall a, b :: a in records && b in records && Eligible(a, now) && Eligible(b, now) ==> !OneSided(a, b)
  }

  lemma SymmetricLinksSuffice(records: seq<MemoryRecord>, budget: int, now: int)
    requires UniqueIds(records) && NoOneSidedLink(records, now)
    ensures ConflictFree(Select(records, budget, now).memories)
  {
    var sorted := SortRecords(Candidates(records, now));
    var ms := Select(records, budget, now).memories;
    SelectedAreCandidates(records, budget, now);
    forall i, j | 0 <= i < |ms| && 0 <= j < |ms| && i != j
      ensures ms[j].memoryId !in ms[i].conflictsWith
    {
      if j < i {
        GreedyNeverListsEarlier(sorted, budget, j, i);
      } else {
        GreedyNeverListsEarlier(sorted, budget, i, j);
        assert !OneSided(ms[i], ms[j]);
      }
    }
  }

  lemma OneSidedPairIsChosen(a: MemoryRecord, b: MemoryRecord, now: int)
    requires Eligible(a, now) && Eligible(b, now) && OneSided(a, b) && a.memoryId != b.memoryId
    ensures UniqueIds([a, b])
    ensures Select([a, b], Cost(a) + Cost(b), now).memories == [a, b]
  {
    CandidatesOfPair(a, b, now);
    SortOfPair(a, b);
    var pair, budget := [a, b], Cost(a) + Cost(b);
    assert Init(pair) == [a] && Init([a]) == [];
    assert Ids([]) == {};
    assert Greedy([a], budget) == Selection([] + [a], 0 + Cost(a));
    assert Ids([a]) == {a.memoryId};
    assert [a] + [b] == pair;
  }

  lemma CandidatesOfPair(a: MemoryRecord, b: MemoryRecord, now: int)
    requires Eligible(a, now) && Eligible(b, now)
    ensures Candidates([a, b], now) == [a, b]
  {
    assert [a, b][1..] == [b] && [b][1..] == [];
    assert Candidates([b], now) == [b] + Candidates([], now);
    assert Candidates([a, b], now) == [a] + Candidates([b], now);
  }

  lemma SortOfPair(a: MemoryRecord, b: MemoryRecord)
    requires Precedes(a, b)
    ensures SortRecords([a, b]) == [a, b]
  {
    PrecedesIsAStrictOrder(a, b, a);
    assert [a, b][1..] == [b] && [b][1..] == [];
    assert SortRecords([b]) == Insert(b, SortRecords([])) == [b] + [];
    assert SortRecords([a, b]) == Insert(a, SortRecords([b])) == [a] + [b];
  }

  ghost predicate Among(sub: seq<MemoryRecord>, records: seq<MemoryRecord>) {
    UniqueIds(sub) && forall i :: 0 <= i < |sub| ==> sub[i] in records
  }

  /** Exactly when no eligible record lists a later eligible one that does not list it back, every
      selection from these records, for every budget, is free of conflicts. */
  lemma ConflictFreeIffNoOneSidedLink(records: seq<MemoryRecord>, now: int)
    requires UniqueIds(records)
    ensures (forall sub, budget :: Among(sub, records) ==> ConflictFree(Select(sub, budget, now).memories))
            <==> NoOneSidedLink(records, now)
  {
    if NoOneSidedLink(records, now) {
      forall sub, budget | Among(sub, records)
        ensures ConflictFree(Select(sub, budget, now).memories)
      {
        SymmetricLinksSuffice(sub, budget, now);
      }
    } else {
      var a, b :| a in records && b in records && Eligible(a, now) && Eligible(b, now) && OneSided(a, b);
      PrecedesIsAStrictOrder(a, b, a);
      OneSidedPairIsChosen(a, b, now);
      assert Among([a, b], records);
      var ms := Select([a, b], Cost(a) + Cost(b), now).memories;
      assert ms[1].memoryId in ms[0].conflictsWith;
    }
  }

  // ----- One list and one budget -----

  /** Record `p` is passed over in its turn: it lists a record chosen before it, or does not fit. */
  predicate Skipped(sorted: seq<MemoryRecord>, budget: int, p: nat)
    requires p < |sorted|
  {
    var before := Greedy(sorted[..p], budget);
    Clashes(sorted[p], before.memories) || !Fits(sorted[p], before.tokens, budget)
  }

  lemma {:induction false} ChosenIsNotSkipped(sorted: seq<MemoryRecord>, budget: int, p: nat)
    requires UniqueIds(sorted) && p < |sorted| && sorted[p] in Greedy(sorted, budget).memories
    ensures !Skipped(sorted, budget, p)
    decreases |sorted|
  {
    var rest := Init(sorted);
    GreedyGrows(rest, budget, |rest|);
    if p < |rest| {
      assert sorted[p].memoryId != Last(sorted).memoryId;
      ChosenIsNotSkipped(rest, budget, p);
      assert rest[..p] == sorted[..p];
    } else {
      assert sorted[..p] == rest;
    }
  }

  /** Wherever a record is one-sidedly linked to a later one, the pass leaves out one of the two. */
  ghost predicate LinksAreBroken(sorted: seq<MemoryRecord>, budget: int) {
    forall i, j :: 0 <= i < |sorted| && 0 <= j < |sorted| && OneSided(sorted[i], sorted[j]) ==>
      Skipped(sorted, budget, i) || Skipped(sorted, budget, j)
  }

  lemma ConflictBreaksNoLink(sorted: seq<MemoryRecord>, budget: int, x: nat, y: nat)
    requires UniqueIds(sorted) && Sorted(sorted) && x != y
    requires x < |Greedy(sorted, budget).memories| && y < |Greedy(sorted, budget).memories|
    requires Greedy(sorted, budget).memories[y].memoryId in Greedy(sorted, budget).memories[x].conflictsWith
    ensures !LinksAreBroken(sorted, budget)
  {
    var ms := Greedy(sorted, budget).memories;
    if y < x { GreedyNeverListsEarlier(sorted, budget, y, x); }
    GreedyNeverListsEarlier(sorted, budget, x, y);
    GreedyKeepsOrder(sorted, budget);
    var i :| 0 <= i < |sorted| && sorted[i] == ms[x];
    var j :| 0 <= j < |sorted| && sorted[j] == ms[y];
    ChosenIsNotSkipped(sorted, budget, i);
    ChosenIsNotSkipped(sorted, budget, j);
    assert OneSided(sorted[i], sorted[j]);
  }

  lemma UnbrokenLinkConflicts(sorted: seq<MemoryRecord>, budget: int, i: nat, j: nat)
    requires i < |sorted| && j < |sorted| && OneSided(sorted[i], sorted[j])
    requires !Skipped(sorted, budget, i) && !Skipped(sorted, budget, j)
    ensures !ConflictFree(Greedy(sorted, budget).memories)
  {
    var ms := Greedy(sorted, budget).memories;
    FittingRecordIsTaken(sorted, budget, i);
    FittingRecordIsTaken(sorted, budget, j);
    var x :| 0 <= x < |ms| && ms[x] == sorted[i];
    var y :| 0 <= y < |ms| && ms[y] == sorted[j];
    PrecedesIsAStrictOrder(sorted[i], sorted[j], sorted[i]);
    assert ms[y].memoryId in ms[x].conflictsWith;
  }

  lemma GreedyConflictFreeIff(sorted: seq<MemoryRecord>, budget: int)
    requires UniqueIds(sorted) && Sorted(sorted)
    ensures ConflictFree(Greedy(sorted, budget).memories) <==> LinksAreBroken(sorted, budget)
  {
    var ms := Greedy(sorted, budget).memories;
    if !ConflictFree(ms) {
      var x, y :| 0 <= x < |ms| && 0 <= y < |ms| && x != y && ms[y].memoryId in ms[x].conflictsWith;
      ConflictBreaksNoLink(sorted, budget, x, y);
    }
    if !LinksAreBroken(sorted, budget) {
      var i, j :| 0 <= i < |sorted| && 0 <= j < |sorted| && OneSided(sorted[i], sorted[j])
                  && !Skipped(sorted, budget, i) && !Skipped(sorted, budget, j);
      UnbrokenLinkConflicts(sorted, budget, i, j);
    }
  }

  lemma SortedAreUnique(a: seq<MemoryRecord>, b: seq<MemoryRecord>)
    requires Sorted(a) && UniqueIds(b) && multiset(a) == multiset(b)
    ensures UniqueIds(a)
  {
    forall i, j | 0 <= i < j < |a| ensures a[i].memoryId != a[j].memoryId {
      PrecedesIsAStrictOrder(a[i], a[j], a[i]);
      assert a[i] in multiset(b) && a[j] in multiset(b);
      assert a[i] in b && a[j] in b;
    }
  }

  /** For a given list and budget the selection is free of conflicts exactly if of each record and a
      later one that it lists one-sidedly, one is passed over: for the budget, or because of a third record. */
  lemma ConflictFreeIffLinksAreBroken(records: seq<MemoryRecord>, budget: int, now: int)
    requires UniqueIds(records)
    ensures ConflictFree(Select(records, budget, now).memories)
            <==> LinksAreBroken(SortRecords(Candidates(records, now)), budget)
  {
    var sorted := SortRecords(Candidates(records, now));
    CandidatesUnique(records, now);
    SortRecordsSorts(Candidates(records, now));
    SortedAreUnique(sorted, Candidates(records, now));
    GreedyConflictFreeIff(sorted, budget);
  }

  // ----- Which record wins -----

  /** The cost is the least number of tokens, at least one, of four characters each. */
  lemma CostMeaning(m: MemoryRecord)
    ensures Cost(m) >= 1 && |m.content| <= 4 * Cost(m)
    ensures forall c: nat :: c >= 1 && |m.content| <= 4 * c ==> Cost(m) <= c
  {
  }

  /** Only records that are verified, core, unrestricted and not expired are selected. */
  lemma SelectedAreEligible(records: seq<MemoryRecord>, budget: int, now: int)
    requires UniqueIds(records)
    ensures forall m :: m in Select(records, budget, now).memories ==>
              && m in records && m.status == Verified && m.tier == Core
              && (m.privacy == Public || m.privacy == Internal)
              && (m.expiresAt.Some? ==> now < m.expiresAt.value)
  {
    SelectedAreCandidates(records, budget, now);
  }

  lemma SkippedWithoutLinks(sorted: seq<MemoryRecord>, budget: int, p: nat)
    requires p < |sorted| && sorted[p] !in Greedy(sorted, budget).memories && sorted[p].conflictsWith == {}
    ensures !Fits(sorted[p], Greedy(sorted[..p], budget).tokens, budget)
  {
    var before := Greedy(sorted[..p], budget);
    if Fits(sorted[p], before.tokens, budget) {
      assert !Clashes(sorted[p], before.memories);
      FittingRecordIsTaken(sorted, budget, p);
    }
  }

  /** Of two records that cost the same, one that is taken does not come after one that does not fit. */
  lemma TakenComesFirst(sorted: seq<MemoryRecord>, budget: int, i: nat, j: nat)
    requires UniqueIds(sorted) && i < |sorted| && j < |sorted| && Cost(sorted[i]) <= Cost(sorted[j])
    requires sorted[j] in Greedy(sorted, budget).memories && sorted[i] !in Greedy(sorted, budget).memories
    requires sorted[i].conflictsWith == {}
    ensures j < i
  {
    SkippedWithoutLinks(sorted, budget, i);
    ChosenIsNotSkipped(sorted, budget, j);
    if i < j {
      assert sorted[..j][..i] == sorted[..i];
      GreedyGrows(sorted[..j], budget, i);
    }
  }

  /** `a` is more confident than `b` or, at equal confidence, was verified later, or then updated later, or then
      has the smaller id; a record that was never verified counts as verified before all others. */
  ghost predicate Preferred(a: MemoryRecord, b: MemoryRecord) {
    if a.confidence != b.confidence then a.confidence > b.confidence
    else if a.lastVerifiedAt != b.lastVerifiedAt then
      a.lastVerifiedAt.Some? && (b.lastVerifiedAt.Some? ==> a.lastVerifiedAt.value > b.lastVerifiedAt.value)
    else if a.updatedAt != b.updatedAt then a.updatedAt > b.updatedAt
    else a.memoryId < b.memoryId
  }

  /** If an eligible record that lists nothing is passed over while one that is at least as long is selected, the
      selected one has the higher confidence or, at equal confidence, the later verification, then the later
      update, then the smaller id. */
  lemma BetterRecordWins(records: seq<MemoryRecord>, budget: int, now: int, a: MemoryRecord, b: MemoryRecord)
    requires UniqueIds(records) && a in records && b in records
    requires b.conflictsWith == {} && |a.content| >= |b.content|
    requires b.status == Verified && b.tier == Core && b.privacy != Restricted
    requires b.expiresAt.Some? ==> now < b.expiresAt.value
    requires a in Select(records, budget, now).memories && b !in Select(records, budget, now).memories
    ensures Preferred(a, b)
  {
    var sorted := SortRecords(Candidates(records, now));
    CandidatesUnique(records, now);
    SortRecordsSorts(Candidates(records, now));
    SortedAreUnique(sorted, Candidates(records, now));
    GreedyKeepsOrder(sorted, budget);
    EligibleIsSorted(records, now, b);
    var i :| 0 <= i < |sorted| && sorted[i] == b;
    var j :| 0 <= j < |sorted| && sorted[j] == a;
    TakenComesFirst(sorted, budget, i, j);
    assert Precedes(sorted[j], sorted[i]);
  }

  lemma EligibleIsSorted(records: seq<MemoryRecord>, now: int, m: MemoryRecord)
    requires UniqueIds(records) && m in records && Eligible(m, now)
    ensures m in SortRecords(Candidates(records, now))
  {
    var candidates := Candidates(records, now);
    CandidatesUnique(records, now);
    SortRecordsSorts(candidates);
    CandidatesMembers(records, now, m);
    assert m in multiset(records);
    assert m in multiset(candidates);
    assert m in multiset(SortRecords(candidates));
  }
}

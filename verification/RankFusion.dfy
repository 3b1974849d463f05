/** Reciprocal rank fusion of two hit lists (`rrf` in src/memory/search-provider.ts). */
module RankFusion {
  import opened Prelude
  import opened MemoryRecords

  datatype Hit = Hit(memory: MemoryRecord, provider: string, score: real) {
    function Id(): nat {
      memory.memoryId
    }
  }

  function Ids(hits: seq<Hit>): (r: seq<nat>)
    ensures |r| == |hits| && forall i :: 0 <= i < |hits| ==> r[i] == hits[i].Id()
  {
    seq(|hits|, i requires 0 <= i < |hits| => hits[i].Id())
  }

  // ----- Scores -----

  function Weight(index: nat): real {
    1.0 / (61 + index) as real
  }

  /** What one list of ids contributes to an id: one weight for every occurrence. */
  function ListScore(list: seq<nat>, id: nat): real {
    if list == [] then 0.0
    else ListScore(Init(list), id) + (if Last(list) == id then Weight(|list| - 1) else 0.0)
  }

  function FusedScore(first: seq<nat>, second: seq<nat>, id: nat): real {
    ListScore(first, id) + ListScore(second, id)
  }

  // ----- The order of the result -----

  /** Where `id` stands in `order`; its length if it is absent. */
  function Position(order: seq<nat>, id: nat): (p: nat)
    ensures p <= |order| && (p < |order| <==> id in order) && (p < |order| ==> order[p] == id)
  {
    if order == [] then 0 else if order[0] == id then 0 else Position(order[1..], id) + 1
  }

  lemma {:induction false} PositionOf(order: seq<nat>, i: nat)
    requires Distinct(order) && i < |order|
    ensures Position(order, order[i]) == i
    decreases |order|
  {
    if i > 0 {
      PositionOf(order[1..], i - 1);
      assert order[0] != order[i];
    }
  }

  /** Higher scores come first; of equal scores the id that was seen first. */
  predicate Before(first: seq<nat>, second: seq<nat>, a: nat, b: nat) {
    var x, y := FusedScore(first, second, a), FusedScore(first, second, b);
    var seen := FirstOccurrences(first + second);
    x > y || (x == y && Position(seen, a) < Position(seen, b))
  }

  /** `sort((a, b) => b.score - a.score)`, which is stable. */
  function SortByScore(hits: seq<Hit>): seq<Hit> {
    if hits == [] then [] else InsertByScore(hits[0], SortByScore(hits[1..]))
  }

  function InsertByScore(h: Hit, sorted: seq<Hit>): seq<Hit> {
    if sorted != [] && sorted[0].score > h.score then [sorted[0]] + InsertByScore(h, sorted[1..]) else [h] + sorted
  }

  lemma {:induction false} InsertByScoreMembers(h: Hit, sorted: seq<Hit>)
    ensures multiset(InsertByScore(h, sorted)) == multiset{h} + multiset(sorted)
    decreases |sorted|
  {
    if sorted != [] && sorted[0].score > h.score {
      InsertByScoreMembers(h, sorted[1..]);
      assert sorted == [sorted[0]] + sorted[1..];
    }
  }

  lemma {:induction false} SortByScoreMembers(hits: seq<Hit>)
    ensures multiset(SortByScore(hits)) == multiset(hits)
    decreases |hits|
  {
    if hits != [] {
      SortByScoreMembers(hits[1..]);
      InsertByScoreMembers(hits[0], SortByScore(hits[1..]));
      assert hits == [hits[0]] + hits[1..];
    }
  }

  /** `a` is ahead of `b`, where `seen` lists the ids in their original order. */
  predicate Ahead(seen: seq<nat>, a: Hit, b: Hit) {
    a.score > b.score || (a.score == b.score && Position(seen, a.Id()) < Position(seen, b.Id()))
  }

  ghost predicate Ordered(seen: seq<nat>, hits: seq<Hit>) {
    forall i, j :: 0 <= i < j < |hits| ==> Ahead(seen, hits[i], hits[j])
  }

  lemma HeadStaysAhead(seen: seq<nat>, h: Hit, head: Hit, rest: seq<Hit>)
    requires head.score > h.score && forall i :: 0 <= i < |rest| ==> Ahead(seen, head, rest[i])
    ensures forall j :: 0 <= j < |InsertByScore(h, rest)| ==> Ahead(seen, head, InsertByScore(h, rest)[j])
  {
    var all := InsertByScore(h, rest);
    InsertByScoreMembers(h, rest);
    forall j | 0 <= j < |all| ensures Ahead(seen, head, all[j]) {
      assert all[j] in multiset(all);
      if all[j] != h { assert all[j] in rest; }
    }
  }

  lemma NewHeadIsAhead(seen: seq<nat>, h: Hit, sorted: seq<Hit>)
    requires Ordered(seen, sorted) && sorted != [] && sorted[0].score <= h.score
    requires forall i :: 0 <= i < |sorted| ==> Position(seen, h.Id()) < Position(seen, sorted[i].Id())
    ensures forall j :: 0 <= j < |sorted| ==> Ahead(seen, h, sorted[j])
  {
    forall j | 0 <= j < |sorted| ensures Ahead(seen, h, sorted[j]) {
      assert j > 0 ==> Ahead(seen, sorted[0], sorted[j]);
    }
  }

  lemma OrderedCons(seen: seq<nat>, h: Hit, rest: seq<Hit>)
    requires Ordered(seen, rest) && forall j :: 0 <= j < |rest| ==> Ahead(seen, h, rest[j])
    ensures Ordered(seen, [h] + rest)
  {
  }

  lemma {:induction false} InsertKeepsOrder(seen: seq<nat>, h: Hit, sorted: seq<Hit>)
    requires Ordered(seen, sorted)
    requires forall i :: 0 <= i < |sorted| ==> Position(seen, h.Id()) < Position(seen, sorted[i].Id())
    ensures Ordered(seen, InsertByScore(h, sorted))
    decreases |sorted|
  {
    if sorted == [] {
    } else if sorted[0].score > h.score {
      InsertKeepsOrder(seen, h, sorted[1..]);
      HeadStaysAhead(seen, h, sorted[0], sorted[1..]);
      OrderedCons(seen, sorted[0], InsertByScore(h, sorted[1..]));
    } else {
      NewHeadIsAhead(seen, h, sorted);
      OrderedCons(seen, h, sorted);
    }
  }

  lemma {:induction false} SortOrders(seen: seq<nat>, hits: seq<Hit>)
    requires forall i, j :: 0 <= i < j < |hits| ==> Position(seen, hits[i].Id()) < Position(seen, hits[j].Id())
    ensures Ordered(seen, SortByScore(hits))
    decreases |hits|
  {
    if hits != [] {
      var rest := SortByScore(hits[1..]);
      SortOrders(seen, hits[1..]);
      SortByScoreMembers(hits[1..]);
      forall i | 0 <= i < |rest| ensures Position(seen, hits[0].Id()) < Position(seen, rest[i].Id()) {
        assert rest[i] in multiset(rest);
        assert rest[i] in hits[1..];
      }
      InsertKeepsOrder(seen, hits[0], rest);
    }
  }

  // ----- Fusion -----

  /** `entries` are those of the map after the lists `first` and `second`. */
  ghost predicate Fused(entries: seq<Hit>, first: seq<nat>, second: seq<nat>) {
    && Ids(entries) == FirstOccurrences(first + second)
    && forall i :: 0 <= i < |entries| ==> entries[i].score == FusedScore(first, second, entries[i].Id())
  }

  /** Memory and provider of an entry: those of the hits for its id, the providers joined. */
  datatype Label = Label(memory: MemoryRecord, provider: string)

  function LabelOf(hits: seq<Hit>, id: nat): Option<Label> {
    if hits == [] then None
    else
      var before, h := LabelOf(Init(hits), id), Last(hits);
      if h.Id() != id then before
      else Some(Label(h.memory, if before.Some? then before.value.provider + "+" + h.provider else h.provider))
  }

  /** The latest record of every id, and the providers in the order of their hits. */
  ghost predicate Labelled(entries: seq<Hit>, hits: seq<Hit>) {
    forall i :: 0 <= i < |entries| ==>
      LabelOf(hits, entries[i].Id()) == Some(Label(entries[i].memory, entries[i].provider))
  }

  /** `r` is `entries` after a hit for `id` that weighs `w`. */
  ghost predicate Added(entries: seq<Hit>, r: seq<Hit>, id: nat, w: real) {
    && Ids(r) == (if id in Ids(entries) then Ids(entries) else Ids(entries) + [id])
    && (forall i :: 0 <= i < |entries| ==> r[i].score == entries[i].score + (if entries[i].Id() == id then w else 0.0))
    && (|r| > |entries| ==> r[|entries|].score == w)
  }

  function JoinedProvider(entry: Hit, hit: Hit): string {
    if entry.Id() == hit.Id() then entry.provider + "+" + hit.provider else entry.provider
  }

  ghost predicate Relabelled(entries: seq<Hit>, r: seq<Hit>, hit: Hit) {
    && |r| >= |entries|
    && (forall i :: 0 <= i < |entries| ==>
          && r[i].memory == (if entries[i].Id() == hit.Id() then hit.memory else entries[i].memory)
          && r[i].provider == JoinedProvider(entries[i], hit))
    && (forall i :: |entries| <= i < |r| ==> r[i].memory == hit.memory && r[i].provider == hit.provider)
  }

  /** Index of the entry with this id, or the number of entries. */
  method Find(entries: seq<Hit>, id: nat) returns (p: nat)
    ensures p <= |entries| && (p < |entries| ==> entries[p].Id() == id)
    ensures forall i :: 0 <= i < p ==> entries[i].Id() != id
    ensures p == |entries| <==> id !in Ids(entries)
  {
    p := 0;
    while p < |entries| && entries[p].Id() != id
      invariant p <= |entries|
      invariant forall i :: 0 <= i < p ==> entries[i].Id() != id
    {
      p := p + 1;
    }
    assert p < |entries| ==> Ids(entries)[p] == id;
  }

  /** `map.set(id, ...)` for one hit at `index` of its list. */
  method Add(entries: seq<Hit>, hit: Hit, index: nat) returns (r: seq<Hit>)
    requires Distinct(Ids(entries))
    ensures Added(entries, r, hit.Id(), Weight(index)) && Relabelled(entries, r, hit)
  {
    var p := Find(entries, hit.Id());
    if p < |entries| {
      var current := entries[p];
      r := entries[p := Hit(hit.memory, current.provider + "+" + hit.provider, current.score + Weight(index))];
      assert forall i :: 0 <= i < |entries| && i != p ==> Ids(entries)[i] != Ids(entries)[p];
    } else {
      r := entries + [Hit(hit.memory, hit.provider, 0.0 + Weight(index))];
    }
  }

  lemma {:induction false} AbsentScoresZero(list: seq<nat>, id: nat)
    requires id !in list
    ensures ListScore(list, id) == 0.0
    decreases |list|
  {
    if list != [] { AbsentScoresZero(Init(list), id); }
  }

  lemma ScoreGrows(list: seq<nat>, id: nat, k: nat)
    ensures ListScore(list + [id], k) == ListScore(list, k) + (if k == id then Weight(|list|) else 0.0)
  {
    assert Init(list + [id]) == list;
  }

  lemma KeysGrow(seen: seq<nat>, id: nat)
    ensures FirstOccurrences(seen + [id])
            == if id in seen then FirstOccurrences(seen) else FirstOccurrences(seen) + [id]
  {
    assert Init(seen + [id]) == seen;
    FirstOccurrencesAreDistinct(seen);
  }

  lemma AddedKeys(entries: seq<Hit>, r: seq<Hit>, id: nat, w: real, seen: seq<nat>)
    requires Added(entries, r, id, w) && Ids(entries) == FirstOccurrences(seen)
    ensures Ids(r) == FirstOccurrences(seen + [id])
  {
    KeysGrow(seen, id);
    FirstOccurrencesAreDistinct(seen);
  }

  lemma AddedScores(entries: seq<Hit>, r: seq<Hit>, id: nat, w: real, before: nat -> real, after: nat -> real)
    requires Added(entries, r, id, w)
    requires forall i :: 0 <= i < |entries| ==> entries[i].score == before(entries[i].Id())
    requires id !in Ids(entries) ==> before(id) == 0.0
    requires forall k :: after(k) == before(k) + (if k == id then w else 0.0)
    ensures forall i :: 0 <= i < |r| ==> r[i].score == after(r[i].Id())
  {
    assert forall i :: 0 <= i < |entries| ==> r[i].Id() == Ids(r)[i] == Ids(entries)[i] == entries[i].Id();
    assert |r| > |entries| ==> r[|entries|].Id() == Ids(r)[|entries|] == id;
  }

  lemma AbsentFromBoth(first: seq<nat>, second: seq<nat>, id: nat)
    requires id !in FirstOccurrences(first + second)
    ensures FusedScore(first, second, id) == 0.0
  {
    FirstOccurrencesAreDistinct(first + second);
    AbsentScoresZero(first, id);
    AbsentScoresZero(second, id);
  }

  lemma AddToLists(entries: seq<Hit>, r: seq<Hit>, first: seq<nat>, done: seq<nat>, id: nat)
    requires Fused(entries, first, done) && Added(entries, r, id, Weight(|done|))
    ensures Fused(r, first, done + [id])
  {
    assert first + (done + [id]) == (first + done) + [id];
    AddedKeys(entries, r, id, Weight(|done|), first + done);
    AddedToScores(entries, r, first, done, id);
  }

  lemma AddedToScores(entries: seq<Hit>, r: seq<Hit>, first: seq<nat>, done: seq<nat>, id: nat)
    requires Fused(entries, first, done) && Added(entries, r, id, Weight(|done|))
    ensures forall i :: 0 <= i < |r| ==> r[i].score == FusedScore(first, done + [id], r[i].Id())
  {
    var before := (k: nat) => FusedScore(first, done, k);
    var after := (k: nat) => FusedScore(first, done + [id], k);
    forall k: nat ensures after(k) == before(k) + (if k == id then Weight(|done|) else 0.0) { ScoreGrows(done, id, k); }
    if id !in Ids(entries) { AbsentFromBoth(first, done, id); }
    AddedScores(entries, r, id, Weight(|done|), before, after);
  }

  lemma {:induction false} AbsentHasNoLabel(hits: seq<Hit>, id: nat)
    requires id !in Ids(hits)
    ensures LabelOf(hits, id) == None
    decreases |hits|
  {
    if hits != [] {
      assert Ids(hits)[|hits| - 1] == Last(hits).Id();
      assert forall i :: 0 <= i < |hits| - 1 ==> Ids(Init(hits))[i] == Ids(hits)[i];
      AbsentHasNoLabel(Init(hits), id);
    }
  }

  lemma AddedLabels(entries: seq<Hit>, r: seq<Hit>, hits: seq<Hit>, hit: Hit, w: real)
    requires Labelled(entries, hits) && Relabelled(entries, r, hit) && Added(entries, r, hit.Id(), w)
    requires Ids(entries) == FirstOccurrences(Ids(hits))
    ensures Labelled(r, hits + [hit])
  {
    assert Init(hits + [hit]) == hits;
    FirstOccurrencesAreDistinct(Ids(hits));
    forall i | 0 <= i < |r|
      ensures LabelOf(hits + [hit], r[i].Id()) == Some(Label(r[i].memory, r[i].provider))
    {
      assert r[i].Id() == Ids(r)[i];
      if i < |entries| {
        assert Ids(r)[i] == Ids(entries)[i] == entries[i].Id();
      } else {
        assert hit.Id() !in Ids(entries);
        AbsentHasNoLabel(hits, hit.Id());
      }
    }
  }

  lemma FusedKeysDistinct(entries: seq<Hit>, first: seq<nat>, second: seq<nat>)
    requires Fused(entries, first, second)
    ensures Distinct(Ids(entries))
  {
    FirstOccurrencesAreDistinct(first + second);
  }

  lemma IdsConcat(a: seq<Hit>, b: seq<Hit>)
    ensures Ids(a + b) == Ids(a) + Ids(b)
  {
  }

  lemma NextScores(entries: seq<Hit>, r: seq<Hit>, earlier: seq<Hit>, done: seq<Hit>, hit: Hit)
    requires Fused(entries, Ids(earlier), Ids(done)) && Added(entries, r, hit.Id(), Weight(|done|))
    ensures Fused(r, Ids(earlier), Ids(done + [hit]))
  {
    AddToLists(entries, r, Ids(earlier), Ids(done), hit.Id());
    assert Ids(done + [hit]) == Ids(done) + [hit.Id()];
  }

  lemma NextLabels(entries: seq<Hit>, r: seq<Hit>, earlier: seq<Hit>, done: seq<Hit>, hit: Hit, w: real)
    requires Ids(entries) == FirstOccurrences(Ids(earlier) + Ids(done)) && Labelled(entries, earlier + done)
    requires Added(entries, r, hit.Id(), w) && Relabelled(entries, r, hit)
    ensures Labelled(r, earlier + (done + [hit]))
  {
    IdsConcat(earlier, done);
    AddedLabels(entries, r, earlier + done, hit, w);
    assert earlier + (done + [hit]) == earlier + done + [hit];
  }

  method AddNext(before: seq<Hit>, ghost earlier: seq<Hit>, ghost done: seq<Hit>, hit: Hit, index: nat)
      returns (entries: seq<Hit>)
    requires Fused(before, Ids(earlier), Ids(done)) && Labelled(before, earlier + done) && index == |done|
    ensures Fused(entries, Ids(earlier), Ids(done + [hit])) && Labelled(entries, earlier + (done + [hit]))
  {
    FusedKeysDistinct(before, Ids(earlier), Ids(done));
    entries := Add(before, hit, index);
    NextScores(before, entries, earlier, done, hit);
    NextLabels(before, entries, earlier, done, hit, Weight(index));
  }

  /** One list after the hits `earlier`. */
  method AddList(before: seq<Hit>, ghost earlier: seq<Hit>, list: seq<Hit>) returns (entries: seq<Hit>)
    requires Fused(before, Ids(earlier), []) && Labelled(before, earlier)
    ensures Fused(entries, Ids(earlier), Ids(list)) && Labelled(entries, earlier + list)
  {
    entries := before;
    ghost var done: seq<Hit> := [];
    assert earlier + done == earlier;
    for index := 0 to |list|
      invariant done == list[..index]
      invariant Fused(entries, Ids(earlier), Ids(done)) && Labelled(entries, earlier + done)
    {
      entries := AddNext(entries, earlier, done, list[index], index);
      done := done + [list[index]];
    }
    assert list[..|list|] == list;
  }

  lemma FirstListDone(entries: seq<Hit>, ids: seq<nat>)
    requires Fused(entries, [], ids)
    ensures Fused(entries, ids, [])
  {
    assert [] + ids == ids == ids + [];
    assert forall id :: FusedScore([], ids, id) == FusedScore(ids, [], id);
  }

  method Fuse(first: seq<Hit>, second: seq<Hit>) returns (entries: seq<Hit>)
    ensures Fused(entries, Ids(first), Ids(second)) && Labelled(entries, first + second)
  {
    entries := AddList([], [], first);
    FirstListDone(entries, Ids(first));
    assert [] + first == first;
    entries := AddList(entries, first, second);
  }

  lemma PrefixHas(hits: seq<Hit>, end: nat, j: nat)
    requires end <= |hits| && j < |hits|
    ensures j < end ==> hits[j].Id() in Ids(hits[..end])
  {
    if j < end { assert Ids(hits[..end])[j] == hits[j].Id(); }
  }

  /** The end index of `slice(0, limit)`: a negative limit counts from the end. */
  function SliceEnd(length: nat, limit: int): (end: nat)
    ensures end <= length
    ensures limit >= 0 ==> end <= limit && (end == limit || end == length)
    ensures limit < 0 ==> (end == 0 && length <= -limit) || length - end == -limit
  {
    if limit < 0 then Max(0, length + limit) else Min(limit, length)
  }

  lemma SortedEntries(entries: seq<Hit>, first: seq<nat>, second: seq<nat>)
    requires Fused(entries, first, second)
    ensures multiset(SortByScore(entries)) == multiset(entries) && |SortByScore(entries)| == |entries|
    ensures Ordered(FirstOccurrences(first + second), SortByScore(entries))
    ensures forall i :: 0 <= i < |entries| ==> SortByScore(entries)[i] in entries
  {
    var seen, sorted := FirstOccurrences(first + second), SortByScore(entries);
    FirstOccurrencesAreDistinct(first + second);
    forall i | 0 <= i < |entries| ensures Position(seen, entries[i].Id()) == i {
      assert entries[i].Id() == Ids(entries)[i] == seen[i];
      PositionOf(seen, i);
    }
    SortOrders(seen, entries);
    SortByScoreMembers(entries);
    assert |multiset(sorted)| == |sorted| && |multiset(entries)| == |entries|;
    forall i | 0 <= i < |entries| ensures sorted[i] in entries { assert sorted[i] in multiset(sorted); }
  }

  lemma OrderMeansBefore(entries: seq<Hit>, first: seq<nat>, second: seq<nat>, i: nat, j: nat)
    requires Fused(entries, first, second) && i < j < |entries|
    ensures |SortByScore(entries)| == |entries|
    ensures Before(first, second, SortByScore(entries)[i].Id(), SortByScore(entries)[j].Id())
  {
    SortedEntries(entries, first, second);
    assert Ahead(FirstOccurrences(first + second), SortByScore(entries)[i], SortByScore(entries)[j]);
  }

  lemma EveryIdIsSorted(entries: seq<Hit>, first: seq<nat>, second: seq<nat>, id: nat) returns (j: nat)
    requires Fused(entries, first, second) && (id in first || id in second)
    ensures j < |SortByScore(entries)| && SortByScore(entries)[j].Id() == id
  {
    FirstOccurrencesAreDistinct(first + second);
    SortByScoreMembers(entries);
    assert id in Ids(entries);
    var k :| 0 <= k < |Ids(entries)| && Ids(entries)[k] == id;
    assert entries[k] in multiset(SortByScore(entries));
    j :| 0 <= j < |SortByScore(entries)| && SortByScore(entries)[j] == entries[k];
  }

  /** The result is the top of the union in strictly decreasing rank, cut at the limit; every hit
      carries the sum of its weights, its latest record and the names of its providers. */
  method Rrf(first: seq<Hit>, second: seq<Hit>, limit: int) returns (r: seq<Hit>)
    ensures |r| == SliceEnd(|FirstOccurrences(Ids(first) + Ids(second))|, limit)
    ensures forall i :: 0 <= i < |r| ==> (r[i].Id() in Ids(first) || r[i].Id() in Ids(second))
    ensures forall i :: 0 <= i < |r| ==> r[i].score == FusedScore(Ids(first), Ids(second), r[i].Id())
    ensures Labelled(r, first + second)
    ensures forall i, j :: 0 <= i < j < |r| ==> Before(Ids(first), Ids(second), r[i].Id(), r[j].Id())
    ensures forall i, id :: 0 <= i < |r| && (id in Ids(first) || id in Ids(second)) && id !in Ids(r) ==>
              Before(Ids(first), Ids(second), r[i].Id(), id)
  {
    var entries := Fuse(first, second);
    var sorted := SortByScore(entries);
    ghost var a, b := Ids(first), Ids(second);
    SortedEntries(entries, a, b);
    FirstOccurrencesAreDistinct(a + b);
    r := sorted[..SliceEnd(|sorted|, limit)];
    forall i | 0 <= i < |r| ensures (r[i].Id() in a || r[i].Id() in b) && r[i].score == FusedScore(a, b, r[i].Id()) {
      EntryIsFused(entries, a, b, sorted[i]);
    }
    forall i, j | 0 <= i < j < |r| ensures Before(a, b, r[i].Id(), r[j].Id()) {
      OrderMeansBefore(entries, a, b, i, j);
    }
    forall i, id | 0 <= i < |r| && (id in a || id in b) && id !in Ids(r) ensures Before(a, b, r[i].Id(), id) {
      LeftOutComesAfter(entries, a, b, |r|, i, id);
    }
  }

  lemma EntryIsFused(entries: seq<Hit>, first: seq<nat>, second: seq<nat>, h: Hit)
    requires Fused(entries, first, second) && h in entries
    ensures (h.Id() in first || h.Id() in second) && h.score == FusedScore(first, second, h.Id())
  {
    FirstOccurrencesAreDistinct(first + second);
    var k :| 0 <= k < |entries| && entries[k] == h;
    assert Ids(entries)[k] in first + second;
  }

  lemma LeftOutComesAfter(entries: seq<Hit>, first: seq<nat>, second: seq<nat>, end: nat, i: nat, id: nat)
    requires Fused(entries, first, second) && (id in first || id in second)
    requires i < end <= |SortByScore(entries)| && id !in Ids(SortByScore(entries)[..end])
    ensures Before(first, second, SortByScore(entries)[i].Id(), id)
  {
    var sorted := SortByScore(entries);
    SortedEntries(entries, first, second);
    var j := EveryIdIsSorted(entries, first, second, id);
    PrefixHas(sorted, end, j);
    OrderMeansBefore(entries, first, second, i, j);
  }

  // ----- Labels -----

  predicate HasId(h: Hit, id: nat) {
    h.memory.memoryId == id
  }

  function HitsOf(hits: seq<Hit>, id: nat): seq<Hit> {
    Filter(hits, (h: Hit) => HasId(h, id))
  }

  function ProviderOf(h: Hit): string {
    h.provider
  }

  lemma JoinedMore(text: string, parts: seq<string>, part: string, sep: string)
    requires parts != [] && IsJoined(text, parts, sep)
    ensures IsJoined(text + sep + part, parts + [part], sep)
  {
    assert Map(parts + [part], FollowedBy(sep)) == Map(parts, FollowedBy(sep)) + [part + sep];
    ConcatAppend(Map(parts, FollowedBy(sep)), [part + sep]);
    ConcatOne(part + sep);
    assert text + sep + part + sep == (text + sep) + (part + sep);
  }

  lemma JoinedOne(part: string, sep: string)
    ensures IsJoined(part, [part], sep)
  {
    assert Map([part], FollowedBy(sep)) == [part + sep];
    ConcatOne(part + sep);
  }

  lemma HitsOfLast(before: seq<Hit>, h: Hit, id: nat)
    ensures HitsOf(before + [h], id) == if HasId(h, id) then HitsOf(before, id) + [h] else HitsOf(before, id)
  {
    FilterConcat(before, [h], (x: Hit) => HasId(x, id));
  }

  ghost predicate IsLabel(named: Option<Label>, hits: seq<Hit>) {
    if hits == [] then named.None?
    else
      && named.Some? && named.value.memory == Last(hits).memory
      && IsJoined(named.value.provider, Map(hits, ProviderOf), "+")
  }

  lemma NextLabel(named: Option<Label>, hits: seq<Hit>, h: Hit)
    requires IsLabel(named, hits)
    ensures IsLabel(Some(Label(h.memory, if named.Some? then named.value.provider + "+" + h.provider else h.provider)),
                    hits + [h])
  {
    assert Map(hits + [h], ProviderOf) == Map(hits, ProviderOf) + [h.provider];
    if hits != [] {
      JoinedMore(named.value.provider, Map(hits, ProviderOf), h.provider, "+");
    } else {
      assert Map(hits, ProviderOf) + [h.provider] == [h.provider];
      JoinedOne(h.provider, "+");
    }
  }

  /** The label of an id holds the record of its last hit and the names of the providers of all its hits, in order
      and with `+` between them. */
  lemma {:induction false} LabelContents(hits: seq<Hit>, id: nat)
    ensures IsLabel(LabelOf(hits, id), HitsOf(hits, id))
    decreases |hits|
  {
    if hits != [] {
      var before, h := Init(hits), Last(hits);
      LabelContents(before, id);
      assert hits == before + [h];
      HitsOfLast(before, h, id);
      if HasId(h, id) { NextLabel(LabelOf(before, id), HitsOf(before, id), h); }
    }
  }

  // ----- Ranks -----

  lemma {:induction false} ScoreOfRank(list: seq<nat>, id: nat)
    requires Distinct(list)
    ensures ListScore(list, id) == if id in list then Weight(Position(list, id)) else 0.0
    decreases |list|
  {
    if id !in list {
      AbsentScoresZero(list, id);
    } else if Last(list) == id {
      PositionOf(list, |list| - 1);
      AbsentScoresZero(Init(list), id);
    } else {
      ScoreOfRank(Init(list), id);
      assert list == Init(list) + [Last(list)];
      var i := Position(Init(list), id);
      PositionOf(list, i);
      PositionOf(Init(list), i);
    }
  }

  /** For lists without duplicates a score is the sum of 1/(61 + rank) over the lists that hold it. */
  lemma FusedScoreOfRanks(first: seq<nat>, second: seq<nat>, id: nat)
    requires Distinct(first) && Distinct(second)
    ensures FusedScore(first, second, id) ==
            (if id in first then 1.0 / (61 + Position(first, id)) as real else 0.0)
            + (if id in second then 1.0 / (61 + Position(second, id)) as real else 0.0)
  {
    ScoreOfRank(first, id);
    ScoreOfRank(second, id);
  }

  predicate NoWorse(list: seq<nat>, a: nat, b: nat) {
    b in list ==> a in list && Position(list, a) <= Position(list, b)
  }

  predicate Better(list: seq<nat>, a: nat, b: nat) {
    a in list && (b in list ==> Position(list, a) < Position(list, b))
  }

  lemma WeightsDecrease(i: nat, j: nat)
    requires i < j
    ensures Weight(i) > Weight(j) > 0.0
  {
    var x, y := (61 + i) as real, (61 + j) as real;
    assert x * (1.0 / x) == 1.0 && y * (1.0 / y) == 1.0;
    Reciprocals(x, y, 1.0 / x, 1.0 / y);
  }

  lemma Reciprocals(x: real, y: real, p: real, q: real)
    requires 0.0 < x < y && x * p == 1.0 && y * q == 1.0
    ensures p > q > 0.0
  {
  }

  lemma RankDecides(list: seq<nat>, a: nat, b: nat)
    requires Distinct(list) && NoWorse(list, a, b)
    ensures ListScore(list, a) >= ListScore(list, b)
    ensures Better(list, a, b) ==> ListScore(list, a) > ListScore(list, b)
  {
    ScoreOfRank(list, a);
    ScoreOfRank(list, b);
    var i, j := Position(list, a), Position(list, b);
    if i < j { WeightsDecrease(i, j); }
    WeightsDecrease(i, i + 1);
  }

  /** An id ranked no worse in both lists and better in one scores strictly higher. */
  lemma BetterRanksScoreHigher(first: seq<nat>, second: seq<nat>, a: nat, b: nat)
    requires Distinct(first) && Distinct(second)
    requires NoWorse(first, a, b) && NoWorse(second, a, b) && (Better(first, a, b) || Better(second, a, b))
    ensures FusedScore(first, second, a) > FusedScore(first, second, b)
  {
    RankDecides(first, a, b);
    RankDecides(second, a, b);
  }

  // ----- Found twice or found once -----

  ghost predicate Lists(first: seq<nat>, second: seq<nat>, n: nat) {
    Distinct(first) && Distinct(second) && |first| <= n && |second| <= n
  }

  predicate InBoth(first: seq<nat>, second: seq<nat>, a: nat) {
    a in first && a in second
  }

  predicate InOne(first: seq<nat>, second: seq<nat>, b: nat) {
    (b in first) != (b in second)
  }

  lemma TwiceBeatsOnce(first: seq<nat>, second: seq<nat>, a: nat, b: nat)
    requires Lists(first, second, 61) && InBoth(first, second, a) && InOne(first, second, b)
    ensures FusedScore(first, second, a) > FusedScore(first, second, b)
  {
    ScoreOfRank(first, a);
    ScoreOfRank(second, a);
    ScoreOfRank(first, b);
    ScoreOfRank(second, b);
    LowestWeight(Position(first, a));
    LowestWeight(Position(second, a));
    if b in first { HighestWeight(Position(first, b)); } else { HighestWeight(Position(second, b)); }
  }

  lemma LowestWeight(i: nat)
    requires i < 61
    ensures Weight(i) >= 1.0 / 121.0
  {
    if i < 60 { WeightsDecrease(i, 60); }
  }

  lemma HighestWeight(i: nat)
    ensures Weight(i) <= 1.0 / 61.0
  {
    if i > 0 { WeightsDecrease(0, i); }
  }

  ghost predicate TwiceAlwaysBeatsOnce(n: nat) {
    forall first, second, a, b | Lists(first, second, n) && InBoth(first, second, a) && InOne(first, second, b) ::
      FusedScore(first, second, a) > FusedScore(first, second, b)
  }

  lemma TieOfSixtyTwo() returns (first: seq<nat>, second: seq<nat>)
    ensures Lists(first, second, 62) && InBoth(first, second, 61) && InOne(first, second, 0)
    ensures FusedScore(first, second, 61) == FusedScore(first, second, 0)
  {
    first := seq(62, i requires 0 <= i => i);
    second := seq(62, i requires 0 <= i => if i == 61 then 61 else 100 + i);
    assert first[0] == 0 && first[61] == 61 && second[61] == 61;
    PositionOf(first, 0);
    PositionOf(first, 61);
    PositionOf(second, 61);
    ScoreOfRank(first, 61);
    ScoreOfRank(second, 61);
    ScoreOfRank(first, 0);
    ScoreOfRank(second, 0);
  }

  /** Every id found by both lists beats every id found by one exactly for lists of up to 61 hits. */
  lemma TwiceBeatsOnceIffAtMost61(n: nat)
    ensures TwiceAlwaysBeatsOnce(n) <==> n <= 61
  {
    if n <= 61 {
      forall first, second, a, b | Lists(first, second, n) && InBoth(first, second, a) && InOne(first, second, b)
        ensures FusedScore(first, second, a) > FusedScore(first, second, b)
      {
        TwiceBeatsOnce(first, second, a, b);
      }
    } else {
      var first, second := TieOfSixtyTwo();
      assert Lists(first, second, n);
    }
  }
}

/** Reordering of the leading system messages (src/core/prompt-prefix.ts).

    The leading run of system messages is sorted, stably, into stable system prompts, stable
    memories and variable messages; everything after it stays. */
module PromptPrefix {
  import opened Conversation
  import opened Prelude

  const MEMORY_CONTEXT_SOURCE_TYPE := "memory_context_recall"

  /** `metadata.sourceType` when it is a non-empty string. */
  function ReadMessageSourceType(m: Message): Option<string> {
    var value := Get(m.metadata, "sourceType");
    if value.Some? && value.value.Text? && value.value.text != "" then Some(value.value.text) else None
  }

  predicate IsStableMemory(m: Message) {
    m.role == System && ReadMessageSourceType(m) == Some(MEMORY_CONTEXT_SOURCE_TYPE)
  }

  predicate IsStableSystem(m: Message) {
    && m.role == System && !IsStableMemory(m)
    && (ReadMessageSourceType(m) == None || ReadMessageSourceType(m) == Some("system_prompt"))
    && Get(m.metadata, "retentionKind") in {None, Some(Text("working")), Some(Text("profile"))}
  }

  predicate IsStable(m: Message) {
    IsStableSystem(m) || IsStableMemory(m)
  }

  predicate IsVariable(m: Message) {
    !IsStable(m)
  }

  /** A metadata value that counts as no source type. */
  predicate NoSourceType(m: Message) {
    "sourceType" !in m.metadata || m.metadata["sourceType"].Other? || m.metadata["sourceType"] == Text("")
  }

  /** The classes in terms of role and metadata. */
  lemma ClassesByMetadata(m: Message)
    ensures IsStableMemory(m) <==>
              && m.role == System && "sourceType" in m.metadata
              && m.metadata["sourceType"] == Text("memory_context_recall")
    ensures IsStableSystem(m) <==>
              && m.role == System && (NoSourceType(m) || m.metadata["sourceType"] == Text("system_prompt"))
              && ("retentionKind" in m.metadata ==>
                    m.metadata["retentionKind"] == Text("working") || m.metadata["retentionKind"] == Text("profile"))
    ensures IsVariable(m) <==> !IsStableSystem(m) && !IsStableMemory(m)
  {
    if "sourceType" in m.metadata && m.metadata["sourceType"] == Text("system_prompt") {
      assert "system_prompt"[0] != "memory_context_recall"[0];
    }
  }

  // ----- The reordering -----

  function LeadingCount(messages: seq<Message>): (n: nat)
    ensures n <= |messages|
  {
    if messages != [] && IsSystem(messages[0]) then 1 + LeadingCount(messages[1..]) else 0
  }

  function Leading(messages: seq<Message>): seq<Message> {
    messages[..LeadingCount(messages)]
  }

  function Turns(messages: seq<Message>): seq<Message> {
    messages[LeadingCount(messages)..]
  }

  function ByClass(leading: seq<Message>): seq<Message> {
    Filter(leading, IsStableSystem) + Filter(leading, IsStableMemory) + Filter(leading, IsVariable)
  }

  function Stabilized(messages: seq<Message>): seq<Message> {
    ByClass(Leading(messages)) + Turns(messages)
  }

  method StabilizeLeadingSystemPrefix(messages: seq<Message>) returns (r: seq<Message>)
    ensures r == Stabilized(messages)
  {
    var leadingCount := 0;
    while leadingCount < |messages| && messages[leadingCount].role == System
      invariant 0 <= leadingCount <= |messages|
      invariant LeadingCount(messages) == leadingCount + LeadingCount(messages[leadingCount..])
    {
      assert messages[leadingCount..][1..] == messages[leadingCount + 1..];
      leadingCount := leadingCount + 1;
    }
    var leading := messages[..leadingCount];
    if |leading| <= 1 {
      ShortRunIsSorted(leading);
      assert leading + messages[leadingCount..] == messages;
      return messages;
    }
    var stableSystem := Filter(leading, IsStableSystem);
    var stableMemory := Filter(leading, IsStableMemory);
    var variable := Filter(leading, IsVariable);
    r := stableSystem + stableMemory + variable + messages[leadingCount..];
  }

  lemma ShortRunIsSorted(leading: seq<Message>)
    requires |leading| <= 1
    ensures ByClass(leading) == leading
  {
    if |leading| == 1 {
      assert leading[1..] == [];
      FilterCons(leading[0], [], IsStableSystem);
      FilterCons(leading[0], [], IsStableMemory);
      FilterCons(leading[0], [], IsVariable);
      assert leading == [leading[0]] + [];
    }
  }

  lemma FilterCons(m: Message, rest: seq<Message>, p: Message -> bool)
    ensures Filter([m] + rest, p) == if p(m) then [m] + Filter(rest, p) else Filter(rest, p)
  {
    assert ([m] + rest)[1..] == rest;
    assert [] + Filter(rest, p) == Filter(rest, p);
  }

  // ----- A stable sort -----

  lemma {:induction false} LeadingCountIsExact(messages: seq<Message>, n: nat)
    requires n <= |messages| && (n < |messages| ==> IsTurn(messages[n]))
    requires forall i :: 0 <= i < n ==> IsSystem(messages[i])
    ensures LeadingCount(messages) == n
    decreases n
  {
    if n > 0 { LeadingCountIsExact(messages[1..], n - 1); }
  }

  lemma {:induction false} LeadingAreSystem(messages: seq<Message>)
    ensures forall i :: 0 <= i < LeadingCount(messages) ==> IsSystem(messages[i])
    ensures LeadingCount(messages) < |messages| ==> IsTurn(messages[LeadingCount(messages)])
    decreases |messages|
  {
    if messages != [] && IsSystem(messages[0]) { LeadingAreSystem(messages[1..]); }
  }

  lemma {:induction false} ByClassIsPermutation(s: seq<Message>)
    ensures multiset(ByClass(s)) == multiset(s)
    decreases |s|
  {
    if s != [] {
      var m, rest := s[0], s[1..];
      ByClassIsPermutation(rest);
      assert s == [m] + rest;
      ByClassMembers(s);
      ByClassMembers(rest);
      FilterConsMembers(m, rest, IsStableSystem);
      FilterConsMembers(m, rest, IsStableMemory);
      FilterConsMembers(m, rest, IsVariable);
    }
  }

  lemma ByClassMembers(s: seq<Message>)
    ensures multiset(ByClass(s)) ==
            multiset(Filter(s, IsStableSystem)) + multiset(Filter(s, IsStableMemory)) + multiset(Filter(s, IsVariable))
  {
  }

  lemma FilterConsMembers(m: Message, rest: seq<Message>, p: Message -> bool)
    ensures multiset(Filter([m] + rest, p)) == multiset(Filter(rest, p)) + (if p(m) then multiset{m} else multiset{})
  {
    FilterCons(m, rest, p);
  }

  lemma {:induction false} FilterAll(s: seq<Message>, p: Message -> bool)
    requires forall i :: 0 <= i < |s| ==> p(s[i])
    ensures Filter(s, p) == s
    decreases |s|
  {
    if s != [] {
      FilterAll(s[1..], p);
      assert s == [s[0]] + s[1..];
    }
  }

  lemma {:induction false} FilterNone(s: seq<Message>, p: Message -> bool)
    requires forall i :: 0 <= i < |s| ==> !p(s[i])
    ensures Filter(s, p) == []
    decreases |s|
  {
    if s != [] { FilterNone(s[1..], p); }
  }

  lemma FilterByClass(s: seq<Message>, p: Message -> bool)
    ensures Filter(ByClass(s), p) ==
            Filter(Filter(s, IsStableSystem), p) + Filter(Filter(s, IsStableMemory), p)
            + Filter(Filter(s, IsVariable), p)
  {
    FilterConcat(Filter(s, IsStableSystem) + Filter(s, IsStableMemory), Filter(s, IsVariable), p);
    FilterConcat(Filter(s, IsStableSystem), Filter(s, IsStableMemory), p);
  }

  /** Sorting leaves the messages of every class alone, and their order. */
  lemma ByClassKeepsClasses(s: seq<Message>)
    ensures Filter(ByClass(s), IsStableSystem) == Filter(s, IsStableSystem)
    ensures Filter(ByClass(s), IsStableMemory) == Filter(s, IsStableMemory)
    ensures Filter(ByClass(s), IsVariable) == Filter(s, IsVariable)
  {
    var a, b, c := Filter(s, IsStableSystem), Filter(s, IsStableMemory), Filter(s, IsVariable);
    FilterMembers(s, IsStableSystem);
    FilterMembers(s, IsStableMemory);
    FilterMembers(s, IsVariable);
    FilterByClass(s, IsStableSystem);
    FilterByClass(s, IsStableMemory);
    FilterByClass(s, IsVariable);
    FilterAll(a, IsStableSystem);
    FilterNone(a, IsStableMemory);
    FilterNone(a, IsVariable);
    FilterNone(b, IsStableSystem);
    FilterAll(b, IsStableMemory);
    FilterNone(b, IsVariable);
    FilterNone(c, IsStableSystem);
    FilterNone(c, IsStableMemory);
    FilterAll(c, IsVariable);
    assert a + [] + [] == a && [] + b + [] == b && [] + [] + c == c;
  }

  lemma StabilizedParts(messages: seq<Message>)
    ensures LeadingCount(Stabilized(messages)) == LeadingCount(messages)
    ensures Leading(Stabilized(messages)) == ByClass(Leading(messages))
    ensures Turns(Stabilized(messages)) == Turns(messages)
  {
    var leading, sorted := Leading(messages), ByClass(Leading(messages));
    LeadingAreSystem(messages);
    ByClassIsPermutation(leading);
    assert |sorted| == |multiset(sorted)| == |multiset(leading)| == |leading|;
    forall i | 0 <= i < |sorted| ensures IsSystem(Stabilized(messages)[i]) {
      assert sorted[i] in multiset(sorted);
      assert sorted[i] in leading;
    }
    LeadingCountIsExact(Stabilized(messages), |leading|);
  }

  function Rank(m: Message): nat {
    if IsStableSystem(m) then 0 else if IsStableMemory(m) then 1 else 2
  }

  ghost predicate SortedByRank(s: seq<Message>) {
    forall i, j :: 0 <= i < j < |s| ==> Rank(s[i]) <= Rank(s[j])
  }

  lemma RankOfClass(s: seq<Message>)
    ensures forall i :: 0 <= i < |Filter(s, IsStableSystem)| ==> Rank(Filter(s, IsStableSystem)[i]) == 0
    ensures forall i :: 0 <= i < |Filter(s, IsStableMemory)| ==> Rank(Filter(s, IsStableMemory)[i]) == 1
    ensures forall i :: 0 <= i < |Filter(s, IsVariable)| ==> Rank(Filter(s, IsVariable)[i]) == 2
  {
    FilterMembers(s, IsStableSystem);
    FilterMembers(s, IsStableMemory);
    FilterMembers(s, IsVariable);
  }

  lemma ByClassSorts(s: seq<Message>)
    ensures SortedByRank(ByClass(s))
  {
    RankOfClass(s);
  }

  lemma ByClassCons(m: Message, rest: seq<Message>)
    requires Rank(m) > 0 ==> Filter(rest, IsStableSystem) == []
    requires Rank(m) > 1 ==> Filter(rest, IsStableMemory) == []
    ensures ByClass([m] + rest) == [m] + ByClass(rest)
  {
    FilterCons(m, rest, IsStableSystem);
    FilterCons(m, rest, IsStableMemory);
    FilterCons(m, rest, IsVariable);
    InsertInto(Filter(rest, IsStableSystem), Filter(rest, IsStableMemory), Filter(rest, IsVariable), m);
  }

  lemma InsertInto<T>(a: seq<T>, b: seq<T>, c: seq<T>, x: T)
    ensures ([x] + a) + b + c == [x] + (a + b + c)
    ensures a == [] ==> a + ([x] + b) + c == [x] + (a + b + c)
    ensures a == [] && b == [] ==> a + b + ([x] + c) == [x] + (a + b + c)
  {
  }

  /** A run sorted by class is determined by the messages of the three classes. */
  lemma {:induction false} SortedRunIsByClass(s: seq<Message>)
    requires SortedByRank(s)
    ensures s == ByClass(s)
    decreases |s|
  {
    if s != [] {
      var rest := s[1..];
      SortedRunIsByClass(rest);
      assert forall i :: 0 <= i < |rest| ==> Rank(s[0]) <= Rank(rest[i]);
      if Rank(s[0]) > 0 { FilterNone(rest, IsStableSystem); }
      if Rank(s[0]) > 1 { FilterNone(rest, IsStableMemory); }
      ByClassCons(s[0], rest);
      assert s == [s[0]] + rest;
    }
  }

  /** The reordering is the stable sort of the leading run by class: it is the only arrangement that
      is sorted and keeps the messages of every class in their order. */
  lemma StabilizedIsTheStableSort(messages: seq<Message>, run: seq<Message>)
    ensures (&& SortedByRank(run)
             && Filter(run, IsStableSystem) == Filter(Leading(messages), IsStableSystem)
             && Filter(run, IsStableMemory) == Filter(Leading(messages), IsStableMemory)
             && Filter(run, IsVariable) == Filter(Leading(messages), IsVariable))
            <==> run == Leading(Stabilized(messages))
    ensures Turns(Stabilized(messages)) == Turns(messages)
    ensures multiset(Stabilized(messages)) == multiset(messages)
  {
    StabilizedParts(messages);
    StableSortIsUnique(Leading(messages), run);
    ByClassIsPermutation(Leading(messages));
    assert messages == Leading(messages) + Turns(messages);
  }

  lemma StableSortIsUnique(leading: seq<Message>, run: seq<Message>)
    ensures (&& SortedByRank(run)
             && Filter(run, IsStableSystem) == Filter(leading, IsStableSystem)
             && Filter(run, IsStableMemory) == Filter(leading, IsStableMemory)
             && Filter(run, IsVariable) == Filter(leading, IsVariable))
            <==> run == ByClass(leading)
  {
    ByClassKeepsClasses(leading);
    ByClassSorts(leading);
    if SortedByRank(run) { SortedRunIsByClass(run); }
  }

  lemma StabilizeIsIdempotent(messages: seq<Message>)
    ensures Stabilized(Stabilized(messages)) == Stabilized(messages)
  {
    StabilizedParts(messages);
    ByClassSorts(Leading(messages));
    SortedRunIsByClass(ByClass(Leading(messages)));
  }
}

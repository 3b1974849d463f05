/** Repair of a conversation into a well-formed call/answer protocol
    (src/providers/openai-message-sanitizer.ts).

    The first pass drops tool messages that answer nothing, the second strips call lists that
    nothing answers. The result is always well formed, and a conversation is left alone exactly
    when it was well formed already. */
module MessageSanitizer {
  import opened Conversation
  import opened Prelude

  /** An assistant message with at least one tool call. */
  predicate CarriesCalls(m: Message) {
    m.role == Assistant && Calls(m) != []
  }

  function CallIds(m: Message): set<string> {
    set i | 0 <= i < |Calls(m)| :: Calls(m)[i].toolCallId
  }

  predicate DistinctIds(m: Message) {
    |CallIds(m)| == |Calls(m)|
  }

  function Strip(m: Message): Message {
    m.(toolCalls := None)
  }

  // ----- What well formed means -----

  /** `j` lies in the run of tool messages directly after `i`. */
  ghost predicate InRun(ms: seq<Message>, i: int, j: int) {
    0 <= i < j < |ms| && forall k :: i < k <= j ==> ms[k].role == Tool
  }

  /** Tool message `j` answers one of the calls of message `i`, which it follows directly. */
  ghost predicate Answers(ms: seq<Message>, i: int, j: int) {
    && InRun(ms, i, j)
    && CarriesCalls(ms[i])
    && ms[j].toolCallId.Some? && ms[j].toolCallId.value in CallIds(ms[i])
  }

  /** ... and is the first to answer it. */
  ghost predicate FirstAnswer(ms: seq<Message>, i: int, j: int) {
    Answers(ms, i, j) && forall k :: i < k < j ==> ms[k].toolCallId != ms[j].toolCallId
  }

  ghost predicate IsFirstAnswer(ms: seq<Message>, j: int) {
    exists i :: FirstAnswer(ms, i, j)
  }

  /** Every tool message is the first answer to a call directly before its run, and every call list with
      distinct ids has an answer. */
  ghost predicate WellFormed(ms: seq<Message>) {
    && (forall j :: 0 <= j < |ms| && ms[j].role == Tool ==> IsFirstAnswer(ms, j))
    && (forall i :: 0 <= i < |ms| && CarriesCalls(ms[i]) && DistinctIds(ms[i]) ==> exists j :: Answers(ms, i, j))
  }

  // ----- First pass -----

  /** What a message does to the ids that may still be answered. */
  function OpenAfter(open: set<string>, m: Message): set<string> {
    if CarriesCalls(m) then CallIds(m)
    else if m.role == Tool then open - (if m.toolCallId.Some? then {m.toolCallId.value} else {})
    else {}
  }

  /** The call ids that the next tool message may still answer. */
  function OpenIds(ms: seq<Message>): set<string>
    decreases |ms|
  {
    if ms == [] then {} else OpenAfter(OpenIds(Init(ms)), Last(ms))
  }

  /** The first pass keeps every message that is not a tool message, and the tool messages that name an open id. */
  predicate Fits(open: set<string>, m: Message) {
    m.role != Tool || (m.toolCallId.Some? && m.toolCallId.value in open)
  }

  predicate Placed(before: seq<Message>, m: Message) {
    Fits(OpenIds(before), m)
  }

  /** The messages the first pass keeps. */
  function Kept(ms: seq<Message>): seq<Message>
    decreases |ms|
  {
    if ms == [] then [] else Kept(Init(ms)) + (if Placed(Init(ms), Last(ms)) then [Last(ms)] else [])
  }

  lemma AppendOne(ms: seq<Message>, m: Message)
    ensures OpenIds(ms + [m]) == OpenAfter(OpenIds(ms), m)
    ensures Kept(ms + [m]) == if Placed(ms, m) then Kept(ms) + [m] else Kept(ms)
  {
    assert Init(ms + [m]) == ms && Last(ms + [m]) == m;
    assert Kept(ms) + [] == Kept(ms);
  }

  /** An id is open exactly if the message before the current run of tool messages calls it and no
      message of the run has answered it. */
  lemma {:induction false} OpenIdsMeaning(ms: seq<Message>, id: string)
    ensures id in OpenIds(ms) <==>
            exists i :: 0 <= i < |ms| && CarriesCalls(ms[i]) && id in CallIds(ms[i]) && UnansweredSince(ms, i, id)
    decreases |ms|
  {
    if ms != [] {
      OpenIdsMeaning(Init(ms), id);
      var n := |ms| - 1;
      if CarriesCalls(ms[n]) {
        if id in CallIds(ms[n]) { assert UnansweredSince(ms, n, id); }
      } else if ms[n].role == Tool {
        forall i | 0 <= i < n
          ensures UnansweredSince(ms, i, id) <==> UnansweredSince(Init(ms), i, id) && ms[n].toolCallId != Some(id)
        {
          UnansweredOneMore(Init(ms), ms[n], i, id);
          assert ms == Init(ms) + [ms[n]];
        }
      }
    }
  }

  lemma UnansweredOneMore(before: seq<Message>, m: Message, i: nat, id: string)
    requires i < |before| && m.role == Tool
    ensures UnansweredSince(before + [m], i, id) <==> UnansweredSince(before, i, id) && m.toolCallId != Some(id)
  {
    var ms := before + [m];
    assert ms[|before|] == m;
    assert forall k :: 0 <= k < |before| ==> ms[k] == before[k];
  }

  ghost predicate UnansweredSince(ms: seq<Message>, i: int, id: string) {
    0 <= i < |ms| && forall k :: i < k < |ms| ==> ms[k].role == Tool && ms[k].toolCallId != Some(id)
  }

  /** The first pass judges a tool message by the protocol: it stays if it is a first answer. */
  lemma PlacedIffFirstAnswer(ms: seq<Message>, j: nat)
    requires j < |ms| && ms[j].role == Tool
    ensures Placed(ms[..j], ms[j]) <==> IsFirstAnswer(ms, j)
  {
    if ms[j].toolCallId.Some? {
      var id := ms[j].toolCallId.value;
      OpenIdsMeaning(ms[..j], id);
      forall i | 0 <= i < j
        ensures FirstAnswer(ms, i, j) <==>
                CarriesCalls(ms[..j][i]) && id in CallIds(ms[..j][i]) && UnansweredSince(ms[..j], i, id)
      {
      }
    }
  }

  ghost predicate AllPlaced(ms: seq<Message>) {
    forall j :: 0 <= j < |ms| ==> Placed(ms[..j], ms[j])
  }

  /** Dropping a misplaced tool message leaves the open ids as they are. */
  lemma {:induction false} KeptIsPlaced(ms: seq<Message>)
    ensures OpenIds(Kept(ms)) == OpenIds(ms)
    ensures AllPlaced(Kept(ms))
    decreases |ms|
  {
    if ms != [] {
      var before, m := Init(ms), Last(ms);
      KeptIsPlaced(before);
      assert ms == before + [m];
      AppendOne(before, m);
      AppendOne(Kept(before), m);
      if Placed(before, m) { PlacedAppend(Kept(before), m); }
    }
  }

  lemma PlacedAppend(before: seq<Message>, m: Message)
    requires AllPlaced(before) && Placed(before, m)
    ensures AllPlaced(before + [m])
  {
    var ms := before + [m];
    forall j | 0 <= j < |ms|
      ensures Placed(ms[..j], ms[j])
    {
      if j < |before| { assert ms[..j] == before[..j]; } else { assert ms[..j] == before; }
    }
  }

  lemma AllPlacedInit(ms: seq<Message>)
    requires AllPlaced(ms) && ms != []
    ensures AllPlaced(Init(ms)) && Placed(Init(ms), Last(ms))
  {
    forall j | 0 <= j < |ms| - 1 ensures Placed(Init(ms)[..j], Init(ms)[j]) {
      assert Init(ms)[..j] == ms[..j];
    }
    assert Placed(ms[..|ms| - 1], ms[|ms| - 1]);
  }

  lemma {:induction false} KeptIfPlaced(ms: seq<Message>)
    requires AllPlaced(ms)
    ensures Kept(ms) == ms
    decreases |ms|
  {
    if ms != [] {
      AllPlacedInit(ms);
      KeptIfPlaced(Init(ms));
      assert ms == Init(ms) + [Last(ms)];
    }
  }

  // ----- Second pass -----

  /** The call ids named by the run of tool messages after `i`. */
  ghost function AnsweredAfter(ms: seq<Message>, i: int): set<string> {
    set j | InRun(ms, i, j) && i < j < |ms| && ms[j].toolCallId.Some? :: ms[j].toolCallId.value
  }

  ghost predicate Unanswered(ms: seq<Message>, i: int)
    requires 0 <= i < |ms|
  {
    CarriesCalls(ms[i]) && |CallIds(ms[i]) - AnsweredAfter(ms, i)| == |Calls(ms[i])|
  }

  ghost function Repaired(ms: seq<Message>): (r: seq<Message>)
    ensures |r| == |ms|
    ensures forall i :: 0 <= i < |ms| ==> r[i] == if Unanswered(ms, i) then Strip(ms[i]) else ms[i]
  {
    seq(|ms|, i requires 0 <= i < |ms| => if Unanswered(ms, i) then Strip(ms[i]) else ms[i])
  }

  lemma {:induction false} IdsNoMoreThanCalls(calls: seq<ToolCall>)
    ensures |set i | 0 <= i < |calls| :: calls[i].toolCallId| <= |calls|
    decreases |calls|
  {
    if calls != [] {
      var rest := Init(calls);
      IdsNoMoreThanCalls(rest);
      var ids := set i | 0 <= i < |rest| :: rest[i].toolCallId;
      var all := set i | 0 <= i < |calls| :: calls[i].toolCallId;
      assert all == ids + {Last(calls).toolCallId} by {
        forall x | x in all ensures x in ids + {Last(calls).toolCallId} {
          var i :| 0 <= i < |calls| && calls[i].toolCallId == x;
          if i < |rest| { assert rest[i].toolCallId == x; }
        }
        forall x | x in ids ensures x in all {
          var i :| 0 <= i < |rest| && rest[i].toolCallId == x;
          assert calls[i].toolCallId == x;
        }
      }
    }
  }

  /** The size test of the second pass: no id repeats and none is answered. */
  lemma UnansweredMeaning(ms: seq<Message>, i: nat)
    requires i < |ms| && CarriesCalls(ms[i])
    ensures Unanswered(ms, i) <==> DistinctIds(ms[i]) && !exists j :: Answers(ms, i, j)
  {
    var ids, answered := CallIds(ms[i]), AnsweredAfter(ms, i);
    IdsNoMoreThanCalls(Calls(ms[i]));
    if ids * answered == {} {
      assert forall x :: x in ids ==> x !in ids * answered;
      assert ids - answered == ids;
      forall j ensures !Answers(ms, i, j) {
        if Answers(ms, i, j) {
          AnswerIsNamed(ms, i, j);
          assert false;
        }
      }
    } else {
      var x :| x in ids * answered;
      SmallerWithout(ids, answered, x);
      var j :| InRun(ms, i, j) && i < j < |ms| && ms[j].toolCallId.Some? && ms[j].toolCallId.value == x;
      assert Answers(ms, i, j);
    }
  }

  lemma AnswerIsNamed(ms: seq<Message>, i: int, j: int)
    requires Answers(ms, i, j)
    ensures ms[j].toolCallId.value in CallIds(ms[i]) * AnsweredAfter(ms, i)
  {
  }

  lemma SmallerWithout<T>(a: set<T>, b: set<T>, x: T)
    requires x in a && x in b
    ensures |a - b| < |a|
  {
    assert a - b <= a - {x};
    SubsetSize(a - b, a - {x});
  }

  lemma {:induction false} SubsetSize<T>(a: set<T>, b: set<T>)
    requires a <= b
    ensures |a| <= |b|
    decreases |a|
  {
    if a != {} {
      var x :| x in a;
      SubsetSize(a - {x}, b - {x});
    }
  }

  // ----- Both passes -----

  ghost function Normalized(ms: seq<Message>): seq<Message> {
    Repaired(Kept(ms))
  }

  /** Stripping touches no message that has an answer, so answers stay answers. */
  lemma AnswersSurviveRepair(ms: seq<Message>, i: int, j: int)
    requires Answers(ms, i, j)
    ensures Repaired(ms)[i] == ms[i]
    ensures Answers(Repaired(ms), i, j)
    ensures FirstAnswer(ms, i, j) ==> FirstAnswer(Repaired(ms), i, j)
  {
    UnansweredMeaning(ms, i);
    assert forall k :: 0 <= k < |ms| && ms[k].role == Tool ==> Repaired(ms)[k] == ms[k];
  }

  lemma RepairedIsWellFormed(ms: seq<Message>)
    requires AllPlaced(ms)
    ensures WellFormed(Repaired(ms))
  {
    var r := Repaired(ms);
    forall j | 0 <= j < |r| && r[j].role == Tool
      ensures IsFirstAnswer(r, j)
    {
      PlacedIffFirstAnswer(ms, j);
      var i :| FirstAnswer(ms, i, j);
      AnswersSurviveRepair(ms, i, j);
    }
    forall i | 0 <= i < |r| && CarriesCalls(r[i]) && DistinctIds(r[i])
      ensures exists j :: Answers(r, i, j)
    {
      UnansweredMeaning(ms, i);
      var j :| Answers(ms, i, j);
      AnswersSurviveRepair(ms, i, j);
    }
  }

  /** The result is always well formed. */
  lemma NormalizedIsWellFormed(ms: seq<Message>)
    ensures WellFormed(Normalized(ms))
  {
    KeptIsPlaced(ms);
    RepairedIsWellFormed(Kept(ms));
  }

  lemma WellFormedIsUntouched(ms: seq<Message>)
    requires WellFormed(ms)
    ensures Normalized(ms) == ms
  {
    forall j | 0 <= j < |ms|
      ensures Placed(ms[..j], ms[j])
    {
      if ms[j].role == Tool { PlacedIffFirstAnswer(ms, j); }
    }
    KeptIfPlaced(ms);
    forall i | 0 <= i < |ms|
      ensures !Unanswered(ms, i)
    {
      if CarriesCalls(ms[i]) { UnansweredMeaning(ms, i); }
    }
  }

  /** Well-formed conversations, and only those, are left alone. */
  lemma IdentityIffWellFormed(ms: seq<Message>)
    ensures Normalized(ms) == ms <==> WellFormed(ms)
  {
    if WellFormed(ms) { WellFormedIsUntouched(ms); } else { NormalizedIsWellFormed(ms); }
  }

  lemma NormalizeIsIdempotent(ms: seq<Message>)
    ensures Normalized(Normalized(ms)) == Normalized(ms)
  {
    NormalizedIsWellFormed(ms);
    WellFormedIsUntouched(Normalized(ms));
  }

  // ----- What survives -----

  predicate NotTool(m: Message) {
    m.role != Tool
  }

  /** `b` is `a`, or an assistant message `a` without its calls; all other fields are the same. */
  ghost predicate SameButCalls(a: Message, b: Message) {
    && b.role == a.role && b.content == a.content && b.toolCallId == a.toolCallId && b.toolName == a.toolName
    && b.metadata == a.metadata
    && (b.toolCalls == a.toolCalls || (a.role == Assistant && Calls(a) != [] && b.toolCalls == None))
  }

  lemma {:induction false} KeptKeepsNonTools(ms: seq<Message>)
    ensures Filter(Kept(ms), NotTool) == Filter(ms, NotTool)
    decreases |ms|
  {
    if ms != [] {
      KeptKeepsNonTools(Init(ms));
      var tail := if Placed(Init(ms), Last(ms)) then [Last(ms)] else [];
      assert ms == Init(ms) + [Last(ms)];
      FilterConcat(Init(ms), [Last(ms)], NotTool);
      FilterConcat(Kept(Init(ms)), tail, NotTool);
    }
  }

  lemma {:induction false} PointwiseFilter(a: seq<Message>, b: seq<Message>)
    requires |a| == |b| && forall i :: 0 <= i < |a| ==> SameButCalls(a[i], b[i])
    ensures |Filter(a, NotTool)| == |Filter(b, NotTool)|
    ensures forall i :: 0 <= i < |Filter(a, NotTool)| ==> SameButCalls(Filter(a, NotTool)[i], Filter(b, NotTool)[i])
    decreases |a|
  {
    if a != [] {
      PointwiseFilter(a[1..], b[1..]);
      assert SameButCalls(a[0], b[0]);
    }
  }

  /** Every message that is not a tool message survives, in order, changed at most by losing its calls. */
  lemma NonToolMessagesSurvive(ms: seq<Message>)
    ensures var before, after := Filter(ms, NotTool), Filter(Normalized(ms), NotTool);
            |before| == |after| && forall i :: 0 <= i < |before| ==> SameButCalls(before[i], after[i])
  {
    KeptKeepsNonTools(ms);
    PointwiseFilter(Kept(ms), Normalized(ms));
  }

  predicate IsTool(m: Message) {
    m.role == Tool
  }

  /** The tool messages at the positions below `n` that are first answers. */
  ghost function FirstAnswers(ms: seq<Message>, n: nat): seq<Message>
    requires n <= |ms|
  {
    if n == 0 then []
    else FirstAnswers(ms, n - 1)
         + (if ms[n - 1].role == Tool && IsFirstAnswer(ms, n - 1) then [ms[n - 1]] else [])
  }

  lemma ToolsWithOneMore(kept: seq<Message>, m: Message, placed: bool)
    ensures Filter(kept + (if placed then [m] else []), IsTool)
            == Filter(kept, IsTool) + (if m.role == Tool && placed then [m] else [])
  {
    FilterConcat(kept, if placed then [m] else [], IsTool);
  }

  lemma {:induction false} KeptToolsUpTo(ms: seq<Message>, n: nat)
    requires n <= |ms|
    ensures Filter(Kept(ms[..n]), IsTool) == FirstAnswers(ms, n)
    decreases n
  {
    if n > 0 {
      KeptToolsUpTo(ms, n - 1);
      var prefix, m := ms[..n], ms[n - 1];
      assert Init(prefix) == ms[..n - 1];
      ToolsWithOneMore(Kept(Init(prefix)), m, Placed(Init(prefix), m));
      if m.role == Tool { PlacedIffFirstAnswer(ms, n - 1); }
    }
  }

  lemma {:induction false} SameTools(a: seq<Message>, b: seq<Message>)
    requires |a| == |b| && forall i :: 0 <= i < |a| ==> SameButCalls(a[i], b[i])
    ensures Filter(a, IsTool) == Filter(b, IsTool)
    decreases |a|
  {
    if a != [] {
      SameTools(a[1..], b[1..]);
      assert SameButCalls(a[0], b[0]);
    }
  }

  /** The tool messages that survive are exactly the first answers of the input, unchanged and in order. */
  lemma ToolMessagesOfTheResult(ms: seq<Message>)
    ensures Filter(Normalized(ms), IsTool) == FirstAnswers(ms, |ms|)
  {
    assert ms[..|ms|] == ms;
    KeptToolsUpTo(ms, |ms|);
    SameTools(Kept(ms), Normalized(ms));
  }

  // ----- The result, message by message -----

  /** Where the first pass puts message `i` if it keeps it. */
  function Place(ms: seq<Message>, i: nat): nat
    requires i <= |ms|
  {
    |Kept(ms[..i])|
  }

  lemma KeptNext(ms: seq<Message>, i: nat)
    requires i < |ms|
    ensures Kept(ms[..i + 1]) == Kept(ms[..i]) + (if Placed(ms[..i], ms[i]) then [ms[i]] else [])
  {
    assert Init(ms[..i + 1]) == ms[..i];
  }

  lemma {:induction false} KeptPrefix(ms: seq<Message>, i: nat, n: nat)
    requires i <= n <= |ms|
    ensures Kept(ms[..i]) <= Kept(ms[..n])
    decreases n
  {
    if i < n {
      KeptPrefix(ms, i, n - 1);
      KeptNext(ms, n - 1);
    }
  }

  lemma KeptAtPlace(ms: seq<Message>, i: nat)
    requires i < |ms| && Placed(ms[..i], ms[i])
    ensures Place(ms, i) < |Kept(ms)| && Kept(ms)[Place(ms, i)] == ms[i]
  {
    KeptNext(ms, i);
    KeptPrefix(ms, i + 1, |ms|);
    assert ms[..|ms|] == ms;
    assert Kept(ms)[Place(ms, i)] == Kept(ms[..i + 1])[Place(ms, i)];
  }

  lemma PlacesGrow(ms: seq<Message>, i: nat, j: nat)
    requires i < j <= |ms|
    ensures Place(ms, i) <= Place(ms, j)
    ensures Placed(ms[..i], ms[i]) ==> Place(ms, i) < Place(ms, j)
  {
    KeptNext(ms, i);
    KeptPrefix(ms, i + 1, j);
  }

  lemma {:induction false} Origin(ms: seq<Message>, q: nat, n: nat) returns (j: nat)
    requires n <= |ms| && q < Place(ms, n)
    ensures j < n && Placed(ms[..j], ms[j]) && Place(ms, j) == q
    decreases n
  {
    KeptNext(ms, n - 1);
    if q < Place(ms, n - 1) { j := Origin(ms, q, n - 1); } else { j := n - 1; }
  }

  lemma OriginOf(ms: seq<Message>, q: nat) returns (j: nat)
    requires q < |Kept(ms)|
    ensures j < |ms| && Placed(ms[..j], ms[j]) && Place(ms, j) == q && Kept(ms)[q] == ms[j]
  {
    assert ms[..|ms|] == ms;
    j := Origin(ms, q, |ms|);
    KeptAtPlace(ms, j);
  }

  lemma {:induction false} EarliestAnswer(ms: seq<Message>, i: nat, j: nat) returns (k: nat)
    requires Answers(ms, i, j)
    ensures FirstAnswer(ms, i, k)
    decreases j
  {
    k := j;
    if !FirstAnswer(ms, i, j) {
      var h :| i < h < j && ms[h].toolCallId == ms[j].toolCallId;
      k := EarliestAnswer(ms, i, h);
    }
  }

  /** Kept messages keep their order. */
  lemma PlacesInOrder(ms: seq<Message>, i: nat, j: nat)
    requires i < |ms| && Placed(ms[..i], ms[i]) && j < |ms| && Placed(ms[..j], ms[j])
    ensures i < j <==> Place(ms, i) < Place(ms, j)
  {
    if i < j { PlacesGrow(ms, i, j); } else if j < i { PlacesGrow(ms, j, i); }
  }

  /** A call list that has an answer still has one after the first pass. */
  lemma AnswerIsKept(ms: seq<Message>, i: nat, j: nat)
    requires Answers(ms, i, j)
    ensures exists q :: Answers(Kept(ms), Place(ms, i), q)
  {
    var k := EarliestAnswer(ms, i, j);
    PlacedIffFirstAnswer(ms, k);
    KeptAtPlace(ms, i);
    KeptAtPlace(ms, k);
    PlacesInOrder(ms, i, k);
    forall q | Place(ms, i) < q <= Place(ms, k) ensures Kept(ms)[q].role == Tool {
      var h := OriginOf(ms, q);
      PlacesInOrder(ms, i, h);
      PlacesInOrder(ms, k, h);
    }
    assert Answers(Kept(ms), Place(ms, i), Place(ms, k));
  }

  /** The first pass brings no call list an answer. */
  lemma KeptAnswerWasOne(ms: seq<Message>, i: nat, q: nat)
    requires i < |ms| && CarriesCalls(ms[i]) && Answers(Kept(ms), Place(ms, i), q)
    ensures exists j :: Answers(ms, i, j)
  {
    var j := OriginOf(ms, q);
    KeptAtPlace(ms, i);
    PlacesInOrder(ms, i, j);
    forall k | i < k <= j ensures ms[k].role == Tool { ToolBetween(ms, i, k, j); }
    assert Answers(ms, i, j);
  }

  lemma ToolBetween(ms: seq<Message>, i: nat, k: nat, j: nat)
    requires i < k <= j < |ms| && Placed(ms[..i], ms[i]) && Placed(ms[..j], ms[j])
    requires InRun(Kept(ms), Place(ms, i), Place(ms, j))
    ensures ms[k].role == Tool
  {
    if Placed(ms[..k], ms[k]) {
      KeptAtPlace(ms, k);
      PlacesInOrder(ms, i, k);
      PlacesInOrder(ms, j, k);
    }
  }

  /** Message `i` of the input loses its calls: their ids are distinct and none of them is answered. */
  ghost predicate LosesCalls(ms: seq<Message>, i: int) {
    0 <= i < |ms| && CarriesCalls(ms[i]) && DistinctIds(ms[i]) && !exists j :: Answers(ms, i, j)
  }

  /** What becomes of message `i`. */
  ghost function RepairOf(ms: seq<Message>, i: nat): seq<Message>
    requires i < |ms|
  {
    var m := ms[i];
    if m.role == Tool then (if IsFirstAnswer(ms, i) then [m] else [])
    else if LosesCalls(ms, i) then [Message(m.role, m.content, None, m.toolCallId, m.toolName, m.metadata)]
    else [m]
  }

  ghost function Repairs(ms: seq<Message>): seq<seq<Message>> {
    seq(|ms|, i requires 0 <= i < |ms| => RepairOf(ms, i))
  }

  lemma UnansweredWhenKept(ms: seq<Message>, i: nat)
    requires i < |ms| && Placed(ms[..i], ms[i])
    ensures Place(ms, i) < |Kept(ms)| && Kept(ms)[Place(ms, i)] == ms[i]
    ensures Unanswered(Kept(ms), Place(ms, i)) <==> LosesCalls(ms, i)
  {
    KeptAtPlace(ms, i);
    if CarriesCalls(ms[i]) {
      UnansweredMeaning(Kept(ms), Place(ms, i));
      if j :| Answers(ms, i, j) { AnswerIsKept(ms, i, j); }
      if q :| Answers(Kept(ms), Place(ms, i), q) { KeptAnswerWasOne(ms, i, q); }
    }
  }

  lemma RepairOfDropped(ms: seq<Message>, i: nat)
    requires i < |ms| && !Placed(ms[..i], ms[i])
    ensures RepairOf(ms, i) == []
  {
    PlacedIffFirstAnswer(ms, i);
  }

  lemma RepairOfKept(ms: seq<Message>, i: nat)
    requires i < |ms| && Placed(ms[..i], ms[i])
    ensures Place(ms, i) < |Normalized(ms)| && [Normalized(ms)[Place(ms, i)]] == RepairOf(ms, i)
  {
    if ms[i].role == Tool { PlacedIffFirstAnswer(ms, i); }
    UnansweredWhenKept(ms, i);
    assert Normalized(ms)[Place(ms, i)] == if LosesCalls(ms, i) then Strip(ms[i]) else ms[i];
  }

  lemma NextPlace(ms: seq<Message>, i: nat)
    requires i < |ms|
    ensures Place(ms, i) <= Place(ms, i + 1) <= |Kept(ms)|
    ensures Place(ms, i + 1) == Place(ms, i) + (if Placed(ms[..i], ms[i]) then 1 else 0)
  {
    KeptPrefix(ms, i + 1, |ms|);
    assert ms[..|ms|] == ms;
    KeptNext(ms, i);
  }

  lemma RepairedSlice(ms: seq<Message>, i: nat)
    requires i < |ms|
    ensures Place(ms, i) <= Place(ms, i + 1) <= |Normalized(ms)|
    ensures Normalized(ms)[Place(ms, i)..Place(ms, i + 1)] == RepairOf(ms, i)
  {
    NextPlace(ms, i);
    if Placed(ms[..i], ms[i]) {
      RepairOfKept(ms, i);
      OneElement(Normalized(ms), Place(ms, i));
    } else {
      RepairOfDropped(ms, i);
    }
  }

  lemma OneElement<T>(r: seq<T>, i: nat)
    requires i < |r|
    ensures r[i..i + 1] == [r[i]]
  {
  }

  ghost function Places(ms: seq<Message>): seq<nat> {
    seq(|ms| + 1, i requires 0 <= i <= |ms| => Place(ms, i))
  }

  lemma RepairedSliceAt(ms: seq<Message>, i: nat)
    requires i < |ms|
    ensures SliceAt(Normalized(ms), Repairs(ms), Places(ms), i)
  {
    RepairedSlice(ms, i);
  }

  lemma RepairedSlices(ms: seq<Message>) returns (places: seq<nat>, repairs: seq<seq<Message>>)
    ensures repairs == Repairs(ms) && |places| == |repairs| + 1
    ensures places[0] == 0 && Last(places) == |Normalized(ms)|
    ensures forall i :: 0 <= i < |repairs| ==> SliceAt(Normalized(ms), repairs, places, i)
  {
    places, repairs := Places(ms), Repairs(ms);
    assert ms[..|ms|] == ms;
    forall i | 0 <= i < |repairs| ensures SliceAt(Normalized(ms), repairs, places, i) { RepairedSliceAt(ms, i); }
  }

  /** The repair goes by the protocol of the input, message by message and in order: a tool message stays exactly
      if it is a first answer, a call list with distinct ids and no answer goes, and nothing else changes. */
  lemma NormalizedIsMessageByMessage(ms: seq<Message>)
    ensures Normalized(ms) == Concat(Repairs(ms))
  {
    var places, repairs := RepairedSlices(ms);
    ConcatOfSlices(Normalized(ms), repairs, places);
  }

  // ----- The two loops -----

  method Normalize(messages: seq<Message>) returns (repaired: seq<Message>)
    ensures repaired == Normalized(messages)
  {
    var normalized := DropMisplaced(messages);
    repaired := [];
    var index := 0;
    while index < |normalized|
      invariant 0 <= index <= |normalized|
      invariant repaired == Repaired(normalized)[..index]
    {
      var message := normalized[index];
      if !CarriesCalls(message) {
        repaired := repaired + [message];
      } else {
        var requiredIds := RemainingIds(normalized, index);
        if |requiredIds| == |Calls(message)| {
          repaired := repaired + [Strip(message)];
        } else {
          repaired := repaired + [message];
        }
      }
      index := index + 1;
    }
  }

  /** How the first pass stores the open ids: no set stands for the empty one. */
  function Pending(open: set<string>): Option<set<string>> {
    if open == {} then None else Some(open)
  }

  /** The two variables of the first pass after the messages `done`. */
  ghost predicate FirstPass(done: seq<Message>, normalized: seq<Message>, pending: Option<set<string>>) {
    normalized == Kept(done) && pending == Pending(OpenIds(done))
  }

  lemma PassCalls(done: seq<Message>, normalized: seq<Message>, pending: Option<set<string>>, m: Message)
    requires FirstPass(done, normalized, pending) && CarriesCalls(m)
    ensures FirstPass(done + [m], normalized + [m], Some(CallIds(m)))
  {
    AppendOne(done, m);
    assert Calls(m)[0].toolCallId in CallIds(m);
  }

  lemma PassOther(done: seq<Message>, normalized: seq<Message>, pending: Option<set<string>>, m: Message)
    requires FirstPass(done, normalized, pending) && !CarriesCalls(m) && m.role != Tool
    ensures FirstPass(done + [m], normalized + [m], None)
  {
    AppendOne(done, m);
  }

  lemma PassMisplaced(done: seq<Message>, normalized: seq<Message>, pending: Option<set<string>>, m: Message)
    requires FirstPass(done, normalized, pending) && m.role == Tool
    requires pending.None? || m.toolCallId.None? || m.toolCallId.value !in pending.value
    ensures FirstPass(done + [m], normalized, pending)
  {
    AppendOne(done, m);
    var open := OpenIds(done);
    assert OpenAfter(open, m) == open;
  }

  lemma PassAnswer(done: seq<Message>, normalized: seq<Message>, pending: Option<set<string>>, m: Message)
    requires FirstPass(done, normalized, pending) && m.role == Tool
    requires pending.Some? && m.toolCallId.Some? && m.toolCallId.value in pending.value
    ensures FirstPass(done + [m], normalized + [m], Pending(pending.value - {m.toolCallId.value}))
  {
    AppendOne(done, m);
  }

  method DropMisplaced(messages: seq<Message>) returns (normalized: seq<Message>)
    ensures normalized == Kept(messages)
  {
    normalized := [];
    var pending: Option<set<string>> := None;
    for n := 0 to |messages|
      invariant FirstPass(messages[..n], normalized, pending)
    {
      var message := messages[n];
      assert messages[..n + 1] == messages[..n] + [message];
      if CarriesCalls(message) {
        PassCalls(messages[..n], normalized, pending, message);
        pending := Some(CallIds(message));
        normalized := normalized + [message];
        continue;
      }
      if message.role == Tool {
        if pending.None? || message.toolCallId.None? || message.toolCallId.value !in pending.value {
          PassMisplaced(messages[..n], normalized, pending, message);
          continue;
        }
        PassAnswer(messages[..n], normalized, pending, message);
        pending := Some(pending.value - {message.toolCallId.value});
        normalized := normalized + [message];
        if |pending.value| == 0 {
          pending := None;
        }
        continue;
      }
      PassOther(messages[..n], normalized, pending, message);
      pending := None;
      normalized := normalized + [message];
    }
    assert messages[..|messages|] == messages;
  }

  ghost predicate NotNamed(ms: seq<Message>, from: int, to: int, id: string)
    requires 0 <= from < to <= |ms|
  {
    forall k :: from < k < to ==> ms[k].toolCallId != Some(id)
  }

  /** The inner scan of the second pass: the ids of message `index` that its run does not name. */
  method RemainingIds(normalized: seq<Message>, index: nat) returns (requiredIds: set<string>)
    requires index < |normalized| && CarriesCalls(normalized[index])
    ensures requiredIds == CallIds(normalized[index]) - AnsweredAfter(normalized, index)
  {
    requiredIds := CallIds(normalized[index]);
    var scanIndex := index + 1;
    while scanIndex < |normalized| && normalized[scanIndex].role == Tool
      invariant index < scanIndex <= |normalized|
      invariant forall k :: index < k < scanIndex ==> normalized[k].role == Tool
      invariant forall id :: id in requiredIds <==>
                id in CallIds(normalized[index]) && NotNamed(normalized, index, scanIndex, id)
    {
      var toolCallId := normalized[scanIndex].toolCallId;
      if toolCallId.Some? {
        requiredIds := requiredIds - {toolCallId.value};
      }
      scanIndex := scanIndex + 1;
    }
    forall id
      ensures id in AnsweredAfter(normalized, index) <==> !NotNamed(normalized, index, scanIndex, id)
    {
      if id in AnsweredAfter(normalized, index) {
        var j :| InRun(normalized, index, j) && index < j < |normalized| && normalized[j].toolCallId == Some(id);
        assert j < scanIndex;
      }
      if !NotNamed(normalized, index, scanIndex, id) {
        var k :| index < k < scanIndex && normalized[k].toolCallId == Some(id);
        assert InRun(normalized, index, k);
      }
    }
  }
}

/** Clarify prompts (src/approvals/clarify-service.ts). The queries of the repository and the loops
    over their rows are one loop over the tickets here; `Settle` is the common part of answering and
    cancelling. */
module ClarifyService {
  import opened Lifecycle
  import opened Prelude

  datatype Question = Question(requesterUserId: string, question: string, reason: Option<string>, options: seq<string>,
                               allowCustomAnswer: bool, placeholder: Option<string>)

  /** A single string among the answers stands as a list of one. */
  datatype Answer = Answer(optionId: Option<string>, text: Option<string>, answers: Option<map<string, seq<string>>>,
                           response: Option<string>)

  datatype Reply = Answered(answer: Answer) | Cancelled

  type Prompt = Ticket<Question, Reply>

  predicate NonEmptyIfGiven(s: Option<string>) {
    s != Some("")
  }

  datatype AnswerInput = AnswerInput(promptId: nat, reviewerId: string, answer: Answer) {
    /** What the input schema accepts. */
    predicate Valid() {
      && reviewerId != ""
      && NonEmptyIfGiven(answer.optionId) && NonEmptyIfGiven(answer.text) && NonEmptyIfGiven(answer.response)
      && (answer.answers.Some? ==>
            forall k :: k in answer.answers.value ==>
              k != "" && answer.answers.value[k] != [] && "" !in answer.answers.value[k])
      && (answer.optionId.Some? || answer.text.Some? || answer.answers.Some? || answer.response.Some?)
    }
  }

  datatype ClarifyError = InvalidInput | PromptNotFound(promptId: nat)

  function TimedOutPrompt(x: Prompt, now: int): Prompt {
    x.(outcome := TimedOut, decidedAt := Some(now), reviewerId := Some("system"), errorCode := Some(ApprovalTimeout))
  }

  function AskOf(promptId: nat, reviewerId: string, reply: Reply): Ask<Reply> {
    Ask(promptId, reply, reviewerId, None, if reply.Cancelled? then Some(ClarificationCancelled) else None)
  }

  /** The system timed the prompt out. */
  ghost predicate TimedOutAs(before: Prompt, after: Prompt) {
    && SameRequest(before, after) && after.outcome.TimedOut? && after.decidedAt.Some?
    && after.reviewerId == Some("system") && after.errorCode == Some(ApprovalTimeout)
  }

  /** A pending prompt got the reply after a reading before its deadline, or timed out; any other one
      is as it was. */
  ghost predicate SettledBy(before: Prompt, after: Prompt, reviewerId: string, reply: Reply, readings: seq<int>,
                            from: nat)
  {
    if !IsPending(before) then after == before
    else after.decidedAt.Some? &&
         (if after.outcome.TimedOut? then TimedOutAs(before, after)
          else
            && SameRequest(before, after) && ReadInTime(before, readings, from)
            && after.outcome == Decided(reply) && after.reviewerId == Some(reviewerId)
            && after.errorCode == if reply == Cancelled then Some(ClarificationCancelled) else None)
  }

  lemma DecidedAsAsked(before: Prompt, reviewerId: string, reply: Reply, now: int, readings: seq<int>, from: nat)
    requires IsPending(before) && ReadInTime(before, readings, from)
    ensures SettledBy(before, Decide(before, AskOf(before.id, reviewerId, reply), now), reviewerId, reply, readings,
                      from)
  {
  }

  class ClarifyService {
    const clock: Clock
    const clarifyTtlMs: int
    var prompts: seq<Prompt>

    ghost function Snapshot(): State<Question, Reply>
      reads this, clock
    {
      State(prompts, clock.readings)
    }

    ghost predicate Valid()
      reads this, clock
    {
      clock.Valid() && OnePerCall(prompts)
    }

    constructor (clock: Clock, clarifyTtlMs: int)
      requires clock.Valid()
      ensures Valid() && this.clock == clock && this.clarifyTtlMs == clarifyTtlMs && prompts == []
    {
      this.clock, this.clarifyTtlMs, prompts := clock, clarifyTtlMs, [];
    }

    /** Times the prompt out if a first reading has reached its deadline. */
    method ExpireIfNeeded(k: nat) returns (r: Prompt)
      requires Valid() && k < |prompts|
      modifies this, clock
      ensures Valid() && Expires(old(Snapshot()), Snapshot())
      ensures prompts == old(prompts)[k := r]
      ensures Checked(old(prompts)[k], r, old(clock.readings), clock.readings)
      ensures r == old(prompts)[k] || TimedOutAs(old(prompts)[k], r)
      ensures IsPending(r) ==> ReadInTime(r, clock.readings, old(|clock.readings|))
    {
      r := prompts[k];
      if IsPending(r) {
        var check := clock.Now();
        if r.expiresAt <= check {
          var now := clock.Now();
          r := TimedOutPrompt(r, now);
          prompts := prompts[k := r];
        }
      }
      CheckExpires(old(Snapshot()), Snapshot(), k);
      StepKeepsOnePerCall(old(Snapshot()), Snapshot());
    }

    method EnsurePrompt(taskId: string, toolCallId: string, request: Question, freshId: nat)
      returns (prompt: Prompt, created: bool)
      requires Valid() && forall k :: 0 <= k < |prompts| ==> prompts[k].id != freshId
      modifies this, clock
      ensures Valid() && Step(old(Snapshot()), Snapshot())
      ensures created <==> forall k :: 0 <= k < old(|prompts|) ==>
                !(old(prompts)[k].taskId == taskId && old(prompts)[k].toolCallId == toolCallId)
      ensures created ==> |clock.readings| == old(|clock.readings|) + 1
      ensures created ==>
                && prompt.id == freshId && prompt.taskId == taskId && prompt.toolCallId == toolCallId
                && prompt.request == request && IsPending(prompt) && prompt.requestedAt == Last(clock.readings)
                && prompt.expiresAt == prompt.requestedAt + clarifyTtlMs && prompt.decidedAt == None
                && prompt.reviewerId == None && prompt.notes == None && prompt.errorCode == None
      ensures created ==> prompts == old(prompts) + [prompt]
      ensures !created ==> prompt in prompts && prompt.taskId == taskId && prompt.toolCallId == toolCallId
      ensures created ==> (ReadInTime(prompt, clock.readings, old(|clock.readings|)) <==> clarifyTtlMs > 0)
      ensures Call(old(Snapshot()), Snapshot(), Exchange(None, [prompt]))
    {
      var k := IndexOfLatest(prompts, taskId, toolCallId);
      if k < |prompts| {
        prompt := ExpireIfNeeded(k);
        assert prompts[k] == prompt;
        ExpiryIsACall(old(Snapshot()), Snapshot(), [prompt]);
        return prompt, false;
      }
      var now := clock.Now();
      prompt, created := NewTicket(freshId, taskId, toolCallId, request, now, clarifyTtlMs), true;
      prompts := prompts + [prompt];
      assert clock.readings[old(|clock.readings|)] == now;
      StepKeepsOnePerCall(old(Snapshot()), Snapshot());
      CreationIsACall(old(Snapshot()), Snapshot(), [prompt]);
    }

    method FindById(id: nat) returns (r: Option<Prompt>)
      requires Valid()
      modifies this, clock
      ensures Valid() && Settles(old(Snapshot()), Snapshot())
      ensures r.None? ==> prompts == old(prompts) && forall k :: 0 <= k < |prompts| ==> prompts[k].id != id
      ensures r.Some? ==> r.value in prompts && r.value.id == id
      ensures Call(old(Snapshot()), Snapshot(), Exchange(None, r.ToSeq()))
    {
      var k := IndexOfId(prompts, id);
      if k == |prompts| {
        return None;
      }
      var x := ExpireIfNeeded(k);
      assert prompts[k] == x;
      r := Some(x);
      ExpiryIsACall(old(Snapshot()), Snapshot(), [x]);
    }

    /** Exactly the prompts that are pending afterwards, every one of them checked before its deadline. */
    method ListPending() returns (r: seq<Prompt>)
      requires Valid()
      modifies this, clock
      ensures Valid() && Settles(old(Snapshot()), Snapshot()) && r == Filter(prompts, IsPending)
      ensures Call(old(Snapshot()), Snapshot(), Exchange(None, r))
    {
      r := [];
      for k := 0 to |prompts|
        invariant Valid() && Listed(old(Snapshot()), Snapshot(), k, r, IsPending)
      {
        ghost var before, listed := Snapshot(), r;
        var prompt := prompts[k];
        if IsPending(prompt) {
          prompt := ExpireIfNeeded(k);
          if IsPending(prompt) { r := r + [prompt]; }
        }
        ListedNext(old(Snapshot()), before, Snapshot(), k, listed, IsPending, prompt);
      }
      ListedIsACall(old(Snapshot()), Snapshot(), r, IsPending);
    }

    method ListByTaskId(taskId: string) returns (r: seq<Prompt>)
      requires Valid()
      modifies this, clock
      ensures Valid() && Settles(old(Snapshot()), Snapshot())
      ensures r == Filter(prompts, (x: Prompt) => x.taskId == taskId)
      ensures Call(old(Snapshot()), Snapshot(), Exchange(None, r))
    {
      var ofTask := (x: Prompt) => x.taskId == taskId;
      r := [];
      for k := 0 to |prompts|
        invariant Valid() && Listed(old(Snapshot()), Snapshot(), k, r, ofTask)
      {
        ghost var before, listed := Snapshot(), r;
        var prompt := prompts[k];
        if prompt.taskId == taskId {
          prompt := ExpireIfNeeded(k);
          r := r + [prompt];
        }
        ListedNext(old(Snapshot()), before, Snapshot(), k, listed, ofTask, prompt);
      }
      ListedIsACall(old(Snapshot()), Snapshot(), r, ofTask);
    }

    /** The first settlement wins: only a prompt that is still pending, with a reading before its
        deadline, gets the reply; any other one is returned as it is. */
    method Settle(promptId: nat, reviewerId: string, reply: Reply) returns (r: Result<Prompt, ClarifyError>)
      requires Valid()
      modifies this, clock
      ensures Valid() && Settles(old(Snapshot()), Snapshot())
      ensures Call(old(Snapshot()), Snapshot(),
                   Exchange(Some(AskOf(promptId, reviewerId, reply)), r.ToOption().ToSeq()))
      ensures r.Err? ==> r == Err(PromptNotFound(promptId)) && prompts == old(prompts)
      ensures r.Err? <==> forall k :: 0 <= k < |old(prompts)| ==> old(prompts)[k].id != promptId
      ensures r.Ok? ==> exists k ::
                && 0 <= k < |prompts| && prompts == old(prompts)[k := r.value] && old(prompts)[k].id == promptId
                && SettledBy(old(prompts)[k], r.value, reviewerId, reply, clock.readings, old(|clock.readings|))
    {
      ghost var ask := AskOf(promptId, reviewerId, reply);
      var k := IndexOfId(prompts, promptId);
      if k == |prompts| {
        RefusalIsACall(Snapshot(), Some(ask));
        return Err(PromptNotFound(promptId));
      }
      var prompt := ExpireIfNeeded(k);
      if !IsPending(prompt) {
        SettledAnswerIsACall(old(Snapshot()), Snapshot(), k, ask);
        return Ok(prompt);
      }
      ghost var checked := clock.readings;
      var now := clock.Now();
      var updated := Decide(prompt, AskOf(promptId, reviewerId, reply), now);
      prompts := prompts[k := updated];
      DecisionIsACall(old(Snapshot()), Snapshot(), k, ask, checked, now);
      DecidedAsAsked(prompt, reviewerId, reply, now, clock.readings, old(|clock.readings|));
      StepKeepsOnePerCall(old(Snapshot()), Snapshot());
      r := Ok(updated);
    }

    method Answer(input: AnswerInput) returns (r: Result<Prompt, ClarifyError>)
      requires Valid()
      modifies this, clock
      ensures Valid() && Settles(old(Snapshot()), Snapshot())
      ensures Call(old(Snapshot()), Snapshot(),
                   Exchange(if !input.Valid() then None
                            else Some(AskOf(input.promptId, input.reviewerId, Answered(input.answer))),
                            r.ToOption().ToSeq()))
      ensures !input.Valid() <==> r == Err(InvalidInput)
      ensures r.Err? ==> prompts == old(prompts)
      ensures input.Valid() && r.Err? ==>
                r.error == PromptNotFound(input.promptId) &&
                forall k :: 0 <= k < |prompts| ==> prompts[k].id != input.promptId
      ensures r.Ok? ==> exists k ::
                && 0 <= k < |prompts| && prompts == old(prompts)[k := r.value] && old(prompts)[k].id == input.promptId
                && SettledBy(old(prompts)[k], r.value, input.reviewerId, Answered(input.answer), clock.readings,
                             old(|clock.readings|))
    {
      if !input.Valid() {
        RefusalIsACall(Snapshot(), None);
        return Err(InvalidInput);
      }
      r := Settle(input.promptId, input.reviewerId, Answered(input.answer));
    }

    method Cancel(promptId: nat, reviewerId: string) returns (r: Result<Prompt, ClarifyError>)
      requires Valid()
      modifies this, clock
      ensures Valid() && Settles(old(Snapshot()), Snapshot())
      ensures Call(old(Snapshot()), Snapshot(),
                   Exchange(if reviewerId == "" then None else Some(AskOf(promptId, reviewerId, Cancelled)),
                            r.ToOption().ToSeq()))
      ensures reviewerId == "" <==> r == Err(InvalidInput)
      ensures r.Err? ==> prompts == old(prompts)
      ensures reviewerId != "" && r.Err? ==>
                r.error == PromptNotFound(promptId) && forall k :: 0 <= k < |prompts| ==> prompts[k].id != promptId
      ensures r.Ok? ==> exists k ::
                && 0 <= k < |prompts| && prompts == old(prompts)[k := r.value] && old(prompts)[k].id == promptId
                && SettledBy(old(prompts)[k], r.value, reviewerId, Cancelled, clock.readings, old(|clock.readings|))
    {
      if reviewerId == "" {
        RefusalIsACall(Snapshot(), None);
        return Err(InvalidInput);
      }
      r := Settle(promptId, reviewerId, Cancelled);
    }

    /** Times out every pending prompt whose deadline a reading has reached, and returns these. */
    method ExpirePending() returns (expired: seq<Prompt>)
      requires Valid()
      modifies this, clock
      ensures Valid() && Settles(old(Snapshot()), Snapshot()) && expired == NewlySettled(old(prompts), prompts)
      ensures PendingReadInTime(prompts, clock.readings, old(|clock.readings|))
      ensures Call(old(Snapshot()), Snapshot(), Exchange(None, expired))
    {
      expired := [];
      for k := 0 to |prompts|
        invariant Valid() && Swept(old(Snapshot()), Snapshot(), k, expired)
      {
        ghost var before, swept := Snapshot(), expired;
        var prompt := prompts[k];
        if IsPending(prompt) {
          prompt := ExpireIfNeeded(k);
          if prompt.outcome.TimedOut? { expired := expired + [prompt]; }
        }
        SweptNext(old(Snapshot()), before, Snapshot(), k, swept, prompt);
      }
      SweptIsACall(old(Snapshot()), Snapshot(), expired);
    }
  }
}

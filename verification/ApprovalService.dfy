/** Approval requests (src/approvals/approval-service.ts). The queries of the repository and the loops
    over their rows are one loop over the tickets here. */
module ApprovalService {
  import opened Lifecycle
  import opened Prelude

  datatype Request = Request(toolName: string, requesterUserId: string, reason: string, policyDecisionId: string,
                             fingerprint: Option<string>)

  datatype AllowScope = Once | Session | Always

  datatype Decision = Allow(scope: AllowScope) | Deny

  type Approval = Ticket<Request, Decision>

  datatype Resolution = Resolution(approvalId: nat, allow: bool, reviewerId: string, reviewerNotes: Option<string>,
                                   allowScope: Option<AllowScope>)

  datatype ApprovalError = InvalidInput | ApprovalNotFound(approvalId: nat)

  function TimedOutApproval(x: Approval, now: int): Approval {
    x.(outcome := TimedOut, decidedAt := Some(now), reviewerId := Some("system"),
       notes := Some("Approval request timed out."), errorCode := Some(ApprovalTimeout))
  }

  function AskOf(input: Resolution): Ask<Decision> {
    Ask(input.approvalId, if input.allow then Allow(input.allowScope.GetOr(Once)) else Deny, input.reviewerId,
        input.reviewerNotes, if input.allow then None else Some(ApprovalDenied))
  }

  /** The system timed the approval out. */
  ghost predicate TimedOutAs(before: Approval, after: Approval) {
    && SameRequest(before, after) && after.outcome.TimedOut? && after.decidedAt.Some?
    && after.reviewerId == Some("system") && after.notes == Some("Approval request timed out.")
    && after.errorCode == Some(ApprovalTimeout)
  }

  /** A pending approval was decided after a reading before its deadline, or timed out; any other one
      is as it was. */
  ghost predicate ResolvedBy(before: Approval, after: Approval, input: Resolution, readings: seq<int>, from: nat) {
    && before.id == input.approvalId
    && if !IsPending(before) then after == before
       else after.decidedAt.Some? &&
            (if after.outcome.TimedOut? then TimedOutAs(before, after)
             else
               && SameRequest(before, after) && ReadInTime(before, readings, from)
               && after.outcome == Decided(if !input.allow then Deny
                                           else Allow(if input.allowScope.Some? then input.allowScope.value else Once))
               && after.reviewerId == Some(input.reviewerId) && after.notes == input.reviewerNotes
               && after.errorCode == if input.allow then None else Some(ApprovalDenied))
  }

  lemma DecidedAsAsked(before: Approval, input: Resolution, now: int, readings: seq<int>, from: nat)
    requires before.id == input.approvalId && IsPending(before) && ReadInTime(before, readings, from)
    ensures ResolvedBy(before, Decide(before, AskOf(input), now), input, readings, from)
  {
  }

  class ApprovalService {
    const clock: Clock
    const approvalTtlMs: int
    var approvals: seq<Approval>

    ghost function Snapshot(): State<Request, Decision>
      reads this, clock
    {
      State(approvals, clock.readings)
    }

    ghost predicate Valid()
      reads this, clock
    {
      clock.Valid() && OnePerCall(approvals)
    }

    constructor (clock: Clock, approvalTtlMs: int)
      requires clock.Valid()
      ensures Valid() && this.clock == clock && this.approvalTtlMs == approvalTtlMs && approvals == []
    {
      this.clock, this.approvalTtlMs, approvals := clock, approvalTtlMs, [];
    }

    /** Times the approval out if a first reading has reached its deadline. */
    method ExpireIfNeeded(k: nat) returns (r: Approval)
      requires Valid() && k < |approvals|
      modifies this, clock
      ensures Valid() && Expires(old(Snapshot()), Snapshot())
      ensures approvals == old(approvals)[k := r]
      ensures Checked(old(approvals)[k], r, old(clock.readings), clock.readings)
      ensures r == old(approvals)[k] || TimedOutAs(old(approvals)[k], r)
      ensures IsPending(r) ==> ReadInTime(r, clock.readings, old(|clock.readings|))
    {
      r := approvals[k];
      if IsPending(r) {
        var check := clock.Now();
        if r.expiresAt <= check {
          var now := clock.Now();
          r := TimedOutApproval(r, now);
          approvals := approvals[k := r];
        }
      }
      CheckExpires(old(Snapshot()), Snapshot(), k);
      StepKeepsOnePerCall(old(Snapshot()), Snapshot());
    }

    method EnsureApprovalRequest(taskId: string, toolCallId: string, request: Request, freshId: nat)
      returns (approval: Approval, created: bool)
      requires Valid() && forall k :: 0 <= k < |approvals| ==> approvals[k].id != freshId
      modifies this, clock
      ensures Valid() && Step(old(Snapshot()), Snapshot())
      ensures created <==> forall k :: 0 <= k < old(|approvals|) ==>
                !(old(approvals)[k].taskId == taskId && old(approvals)[k].toolCallId == toolCallId)
      ensures created ==> |clock.readings| == old(|clock.readings|) + 1
      ensures created ==>
                && approval.id == freshId && approval.taskId == taskId && approval.toolCallId == toolCallId
                && approval.request == request && IsPending(approval) && approval.requestedAt == Last(clock.readings)
                && approval.expiresAt == approval.requestedAt + approvalTtlMs && approval.decidedAt == None
                && approval.reviewerId == None && approval.notes == None && approval.errorCode == None
      ensures created ==> approvals == old(approvals) + [approval]
      ensures !created ==> approval in approvals && approval.taskId == taskId && approval.toolCallId == toolCallId
      ensures created ==> (ReadInTime(approval, clock.readings, old(|clock.readings|)) <==> approvalTtlMs > 0)
      ensures Call(old(Snapshot()), Snapshot(), Exchange(None, [approval]))
    {
      var k := IndexOfLatest(approvals, taskId, toolCallId);
      if k < |approvals| {
        approval := ExpireIfNeeded(k);
        assert approvals[k] == approval;
        ExpiryIsACall(old(Snapshot()), Snapshot(), [approval]);
        return approval, false;
      }
      var now := clock.Now();
      approval, created := NewTicket(freshId, taskId, toolCallId, request, now, approvalTtlMs), true;
      approvals := approvals + [approval];
      assert clock.readings[old(|clock.readings|)] == now;
      StepKeepsOnePerCall(old(Snapshot()), Snapshot());
      CreationIsACall(old(Snapshot()), Snapshot(), [approval]);
    }

    method FindById(id: nat) returns (r: Option<Approval>)
      requires Valid()
      modifies this, clock
      ensures Valid() && Settles(old(Snapshot()), Snapshot())
      ensures r.None? ==> approvals == old(approvals) && forall k :: 0 <= k < |approvals| ==> approvals[k].id != id
      ensures r.Some? ==> r.value in approvals && r.value.id == id
      ensures Call(old(Snapshot()), Snapshot(), Exchange(None, r.ToSeq()))
    {
      var k := IndexOfId(approvals, id);
      if k == |approvals| {
        return None;
      }
      var x := ExpireIfNeeded(k);
      assert approvals[k] == x;
      r := Some(x);
      ExpiryIsACall(old(Snapshot()), Snapshot(), [x]);
    }

    /** Exactly the approvals that are pending afterwards, every one of them checked before its deadline. */
    method ListPending() returns (r: seq<Approval>)
      requires Valid()
      modifies this, clock
      ensures Valid() && Settles(old(Snapshot()), Snapshot()) && r == Filter(approvals, IsPending)
      ensures Call(old(Snapshot()), Snapshot(), Exchange(None, r))
    {
      r := [];
      for k := 0 to |approvals|
        invariant Valid() && Listed(old(Snapshot()), Snapshot(), k, r, IsPending)
      {
        ghost var before, listed := Snapshot(), r;
        var approval := approvals[k];
        if IsPending(approval) {
          approval := ExpireIfNeeded(k);
          if IsPending(approval) { r := r + [approval]; }
        }
        ListedNext(old(Snapshot()), before, Snapshot(), k, listed, IsPending, approval);
      }
      ListedIsACall(old(Snapshot()), Snapshot(), r, IsPending);
    }

    method ListByTaskId(taskId: string) returns (r: seq<Approval>)
      requires Valid()
      modifies this, clock
      ensures Valid() && Settles(old(Snapshot()), Snapshot())
      ensures r == Filter(approvals, (x: Approval) => x.taskId == taskId)
      ensures Call(old(Snapshot()), Snapshot(), Exchange(None, r))
    {
      var ofTask := (x: Approval) => x.taskId == taskId;
      r := [];
      for k := 0 to |approvals|
        invariant Valid() && Listed(old(Snapshot()), Snapshot(), k, r, ofTask)
      {
        ghost var before, listed := Snapshot(), r;
        var approval := approvals[k];
        if approval.taskId == taskId {
          approval := ExpireIfNeeded(k);
          r := r + [approval];
        }
        ListedNext(old(Snapshot()), before, Snapshot(), k, listed, ofTask, approval);
      }
      ListedIsACall(old(Snapshot()), Snapshot(), r, ofTask);
    }

    /** The first decision wins: only an approval that is still pending, with a reading before its
        deadline, is decided; any other one is returned as it is. */
    method Resolve(input: Resolution) returns (r: Result<Approval, ApprovalError>)
      requires Valid()
      modifies this, clock
      ensures Valid() && Settles(old(Snapshot()), Snapshot())
      ensures Call(old(Snapshot()), Snapshot(),
                   Exchange(if input.reviewerId == "" then None else Some(AskOf(input)), r.ToOption().ToSeq()))
      ensures input.reviewerId == "" <==> r == Err(InvalidInput)
      ensures r.Err? ==> approvals == old(approvals)
      ensures r.Err? ==> r.error == InvalidInput || r.error == ApprovalNotFound(input.approvalId)
      ensures r == Err(ApprovalNotFound(input.approvalId)) ==>
                forall k :: 0 <= k < |approvals| ==> approvals[k].id != input.approvalId
      ensures r.Ok? ==> exists k ::
                && 0 <= k < |approvals| && approvals == old(approvals)[k := r.value]
                && ResolvedBy(old(approvals)[k], r.value, input, clock.readings, old(|clock.readings|))
    {
      if input.reviewerId == "" {
        RefusalIsACall(Snapshot(), None);
        return Err(InvalidInput);
      }
      var k := IndexOfId(approvals, input.approvalId);
      if k == |approvals| {
        RefusalIsACall(Snapshot(), Some(AskOf(input)));
        return Err(ApprovalNotFound(input.approvalId));
      }
      var approval := ExpireIfNeeded(k);
      if !IsPending(approval) {
        SettledAnswerIsACall(old(Snapshot()), Snapshot(), k, AskOf(input));
        return Ok(approval);
      }
      ghost var checked := clock.readings;
      var now := clock.Now();
      var updated := Decide(approval, AskOf(input), now);
      approvals := approvals[k := updated];
      DecisionIsACall(old(Snapshot()), Snapshot(), k, AskOf(input), checked, now);
      DecidedAsAsked(approval, input, now, clock.readings, old(|clock.readings|));
      StepKeepsOnePerCall(old(Snapshot()), Snapshot());
      r := Ok(updated);
    }

    /** Times out every pending approval whose deadline a reading has reached, and returns these. */
    method ExpirePending() returns (expired: seq<Approval>)
      requires Valid()
      modifies this, clock
      ensures Valid() && Settles(old(Snapshot()), Snapshot()) && expired == NewlySettled(old(approvals), approvals)
      ensures PendingReadInTime(approvals, clock.readings, old(|clock.readings|))
      ensures Call(old(Snapshot()), Snapshot(), Exchange(None, expired))
    {
      expired := [];
      for k := 0 to |approvals|
        invariant Valid() && Swept(old(Snapshot()), Snapshot(), k, expired)
      {
        ghost var before, swept := Snapshot(), expired;
        var approval := approvals[k];
        if IsPending(approval) {
          approval := ExpireIfNeeded(k);
          if approval.outcome.TimedOut? { expired := expired + [approval]; }
        }
        SweptNext(old(Snapshot()), before, Snapshot(), k, swept, approval);
      }
      SweptIsACall(old(Snapshot()), Snapshot(), expired);
    }
  }

  /** The time of a decision may reach the deadline: created at 0, checked one millisecond before the
      deadline and stamped at the deadline, in two calls of the service. */
  lemma DecisionCanBeStampedLate(taskId: string, toolCallId: string, request: Request, input: Resolution, ttl: int)
      returns (run: seq<State<Request, Decision>>, calls: seq<Exchange<Request, Decision>>)
    requires ttl >= 1 && input.reviewerId != ""
    ensures IsCallRun(run, calls) && |run| == 3
    ensures var x := NewTicket(input.approvalId, taskId, toolCallId, request, 0, ttl);
            && run[1].tickets == [x] && run[1].readings == [0] && calls[1] == Exchange(None, [x])
            && run[2].tickets == [Decide(x, AskOf(input), ttl)]
            && calls[2] == Exchange(Some(AskOf(input)), run[2].tickets)
            && ResolvedBy(x, run[2].tickets[0], input, run[2].readings, 1)
    ensures run[2].tickets[0].outcome.Decided? && run[2].tickets[0].decidedAt == Some(run[2].tickets[0].expiresAt)
  {
    var x := NewTicket(input.approvalId, taskId, toolCallId, request, 0, ttl);
    var y := Decide(x, AskOf(input), ttl);
    var s0, s1, s2 := State([], []), State([x], [0]), State([y], [0, ttl - 1, ttl]);
    run, calls := [s0, s1, s2], [Exchange(None, []), Exchange(None, [x]), Exchange(Some(AskOf(input)), [y])];
    assert Last(s1.tickets) == x && Last(s1.readings) == 0;
    CreationIsACall(s0, s1, [x]);
    DecisionIsACall(s1, s2, 0, AskOf(input), [0, ttl - 1], ttl);
  }
}

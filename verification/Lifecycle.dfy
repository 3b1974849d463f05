/** The life of an approval request or a clarify prompt under a clock: what one call may change, and
    what holds over every sequence of calls (src/approvals/approval-service.ts,
    src/approvals/clarify-service.ts).

    A ticket is created pending and settled at most once, by a decision or by its deadline. The
    services in ApprovalService.dfy and ClarifyService.dfy are proved to take only such steps. */
module Lifecycle {
  import opened Prelude

  datatype Outcome<D> = Pending | TimedOut | Decided(decision: D)

  datatype ErrorCode = ApprovalDenied | ClarificationCancelled | ApprovalTimeout

  datatype Ticket<R, D> = Ticket(
    id: nat,
    taskId: string,
    toolCallId: string,
    request: R,
    requestedAt: int,
    expiresAt: int,
    outcome: Outcome<D>,
    decidedAt: Option<int>,
    reviewerId: Option<string>,
    notes: Option<string>,
    errorCode: Option<ErrorCode>)

  /** The tickets in the order of their creation, and all clock readings so far. */
  datatype State<R, D> = State(tickets: seq<Ticket<R, D>>, readings: seq<int>)

  /** A valid request to settle a ticket. */
  datatype Ask<D> = Ask(ticketId: nat, decision: D, reviewerId: string, notes: Option<string>,
                        errorCode: Option<ErrorCode>)

  /** What a caller hands to one call, if it asks for a decision, and the tickets it gets back. */
  datatype Exchange<R, D> = Exchange(asked: Option<Ask<D>>, returned: seq<Ticket<R, D>>)

  predicate IsPending<R, D>(x: Ticket<R, D>) {
    x.outcome.Pending?
  }

  function NewTicket<R, D>(id: nat, taskId: string, toolCallId: string, request: R, now: int, ttl: int): Ticket<R, D> {
    Ticket(id, taskId, toolCallId, request, now, now + ttl, Pending, None, None, None, None)
  }

  function Decide<R, D>(x: Ticket<R, D>, ask: Ask<D>, now: int): Ticket<R, D> {
    x.(outcome := Decided(ask.decision), decidedAt := Some(now), reviewerId := Some(ask.reviewerId), notes := ask.notes,
       errorCode := ask.errorCode)
  }

  /** Only outcome, reviewer, notes, error code and time of the decision may differ. */
  ghost predicate SameRequest<R, D>(x: Ticket<R, D>, y: Ticket<R, D>) {
    && y.id == x.id && y.taskId == x.taskId && y.toolCallId == x.toolCallId && y.request == x.request
    && y.requestedAt == x.requestedAt && y.expiresAt == x.expiresAt
  }

  /** `y` is `x` decided at `at` as the request asks. */
  ghost predicate DecidedAs<R, D>(x: Ticket<R, D>, y: Ticket<R, D>, ask: Ask<D>, at: int) {
    && SameRequest(x, y) && y.outcome == Decided(ask.decision) && y.decidedAt == Some(at)
    && y.reviewerId == Some(ask.reviewerId) && y.notes == ask.notes && y.errorCode == ask.errorCode
  }

  // ----- Steps -----

  /** `y` is `x` settled: the deadline was compared with the reading `check`, the time of the
      settlement is the reading `at`, and the request itself is untouched. */
  ghost predicate SettledAt<R, D>(x: Ticket<R, D>, y: Ticket<R, D>, check: int, at: int) {
    && IsPending(x) && !IsPending(y)
    && x == y.(outcome := x.outcome, decidedAt := x.decidedAt, reviewerId := x.reviewerId, notes := x.notes,
              errorCode := x.errorCode)
    && y.decidedAt == Some(at)
    && (y.outcome.TimedOut? <==> x.expiresAt <= check)
  }

  /** ... with two of the readings since the first `from` ones. */
  ghost predicate Settled<R, D>(x: Ticket<R, D>, y: Ticket<R, D>, readings: seq<int>, from: nat) {
    exists i, j :: from <= i < j < |readings| && SettledAt(x, y, readings[i], readings[j])
  }

  ghost predicate Settles<R, D>(s: State<R, D>, t: State<R, D>) {
    && s.readings <= t.readings && |t.tickets| == |s.tickets|
    && forall k :: 0 <= k < |s.tickets| ==>
         t.tickets[k] == s.tickets[k] || Settled(s.tickets[k], t.tickets[k], t.readings, |s.readings|)
  }

  predicate SameCall<R, D>(x: Ticket<R, D>, y: Ticket<R, D>) {
    x.taskId == y.taskId && x.toolCallId == y.toolCallId
  }

  ghost predicate Creates<R, D>(s: State<R, D>, t: State<R, D>) {
    && s.readings < t.readings && |t.tickets| == |s.tickets| + 1 && t.tickets[..|s.tickets|] == s.tickets
    && var x := Last(t.tickets);
       && IsPending(x) && x.decidedAt == None && x.requestedAt == Last(t.readings)
       && forall k :: 0 <= k < |s.tickets| ==> s.tickets[k].id != x.id && !SameCall(s.tickets[k], x)
  }

  /** What one call of a service may do. */
  ghost predicate Step<R, D>(s: State<R, D>, t: State<R, D>) {
    Settles(s, t) || Creates(s, t)
  }

  ghost predicate Ascending(readings: seq<int>) {
    forall i, j :: 0 <= i < j < |readings| ==> readings[i] <= readings[j]
  }

  // ----- Deadlines -----

  /** A check of the deadline of `x` turned it into `y`: the first new reading decides whether it timed out. */
  ghost predicate Checked<R, D>(x: Ticket<R, D>, y: Ticket<R, D>, before: seq<int>, after: seq<int>) {
    && before <= after
    && if !IsPending(x) then y == x && after == before
       else |before| < |after| &&
            (if after[|before|] < x.expiresAt then y == x && |after| == |before| + 1
             else |after| == |before| + 2 && SettledAt(x, y, after[|before|], after[|before| + 1]))
  }

  /** Pending tickets are left pending or timed out. */
  ghost predicate Expires<R, D>(s: State<R, D>, t: State<R, D>) {
    Settles(s, t) &&
    forall k :: 0 <= k < |s.tickets| && IsPending(s.tickets[k]) ==> !t.tickets[k].outcome.Decided?
  }

  /** `x` was pending when a reading since the first `from` ones was still before its deadline. */
  ghost predicate ReadInTime<R, D>(x: Ticket<R, D>, readings: seq<int>, from: nat) {
    exists i :: from <= i < |readings| && readings[i] < x.expiresAt
  }

  lemma CheckedOne<R, D>(x: Ticket<R, D>, y: Ticket<R, D>, before: seq<int>, after: seq<int>)
    requires Checked(x, y, before, after)
    ensures y == x || Settled(x, y, after, |before|)
    ensures IsPending(y) ==> ReadInTime(y, after, |before|)
    ensures IsPending(x) ==> !y.outcome.Decided?
  {
  }

  lemma CheckExpires<R, D>(s: State<R, D>, t: State<R, D>, k: nat)
    requires k < |s.tickets| && |t.tickets| == |s.tickets| && t.tickets == s.tickets[k := t.tickets[k]]
    requires Checked(s.tickets[k], t.tickets[k], s.readings, t.readings)
    ensures Expires(s, t)
    ensures IsPending(t.tickets[k]) ==> ReadInTime(t.tickets[k], t.readings, |s.readings|)
  {
    CheckedOne(s.tickets[k], t.tickets[k], s.readings, t.readings);
  }

  lemma SettledLater<R, D>(x: Ticket<R, D>, y: Ticket<R, D>, readings: seq<int>, more: seq<int>, from: nat,
                           earlier: nat)
    requires Settled(x, y, readings, from) && earlier <= from && readings <= more
    ensures Settled(x, y, more, earlier)
  {
    var i, j :| from <= i < j < |readings| && SettledAt(x, y, readings[i], readings[j]);
    assert more[i] == readings[i] && more[j] == readings[j];
  }

  lemma ExpiresTransitive<R, D>(s: State<R, D>, t: State<R, D>, u: State<R, D>)
    requires Expires(s, t) && Expires(t, u)
    ensures Expires(s, u)
  {
    forall k | 0 <= k < |s.tickets|
      ensures u.tickets[k] == s.tickets[k] || Settled(s.tickets[k], u.tickets[k], u.readings, |s.readings|)
      ensures IsPending(s.tickets[k]) ==> !u.tickets[k].outcome.Decided?
    {
      var x, y, z := s.tickets[k], t.tickets[k], u.tickets[k];
      if y != x {
        SettledLater(x, y, t.readings, u.readings, |s.readings|, |s.readings|);
        assert z == y;
      } else if z != y {
        SettledLater(y, z, u.readings, u.readings, |t.readings|, |s.readings|);
      }
    }
  }

  // ----- Requests -----

  predicate Asks<D>(asked: Option<Ask<D>>, id: nat) {
    asked.Some? && asked.value.ticketId == id
  }

  /** What a call does to a pending `x`: a request about it compares the deadline with the first reading
      of the call and then either times it out or decides it as asked, and no other call decides it. */
  ghost predicate Answered<R, D>(asked: Option<Ask<D>>, x: Ticket<R, D>, y: Ticket<R, D>, before: seq<int>,
                                 after: seq<int>)
  {
    if Asks(asked, x.id) then
      && |after| == |before| + 2 && SettledAt(x, y, after[|before|], after[|before| + 1])
      && (y.outcome.Decided? ==> y == Decide(x, asked.value, after[|before| + 1]))
    else !y.outcome.Decided?
  }

  ghost predicate Honours<R, D>(asked: Option<Ask<D>>, s: State<R, D>, t: State<R, D>) {
    forall k :: 0 <= k < |s.tickets| && k < |t.tickets| && IsPending(s.tickets[k]) ==>
      Answered(asked, s.tickets[k], t.tickets[k], s.readings, t.readings)
  }

  /** What a call from `s` to `t` may return: current tickets; one that is still pending was read in time. */
  ghost predicate Returned<R, D>(returned: seq<Ticket<R, D>>, s: State<R, D>, t: State<R, D>) {
    forall i :: 0 <= i < |returned| ==>
      && returned[i] in t.tickets
      && (IsPending(returned[i]) && returned[i] in s.tickets ==> ReadInTime(returned[i], t.readings, |s.readings|))
  }

  ghost predicate Call<R, D>(s: State<R, D>, t: State<R, D>, e: Exchange<R, D>) {
    Step(s, t) && Honours(e.asked, s, t) && Returned(e.returned, s, t)
  }

  lemma ExpiryIsACall<R, D>(s: State<R, D>, t: State<R, D>, returned: seq<Ticket<R, D>>)
    requires Expires(s, t) && Returned(returned, s, t)
    ensures Call(s, t, Exchange(None, returned))
  {
  }

  lemma CreationIsACall<R, D>(s: State<R, D>, t: State<R, D>, returned: seq<Ticket<R, D>>)
    requires Creates(s, t) && Returned(returned, s, t)
    ensures Call(s, t, Exchange(None, returned))
  {
    forall k | 0 <= k < |s.tickets| ensures t.tickets[k] == s.tickets[k] {
      assert t.tickets[k] == t.tickets[..|s.tickets|][k];
    }
  }

  /** A call that changes nothing: its input is invalid, or it asks about an unknown ticket. */
  lemma RefusalIsACall<R, D>(s: State<R, D>, asked: Option<Ask<D>>)
    requires forall k :: 0 <= k < |s.tickets| ==> !Asks(asked, s.tickets[k].id)
    ensures Call(s, s, Exchange(asked, []))
  {
  }

  /** A request about a ticket that the check finds settled, or times out. */
  lemma SettledAnswerIsACall<R, D>(s: State<R, D>, t: State<R, D>, k: nat, ask: Ask<D>)
    requires OnePerCall(s.tickets) && k < |s.tickets| && s.tickets[k].id == ask.ticketId
    requires |t.tickets| == |s.tickets| && t.tickets == s.tickets[k := t.tickets[k]]
    requires Checked(s.tickets[k], t.tickets[k], s.readings, t.readings) && !IsPending(t.tickets[k])
    ensures Call(s, t, Exchange(Some(ask), [t.tickets[k]]))
  {
    CheckExpires(s, t, k);
    forall i | 0 <= i < |s.tickets| && IsPending(s.tickets[i])
      ensures Answered(Some(ask), s.tickets[i], t.tickets[i], s.readings, t.readings)
    {
      if i != k { assert s.tickets[i].id != s.tickets[k].id; }
    }
  }

  /** A request about a ticket that the check finds pending: the reading after the check dates the decision. */
  lemma DecisionIsACall<R, D>(s: State<R, D>, t: State<R, D>, k: nat, ask: Ask<D>, checked: seq<int>, now: int)
    requires OnePerCall(s.tickets) && k < |s.tickets| && s.tickets[k].id == ask.ticketId && IsPending(s.tickets[k])
    requires Checked(s.tickets[k], s.tickets[k], s.readings, checked) && t.readings == checked + [now]
    requires t.tickets == s.tickets[k := Decide(s.tickets[k], ask, now)]
    ensures Call(s, t, Exchange(Some(ask), [t.tickets[k]])) && Settles(s, t)
    ensures ReadInTime(s.tickets[k], t.readings, |s.readings|)
  {
    var x, y, n := s.tickets[k], t.tickets[k], |s.readings|;
    assert t.readings[n] == checked[n] < x.expiresAt && t.readings[n + 1] == now;
    assert SettledAt(x, y, t.readings[n], t.readings[n + 1]);
    forall i | 0 <= i < |s.tickets| && IsPending(s.tickets[i])
      ensures Answered(Some(ask), s.tickets[i], t.tickets[i], s.readings, t.readings)
    {
      if i != k { assert s.tickets[i].id != s.tickets[k].id; }
    }
  }

  // ----- Every sequence of calls -----

  ghost predicate IsRun<R, D>(run: seq<State<R, D>>) {
    && run != [] && run[0].tickets == [] && Ascending(Last(run).readings)
    && forall n :: 0 < n < |run| ==> Step(run[n - 1], run[n])
  }

  /** A run with what its calls were asked and returned; entry 0 belongs to no call. */
  ghost predicate IsCallRun<R, D>(run: seq<State<R, D>>, calls: seq<Exchange<R, D>>) {
    && IsRun(run) && |calls| == |run|
    && forall n :: 0 < n < |run| ==> Call(run[n - 1], run[n], calls[n])
  }

  ghost predicate OnePerCall<R, D>(tickets: seq<Ticket<R, D>>) {
    forall i, j :: 0 <= i < j < |tickets| ==> tickets[i].id != tickets[j].id && !SameCall(tickets[i], tickets[j])
  }

  lemma StepKeepsOnePerCall<R, D>(s: State<R, D>, t: State<R, D>)
    requires Step(s, t) && OnePerCall(s.tickets)
    ensures OnePerCall(t.tickets)
  {
    if Settles(s, t) {
      forall k | 0 <= k < |s.tickets|
        ensures t.tickets[k].id == s.tickets[k].id && SameCall(t.tickets[k], s.tickets[k])
      {
      }
    } else {
      assert forall k :: 0 <= k < |s.tickets| ==> t.tickets[k] == t.tickets[..|s.tickets|][k] == s.tickets[k];
    }
  }

  /** There is at most one ticket for a task and tool call. */
  lemma {:induction false} AtMostOneTicketPerCall<R, D>(run: seq<State<R, D>>, n: nat)
    requires IsRun(run) && n < |run|
    ensures OnePerCall(run[n].tickets)
    decreases n
  {
    if n > 0 {
      AtMostOneTicketPerCall(run, n - 1);
      StepKeepsOnePerCall(run[n - 1], run[n]);
    }
  }

  lemma StepKeepsTicket<R, D>(s: State<R, D>, t: State<R, D>, k: nat)
    requires Step(s, t) && k < |s.tickets|
    ensures k < |t.tickets|
    ensures t.tickets[k] == s.tickets[k] || Settled(s.tickets[k], t.tickets[k], t.readings, |s.readings|)
    ensures !IsPending(s.tickets[k]) ==> t.tickets[k] == s.tickets[k]
  {
    if Creates(s, t) { assert t.tickets[k] == t.tickets[..|s.tickets|][k]; }
  }

  lemma NewTicketIsPending<R, D>(s: State<R, D>, t: State<R, D>, k: nat)
    requires Step(s, t) && k < |t.tickets|
    ensures k < |s.tickets| || IsPending(t.tickets[k])
  {
  }

  /** A settled ticket never changes again. */
  lemma {:induction false} SettledIsFinal<R, D>(run: seq<State<R, D>>, m: nat, n: nat, k: nat)
    requires IsRun(run) && m <= n < |run| && k < |run[m].tickets| && !IsPending(run[m].tickets[k])
    ensures k < |run[n].tickets| && run[n].tickets[k] == run[m].tickets[k]
    decreases n
  {
    if m < n {
      SettledIsFinal(run, m, n - 1, k);
      StepKeepsTicket(run[n - 1], run[n], k);
    }
  }

  /** Every settled ticket was settled by exactly one call: it was pending before that call `m`, and
      the call read the clock first to compare the deadline and later to stamp the decision. So a
      decision stands only if that first reading was before the deadline. */
  lemma {:induction false} FirstSettlementWins<R, D>(run: seq<State<R, D>>, n: nat, k: nat) returns (m: nat)
    requires IsRun(run) && n < |run| && k < |run[n].tickets| && !IsPending(run[n].tickets[k])
    ensures 0 < m <= n && k < |run[m - 1].tickets| && IsPending(run[m - 1].tickets[k])
    ensures k < |run[m].tickets| && run[m].tickets[k] == run[n].tickets[k]
    ensures Settled(run[m - 1].tickets[k], run[n].tickets[k], run[m].readings, |run[m - 1].readings|)
    decreases n
  {
    var s, t := run[n - 1], run[n];
    NewTicketIsPending(s, t, k);
    StepKeepsTicket(s, t, k);
    if IsPending(s.tickets[k]) {
      m := n;
    } else {
      m := FirstSettlementWins(run, n - 1, k);
    }
  }

  lemma {:induction false} ReadingsGrow<R, D>(run: seq<State<R, D>>, m: nat, n: nat)
    requires IsRun(run) && m <= n < |run|
    ensures run[m].readings <= run[n].readings
    decreases n
  {
    if m < n {
      ReadingsGrow(run, m, n - 1);
      assert Step(run[n - 1], run[n]);
    }
  }

  lemma PrefixIsShared<R, D>(run: seq<State<R, D>>, m: nat, n: nat)
    requires IsRun(run) && m < n < |run|
    ensures |run[m].readings| <= |run[n - 1].readings| <= |run[n].readings|
    ensures forall i :: 0 <= i < |run[m].readings| ==> run[m].readings[i] == run[n].readings[i]
  {
    ReadingsGrow(run, m, n - 1);
    ReadingsGrow(run, n - 1, n);
  }

  lemma {:induction false} RequestIsFixed<R, D>(run: seq<State<R, D>>, m: nat, n: nat, k: nat)
    requires IsRun(run) && m <= n < |run| && k < |run[m].tickets|
    ensures k < |run[n].tickets|
    ensures run[n].tickets[k].id == run[m].tickets[k].id && run[n].tickets[k].expiresAt == run[m].tickets[k].expiresAt
    decreases n
  {
    if m < n {
      RequestIsFixed(run, m, n - 1, k);
      StepKeepsTicket(run[n - 1], run[n], k);
    }
  }

  // ----- The first request decides -----

  /** Call `m` asks about ticket `k`, which exists by then. */
  predicate AsksAbout<R, D>(run: seq<State<R, D>>, calls: seq<Exchange<R, D>>, m: nat, k: nat)
    requires 0 < m < |run| == |calls|
  {
    k < |run[m - 1].tickets| && Asks(calls[m].asked, run[m - 1].tickets[k].id)
  }

  /** ... and no earlier call did. */
  ghost predicate FirstToAsk<R, D>(run: seq<State<R, D>>, calls: seq<Exchange<R, D>>, m: nat, k: nat)
    requires 0 < m < |run| == |calls|
  {
    AsksAbout(run, calls, m, k) && forall j :: 0 < j < m ==> !AsksAbout(run, calls, j, k)
  }

  lemma AskedIsSettled<R, D>(run: seq<State<R, D>>, calls: seq<Exchange<R, D>>, m: nat, k: nat)
    requires IsCallRun(run, calls) && 0 < m < |run| && AsksAbout(run, calls, m, k)
    ensures k < |run[m].tickets| && !IsPending(run[m].tickets[k])
  {
    StepKeepsTicket(run[m - 1], run[m], k);
    if IsPending(run[m - 1].tickets[k]) {
      assert Answered(calls[m].asked, run[m - 1].tickets[k], run[m].tickets[k], run[m - 1].readings, run[m].readings);
    }
  }

  lemma AskedEarlierIsSettled<R, D>(run: seq<State<R, D>>, calls: seq<Exchange<R, D>>, j: nat, m: nat, k: nat)
    requires IsCallRun(run, calls) && 0 < j <= m < |run| && AsksAbout(run, calls, j, k)
    ensures k < |run[m].tickets| && !IsPending(run[m].tickets[k])
  {
    AskedIsSettled(run, calls, j, k);
    SettledIsFinal(run, j, m, k);
  }

  lemma NobodyAskedBefore<R, D>(run: seq<State<R, D>>, calls: seq<Exchange<R, D>>, m: nat, k: nat)
    requires IsCallRun(run, calls) && 0 < m < |run| && k < |run[m - 1].tickets| && IsPending(run[m - 1].tickets[k])
    ensures forall j :: 0 < j < m ==> !AsksAbout(run, calls, j, k)
  {
    forall j | 0 < j < m ensures !AsksAbout(run, calls, j, k) {
      if AsksAbout(run, calls, j, k) { AskedEarlierIsSettled(run, calls, j, m - 1, k); }
    }
  }

  lemma AnsweredMeansAsked<R, D>(asked: Option<Ask<D>>, x: Ticket<R, D>, y: Ticket<R, D>, before: seq<int>,
                                 after: seq<int>)
    requires Answered(asked, x, y, before, after) && y.outcome.Decided?
    ensures Asks(asked, x.id) && |after| == |before| + 2 && DecidedAs(x, y, asked.value, Last(after))
  {
  }

  /** Every stored decision is the one that the first request about the ticket asked for. */
  lemma StoredDecisionIsTheFirstAsked<R, D>(run: seq<State<R, D>>, calls: seq<Exchange<R, D>>, n: nat, k: nat)
    returns (m: nat)
    requires IsCallRun(run, calls) && n < |run| && k < |run[n].tickets| && run[n].tickets[k].outcome.Decided?
    ensures 0 < m <= n && FirstToAsk(run, calls, m, k) && IsPending(run[m - 1].tickets[k])
    ensures |run[m].readings| == |run[m - 1].readings| + 2
    ensures DecidedAs(run[m - 1].tickets[k], run[n].tickets[k], calls[m].asked.value, Last(run[m].readings))
  {
    m := FirstSettlementWins(run, n, k);
    var s, t := run[m - 1], run[m];
    assert Call(s, t, calls[m]);
    AnsweredMeansAsked(calls[m].asked, s.tickets[k], t.tickets[k], s.readings, t.readings);
    NobodyAskedBefore(run, calls, m, k);
  }

  lemma TimeOutSawTheDeadline<R, D>(run: seq<State<R, D>>, n: nat, k: nat) returns (i: nat)
    requires IsRun(run) && n < |run| && k < |run[n].tickets| && run[n].tickets[k].outcome.TimedOut?
    ensures i < |run[n].readings| && run[n].tickets[k].expiresAt <= run[n].readings[i]
  {
    var j := FirstSettlementWins(run, n, k);
    var x, y, readings := run[j - 1].tickets[k], run[n].tickets[k], run[j].readings;
    var at: nat;
    i, at :| |run[j - 1].readings| <= i < at < |readings| && SettledAt(x, y, readings[i], readings[at]);
    ReadingsGrow(run, j, n);
    assert run[n].readings[i] == readings[i];
  }

  /** A ticket that timed out before call `m` finds no reading of call `m` before its deadline. */
  lemma NoReadingInTimeAfterTimeOut<R, D>(run: seq<State<R, D>>, m: nat, k: nat, i: nat)
    requires IsRun(run) && 0 < m < |run| && k < |run[m - 1].tickets| && run[m - 1].tickets[k].outcome.TimedOut?
    requires |run[m - 1].readings| <= i < |run[m].readings|
    ensures run[m - 1].tickets[k].expiresAt <= run[m].readings[i]
  {
    var j := TimeOutSawTheDeadline(run, m - 1, k);
    ReadingsGrow(run, m - 1, m);
    ReadingsGrow(run, m, |run| - 1);
    var all := Last(run).readings;
    assert run[m - 1].readings[j] == run[m].readings[j] == all[j] <= all[i] == run[m].readings[i];
  }

  /** The first request about a ticket settles it for good, and as asked exactly if the first clock
      reading of that call is before the deadline. */
  lemma FirstAskDecidesIffInTime<R, D>(run: seq<State<R, D>>, calls: seq<Exchange<R, D>>, m: nat, n: nat, k: nat)
    requires IsCallRun(run, calls) && 0 < m <= n < |run| && FirstToAsk(run, calls, m, k)
    ensures k < |run[n].tickets|
    ensures var x, readings := run[m - 1].tickets[k], run[m].readings[|run[m - 1].readings|..];
            if readings != [] && readings[0] < x.expiresAt
            then DecidedAs(x, run[n].tickets[k], calls[m].asked.value, Last(readings))
            else run[n].tickets[k].outcome.TimedOut? && SameRequest(x, run[n].tickets[k])
  {
    var x := run[m - 1].tickets[k];
    AskedIsSettled(run, calls, m, k);
    SettledIsFinal(run, m, n, k);
    if x.outcome.Decided? {
      var j := StoredDecisionIsTheFirstAsked(run, calls, m - 1, k);
    } else if x.outcome.TimedOut? {
      SettledIsFinal(run, m - 1, n, k);
      if |run[m - 1].readings| < |run[m].readings| { NoReadingInTimeAfterTimeOut(run, m, k, |run[m - 1].readings|); }
    } else {
      assert Call(run[m - 1], run[m], calls[m]);
      assert Answered(calls[m].asked, x, run[m].tickets[k], run[m - 1].readings, run[m].readings);
    }
  }

  // ----- What the calls return -----

  lemma EarlierReadingsAreInTime<R, D>(x: Ticket<R, D>, readings: seq<int>, from: nat)
    requires Ascending(readings) && from <= |readings| && ReadInTime(x, readings, from)
    ensures forall i :: 0 <= i < from ==> readings[i] < x.expiresAt
  {
    var j :| from <= j < |readings| && readings[j] < x.expiresAt;
    assert forall i :: 0 <= i < from ==> readings[i] <= readings[j];
  }

  lemma ReturnedIsStored<R, D>(run: seq<State<R, D>>, calls: seq<Exchange<R, D>>, n: nat, k: nat, x: Ticket<R, D>)
    requires IsCallRun(run, calls) && 0 < n < |run| && k < |run[n - 1].tickets|
    requires x in calls[n].returned && x.id == run[n - 1].tickets[k].id
    ensures k < |run[n].tickets| && x == run[n].tickets[k]
    ensures IsPending(x) ==> ReadInTime(x, run[n].readings, |run[n - 1].readings|)
  {
    assert Returned(calls[n].returned, run[n - 1], run[n]);
    RequestIsFixed(run, n - 1, n, k);
    AtMostOneTicketPerCall(run, n);
    StepKeepsTicket(run[n - 1], run[n], k);
  }

  /** A call that returns a ticket as pending comes before every call that saw its deadline reached. */
  lemma PendingReadsAreEarly<R, D>(run: seq<State<R, D>>, calls: seq<Exchange<R, D>>, m: nat, n: nat, k: nat,
                                   x: Ticket<R, D>)
    requires IsCallRun(run, calls) && m < n < |run| && k < |run[m].tickets|
    requires x in calls[n].returned && x.id == run[m].tickets[k].id && IsPending(x)
    ensures forall i :: 0 <= i < |run[m].readings| ==> run[m].readings[i] < run[m].tickets[k].expiresAt
  {
    RequestIsFixed(run, m, n, k);
    RequestIsFixed(run, m, n - 1, k);
    ReturnedIsStored(run, calls, n, k, x);
    ReadingsGrow(run, n - 1, n);
    ReadingsGrow(run, n, |run| - 1);
    EarlierReadingsAreInTime(x, run[n].readings, |run[n - 1].readings|);
    PrefixIsShared(run, m, n);
  }

  /** From the deadline on no call returns a ticket as pending: once any reading of the calls up to `m`
      has reached the deadline of ticket `k`, every later call returns this ticket settled or not at all. */
  lemma NoPendingReadFromDeadline<R, D>(run: seq<State<R, D>>, calls: seq<Exchange<R, D>>, m: nat, n: nat, k: nat,
                                        i: nat, x: Ticket<R, D>)
    requires IsCallRun(run, calls) && m < n < |run| && k < |run[m].tickets|
    requires i < |run[m].readings| && run[m].tickets[k].expiresAt <= run[m].readings[i]
    requires x in calls[n].returned && x.id == run[m].tickets[k].id
    ensures !IsPending(x)
  {
    if IsPending(x) { PendingReadsAreEarly(run, calls, m, n, k, x); }
  }

  // ----- Sweeps over the tickets -----

  ghost predicate PendingReadInTime<R, D>(xs: seq<Ticket<R, D>>, readings: seq<int>, from: nat) {
    forall i :: 0 <= i < |xs| && IsPending(xs[i]) ==> ReadInTime(xs[i], readings, from)
  }

  /** The tickets that were pending in `before` and no longer are in `after`, in order. */
  function NewlySettled<R, D>(before: seq<Ticket<R, D>>, after: seq<Ticket<R, D>>): seq<Ticket<R, D>>
    requires |before| == |after|
  {
    if before == [] then []
    else NewlySettled(Init(before), Init(after))
         + (if IsPending(Last(before)) && !IsPending(Last(after)) then [Last(after)] else [])
  }

  lemma NewlySettledNext<R, D>(start: seq<Ticket<R, D>>, before: seq<Ticket<R, D>>, after: seq<Ticket<R, D>>, k: nat)
    requires |start| == |before| && k < |before| && before[k..] == start[k..]
    requires |after| == |before| && after == before[k := after[k]]
    ensures after[k + 1..] == start[k + 1..] && before[k] == start[k]
    ensures after[..k] == before[..k] && after[..k + 1] == before[..k] + [after[k]]
    ensures NewlySettled(start[..k + 1], after[..k + 1]) ==
            NewlySettled(start[..k], before[..k])
            + (if IsPending(start[k]) && !IsPending(after[k]) then [after[k]] else [])
  {
    assert before[k] == before[k..][0] == start[k..][0];
    assert after[k + 1..] == before[k..][1..] == start[k..][1..];
    assert after[..k] == before[..k];
    assert Init(start[..k + 1]) == start[..k] && Init(after[..k + 1]) == after[..k];
  }

  lemma {:induction false} NewlySettledMembers<R, D>(before: seq<Ticket<R, D>>, after: seq<Ticket<R, D>>)
    requires |before| == |after|
    ensures forall i :: 0 <= i < |NewlySettled(before, after)| ==>
              NewlySettled(before, after)[i] in after && !IsPending(NewlySettled(before, after)[i])
    decreases |before|
  {
    if before != [] {
      NewlySettledMembers(Init(before), Init(after));
      assert forall x :: x in Init(after) ==> x in after;
    }
  }

  /** The first `k` tickets have been checked since `start`. */
  ghost predicate Swept<R, D>(start: State<R, D>, s: State<R, D>, k: nat, expired: seq<Ticket<R, D>>) {
    && Expires(start, s) && k <= |s.tickets| && s.tickets[k..] == start.tickets[k..]
    && PendingReadInTime(s.tickets[..k], s.readings, |start.readings|)
    && expired == NewlySettled(start.tickets[..k], s.tickets[..k])
  }

  lemma SweptNext<R, D>(start: State<R, D>, s: State<R, D>, t: State<R, D>, k: nat,
                  expired: seq<Ticket<R, D>>, r: Ticket<R, D>)
    requires Swept(start, s, k, expired) && k < |s.tickets| && Expires(s, t) && t.tickets == s.tickets[k := r]
    requires IsPending(r) ==> ReadInTime(r, t.readings, |s.readings|)
    ensures Swept(start, t, k + 1, if IsPending(s.tickets[k]) && !IsPending(r) then expired + [r] else expired)
  {
    ExpiresTransitive(start, s, t);
    NewlySettledNext(start.tickets, s.tickets, t.tickets, k);
    StillReadInTime(s.tickets[..k], s.readings, t.readings, |start.readings|);
    assert expired + [] == expired;
  }

  lemma SweptIsACall<R, D>(start: State<R, D>, s: State<R, D>, expired: seq<Ticket<R, D>>)
    requires Swept(start, s, |s.tickets|, expired)
    ensures expired == NewlySettled(start.tickets, s.tickets)
    ensures PendingReadInTime(s.tickets, s.readings, |start.readings|)
    ensures Call(start, s, Exchange(None, expired))
  {
    assert s.tickets[..|s.tickets|] == s.tickets && start.tickets[..|s.tickets|] == start.tickets;
    NewlySettledMembers(start.tickets, s.tickets);
    ExpiryIsACall(start, s, expired);
  }

  /** The first `k` tickets have been checked since `start`, as far as listing the ones with `p` needs it. */
  ghost predicate Listed<R, D>(start: State<R, D>, s: State<R, D>, k: nat, listed: seq<Ticket<R, D>>,
                               p: Ticket<R, D> -> bool)
  {
    && Expires(start, s) && k <= |s.tickets|
    && listed == Filter(s.tickets[..k], p) && PendingReadInTime(listed, s.readings, |start.readings|)
  }

  lemma ListedNext<R, D>(start: State<R, D>, s: State<R, D>, t: State<R, D>, k: nat, listed: seq<Ticket<R, D>>,
                         p: Ticket<R, D> -> bool, r: Ticket<R, D>)
    requires Listed(start, s, k, listed, p) && k < |s.tickets| && Expires(s, t) && t.tickets == s.tickets[k := r]
    requires IsPending(r) && p(r) ==> ReadInTime(r, t.readings, |s.readings|)
    ensures Listed(start, t, k + 1, if p(r) then listed + [r] else listed, p)
  {
    ExpiresTransitive(start, s, t);
    FilterNext(s.tickets, t.tickets, k, p, r);
    StillReadInTime(listed, s.readings, t.readings, |start.readings|);
    if IsPending(r) && p(r) {
      SingleReadInTime(r, s.readings, t.readings, |start.readings|);
    }
  }

  lemma FilterNext<T>(before: seq<T>, after: seq<T>, k: nat, p: T -> bool, r: T)
    requires k < |before| && after == before[k := r]
    ensures Filter(after[..k + 1], p) == if p(r) then Filter(before[..k], p) + [r] else Filter(before[..k], p)
  {
    assert after[..k + 1] == before[..k] + [r];
    FilterConcat(before[..k], [r], p);
  }

  lemma SingleReadInTime<R, D>(r: Ticket<R, D>, readings: seq<int>, more: seq<int>, from: nat)
    requires from <= |readings| <= |more| && ReadInTime(r, more, |readings|)
    ensures ReadInTime(r, more, from)
  {
    var i :| |readings| <= i < |more| && more[i] < r.expiresAt;
  }

  lemma ListedIsACall<R, D>(start: State<R, D>, s: State<R, D>, listed: seq<Ticket<R, D>>, p: Ticket<R, D> -> bool)
    requires Listed(start, s, |s.tickets|, listed, p)
    ensures listed == Filter(s.tickets, p) && Call(start, s, Exchange(None, listed))
  {
    assert s.tickets[..|s.tickets|] == s.tickets;
    FilterMembers(s.tickets, p);
    ExpiryIsACall(start, s, listed);
  }

  lemma StillReadInTime<R, D>(r: seq<Ticket<R, D>>, readings: seq<int>, more: seq<int>, from: nat)
    requires readings <= more
    ensures PendingReadInTime(r, readings, from) ==> PendingReadInTime(r, more, from)
  {
    forall i | 0 <= i < |r| && ReadInTime(r[i], readings, from) ensures ReadInTime(r[i], more, from) {
      var j :| from <= j < |readings| && readings[j] < r[i].expiresAt;
      assert more[j] < r[i].expiresAt;
    }
  }

  // ----- Clock and queries -----

  /** A clock that never runs backwards. */
  class Clock {
    var time: int
    ghost var readings: seq<int>

    ghost predicate Valid()
      reads this
    {
      Ascending(readings) && forall i :: 0 <= i < |readings| ==> readings[i] <= time
    }

    constructor (start: int)
      ensures Valid() && readings == []
    {
      time := start;
      readings := [];
    }

    method Now() returns (t: int)
      requires Valid()
      modifies this
      ensures Valid() && readings == old(readings) + [t]
    {
      var passed: nat :| true;
      time := time + passed;
      t := time;
      readings := readings + [t];
    }
  }

  /** Index of the ticket with this id, or the number of tickets. */
  method IndexOfId<R, D>(tickets: seq<Ticket<R, D>>, id: nat) returns (k: nat)
    ensures k <= |tickets| && (k < |tickets| ==> tickets[k].id == id)
    ensures forall i :: 0 <= i < k ==> tickets[i].id != id
  {
    k := 0;
    while k < |tickets| && tickets[k].id != id
      invariant k <= |tickets|
      invariant forall i :: 0 <= i < k ==> tickets[i].id != id
    {
      k := k + 1;
    }
  }

  /** Index of the latest ticket of this call, or the number of tickets. */
  method IndexOfLatest<R, D>(tickets: seq<Ticket<R, D>>, taskId: string, toolCallId: string) returns (k: nat)
    ensures k <= |tickets| && (k < |tickets| ==> tickets[k].taskId == taskId && tickets[k].toolCallId == toolCallId)
    ensures forall i :: 0 <= i < |tickets| && (k < i || k == |tickets|) ==>
              tickets[i].taskId != taskId || tickets[i].toolCallId != toolCallId
  {
    var n := |tickets|;
    while n > 0
      invariant 0 <= n <= |tickets|
      invariant forall i :: n <= i < |tickets| ==> tickets[i].taskId != taskId || tickets[i].toolCallId != toolCallId
    {
      n := n - 1;
      if tickets[n].taskId == taskId && tickets[n].toolCallId == toolCallId {
        return n;
      }
    }
    k := |tickets|;
  }
}

/** Writes, reviews, aging and conflict resolution of memories, and the full-text index that
    follows them, as operations on values (src/memory/memory-plane.ts,
    src/memory/sqlite-fts-memory-search-provider.ts). The service in MemoryPlane.dfy is proved
    against them.

    What every run keeps: conflict links are two-sided except from the loser of a resolution to
    its winner, and the index agrees with the repository. */
module MemoryState {
  import opened Prelude
  import opened MemoryRecords
  import opened CoreMemory

  // ----- Full-text table -----

  datatype Row = Row(memoryId: nat, scope: Scope, scopeKey: string, content: string)

  /** `renderIndexedContent`. */
  function IndexedContent(m: MemoryRecord): string {
    m.title + "\n" + m.summary + "\n" + m.content + "\n" + Join(m.keywords, " ")
  }

  function RowOf(m: MemoryRecord): Row {
    Row(m.memoryId, m.scope, m.scopeKey, IndexedContent(m))
  }

  /** `DELETE FROM memories_fts WHERE memory_id = ?`. */
  function RemoveRow(rows: seq<Row>, id: nat): seq<Row> {
    if rows == [] then [] else (if rows[0].memoryId == id then [] else [rows[0]]) + RemoveRow(rows[1..], id)
  }

  function UpsertRow(rows: seq<Row>, m: MemoryRecord, now: int): seq<Row> {
    RemoveRow(rows, m.memoryId) + (if Indexable(m, now) then [RowOf(m)] else [])
  }

  /** `syncSearchIndex`. */
  function SyncIndex(rows: seq<Row>, m: MemoryRecord, now: int): seq<Row> {
    if m.status == Verified then UpsertRow(rows, m, now) else RemoveRow(rows, m.memoryId)
  }

  // ----- Drafts -----

  datatype Draft = Draft(
    scope: Scope,
    scopeKey: string,
    title: string,
    content: string,
    summary: string,
    privacy: Privacy,
    confidence: real,
    status: Status,
    tier: Option<Tier>,
    expiresAt: Option<int>,
    conflictsWith: set<nat>,
    keywords: seq<string>)

  /** `value.replace(/\s+/gu, " ")`. */
  function CollapseSpace(s: string, inSpace: bool): string {
    if s == "" then ""
    else if IsSpace(s[0]) then (if inSpace then "" else " ") + CollapseSpace(s[1..], true)
    else [s[0]] + CollapseSpace(s[1..], false)
  }

  function Summarize(value: string, maxLength: nat): string {
    var compact := Trim(CollapseSpace(value, false));
    if |compact| <= maxLength then compact else compact[..maxLength] + "..."
  }

  predicate NotSpace(c: char) {
    !IsSpace(c)
  }

  ghost predicate SingleSpaced(s: string) {
    && (forall i :: 0 <= i < |s| && IsSpace(s[i]) ==> s[i] == ' ')
    && (forall i, j :: 0 <= i < j < |s| && j == i + 1 ==> s[i] != ' ' || s[j] != ' ')
  }

  lemma {:induction false} CollapsedText(s: string, inSpace: bool)
    ensures var r := CollapseSpace(s, inSpace);
            && Filter(r, NotSpace) == Filter(s, NotSpace) && SingleSpaced(r)
            && (inSpace && r != "" ==> r[0] != ' ')
    decreases |s|
  {
    if s != "" {
      CollapsedText(s[1..], IsSpace(s[0]));
      var rest := CollapseSpace(s[1..], IsSpace(s[0]));
      if !IsSpace(s[0]) {
        FilterConcat([s[0]], rest, NotSpace);
      } else if !inSpace {
        FilterConcat([' '], rest, NotSpace);
      } else {
        assert CollapseSpace(s, inSpace) == rest;
      }
    }
  }

  lemma {:induction false} NoInk(s: string)
    requires AllSpace(s)
    ensures Filter(s, NotSpace) == []
    decreases |s|
  {
    if s != "" { NoInk(s[1..]); }
  }

  lemma SlicesAreSingleSpaced(s: string, i: nat, j: nat)
    requires SingleSpaced(s) && i <= j <= |s|
    ensures SingleSpaced(s[i..j])
  {
  }

  lemma InkOfSlice(s: string, i: nat, j: nat)
    requires i <= j <= |s| && AllSpace(s[..i]) && AllSpace(s[j..])
    ensures Filter(s[i..j], NotSpace) == Filter(s, NotSpace)
  {
    assert s == s[..i] + (s[i..j] + s[j..]);
    FilterConcat(s[..i], s[i..j] + s[j..], NotSpace);
    FilterConcat(s[i..j], s[j..], NotSpace);
    NoInk(s[..i]);
    NoInk(s[j..]);
  }

  lemma TrimKeepsInk(s: string)
    requires SingleSpaced(s)
    ensures Filter(Trim(s), NotSpace) == Filter(s, NotSpace) && SingleSpaced(Trim(s))
  {
    TrimIsTrimmed(s);
    var i, j :| 0 <= i <= j <= |s| && TrimsTo(s, i, j) && Trim(s) == s[i..j];
    SlicesAreSingleSpaced(s, i, j);
    InkOfSlice(s, i, j);
  }

  /** A summary is the visible characters of the text in order, words apart by one space, cut after `maxLength`
      characters. */
  lemma SummaryContents(value: string, maxLength: nat) returns (compact: string)
    ensures Filter(compact, NotSpace) == Filter(value, NotSpace) && SingleSpaced(compact) && IsTrimmed(compact, compact)
    ensures Summarize(value, maxLength) == if |compact| <= maxLength then compact else compact[..maxLength] + "..."
  {
    var collapsed := CollapseSpace(value, false);
    compact := Trim(collapsed);
    CollapsedText(value, false);
    TrimKeepsInk(collapsed);
    TrimmedIsTrimmed(collapsed);
  }

  lemma TrimmedIsTrimmed(s: string)
    ensures IsTrimmed(Trim(s), Trim(s))
  {
    TrimIsTrimmed(s);
    var i, j :| 0 <= i <= j <= |s| && TrimsTo(s, i, j) && Trim(s) == s[i..j];
    var t := s[i..j];
    assert t[..0] == "" && t[|t|..] == "" && t == t[0..|t|];
    assert TrimsTo(t, 0, |t|);
  }

  /** `uniqueStrings` keeps first occurrences in order. */
  function Normalize(d: Draft): Draft {
    d.(keywords := FirstOccurrences(d.keywords), summary := Summarize(d.summary, 160), title := Summarize(d.title, 80))
  }

  function Keywords(s: seq<string>): set<string> {
    set i | 0 <= i < |s| :: s[i]
  }

  /** `overlapRatio(left, right) >= 0.5`. */
  predicate Overlaps(left: seq<string>, right: seq<string>) {
    var l, r := Keywords(left), Keywords(right);
    left != [] && right != [] && 2 * |l * r| >= Max(1, Min(|l|, |r|))
  }

  // ----- Repository and operations -----

  type Repo = map<nat, MemoryRecord>

  /** `resolved` is a history variable: the pairs (archived, kept) of all conflict resolutions. */
  datatype Plane = Plane(repo: Repo, rows: seq<Row>, resolved: set<(nat, nat)>)

  /** What `list` hides unless asked for. */
  predicate Retired(s: Status) {
    s == Rejected || s == Archived || s == Stale
  }

  predicate InConflict(m: MemoryRecord, d: Draft) {
    && m.scope == d.scope && m.scopeKey == d.scopeKey && !Retired(m.status)
    && Overlaps(m.keywords, d.keywords) && m.content != d.content && m.summary != d.summary
  }

  /** `findConflicts`. */
  function Conflicts(repo: Repo, d: Draft): set<nat> {
    set id | id in repo && InConflict(repo[id], d)
  }

  function Created(d: Draft, id: nat, conflicts: set<nat>, now: int): MemoryRecord {
    MemoryRecord(id, d.scope, d.scopeKey, d.title, d.content, d.summary, d.privacy, d.confidence, d.status,
                 d.tier.GetOr(Retrieval), now, if d.status == Verified then Some(now) else None, d.expiresAt,
                 d.conflictsWith + conflicts, d.keywords)
  }

  function LinkedBack(m: MemoryRecord, id: nat, now: int): MemoryRecord {
    m.(conflictsWith := m.conflictsWith + {id}, updatedAt := now)
  }

  /** The repository with the new record, after the records in `linked` got their link back to it. */
  function WithLinks(repo: Repo, created: MemoryRecord, linked: set<nat>, now: int): Repo {
    map k | k in repo.Keys + {created.memoryId} ::
      if k == created.memoryId then created
      else if k in linked then LinkedBack(repo[k], created.memoryId, now) else repo[k]
  }

  function Persist(p: Plane, draft: Draft, id: nat, now: int, later: int): Plane {
    var d := Normalize(draft);
    var conflicts := Conflicts(p.repo, d);
    var created := Created(d, id, conflicts, now);
    p.(repo := WithLinks(p.repo, created, conflicts, now), rows := SyncIndex(p.rows, created, later))
  }

  function Reviewed(m: MemoryRecord, status: Status, now: int): MemoryRecord {
    m.(confidence := if status == Verified then MaxReal(m.confidence, 0.9)
                     else if status == Rejected then MinReal(m.confidence, 0.1)
                     else MinReal(m.confidence, 0.4),
       lastVerifiedAt := if status == Verified then Some(now) else m.lastVerifiedAt,
       status := status,
       updatedAt := now)
  }

  function Review(p: Plane, id: nat, status: Status, now: int, later: int): Plane {
    if id !in p.repo then p
    else
      var m := Reviewed(p.repo[id], status, now);
      p.(repo := p.repo[id := m], rows := SyncIndex(p.rows, m, later))
  }

  /** The kept record as it was read before the rival was archived, updated. */
  function Kept(m: MemoryRecord, rival: nat, now: int): MemoryRecord {
    m.(conflictsWith := m.conflictsWith - {rival},
       confidence := MaxReal(m.confidence, 0.9),
       lastVerifiedAt := Some(now),
       status := Verified,
       updatedAt := now)
  }

  function Resolve(p: Plane, keep: nat, archive: nat, now: int, later: int): Plane {
    if keep !in p.repo || archive !in p.repo then p
    else
      var q := Review(p, archive, Archived, now, later);
      var kept := Kept(p.repo[keep], archive, now);
      Plane(q.repo[keep := kept], SyncIndex(q.rows, kept, later), p.resolved + {(archive, keep)})
  }

  predicate Ages(m: MemoryRecord, now: int) {
    !Retired(m.status) && Expired(m, now)
  }

  function WentStale(m: MemoryRecord, now: int): MemoryRecord {
    m.(status := Stale, updatedAt := now)
  }

  function WithStale(repo: Repo, ids: set<nat>, now: int): Repo {
    map id | id in repo :: if id in ids then WentStale(repo[id], now) else repo[id]
  }

  function RemoveRows(rows: seq<Row>, ids: set<nat>): seq<Row> {
    if rows == [] then [] else (if rows[0].memoryId in ids then [] else [rows[0]]) + RemoveRows(rows[1..], ids)
  }

  function AgingIds(repo: Repo, now: int): set<nat> {
    set id | id in repo && Ages(repo[id], now)
  }

  /** `ageExpiredMemories`. */
  function Age(p: Plane, now: int): Plane {
    p.(repo := WithStale(p.repo, AgingIds(p.repo, now), now), rows := RemoveRows(p.rows, AgingIds(p.repo, now)))
  }

  // ----- Runs -----

  /** `now` is the first clock reading of an operation, `later` the reading taken when it updates the
      index. `allowed` is the answer of the context policy to a long-term write. */
  datatype Op =
    | WriteOp(draft: Draft, id: nat, allowed: bool, now: int, later: int)
    | ReviewOp(id: nat, status: Status, now: int, later: int)
    | ResolveOp(keep: nat, archive: nat, now: int, later: int)
    | AgeOp(now: int, later: int)

  /** `persistMemoryIfAllowed`: working memory is refused, long-term memory needs the policy's consent. */
  predicate WriteAccepted(d: Draft, allowed: bool) {
    d.scope != Working && (d.scope == Project || d.scope == Profile ==> allowed)
  }

  function Apply(p: Plane, op: Op): Plane {
    match op
    case WriteOp(d, id, allowed, now, later) => if WriteAccepted(d, allowed) then Persist(p, d, id, now, later) else p
    case ReviewOp(id, status, now, later) => Review(p, id, status, now, later)
    case ResolveOp(keep, archive, now, later) => Resolve(p, keep, archive, now, later)
    case AgeOp(now, _) => Age(p, now)
  }

  /** Fresh ids, drafts without links of their own, a clock that does not run backwards. */
  ghost predicate Valid(p: Plane, op: Op, clock: int) {
    && clock <= op.now <= op.later
    && (op.WriteOp? ==> op.id !in p.repo && op.draft.conflictsWith == {})
    && (op.ReviewOp? ==> op.status != Candidate)
  }

  ghost predicate IsRun(p: Plane, clock: int, ops: seq<Op>)
    decreases |ops|
  {
    ops == [] || (Valid(p, ops[0], clock) && IsRun(Apply(p, ops[0]), ops[0].later, ops[1..]))
  }

  function Run(p: Plane, ops: seq<Op>): Plane
    decreases |ops|
  {
    if ops == [] then p else Run(Apply(p, ops[0]), ops[1..])
  }

  function ClockAfter(clock: int, ops: seq<Op>): int {
    if ops == [] then clock else Last(ops).later
  }

  const EMPTY := Plane(map[], [], {})

  // ----- What an operation does to a record, field by field -----

  /** The same memory: everything but status, confidence, times and links. */
  ghost predicate SameText(a: MemoryRecord, b: MemoryRecord) {
    && a.memoryId == b.memoryId && a.scope == b.scope && a.scopeKey == b.scopeKey && a.title == b.title
    && a.content == b.content && a.summary == b.summary && a.privacy == b.privacy && a.tier == b.tier
    && a.expiresAt == b.expiresAt && a.keywords == b.keywords
  }

  /** A verdict of a reviewer: a verified record has a confidence of 0.9 or more, a rejected one of 0.1 or less and any
      other of 0.4 or less, and the confidence is never moved further than that. */
  ghost predicate Judged(before: MemoryRecord, after: MemoryRecord, status: Status, now: int) {
    && SameText(before, after) && after.status == status && after.updatedAt == now
    && after.lastVerifiedAt == (if status == Verified then Some(now) else before.lastVerifiedAt)
    && match status
       case Verified =>
         && after.confidence >= 0.9 && after.confidence >= before.confidence
         && (after.confidence == before.confidence || after.confidence == 0.9)
       case Rejected =>
         && after.confidence <= 0.1 && after.confidence <= before.confidence
         && (after.confidence == before.confidence || after.confidence == 0.1)
       case _ =>
         && after.confidence <= 0.4 && after.confidence <= before.confidence
         && (after.confidence == before.confidence || after.confidence == 0.4)
  }

  /** A review changes one record and nothing else. */
  lemma ReviewJudges(p: Plane, id: nat, status: Status, now: int, later: int)
    requires id in p.repo
    ensures var q := Review(p, id, status, now, later);
            && q.repo.Keys == p.repo.Keys && Judged(p.repo[id], q.repo[id], status, now)
            && q.repo[id].conflictsWith == p.repo[id].conflictsWith
            && forall k :: k in p.repo && k != id ==> q.repo[k] == p.repo[k]
  {
  }

  /** A resolution verifies the record it keeps, which no longer lists the other one, and archives that one, whose
      links stay. */
  lemma ResolutionJudges(p: Plane, keep: nat, archive: nat, now: int, later: int)
    requires keep in p.repo && archive in p.repo && keep != archive
    ensures var q := Resolve(p, keep, archive, now, later);
            && q.repo.Keys == p.repo.Keys
            && Judged(p.repo[keep], q.repo[keep], Verified, now)
            && Judged(p.repo[archive], q.repo[archive], Archived, now)
            && (forall k :: k in q.repo[keep].conflictsWith <==> k in p.repo[keep].conflictsWith && k != archive)
            && q.repo[archive].conflictsWith == p.repo[archive].conflictsWith
            && forall k :: k in p.repo && k != keep && k != archive ==> q.repo[k] == p.repo[k]
  {
  }

  /** Aging makes stale exactly the candidates and verified records that have expired, and changes nothing else. */
  lemma AgingMakesStale(p: Plane, now: int)
    ensures Age(p, now).repo.Keys == p.repo.Keys
    ensures forall id :: id in p.repo ==>
              var before, after := p.repo[id], Age(p, now).repo[id];
              if before.status in {Candidate, Verified} && before.expiresAt.Some? && before.expiresAt.value <= now
              then SameText(before, after) && after.status == Stale && after.updatedAt == now
                   && after.confidence == before.confidence && after.lastVerifiedAt == before.lastVerifiedAt
                   && after.conflictsWith == before.conflictsWith
              else after == before
  {
  }

  /** The smaller of two sets shares at least half of its elements with the other one. */
  ghost predicate ShareHalf(a: set<string>, b: set<string>) {
    a != {} && b != {} && (2 * |a * b| >= |a| || 2 * |a * b| >= |b|)
  }

  /** A record and a draft say different things about the same subject. */
  ghost predicate Disagree(m: MemoryRecord, d: Draft) {
    && m.scope == d.scope && m.scopeKey == d.scopeKey && m.status in {Candidate, Verified}
    && m.content != d.content && m.summary != Summarize(d.summary, 160)
    && ShareHalf(set k | k in m.keywords, set k | k in d.keywords)
  }

  lemma KeywordSet(s: seq<string>)
    ensures Keywords(s) == set k | k in s
    ensures s != [] <==> Keywords(s) != {}
  {
    if s != [] { assert s[0] in Keywords(s); }
  }

  lemma SizeIsPositive(a: set<string>)
    requires a != {}
    ensures |a| >= 1
  {
    var x :| x in a;
    assert |a| == |a - {x}| + 1;
  }

  lemma ConflictMeansDisagree(m: MemoryRecord, d: Draft)
    ensures InConflict(m, Normalize(d)) <==> Disagree(m, d)
  {
    var n := Normalize(d);
    FirstOccurrencesAreDistinct(d.keywords);
    KeywordSet(m.keywords);
    KeywordSet(n.keywords);
    assert (set k | k in n.keywords) == set k | k in d.keywords;
    var l, r := Keywords(m.keywords), Keywords(n.keywords);
    if l != {} && r != {} {
      SizeIsPositive(l);
      SizeIsPositive(r);
    }
  }

  /** The record `m` written at `now` says what the draft says. */
  ghost predicate SaysDraft(m: MemoryRecord, d: Draft, id: nat, now: int) {
    && m.memoryId == id && m.scope == d.scope && m.scopeKey == d.scopeKey && m.content == d.content
    && m.title == Summarize(d.title, 80) && m.summary == Summarize(d.summary, 160)
    && m.privacy == d.privacy && m.confidence == d.confidence && m.status == d.status
    && m.tier == d.tier.GetOr(Retrieval) && m.expiresAt == d.expiresAt && m.updatedAt == now
    && m.lastVerifiedAt == (if d.status == Verified then Some(now) else None)
    && Distinct(m.keywords) && forall k :: k in m.keywords <==> k in d.keywords
  }

  lemma CreatedSaysDraft(d: Draft, id: nat, conflicts: set<nat>, now: int)
    ensures SaysDraft(Created(Normalize(d), id, conflicts, now), d, id, now)
  {
    FirstOccurrencesAreDistinct(d.keywords);
  }

  lemma ConflictsDisagree(repo: Repo, d: Draft)
    ensures forall k :: k in Conflicts(repo, Normalize(d)) <==> k in repo && Disagree(repo[k], d)
  {
    forall k | k in repo ensures InConflict(repo[k], Normalize(d)) <==> Disagree(repo[k], d) {
      ConflictMeansDisagree(repo[k], d);
    }
  }

  /** A write adds one record that says what the draft says; it and the records that disagree with it list each other,
      and no other link appears. */
  lemma WriteAddsRecord(p: Plane, d: Draft, id: nat, now: int, later: int)
    requires id !in p.repo && d.conflictsWith == {}
    ensures var q := Persist(p, d, id, now, later);
            && q.repo.Keys == p.repo.Keys + {id} && SaysDraft(q.repo[id], d, id, now)
            && (forall k :: k in q.repo[id].conflictsWith <==> k in p.repo && Disagree(p.repo[k], d))
            && (forall k :: k in p.repo ==> LinkedIfDisagrees(p.repo[k], q.repo[k], d, id, now))
  {
    var conflicts := Conflicts(p.repo, Normalize(d));
    var created := Created(Normalize(d), id, conflicts, now);
    CreatedSaysDraft(d, id, conflicts, now);
    ConflictsDisagree(p.repo, d);
    assert Persist(p, d, id, now, later).repo == WithLinks(p.repo, created, conflicts, now);
    forall k | k in p.repo
      ensures LinkedIfDisagrees(p.repo[k], WithLinks(p.repo, created, conflicts, now)[k], d, id, now)
    {
      LinkedByWrite(p.repo, created, conflicts, k, d, now);
    }
  }

  lemma LinkedByWrite(repo: Repo, created: MemoryRecord, conflicts: set<nat>, k: nat, d: Draft, now: int)
    requires k in repo && created.memoryId !in repo && (k in conflicts <==> Disagree(repo[k], d))
    ensures LinkedIfDisagrees(repo[k], WithLinks(repo, created, conflicts, now)[k], d, created.memoryId, now)
  {
  }

  ghost predicate LinkedIfDisagrees(before: MemoryRecord, after: MemoryRecord, d: Draft, id: nat, now: int) {
    if Disagree(before, d) then
      && SameText(before, after) && after.status == before.status && after.confidence == before.confidence
      && after.lastVerifiedAt == before.lastVerifiedAt && after.updatedAt == now
      && after.conflictsWith == before.conflictsWith + {id}
    else after == before
  }

  // ----- Statuses over whole runs -----

  lemma {:induction false} RunLast(p: Plane, clock: int, ops: seq<Op>)
    requires IsRun(p, clock, ops) && ops != []
    ensures IsRun(p, clock, Init(ops)) && Run(p, ops) == Apply(Run(p, Init(ops)), Last(ops))
    ensures Valid(Run(p, Init(ops)), Last(ops), ClockAfter(clock, Init(ops)))
    decreases |ops|
  {
    if |ops| > 1 {
      assert Init(ops)[1..] == Init(ops[1..]) && Last(ops[1..]) == Last(ops);
      RunLast(Apply(p, ops[0]), ops[0].later, ops[1..]);
    }
  }

  /** Working memory is never written, project and profile memory with the consent of the policy only. */
  predicate Writes(op: Op, id: nat) {
    && op.WriteOp? && op.id == id && op.draft.scope != Working
    && (op.allowed || (op.draft.scope != Project && op.draft.scope != Profile))
  }

  /** What was written as record `id`. */
  function DraftOf(ops: seq<Op>, id: nat): Option<Draft> {
    if ops == [] then None
    else if Writes(Last(ops), id) then Some(Last(ops).draft)
    else DraftOf(Init(ops), id)
  }

  /** The status that the calls have given record `id`, if they have created it: the one it was written with, that of
      the last review, verified or archived by a resolution, or stale when it was found expired. */
  function LastVerdict(ops: seq<Op>, id: nat): Option<Status> {
    if ops == [] then None
    else
      var before := LastVerdict(Init(ops), id);
      match Last(ops)
      case WriteOp(d, _, _, _, _) => if Writes(Last(ops), id) then Some(d.status) else before
      case ReviewOp(k, status, _, _) => if k == id && before.Some? then Some(status) else before
      case ResolveOp(keep, archive, _, _) =>
        if LastVerdict(Init(ops), keep).None? || LastVerdict(Init(ops), archive).None? then before
        else if keep == id then Some(Verified)
        else if archive == id then Some(Archived)
        else before
      case AgeOp(now, _) =>
        var d := DraftOf(Init(ops), id);
        if before in {Some(Candidate), Some(Verified)} && d.Some? && d.value.expiresAt.Some?
           && d.value.expiresAt.value <= now
        then Some(Stale) else before
  }

  /** Record `id` is what the calls have made of it. */
  ghost predicate FollowsCalls(p: Plane, ops: seq<Op>, id: nat) {
    && (id in p.repo <==> LastVerdict(ops, id).Some?) && (id in p.repo <==> DraftOf(ops, id).Some?)
    && (id in p.repo ==>
          var m, d := p.repo[id], DraftOf(ops, id).value;
          && LastVerdict(ops, id) == Some(m.status)
          && m.scope == d.scope && m.scopeKey == d.scopeKey && m.content == d.content && m.privacy == d.privacy
          && m.tier == d.tier.GetOr(Retrieval) && m.expiresAt == d.expiresAt)
  }

  lemma ReviewFollowsCalls(p: Plane, ops: seq<Op>, id: nat)
    requires ops != [] && Last(ops).ReviewOp? && forall k: nat :: FollowsCalls(p, Init(ops), k)
    ensures FollowsCalls(Apply(p, Last(ops)), ops, id)
  {
    assert FollowsCalls(p, Init(ops), id);
  }

  lemma ResolutionFollowsCalls(p: Plane, ops: seq<Op>, id: nat)
    requires ops != [] && Last(ops).ResolveOp? && forall k: nat :: FollowsCalls(p, Init(ops), k)
    ensures FollowsCalls(Apply(p, Last(ops)), ops, id)
  {
    assert FollowsCalls(p, Init(ops), id);
    assert FollowsCalls(p, Init(ops), Last(ops).keep) && FollowsCalls(p, Init(ops), Last(ops).archive);
  }

  lemma AgingFollowsCalls(p: Plane, ops: seq<Op>, id: nat)
    requires ops != [] && Last(ops).AgeOp? && forall k: nat :: FollowsCalls(p, Init(ops), k)
    ensures FollowsCalls(Apply(p, Last(ops)), ops, id)
  {
    assert FollowsCalls(p, Init(ops), id);
    AgingMakesStale(p, Last(ops).now);
  }

  lemma WriteFollowsCalls(p: Plane, ops: seq<Op>, id: nat, clock: int)
    requires ops != [] && Last(ops).WriteOp? && Valid(p, Last(ops), clock)
    requires forall k: nat :: FollowsCalls(p, Init(ops), k)
    ensures FollowsCalls(Apply(p, Last(ops)), ops, id)
  {
    var op := Last(ops);
    assert FollowsCalls(p, Init(ops), id);
    assert Writes(op, op.id) <==> WriteAccepted(op.draft, op.allowed);
    if WriteAccepted(op.draft, op.allowed) { WriteAddsRecord(p, op.draft, op.id, op.now, op.later); }
  }

  /** After every run a record has the status of the last verdict on it, and says what its draft said. */
  lemma {:induction false} StatusIsTheLastVerdict(ops: seq<Op>, clock: int, id: nat)
    requires IsRun(EMPTY, clock, ops)
    ensures FollowsCalls(Run(EMPTY, ops), ops, id)
    decreases |ops|
  {
    if ops != [] {
      var p := Run(EMPTY, Init(ops));
      RunLast(EMPTY, clock, ops);
      forall k: nat ensures FollowsCalls(p, Init(ops), k) { StatusIsTheLastVerdict(Init(ops), clock, k); }
      match Last(ops)
      case WriteOp(_, _, _, _, _) => WriteFollowsCalls(p, ops, id, ClockAfter(clock, Init(ops)));
      case ReviewOp(_, _, _, _) => ReviewFollowsCalls(p, ops, id);
      case ResolveOp(_, _, _, _) => ResolutionFollowsCalls(p, ops, id);
      case AgeOp(_, _) => AgingFollowsCalls(p, ops, id);
    }
  }

  // ----- The conflict graph -----

  ghost predicate IdsOk(p: Plane) {
    forall id :: id in p.repo ==> p.repo[id].memoryId == id
  }

  predicate Lists(p: Plane, a: nat, b: nat) {
    a in p.repo && b in p.repo[a].conflictsWith
  }

  /** A link is two-sided unless it goes from the loser of a resolution to the winner, and a winner
      never lists a loser again. */
  ghost predicate GraphOk(p: Plane) {
    && IdsOk(p)
    && (forall a: nat, b: nat :: Lists(p, a, b) ==> a != b && b in p.repo && (Lists(p, b, a) || (a, b) in p.resolved))
    && (forall a: nat, b: nat :: (a, b) in p.resolved ==> a in p.repo && b in p.repo && !Lists(p, b, a))
  }

  lemma PersistLinks(p: Plane, d: Draft, id: nat, now: int, later: int, a: nat, b: nat)
    requires GraphOk(p) && id !in p.repo && d.conflictsWith == {}
    ensures var conflicts := Conflicts(p.repo, Normalize(d));
            Lists(Persist(p, d, id, now, later), a, b) <==>
              Lists(p, a, b) || (a == id && b in conflicts) || (a in conflicts && b == id)
  {
  }

  lemma PersistKeepsGraph(p: Plane, d: Draft, id: nat, now: int, later: int)
    requires GraphOk(p) && id !in p.repo && d.conflictsWith == {}
    ensures GraphOk(Persist(p, d, id, now, later))
  {
    var q := Persist(p, d, id, now, later);
    forall a: nat, b: nat
      ensures Lists(q, a, b) ==> a != b && b in q.repo && (Lists(q, b, a) || (a, b) in q.resolved)
      ensures (a, b) in q.resolved ==> a in q.repo && b in q.repo && !Lists(q, b, a)
    {
      PersistLinks(p, d, id, now, later, a, b);
      PersistLinks(p, d, id, now, later, b, a);
    }
  }

  lemma SameLinksKeepGraph(p: Plane, q: Plane)
    requires GraphOk(p) && IdsOk(q) && q.resolved == p.resolved && q.repo.Keys == p.repo.Keys
    requires forall id :: id in p.repo ==> q.repo[id].conflictsWith == p.repo[id].conflictsWith
    ensures GraphOk(q)
  {
    assert forall a: nat, b: nat :: Lists(q, a, b) <==> Lists(p, a, b);
  }

  lemma ResolveKeepsGraph(p: Plane, keep: nat, archive: nat, now: int, later: int)
    requires GraphOk(p)
    ensures GraphOk(Resolve(p, keep, archive, now, later))
  {
    var q := Resolve(p, keep, archive, now, later);
    if keep in p.repo && archive in p.repo {
      forall a: nat, b: nat
        ensures Lists(q, a, b) <==> Lists(p, a, b) && !(a == keep && b == archive)
      {
      }
      forall a: nat, b: nat
        ensures Lists(q, a, b) ==> a != b && b in q.repo && (Lists(q, b, a) || (a, b) in q.resolved)
        ensures (a, b) in q.resolved ==> a in q.repo && b in q.repo && !Lists(q, b, a)
      {
        assert Lists(p, a, b) ==> a != b && b in p.repo && (Lists(p, b, a) || (a, b) in p.resolved);
        if keep == archive && a == keep && b == keep { assert !Lists(p, a, b); }
      }
    }
  }

  lemma StepKeepsGraph(p: Plane, op: Op, clock: int)
    requires GraphOk(p) && Valid(p, op, clock)
    ensures GraphOk(Apply(p, op))
  {
    match op
    case WriteOp(d, id, allowed, now, later) =>
      if WriteAccepted(d, allowed) { PersistKeepsGraph(p, d, id, now, later); }
    case ReviewOp(id, status, now, later) => SameLinksKeepGraph(p, Review(p, id, status, now, later));
    case ResolveOp(keep, archive, now, later) => ResolveKeepsGraph(p, keep, archive, now, later);
    case AgeOp(now, _) => SameLinksKeepGraph(p, Age(p, now));
  }

  lemma {:induction false} RunKeepsGraph(p: Plane, clock: int, ops: seq<Op>)
    requires GraphOk(p) && IsRun(p, clock, ops)
    ensures GraphOk(Run(p, ops))
    decreases |ops|
  {
    if ops != [] {
      StepKeepsGraph(p, ops[0], clock);
      RunKeepsGraph(Apply(p, ops[0]), ops[0].later, ops[1..]);
    }
  }

  /** Over all runs, a conflict link is one-sided exactly if it goes from a record that a resolution
      archived to the record that it kept. */
  lemma OneSidedLinksComeFromResolutions(ops: seq<Op>, clock: int, a: nat, b: nat)
    requires IsRun(EMPTY, clock, ops)
    ensures var p := Run(EMPTY, ops);
            Lists(p, a, b) ==> b in p.repo && (!Lists(p, b, a) <==> (a, b) in p.resolved)
  {
    RunKeepsGraph(EMPTY, clock, ops);
  }

  /** `all` lists the records of the repository. */
  ghost predicate ListsRepo(all: seq<MemoryRecord>, p: Plane) {
    && UniqueIds(all)
    && (forall m :: m in all ==> m.memoryId in p.repo && p.repo[m.memoryId] == m)
    && (forall id :: id in p.repo ==> p.repo[id] in all)
  }

  /** A loser of a resolution still lists the winner, both are eligible, and the loser sorts first. */
  ghost predicate RevivedLoser(p: Plane, a: nat, b: nat, now: int) {
    && (a, b) in p.resolved && Lists(p, a, b) && b in p.repo
    && Eligible(p.repo[a], now) && Eligible(p.repo[b], now) && Precedes(p.repo[a], p.repo[b])
  }

  lemma RevivedLoserIsOneSided(p: Plane, all: seq<MemoryRecord>, a: nat, b: nat, now: int)
    requires GraphOk(p) && ListsRepo(all, p)
    ensures RevivedLoser(p, a, b, now) ==> p.repo[a] in all && p.repo[b] in all && OneSided(p.repo[a], p.repo[b])
  {
    assert RevivedLoser(p, a, b, now) ==> !Lists(p, b, a);
  }

  lemma OneSidedIsRevivedLoser(p: Plane, all: seq<MemoryRecord>, a: MemoryRecord, b: MemoryRecord, now: int)
    requires GraphOk(p) && ListsRepo(all, p) && a in all && b in all
    requires !RevivedLoser(p, a.memoryId, b.memoryId, now) && Eligible(a, now) && Eligible(b, now)
    ensures !OneSided(a, b)
  {
    assert Lists(p, a.memoryId, b.memoryId) <==> b.memoryId in a.conflictsWith;
    assert Lists(p, b.memoryId, a.memoryId) <==> a.memoryId in b.conflictsWith;
  }

  ghost predicate NoLoserRevived(p: Plane, now: int) {
    forall a: nat, b: nat :: !RevivedLoser(p, a, b, now)
  }

  lemma NoOneSidedLinkIffNoLoserRevived(p: Plane, all: seq<MemoryRecord>, now: int)
    requires GraphOk(p) && ListsRepo(all, p)
    ensures NoOneSidedLink(all, now) <==> NoLoserRevived(p, now)
  {
    if NoOneSidedLink(all, now) {
      forall a: nat, b: nat ensures !RevivedLoser(p, a, b, now) { RevivedLoserIsOneSided(p, all, a, b, now); }
    }
    if NoLoserRevived(p, now) {
      forall a, b | a in all && b in all && Eligible(a, now) && Eligible(b, now)
        ensures !OneSided(a, b)
      {
        OneSidedIsRevivedLoser(p, all, a, b, now);
      }
    }
  }

  /** After every run: `selectCore` never picks two conflicting memories, from any of the records and
      for any budget, exactly if no archived loser has become eligible again ahead of its winner. */
  lemma SelectionsConflictFreeIffNoLoserRevived(ops: seq<Op>, clock: int, all: seq<MemoryRecord>, now: int)
    requires IsRun(EMPTY, clock, ops) && ListsRepo(all, Run(EMPTY, ops))
    ensures (forall sub, budget :: Among(sub, all) ==> ConflictFree(Select(sub, budget, now).memories))
            <==> NoLoserRevived(Run(EMPTY, ops), now)
  {
    RunKeepsGraph(EMPTY, clock, ops);
    ConflictFreeIffNoOneSidedLink(all, now);
    NoOneSidedLinkIffNoLoserRevived(Run(EMPTY, ops), all, now);
  }

  /** Of each revived loser and its winner in the list, one is passed over. */
  ghost predicate RevivedLosersAreKeptApart(p: Plane, sorted: seq<MemoryRecord>, budget: int, now: int) {
    forall i, j :: 0 <= i < |sorted| && 0 <= j < |sorted|
                   && RevivedLoser(p, sorted[i].memoryId, sorted[j].memoryId, now) ==>
      Skipped(sorted, budget, i) || Skipped(sorted, budget, j)
  }

  lemma OneSidedIffRevivedLoser(p: Plane, all: seq<MemoryRecord>, a: MemoryRecord, b: MemoryRecord, now: int)
    requires GraphOk(p) && ListsRepo(all, p) && a in all && b in all && Eligible(a, now) && Eligible(b, now)
    ensures OneSided(a, b) <==> RevivedLoser(p, a.memoryId, b.memoryId, now)
  {
    RevivedLoserIsOneSided(p, all, a.memoryId, b.memoryId, now);
    if !RevivedLoser(p, a.memoryId, b.memoryId, now) { OneSidedIsRevivedLoser(p, all, a, b, now); }
  }

  /** After every run, for any list of its records, such as all of one scope, key and tier, and any
      budget: `selectCore` picks no two conflicting memories exactly if of each revived loser and its winner
      in the list one does not fit or lists a record chosen before it. */
  lemma SelectionConflictFreeIffLosersKeptApart(ops: seq<Op>, clock: int, all: seq<MemoryRecord>,
                                                list: seq<MemoryRecord>, budget: int, now: int)
    requires IsRun(EMPTY, clock, ops) && ListsRepo(all, Run(EMPTY, ops)) && Among(list, all)
    ensures ConflictFree(Select(list, budget, now).memories)
            <==> RevivedLosersAreKeptApart(Run(EMPTY, ops), SortRecords(Candidates(list, now)), budget, now)
  {
    var p, sorted := Run(EMPTY, ops), SortRecords(Candidates(list, now));
    RunKeepsGraph(EMPTY, clock, ops);
    ConflictFreeIffLinksAreBroken(list, budget, now);
    SortedCandidatesAreEligible(list, now);
    forall i, j | 0 <= i < |sorted| && 0 <= j < |sorted|
      ensures OneSided(sorted[i], sorted[j]) <==> RevivedLoser(p, sorted[i].memoryId, sorted[j].memoryId, now)
    {
      OneSidedIffRevivedLoser(p, all, sorted[i], sorted[j], now);
    }
  }

  lemma SortedCandidatesAreEligible(list: seq<MemoryRecord>, now: int)
    requires UniqueIds(list)
    ensures var sorted := SortRecords(Candidates(list, now));
            forall i :: 0 <= i < |sorted| ==> sorted[i] in list && Eligible(sorted[i], now)
  {
    var sorted := SortRecords(Candidates(list, now));
    CandidatesUnique(list, now);
    SortRecordsSorts(Candidates(list, now));
    forall i | 0 <= i < |sorted| ensures sorted[i] in Candidates(list, now) {
      assert sorted[i] in multiset(sorted);
    }
  }

  /** `a` was archived in favour of another record. */
  ghost predicate Loser(p: Plane, a: nat) {
    exists b :: (a, b) in p.resolved && b != a
  }

  /** A loser is verified again: by a review, or because a later resolution keeps it. */
  ghost predicate Revives(p: Plane, op: Op) {
    || (op.ReviewOp? && op.status == Verified && Loser(p, op.id))
    || (op.ResolveOp? && Loser(p, op.keep))
  }

  ghost predicate NeverRevives(p: Plane, ops: seq<Op>)
    decreases |ops|
  {
    ops == [] || (!Revives(p, ops[0]) && NeverRevives(Apply(p, ops[0]), ops[1..]))
  }

  ghost predicate LosersStayDown(p: Plane) {
    forall a: nat, b: nat :: (a, b) in p.resolved && b != a ==> a in p.repo && p.repo[a].status != Verified
  }

  lemma StepKeepsLosersDown(p: Plane, op: Op, clock: int)
    requires LosersStayDown(p) && Valid(p, op, clock) && !Revives(p, op)
    ensures LosersStayDown(Apply(p, op))
  {
    var q := Apply(p, op);
    forall a: nat, b: nat | (a, b) in q.resolved && b != a
      ensures a in q.repo && q.repo[a].status != Verified
    {
      if (a, b) in p.resolved {
        assert Loser(p, a);
      } else {
        assert op == ResolveOp(b, a, op.now, op.later);
      }
    }
  }

  lemma {:induction false} RunKeepsLosersDown(p: Plane, clock: int, ops: seq<Op>)
    requires LosersStayDown(p) && IsRun(p, clock, ops) && NeverRevives(p, ops)
    ensures LosersStayDown(Run(p, ops))
    decreases |ops|
  {
    if ops != [] {
      StepKeepsLosersDown(p, ops[0], clock);
      RunKeepsLosersDown(Apply(p, ops[0]), ops[0].later, ops[1..]);
    }
  }

  /** As long as no loser is reviewed back to verified or kept by a later resolution, `selectCore`
      never picks two conflicting memories, whichever of the records it is given. */
  lemma WithoutRevivalSelectionsAreConflictFree(ops: seq<Op>, clock: int, all: seq<MemoryRecord>, now: int)
    requires IsRun(EMPTY, clock, ops) && NeverRevives(EMPTY, ops) && ListsRepo(all, Run(EMPTY, ops))
    ensures forall sub, budget :: Among(sub, all) ==> ConflictFree(Select(sub, budget, now).memories)
  {
    var p := Run(EMPTY, ops);
    RunKeepsGraph(EMPTY, clock, ops);
    RunKeepsLosersDown(EMPTY, clock, ops);
    forall a: nat, b: nat ensures !RevivedLoser(p, a, b, now) {
      assert Lists(p, a, b) ==> a != b;
    }
    SelectionsConflictFreeIffNoLoserRevived(ops, clock, all, now);
  }

  // ----- A loser that comes back without a review -----

  /** `m` can be selected as soon as it is verified. */
  predicate Selectable(m: MemoryRecord, now: int) {
    m.tier == Core && m.privacy != Restricted && !Expired(m, now)
  }

  lemma ResolvedRecords(p: Plane, keep: nat, archive: nat, now: int)
    requires keep in p.repo && archive in p.repo && keep != archive
    ensures var q := Apply(p, ResolveOp(keep, archive, now, now));
            && q.repo == p.repo[archive := Reviewed(p.repo[archive], Archived, now)]
                               [keep := Kept(p.repo[keep], archive, now)]
            && q.resolved == p.resolved + {(archive, keep)}
  {
  }

  lemma RunOfTwo(p: Plane, op: Op, next: Op)
    ensures Run(p, [op, next]) == Apply(Apply(p, op), next)
  {
    assert [op, next][1..] == [next] && [next][1..] == [];
    assert Run(Apply(p, op), [next]) == Run(Apply(Apply(p, op), next), []);
  }

  lemma TwoResolutions(p: Plane, a: nat, b: nat, c: nat, first: int, second: int)
    requires a in p.repo && b in p.repo && c in p.repo && a != b && c != a && c != b
    ensures var q := Run(p, [ResolveOp(b, a, first, first), ResolveOp(a, c, second, second)]);
            && a in q.repo && q.repo[a] == Kept(Reviewed(p.repo[a], Archived, first), c, second)
            && b in q.repo && q.repo[b] == Kept(p.repo[b], a, first)
  {
    var op, next := ResolveOp(b, a, first, first), ResolveOp(a, c, second, second);
    RunOfTwo(p, op, next);
    ResolvedRecords(p, b, a, first);
    ResolvedRecords(Apply(p, op), a, c, second);
  }

  /** The loser after both resolutions sorts before the winner of the first. */
  lemma RevivedRecordPrecedes(a: MemoryRecord, b: MemoryRecord, c: nat, first: int, second: int, now: int)
    requires a.memoryId != b.memoryId && first < second && b.confidence <= 0.9
    requires Selectable(a, now) && Selectable(b, now)
    requires b.memoryId in a.conflictsWith && c != b.memoryId
    ensures var x, y := Kept(Reviewed(a, Archived, first), c, second), Kept(b, a.memoryId, first);
            OneSided(x, y) && Eligible(x, now) && Eligible(y, now)
  {
  }

  /** `a` conflicts with `b`, both can be selected, and `c` is a third record. */
  ghost predicate InSelectableConflict(p: Plane, a: nat, b: nat, c: nat, now: int) {
    && Lists(p, a, b) && b in p.repo && c in p.repo && c != a && c != b && a != b
    && Selectable(p.repo[a], now) && Selectable(p.repo[b], now) && p.repo[b].confidence <= 0.9
  }

  /** `a` lists `b`, and a selection with room for both takes both. */
  ghost predicate PicksBoth(q: Plane, a: nat, b: nat, now: int) {
    && a in q.repo && b in q.repo && b in q.repo[a].conflictsWith
    && Select([q.repo[a], q.repo[b]], Cost(q.repo[a]) + Cost(q.repo[b]), now).memories == [q.repo[a], q.repo[b]]
  }

  /** In every state in which `a` lists `b`, both can be selected and `b` is no more than 0.9 confident:
      resolve the conflict for `b`, then keep `a` in a resolution against some third record. No review
      took place, yet `selectCore` now picks both. */
  lemma LoserCanReturnWithoutReview(p: Plane, a: nat, b: nat, c: nat, first: int, second: int, now: int)
    requires IdsOk(p) && InSelectableConflict(p, a, b, c, now) && first < second
    ensures PicksBoth(Run(p, [ResolveOp(b, a, first, first), ResolveOp(a, c, second, second)]), a, b, now)
  {
    TwoResolutions(p, a, b, c, first, second);
    RevivedRecordPrecedes(p.repo[a], p.repo[b], c, first, second, now);
    OneSidedPairIsChosen(Kept(Reviewed(p.repo[a], Archived, first), c, second), Kept(p.repo[b], a, first), now);
  }

  lemma {:induction false} RunConcat(p: Plane, clock: int, first: seq<Op>, rest: seq<Op>)
    requires IsRun(p, clock, first) && IsRun(Run(p, first), ClockAfter(clock, first), rest)
    ensures IsRun(p, clock, first + rest) && Run(p, first + rest) == Run(Run(p, first), rest)
    decreases |first|
  {
    if first == [] {
      assert first + rest == rest;
    } else {
      assert (first + rest)[1..] == first[1..] + rest;
      RunConcat(Apply(p, first[0]), first[0].later, first[1..], rest);
    }
  }

  lemma OneOp(p: Plane, clock: int, op: Op)
    requires Valid(p, op, clock)
    ensures IsRun(p, clock, [op]) && Run(p, [op]) == Apply(p, op) && ClockAfter(clock, [op]) == op.later
  {
    assert [op][1..] == [];
  }

  /** A note in a project, with one character as its text and an empty keyword. */
  function Note(scopeKey: string, c: char): Draft {
    Draft(Project, scopeKey, "", [c], [c], Public, 0.9, Verified, Some(Core), None, {}, [""])
  }

  lemma NormalizedNote(scopeKey: string, c: char)
    requires !IsSpace(c)
    ensures Normalize(Note(scopeKey, c)) == Note(scopeKey, c)
  {
    assert CollapseSpace([c], false) == [c] + CollapseSpace("", false) == [c];
    assert TrimStart([c]) == [c] && TrimEnd([c]) == [c];
    assert Init([""]) == [] && FirstOccurrences<string>([]) == [] && FirstOccurrences([""]) == [] + [""];
  }

  lemma NotesOverlap()
    ensures Overlaps([""], [""])
  {
    assert [""][0] in Keywords([""]);
    assert Keywords([""]) == {""};
    assert Keywords([""]) * Keywords([""]) == {""};
  }

  function WriteNote(scopeKey: string, c: char, id: nat): Op {
    WriteOp(Note(scopeKey, c), id, true, id, id)
  }

  lemma NoteWritten(p: Plane, scopeKey: string, c: char, id: nat, conflicts: set<nat>)
    requires !IsSpace(c) && Conflicts(p.repo, Note(scopeKey, c)) == conflicts
    ensures var q := Apply(p, WriteNote(scopeKey, c, id));
            q.repo == WithLinks(p.repo, Created(Note(scopeKey, c), id, conflicts, id), conflicts, id)
  {
    NormalizedNote(scopeKey, c);
  }

  lemma NoteIsValid(p: Plane, scopeKey: string, c: char, id: nat, clock: int)
    requires id !in p.repo && clock <= id
    ensures Valid(p, WriteNote(scopeKey, c, id), clock)
  {
  }

  lemma WithoutLinks(repo: Repo, created: MemoryRecord, now: int)
    requires created.memoryId !in repo
    ensures WithLinks(repo, created, {}, now) == repo[created.memoryId := created]
  {
  }

  lemma NoConflictAcrossProjects(repo: Repo, d: Draft)
    requires forall id :: id in repo ==> repo[id].scopeKey != d.scopeKey
    ensures Conflicts(repo, d) == {}
  {
  }

  const NOTE_1: Repo := map[1 := Created(Note("p", 'a'), 1, {}, 1)]

  const NOTES_1_2: Repo := WithLinks(NOTE_1, Created(Note("p", 'b'), 2, {1}, 2), {1}, 2)

  lemma FirstNote(p: Plane) returns (op: Op, q: Plane)
    requires p.repo == map[]
    ensures op.WriteOp? && Valid(p, op, 0) && op.later == 1
    ensures q == Apply(p, op) && q.repo == NOTE_1
  {
    op := WriteNote("p", 'a', 1);
    NoteIsValid(p, "p", 'a', 1, 0);
    NoConflictAcrossProjects(p.repo, Note("p", 'a'));
    NoteWritten(p, "p", 'a', 1, {});
    WithoutLinks(p.repo, Created(Note("p", 'a'), 1, {}, 1), 1);
    q := Apply(p, op);
  }

  lemma SecondNote(p: Plane) returns (op: Op, q: Plane)
    requires p.repo == NOTE_1
    ensures op.WriteOp? && Valid(p, op, 1) && op.later == 2
    ensures q == Apply(p, op) && q.repo == NOTES_1_2
  {
    op := WriteNote("p", 'b', 2);
    NotesOverlap();
    assert InConflict(NOTE_1[1], Note("p", 'b')) by { assert ['a'][0] != ['b'][0]; }
    assert Conflicts(NOTE_1, Note("p", 'b')) == {1};
    NoteIsValid(p, "p", 'b', 2, 1);
    NoteWritten(p, "p", 'b', 2, {1});
    q := Apply(p, op);
  }

  lemma NotesOfOneProject()
    ensures NOTES_1_2.Keys == {1, 2} && forall id :: id in NOTES_1_2 ==> NOTES_1_2[id].scopeKey == "p"
  {
  }

  lemma ThirdNote(p: Plane) returns (op: Op, q: Plane)
    requires p.repo == NOTES_1_2
    ensures op.WriteOp? && Valid(p, op, 2) && op.later == 3 && q == Apply(p, op)
    ensures 3 in q.repo && 1 in q.repo && q.repo[1] == NOTES_1_2[1] && 2 in q.repo && q.repo[2] == NOTES_1_2[2]
  {
    op := WriteNote("q", 'c', 3);
    assert "p"[0] != "q"[0];
    NotesOfOneProject();
    NoConflictAcrossProjects(p.repo, Note("q", 'c'));
    NoteIsValid(p, "q", 'c', 3, 2);
    NoteWritten(p, "q", 'c', 3, {});
    WithoutLinks(p.repo, Created(Note("q", 'c'), 3, {}, 3), 3);
    q := Apply(p, op);
  }

  lemma NotesConflict(p: Plane, now: int)
    requires 3 in p.repo && 1 in p.repo && p.repo[1] == NOTES_1_2[1] && 2 in p.repo && p.repo[2] == NOTES_1_2[2]
    ensures InSelectableConflict(p, 1, 2, 3, now)
  {
  }

  /** `ops` leads from the empty repository at time 0 to `p` at time `clock`. */
  ghost predicate Reaches(ops: seq<Op>, p: Plane, clock: int) {
    IsRun(EMPTY, 0, ops) && Run(EMPTY, ops) == p && ClockAfter(0, ops) == clock
  }

  lemma OpAdded(ops: seq<Op>, p: Plane, clock: int, op: Op, q: Plane)
    requires Reaches(ops, p, clock) && Valid(p, op, clock) && q == Apply(p, op)
    ensures Reaches(ops + [op], q, op.later)
  {
    OneOp(p, clock, op);
    RunConcat(EMPTY, 0, ops, [op]);
  }

  ghost predicate OnlyWrites(ops: seq<Op>) {
    forall i :: 0 <= i < |ops| ==> ops[i].WriteOp?
  }

  lemma OneNote() returns (ops: seq<Op>, p: Plane)
    ensures Reaches(ops, p, 1) && OnlyWrites(ops) && p.repo == NOTE_1
  {
    var op;
    op, p := FirstNote(EMPTY);
    OneOp(EMPTY, 0, op);
    ops := [op];
  }

  lemma TwoNotes() returns (ops: seq<Op>, p: Plane)
    ensures Reaches(ops, p, 2) && OnlyWrites(ops) && p.repo == NOTES_1_2
  {
    var before, p1 := OneNote();
    var op;
    op, p := SecondNote(p1);
    OpAdded(before, p1, 1, op, p);
    ops := before + [op];
  }

  /** Two conflicting notes in one project and one note in another. */
  lemma ConflictIsReachable(now: int) returns (ops: seq<Op>, p: Plane)
    ensures Reaches(ops, p, 3) && OnlyWrites(ops) && InSelectableConflict(p, 1, 2, 3, now)
  {
    var before, p2 := TwoNotes();
    var op;
    op, p := ThirdNote(p2);
    OpAdded(before, p2, 2, op, p);
    NotesConflict(p, now);
    ops := before + [op];
  }

  lemma TwoAdded(ops: seq<Op>, p: Plane, clock: int, op: Op, next: Op)
    requires Reaches(ops, p, clock) && Valid(p, op, clock) && Valid(Apply(p, op), next, op.later)
    ensures Reaches(ops + [op, next], Run(p, [op, next]), next.later)
  {
    RunOfTwo(p, op, next);
    OpAdded(ops, p, clock, op, Apply(p, op));
    OpAdded(ops + [op], Apply(p, op), op.later, next, Apply(Apply(p, op), next));
    assert ops + [op] + [next] == ops + [op, next];
  }

  lemma ResolutionsAreValid(p: Plane, clock: int, a: nat, b: nat, c: nat)
    ensures Valid(p, ResolveOp(b, a, clock + 1, clock + 1), clock)
    ensures var q := Apply(p, ResolveOp(b, a, clock + 1, clock + 1));
            Valid(q, ResolveOp(a, c, clock + 2, clock + 2), clock + 1)
  {
  }

  lemma ReachedIdsOk(ops: seq<Op>, p: Plane, clock: int)
    requires Reaches(ops, p, clock)
    ensures IdsOk(p)
  {
    RunKeepsGraph(EMPTY, 0, ops);
  }

  /** Two resolutions later `selectCore` picks both. */
  lemma LoserReturnsAfter(ops: seq<Op>, p: Plane, clock: int, a: nat, b: nat, c: nat, now: int)
      returns (more: seq<Op>, q: Plane)
    requires Reaches(ops, p, clock) && InSelectableConflict(p, a, b, c, now)
    ensures Reaches(ops + more, q, clock + 2) && |more| == 2 && more[0].ResolveOp? && more[1].ResolveOp?
    ensures PicksBoth(q, a, b, now)
  {
    var op, next := ResolveOp(b, a, clock + 1, clock + 1), ResolveOp(a, c, clock + 2, clock + 2);
    ReachedIdsOk(ops, p, clock);
    LoserCanReturnWithoutReview(p, a, b, c, clock + 1, clock + 2, now);
    ResolutionsAreValid(p, clock, a, b, c);
    TwoAdded(ops, p, clock, op, next);
    more, q := [op, next], Run(p, [op, next]);
  }

  /** A run from the empty repository without any review, three writes and two resolutions, after which
      `selectCore` picks two conflicting memories. */
  lemma RevivalWithoutReviewIsReachable(now: int) returns (ops: seq<Op>, q: Plane)
    ensures Reaches(ops, q, 5) && PicksBoth(q, 1, 2, now)
    ensures forall i :: 0 <= i < |ops| ==> ops[i].WriteOp? || ops[i].ResolveOp?
  {
    var writes, p := ConflictIsReachable(now);
    var resolutions;
    resolutions, q := LoserReturnsAfter(writes, p, 3, 1, 2, 3, now);
    ops := writes + resolutions;
  }

  // ----- Index agreement -----

  ghost predicate UniqueRows(rows: seq<Row>) {
    forall i, j :: 0 <= i < j < |rows| ==> rows[i].memoryId != rows[j].memoryId
  }

  /** The row is the current text of a record that is indexable at `at`. */
  ghost predicate RowOk(repo: Repo, row: Row, at: int) {
    row.memoryId in repo && row == RowOf(repo[row.memoryId]) && Indexable(repo[row.memoryId], at)
  }

  /** Every row was right at the last aging, and no record that is indexable now is missing. */
  ghost predicate IndexOk(p: Plane, aged: int, clock: int) {
    && IdsOk(p) && aged <= clock && UniqueRows(p.rows)
    && (forall row :: row in p.rows ==> RowOk(p.repo, row, aged))
    && (forall id :: id in p.repo && Indexable(p.repo[id], clock) ==> RowOf(p.repo[id]) in p.rows)
  }

  lemma {:induction false} RemoveRowMembers(rows: seq<Row>, id: nat)
    ensures forall row :: row in RemoveRow(rows, id) <==> row in rows && row.memoryId != id
    ensures UniqueRows(rows) ==> UniqueRows(RemoveRow(rows, id))
    decreases |rows|
  {
    if rows != [] {
      RemoveRowMembers(rows[1..], id);
      assert forall row :: row in rows <==> row == rows[0] || row in rows[1..];
      if UniqueRows(rows) {
        var rest := RemoveRow(rows[1..], id);
        forall j | 0 <= j < |rest| ensures rest[j].memoryId != rows[0].memoryId { assert rest[j] in rows[1..]; }
      }
    }
  }

  lemma {:induction false} RemoveRowsMembers(rows: seq<Row>, ids: set<nat>)
    ensures forall row :: row in RemoveRows(rows, ids) <==> row in rows && row.memoryId !in ids
    ensures UniqueRows(rows) ==> UniqueRows(RemoveRows(rows, ids))
    decreases |rows|
  {
    if rows != [] {
      RemoveRowsMembers(rows[1..], ids);
      assert forall row :: row in rows <==> row == rows[0] || row in rows[1..];
      if UniqueRows(rows) {
        var rest := RemoveRows(rows[1..], ids);
        forall j | 0 <= j < |rest| ensures rest[j].memoryId != rows[0].memoryId { assert rest[j] in rows[1..]; }
      }
    }
  }

  lemma SyncMembers(rows: seq<Row>, m: MemoryRecord, now: int)
    ensures forall row :: row in SyncIndex(rows, m, now) <==>
              (row in rows && row.memoryId != m.memoryId) || (row == RowOf(m) && Indexable(m, now))
    ensures UniqueRows(rows) ==> UniqueRows(SyncIndex(rows, m, now))
  {
    RemoveRowMembers(rows, m.memoryId);
    var rest := RemoveRow(rows, m.memoryId);
    forall j | 0 <= j < |rest| ensures rest[j].memoryId != m.memoryId { assert rest[j] in rest; }
  }

  /** Index and repository stay in step when one record changes and the index is told. */
  lemma SyncKeepsIndex(p: Plane, q: Plane, m: MemoryRecord, aged: int, clock: int, later: int)
    requires IndexOk(p, aged, clock) && IdsOk(q) && clock <= later
    requires m.memoryId in q.repo && q.repo[m.memoryId] == m && q.rows == SyncIndex(p.rows, m, later)
    requires forall id :: id in q.repo && id != m.memoryId ==>
               id in p.repo && RowOf(q.repo[id]) == RowOf(p.repo[id])
               && forall t :: Indexable(q.repo[id], t) <==> Indexable(p.repo[id], t)
    requires forall id :: id in p.repo ==> id in q.repo
    ensures IndexOk(q, aged, later)
  {
    SyncMembers(p.rows, m, later);
    forall row | row in q.rows ensures RowOk(q.repo, row, aged) {
      if row == RowOf(m) && Indexable(m, later) {
      } else {
        assert RowOk(p.repo, row, aged);
      }
    }
    forall id | id in q.repo && Indexable(q.repo[id], later) ensures RowOf(q.repo[id]) in q.rows {
      if id != m.memoryId {
        assert Indexable(p.repo[id], clock);
        assert RowOf(p.repo[id]) in p.rows;
      }
    }
  }

  lemma ReviewKeepsIndex(p: Plane, id: nat, status: Status, now: int, later: int, aged: int, clock: int)
    requires IndexOk(p, aged, clock) && clock <= now <= later
    ensures IndexOk(Review(p, id, status, now, later), aged, later)
  {
    if id in p.repo {
      SyncKeepsIndex(p, Review(p, id, status, now, later), Reviewed(p.repo[id], status, now), aged, clock, later);
    } else {
      LaterClock(p, aged, clock, later);
    }
  }

  lemma LaterClock(p: Plane, aged: int, clock: int, later: int)
    requires IndexOk(p, aged, clock) && clock <= later
    ensures IndexOk(p, aged, later)
  {
    forall id | id in p.repo && Indexable(p.repo[id], later) ensures RowOf(p.repo[id]) in p.rows {
      assert Indexable(p.repo[id], clock);
    }
  }

  lemma ResolveKeepsIndex(p: Plane, keep: nat, archive: nat, now: int, later: int, aged: int, clock: int)
    requires IndexOk(p, aged, clock) && clock <= now <= later
    ensures IndexOk(Resolve(p, keep, archive, now, later), aged, later)
  {
    if keep in p.repo && archive in p.repo {
      ReviewKeepsIndex(p, archive, Archived, now, later, aged, clock);
      SyncKeepsIndex(Review(p, archive, Archived, now, later), Resolve(p, keep, archive, now, later),
                     Kept(p.repo[keep], archive, now), aged, later, later);
    } else {
      LaterClock(p, aged, clock, later);
    }
  }

  /** Linking back changes neither the text of a record nor whether it is indexable. */
  lemma LinkedRowsStay(repo: Repo, created: MemoryRecord, linked: set<nat>, now: int)
    requires created.memoryId !in repo
    ensures var q := WithLinks(repo, created, linked, now);
            forall id :: id in repo ==>
              id in q && RowOf(q[id]) == RowOf(repo[id]) && forall t :: Indexable(q[id], t) <==> Indexable(repo[id], t)
  {
  }

  lemma PersistKeepsIndex(p: Plane, d: Draft, id: nat, now: int, later: int, aged: int, clock: int)
    requires IndexOk(p, aged, clock) && clock <= now <= later && id !in p.repo
    ensures IndexOk(Persist(p, d, id, now, later), aged, later)
  {
    var q, conflicts := Persist(p, d, id, now, later), Conflicts(p.repo, Normalize(d));
    LinkedRowsStay(p.repo, Created(Normalize(d), id, conflicts, now), conflicts, now);
    SyncKeepsIndex(p, q, q.repo[id], aged, clock, later);
  }

  /** A row holds the identity and all the text of its record. */
  lemma RowHoldsText(m: MemoryRecord) returns (keywords: string)
    ensures var row := RowOf(m);
            && row.memoryId == m.memoryId && row.scope == m.scope && row.scopeKey == m.scopeKey
            && row.content == m.title + "\n" + m.summary + "\n" + m.content + "\n" + keywords
            && IsJoined(keywords, m.keywords, " ")
  {
    keywords := Join(m.keywords, " ");
    JoinJoins(m.keywords, " ");
  }

  ghost predicate IndexExact(p: Plane, now: int) {
    UniqueRows(p.rows) && forall row :: row in p.rows <==> RowOk(p.repo, row, now)
  }

  lemma AgeMakesIndexExact(p: Plane, now: int, aged: int, clock: int)
    requires IndexOk(p, aged, clock) && clock <= now
    ensures IndexExact(Age(p, now), now)
    ensures IndexOk(Age(p, now), now, now)
  {
    var q := Age(p, now);
    RemoveRowsMembers(p.rows, AgingIds(p.repo, now));
    forall row | row in q.rows ensures RowOk(q.repo, row, now) {
      assert RowOk(p.repo, row, aged);
    }
    forall row | RowOk(q.repo, row, now) ensures row in q.rows {
      assert Indexable(p.repo[row.memoryId], clock);
      assert RowOf(p.repo[row.memoryId]) in p.rows;
    }
  }

  function LastAging(aged: int, ops: seq<Op>): int
    decreases |ops|
  {
    if ops == [] then aged else LastAging(if ops[0].AgeOp? then ops[0].now else aged, ops[1..])
  }

  lemma StepKeepsIndex(p: Plane, op: Op, aged: int, clock: int)
    requires IndexOk(p, aged, clock) && Valid(p, op, clock)
    ensures IndexOk(Apply(p, op), if op.AgeOp? then op.now else aged, op.later)
  {
    match op
    case WriteOp(d, id, allowed, now, later) =>
      if WriteAccepted(d, allowed) {
        PersistKeepsIndex(p, d, id, now, later, aged, clock);
      } else {
        LaterClock(p, aged, clock, later);
      }
    case ReviewOp(id, status, now, later) => ReviewKeepsIndex(p, id, status, now, later, aged, clock);
    case ResolveOp(keep, archive, now, later) => ResolveKeepsIndex(p, keep, archive, now, later, aged, clock);
    case AgeOp(now, later) =>
      AgeMakesIndexExact(p, now, aged, clock);
      LaterClock(Age(p, now), now, now, later);
  }

  lemma {:induction false} RunKeepsIndex(p: Plane, aged: int, clock: int, ops: seq<Op>)
    requires IndexOk(p, aged, clock) && IsRun(p, clock, ops)
    ensures IndexOk(Run(p, ops), LastAging(aged, ops), ClockAfter(clock, ops))
    decreases |ops|
  {
    if ops != [] {
      StepKeepsIndex(p, ops[0], aged, clock);
      RunKeepsIndex(Apply(p, ops[0]), if ops[0].AgeOp? then ops[0].now else aged, ops[0].later, ops[1..]);
    }
  }

  /** A record that search may find. */
  ghost predicate Findable(m: MemoryRecord, now: int) {
    && m.status == Verified && (m.privacy == Public || m.privacy == Internal)
    && (m.expiresAt.Some? ==> now < m.expiresAt.value)
  }

  /** After every run, an aging call leaves exactly the rows of the verified, unrestricted, unexpired
      records, with their current text. */
  lemma IndexAgreesAfterAging(ops: seq<Op>, clock: int, now: int)
    requires IsRun(EMPTY, clock, ops) && ClockAfter(clock, ops) <= now
    ensures var q := Age(Run(EMPTY, ops), now);
            && UniqueRows(q.rows)
            && (forall row :: row in q.rows <==>
                  && row.memoryId in q.repo && Findable(q.repo[row.memoryId], now)
                  && row == RowOf(q.repo[row.memoryId]))
  {
    var q := Age(Run(EMPTY, ops), now);
    forall row ensures RowOk(q.repo, row, now) <==>
                       && row.memoryId in q.repo && Findable(q.repo[row.memoryId], now)
                       && row == RowOf(q.repo[row.memoryId]) {
    }
    RunKeepsIndex(EMPTY, clock, clock, ops);
    AgeMakesIndexExact(Run(EMPTY, ops), now, LastAging(clock, ops), ClockAfter(clock, ops));
  }

  /** Between aging calls no indexable record is missing, and an extra row can only belong to a record
      that has expired since the last aging. */
  lemma IndexBetweenAgings(ops: seq<Op>, clock: int)
    requires IsRun(EMPTY, clock, ops)
    ensures var p, aged, now := Run(EMPTY, ops), LastAging(clock, ops), ClockAfter(clock, ops);
            && UniqueRows(p.rows)
            && (forall id :: id in p.repo && Findable(p.repo[id], now) ==> RowOf(p.repo[id]) in p.rows)
            && (forall row :: row in p.rows ==>
                  && row.memoryId in p.repo && row == RowOf(p.repo[row.memoryId])
                  && var m := p.repo[row.memoryId];
                     m.status == Verified && m.privacy != Restricted
                     && (m.expiresAt.Some? && m.expiresAt.value <= now ==> aged < m.expiresAt.value))
  {
    RunKeepsIndex(EMPTY, clock, clock, ops);
    var p := Run(EMPTY, ops);
    forall row | row in p.rows ensures RowOk(p.repo, row, LastAging(clock, ops)) {
    }
  }
}

/** Memory records and the rules about them that several services share
    (src/types/memory.ts, src/memory/search-provider.ts). */
module MemoryRecords {
  import opened Prelude

  datatype Status = Candidate | Verified | Stale | Rejected | Archived

  datatype Tier = Core | Retrieval

  datatype Privacy = Public | Internal | Restricted

  datatype Scope = Profile | Project | Working | ExperienceRef | SkillRef | SessionRef

  /** Ids stand for the UUIDs of the source, ordered as the source compares them; times are
      milliseconds, `None` the SQL null. */
  datatype MemoryRecord = MemoryRecord(
    memoryId: nat,
    scope: Scope,
    scopeKey: string,
    title: string,
    content: string,
    summary: string,
    privacy: Privacy,
    confidence: real,
    status: Status,
    tier: Tier,
    updatedAt: int,
    lastVerifiedAt: Option<int>,
    expiresAt: Option<int>,
    conflictsWith: set<nat>,
    keywords: seq<string>)

  predicate Expired(m: MemoryRecord, now: int) {
    m.expiresAt.Some? && m.expiresAt.value <= now
  }

  /** `isExternallyIndexableMemory`; every tier is indexable. */
  predicate Indexable(m: MemoryRecord, now: int) {
    m.privacy != Restricted && m.status == Verified && !Expired(m, now)
  }
}

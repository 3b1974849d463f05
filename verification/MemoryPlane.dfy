/** The memory service: it updates the repository and the full-text table record by record
    (src/memory/memory-plane.ts, src/memory/sqlite-fts-memory-search-provider.ts).

    Every method is proved against the operation of `MemoryState` that it carries out; the clock
    readings of a call are its parameters. */
module MemoryPlane {
  import opened Prelude
  import opened MemoryRecords
  import opened MemoryState

  datatype MemoryError = MemoryNotFound(memoryId: nat)

  lemma {:induction false} RemoveRowAfterRows(rows: seq<Row>, ids: set<nat>, id: nat)
    ensures RemoveRow(RemoveRows(rows, ids), id) == RemoveRows(rows, ids + {id})
    decreases |rows|
  {
    if rows != [] {
      RemoveRowAfterRows(rows[1..], ids, id);
      var rest := RemoveRows(rows[1..], ids);
      assert rows[0].memoryId !in ids ==> ([rows[0]] + rest)[1..] == rest;
      assert rows[0].memoryId in ids ==> [] + rest == rest;
      assert [] + RemoveRow(rest, id) == RemoveRow(rest, id);
    }
  }

  lemma {:induction false} RemoveNoRows(rows: seq<Row>)
    ensures RemoveRows(rows, {}) == rows
    decreases |rows|
  {
    if rows != [] { RemoveNoRows(rows[1..]); }
  }

  lemma LinkOneMore(repo: Repo, created: MemoryRecord, linked: set<nat>, id: nat, now: int)
    requires id in repo && id !in linked && created.memoryId !in repo
    ensures var q := WithLinks(repo, created, linked, now);
            id in q && q[id := LinkedBack(q[id], created.memoryId, now)] == WithLinks(repo, created, linked + {id}, now)
  {
  }

  lemma OneMoreStale(repo: Repo, ids: set<nat>, id: nat, now: int)
    requires id in repo && id !in ids
    ensures var q := WithStale(repo, ids, now);
            id in q && q[id] == repo[id] && q[id := WentStale(q[id], now)] == WithStale(repo, ids + {id}, now)
  {
  }

  class Service {
    var repo: Repo
    var rows: seq<Row>
    ghost var resolved: set<(nat, nat)>

    ghost function State(): Plane
      reads this
    {
      Plane(repo, rows, resolved)
    }

    constructor ()
      ensures State() == EMPTY
    {
      repo, rows, resolved := map[], [], {};
    }

    method RemoveSync(id: nat)
      modifies `rows
      ensures rows == RemoveRow(old(rows), id)
    {
      var kept: seq<Row> := [];
      var n := |rows|;
      while n > 0
        invariant 0 <= n <= |rows| && rows == old(rows)
        invariant kept == RemoveRow(rows[n..], id)
      {
        n := n - 1;
        assert rows[n..][1..] == rows[n + 1..];
        if rows[n].memoryId != id { kept := [rows[n]] + kept; }
      }
      assert rows[0..] == rows;
      rows := kept;
    }

    method UpsertSync(m: MemoryRecord, now: int)
      modifies `rows
      ensures rows == UpsertRow(old(rows), m, now)
    {
      RemoveSync(m.memoryId);
      if !Indexable(m, now) {
        return;
      }
      rows := rows + [RowOf(m)];
    }

    method SyncSearchIndex(m: MemoryRecord, now: int)
      modifies `rows
      ensures rows == SyncIndex(old(rows), m, now)
    {
      if m.status == Verified {
        UpsertSync(m, now);
      } else {
        RemoveSync(m.memoryId);
      }
    }

    method WriteMemory(draft: Draft, id: nat, allowed: bool, now: int, later: int) returns (r: Option<MemoryRecord>)
      requires id !in repo
      modifies this
      ensures State() == Apply(old(State()), WriteOp(draft, id, allowed, now, later))
      ensures r == if WriteAccepted(draft, allowed) then Some(repo[id]) else None
    {
      if draft.scope == Working {
        return None;
      }
      if draft.scope == Project || draft.scope == Profile {
        if !allowed {
          return None;
        }
      }
      var persisted := PersistMemory(draft, id, now, later);
      r := Some(persisted);
    }

    /** The loop over the conflicting records. */
    method LinkBack(ghost before: Repo, persisted: MemoryRecord, conflictIds: set<nat>, now: int)
      requires persisted.memoryId !in before && conflictIds <= before.Keys
      requires repo == WithLinks(before, persisted, {}, now)
      modifies `repo
      ensures repo == WithLinks(before, persisted, conflictIds, now)
    {
      var remaining := conflictIds;
      ghost var linked: set<nat> := {};
      while remaining != {}
        invariant linked + remaining == conflictIds && linked !! remaining
        invariant repo == WithLinks(before, persisted, linked, now)
      {
        var conflictId: nat :| conflictId in remaining;
        LinkOneMore(before, persisted, linked, conflictId, now);
        remaining := remaining - {conflictId};
        linked := linked + {conflictId};
        repo := repo[conflictId := LinkedBack(repo[conflictId], persisted.memoryId, now)];
      }
    }

    method PersistMemory(draft: Draft, id: nat, now: int, later: int) returns (persisted: MemoryRecord)
      requires id !in repo
      modifies this
      ensures State() == Persist(old(State()), draft, id, now, later) && id in repo && persisted == repo[id]
    {
      var normalized := Normalize(draft);
      var conflictIds := Conflicts(repo, normalized);
      persisted := Created(normalized, id, conflictIds, now);
      repo := repo[id := persisted];
      assert repo == WithLinks(old(repo), persisted, {}, now);
      LinkBack(old(repo), persisted, conflictIds, now);
      SyncSearchIndex(persisted, later);
    }

    method ReviewMemory(id: nat, status: Status, now: int, later: int) returns (r: Result<MemoryRecord, MemoryError>)
      modifies this
      ensures State() == Review(old(State()), id, status, now, later)
      ensures r == if id in old(repo) then Ok(repo[id]) else Err(MemoryNotFound(id))
    {
      if id !in repo {
        return Err(MemoryNotFound(id));
      }
      var updated := Reviewed(repo[id], status, now);
      repo := repo[id := updated];
      SyncSearchIndex(updated, later);
      r := Ok(updated);
    }

    /** Returns the kept and the archived record. */
    method ResolveConflict(keep: nat, archive: nat, now: int, later: int)
      returns (r: Result<(MemoryRecord, MemoryRecord), MemoryError>)
      requires IdsOk(State())
      modifies this
      ensures State() == Resolve(old(State()), keep, archive, now, later)
      ensures r == if keep !in old(repo) then Err(MemoryNotFound(keep))
                   else if archive !in old(repo) then Err(MemoryNotFound(archive))
                   else Ok((repo[keep], Reviewed(old(repo)[archive], Archived, now)))
    {
      if keep !in repo {
        return Err(MemoryNotFound(keep));
      }
      if archive !in repo {
        return Err(MemoryNotFound(archive));
      }
      var kept, rival := repo[keep], repo[archive];
      var archived := ReviewMemory(rival.memoryId, Archived, now, later);
      var updatedKept := Kept(kept, rival.memoryId, now);
      repo := repo[kept.memoryId := updatedKept];
      resolved := resolved + {(archive, keep)};
      SyncSearchIndex(updatedKept, later);
      r := Ok((updatedKept, archived.value));
    }

    method AgeExpiredMemories(now: int, later: int)
      requires IdsOk(State())
      modifies this
      ensures State() == Age(old(State()), now)
    {
      var listed := set id | id in repo && !Retired(repo[id].status);
      ghost var aged: set<nat> := {};
      RemoveNoRows(rows);
      assert repo == WithStale(old(repo), {}, now);
      while listed != {}
        invariant resolved == old(resolved) && aged !! listed
        invariant forall id :: id in listed ==> id in old(repo) && !Retired(old(repo)[id].status)
        invariant forall id :: id in AgingIds(old(repo), now) <==>
                  id in aged || (id in listed && Expired(old(repo)[id], now))
        invariant repo == WithStale(old(repo), aged, now)
        invariant rows == RemoveRows(old(rows), aged)
      {
        var id: nat :| id in listed;
        listed := listed - {id};
        var memory := repo[id];
        OneMoreStale(old(repo), aged, id, now);
        if memory.expiresAt.Some? && memory.expiresAt.value <= now && memory.status != Rejected {
          var updated := WentStale(memory, now);
          repo := repo[id := updated];
          SyncSearchIndex(updated, later);
          RemoveRowAfterRows(old(rows), aged, id);
          aged := aged + {id};
        }
      }
      assert aged == AgingIds(old(repo), now);
    }
  }
}

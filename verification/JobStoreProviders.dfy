/** The two store providers as the objects that callers share. Each method is one critical
    section (a held mutex, one SQL statement) and is tied to the functions of `JobStores`. */
module JobStoreProviders {
  import opened Common
  import Timestamps
  import opened JobStores

  class InMemoryJobStore {
    var nextId: nat
    var queues: map<string, seq<nat>>
    var records: Table

    function State(): Memory
      reads this
    {
      Memory(nextId, queues, records)
    }

    constructor ()
      ensures State() == Memory(0, map[], map[])
    {
      nextId, queues, records := 0, map[], map[];
    }

    method Enqueue(job: NewJob, now: Timestamps.Instant) returns (id: nat)
      modifies this
      ensures State() == MemoryEnqueue(old(State()), job, now) && id == nextId
    {
      nextId := nextId + 1;
      id := nextId;
      records := records[id := Fresh(id, job, now)];
      if job.queue !in queues {
        queues := queues[job.queue := []];
      }
      queues := queues[job.queue := queues[job.queue] + [id]];
    }

    /** Walks the listed queues in order and each deque from its front. */
    method PullNext(names: seq<string>, now: Timestamps.Instant) returns (pulled: Option<JobRecord>)
      modifies this
      ensures (State(), pulled) == MemoryPull(old(State()), names, now)
    {
      for k := 0 to |names|
        invariant State() == old(State())
        invariant forall j | 0 <= j < k :: !HasDue(State(), names[j], now)
      {
        if names[k] in queues {
          var deque := queues[names[k]];
          var i := 0;
          while i < |deque| && !IsDue(records, deque[i], now)
            invariant 0 <= i <= |deque|
            invariant forall j | 0 <= j < i :: !IsDue(records, deque[j], now)
          {
            i := i + 1;
          }
          if i < |deque| {
            var record := records[deque[i]].Dispatched();
            queues := queues[names[k] := Without(deque, i)];
            records := records[deque[i] := record];
            return Some(record);
          }
        }
      }
      pulled := None;
    }

    method MarkCompleted(id: nat)
      modifies this`records
      ensures State() == MemoryComplete(old(State()), id)
    {
      if id in records {
        records := records[id := records[id].(status := Completed)];
      }
    }

    method MarkFailed(id: nat, next: Option<Timestamps.Instant>)
      modifies this
      ensures State() == MemoryFail(old(State()), id, next)
    {
      if id !in records {
        return;
      }
      var queue := records[id].queue;
      match next {
        case None =>
          records := records[id := records[id].(status := Dead)];
        case Some(at) =>
          records := records[id := records[id].Rescheduled(at)];
          if queue !in queues {
            queues := queues[queue := []];
          }
          queues := queues[queue := queues[queue] + [id]];
      }
    }
  }

  /** The table behind the SQLite store; AUTOINCREMENT remembers the last id. */
  class SqliteJobStore {
    var lastId: nat
    var rows: Table

    function State(): Store
      reads this
    {
      Sqlite(lastId, rows)
    }

    constructor ()
      ensures State() == Sqlite(0, map[])
    {
      lastId, rows := 0, map[];
    }

    method Enqueue(job: NewJob, now: Timestamps.Instant) returns (id: nat)
      modifies this
      ensures State() == old(State()).Enqueue(job, now) && id == lastId
    {
      lastId := lastId + 1;
      id := lastId;
      rows := rows[id := Fresh(id, job, now)];
    }

    /** The sub-select of the pull: one pass over the table that keeps the first row in sort order. */
    method SelectFirst(names: seq<string>, now: Timestamps.Instant) returns (pick: Option<nat>)
      ensures pick == FirstRow(rows, names, now, lastId)
    {
      hide Timestamps.Format, Timestamps.Before;
      pick := None;
      for id := 1 to lastId + 1
        invariant pick == FirstRow(rows, names, now, id - 1)
      {
        if id in rows && Selected(rows[id], names, now) && (pick.None? || SortsBefore(rows[id], rows[pick.value])) {
          pick := Some(id);
        }
      }
    }

    method PullNext(names: seq<string>, now: Timestamps.Instant) returns (pulled: Option<JobRecord>)
      modifies this`rows
      ensures (State(), pulled) == old(State()).Pull(names, now)
    {
      hide Timestamps.Format, Timestamps.Before;
      if names == [] {
        return None;
      }
      var pick := SelectFirst(names, now);
      match pick {
        case None =>
          pulled := None;
        case Some(id) =>
          rows := rows[id := RowDispatched(rows[id])];
          pulled := Some(rows[id]);
      }
    }

    method MarkCompleted(id: nat)
      modifies this`rows
      ensures State() == old(State()).Complete(id)
    {
      if id in rows {
        rows := rows[id := rows[id].(status := Completed)];
      }
    }

    method MarkFailed(id: nat, next: Option<Timestamps.Instant>)
      modifies this`rows
      ensures State() == old(State()).Fail(id, next)
    {
      if id in rows {
        rows := rows[id := if next.None? then rows[id].(status := Dead) else rows[id].Rescheduled(next.value)];
      }
    }
  }

  /** The store that the workers hold, whichever provider it is. */
  datatype JobStore = MemoryStore(memory: InMemoryJobStore) | SqliteStore(sqlite: SqliteJobStore)
  {
    function Provider(): object {
      match this
      case MemoryStore(memory) => memory
      case SqliteStore(sqlite) => sqlite
    }

    function State(): Store
      reads Provider()
    {
      match this
      case MemoryStore(memory) => InMemory(memory.State())
      case SqliteStore(sqlite) => sqlite.State()
    }

    method PullNext(names: seq<string>, now: Timestamps.Instant) returns (pulled: Option<JobRecord>)
      modifies Provider()
      ensures (State(), pulled) == old(State()).Pull(names, now)
    {
      match this {
        case MemoryStore(memory) => pulled := memory.PullNext(names, now);
        case SqliteStore(sqlite) => pulled := sqlite.PullNext(names, now);
      }
    }

    method MarkCompleted(id: nat)
      modifies Provider()
      ensures State() == old(State()).Complete(id)
    {
      match this {
        case MemoryStore(memory) => memory.MarkCompleted(id);
        case SqliteStore(sqlite) => sqlite.MarkCompleted(id);
      }
    }

    method MarkFailed(id: nat, next: Option<Timestamps.Instant>)
      modifies Provider()
      ensures State() == old(State()).Fail(id, next)
    {
      match this {
        case MemoryStore(memory) => memory.MarkFailed(id, next);
        case SqliteStore(sqlite) => sqlite.MarkFailed(id, next);
      }
    }

    /** Whatever others made of it; memory stays memory. */
    method Become(state: Store)
      requires state.InMemory? <==> MemoryStore?
      modifies Provider()
      ensures State() == state
    {
      match this {
        case MemoryStore(memory) =>
          memory.nextId, memory.queues, memory.records := state.memory.nextId, state.memory.queues, state.memory.records;
        case SqliteStore(sqlite) => sqlite.lastId, sqlite.rows := state.lastId, state.rows;
      }
    }
  }
}

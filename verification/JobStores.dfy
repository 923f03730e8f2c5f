/** Job records, the abstract queue that a job store stands for, and the two stores that
    implement it: deques in memory, and a table that is ordered by timestamp text. */
module JobStores {
  import opened Common
  import opened Timestamps

  // ----------------------------------------------------------------- records

  datatype Status = Pending | Running | Completed | Retrying | Dead

  datatype NewJob = NewJob(name: string, payload: string, queue: string, maxAttempts: u32, scheduledAt: Instant)

  datatype JobRecord = JobRecord(
    id: nat, name: string, payload: string, queue: string, attempt: u32, maxAttempts: u32,
    status: Status, enqueuedAt: Instant, scheduledAt: Instant)
  {
    /** Waiting to be pulled, now or later. */
    predicate Queued() {
      status.Pending? || status.Retrying?
    }

    predicate Due(now: Instant) {
      Queued() && scheduledAt <= now
    }

    function Dispatched(): JobRecord {
      this.(attempt := SaturatingInc(attempt), status := Running)
    }

    function Rescheduled(at: Instant): JobRecord {
      this.(status := Retrying, scheduledAt := at)
    }
  }

  function Fresh(id: nat, job: NewJob, now: Instant): JobRecord {
    JobRecord(id, job.name, job.payload, job.queue, 0, job.maxAttempts, Pending, now, job.scheduledAt)
  }

  type Table = map<nat, JobRecord>

  // ---------------------------------------------------------- abstract queue

  /** A pull returns some due job of a listed queue and makes it run, or nothing because
      nothing is due. At the u32 limit the stores count differently: one saturates, one wraps. */
  ghost predicate AbstractPull(before: Table, queues: seq<string>, now: Instant, out: Option<JobRecord>, after: Table) {
    match out
    case None =>
      after == before && forall id | id in before :: !(before[id].queue in queues && before[id].Due(now))
    case Some(r) =>
      && r.id in before
      && before[r.id].queue in queues && before[r.id].Due(now)
      && (before[r.id].attempt < U32_MAX ==> r.attempt == before[r.id].attempt + 1)
      && r == before[r.id].(attempt := r.attempt, status := Running)
      && after == before[r.id := r]
  }

  // ------------------------------------------------------------ memory store

  /** `queues` holds the waiting ids of each queue in pull order. */
  datatype Memory = Memory(nextId: nat, queues: map<string, seq<nat>>, records: Table)

  predicate IsDue(records: Table, id: nat, now: Instant) {
    id in records && records[id].Due(now)
  }

  /** Position of the first due id of a deque, or its length. */
  function FirstDue(deque: seq<nat>, records: Table, now: Instant): (i: nat)
    ensures i <= |deque|
    ensures forall j | 0 <= j < i :: !IsDue(records, deque[j], now)
    ensures i < |deque| ==> IsDue(records, deque[i], now)
  {
    if deque == [] || IsDue(records, deque[0], now) then 0 else 1 + FirstDue(deque[1..], records, now)
  }

  function Deque(queues: map<string, seq<nat>>, name: string): seq<nat> {
    if name in queues then queues[name] else []
  }

  predicate HasDue(m: Memory, name: string, now: Instant) {
    FirstDue(Deque(m.queues, name), m.records, now) < |Deque(m.queues, name)|
  }

  /** Position of the first listed queue that has a due job, or the length of the list. */
  function FirstReady(m: Memory, names: seq<string>, now: Instant): (k: nat)
    ensures k <= |names|
    ensures forall j | 0 <= j < k :: !HasDue(m, names[j], now)
    ensures k < |names| ==> HasDue(m, names[k], now)
  {
    if names == [] || HasDue(m, names[0], now) then 0 else 1 + FirstReady(m, names[1..], now)
  }

  function Without(s: seq<nat>, i: nat): (r: seq<nat>)
    requires i < |s|
    ensures |r| == |s| - 1
    ensures forall j | 0 <= j < |r| :: r[j] == if j < i then s[j] else s[j + 1]
  {
    s[..i] + s[i + 1..]
  }

  function MemoryEnqueue(m: Memory, job: NewJob, now: Instant): Memory {
    var id := m.nextId + 1;
    Memory(id, m.queues[job.queue := Deque(m.queues, job.queue) + [id]], m.records[id := Fresh(id, job, now)])
  }

  function MemoryPull(m: Memory, names: seq<string>, now: Instant): (Memory, Option<JobRecord>) {
    var k := FirstReady(m, names, now);
    if k == |names| then (m, None)
    else
      var deque := Deque(m.queues, names[k]);
      var i := FirstDue(deque, m.records, now);
      var r := m.records[deque[i]].Dispatched();
      (m.(queues := m.queues[names[k] := Without(deque, i)], records := m.records[deque[i] := r]), Some(r))
  }

  function MemoryComplete(m: Memory, id: nat): Memory {
    if id in m.records then m.(records := m.records[id := m.records[id].(status := Completed)]) else m
  }

  function MemoryFail(m: Memory, id: nat, next: Option<Instant>): Memory {
    if id !in m.records then m
    else
      var r := m.records[id];
      match next
      case None => m.(records := m.records[id := r.(status := Dead)])
      case Some(at) =>
        m.(records := m.records[id := r.Rescheduled(at)],
           queues := m.queues[r.queue := Deque(m.queues, r.queue) + [id]])
  }

  // ------------------------------------------------------------ SQLite store

  /** The attempt column is a 64-bit integer that is read back as a u32. */
  function RowDispatched(r: JobRecord): JobRecord {
    r.(attempt := (r.attempt + 1) % (U32_MAX + 1), status := Running)
  }

  /** The WHERE clause of the pull, which compares timestamps as text. */
  predicate Selected(r: JobRecord, names: seq<string>, now: Instant) {
    r.queue in names && r.Queued() && !Before(Format(now), Format(r.scheduledAt))
  }

  /** ORDER BY scheduled_at ASC, id ASC. */
  predicate SortsBefore(a: JobRecord, b: JobRecord) {
    var s, t := Format(a.scheduledAt), Format(b.scheduledAt);
    Before(s, t) || (s == t && a.id < b.id)
  }

  /** The first selected row among the ids 1 to n. */
  function FirstRow(rows: Table, names: seq<string>, now: Instant, n: nat): (pick: Option<nat>)
    ensures pick.Some? ==> 1 <= pick.value <= n && pick.value in rows && Selected(rows[pick.value], names, now)
    ensures pick.None? ==> forall id | 1 <= id <= n && id in rows :: !Selected(rows[id], names, now)
  {
    if n == 0 then None
    else
      var pick := FirstRow(rows, names, now, n - 1);
      if n in rows && Selected(rows[n], names, now) && (pick.None? || SortsBefore(rows[n], rows[pick.value]))
      then Some(n) else pick
  }

  function RowsPull(rows: Table, lastId: nat, names: seq<string>, now: Instant): (Table, Option<JobRecord>) {
    match FirstRow(rows, names, now, lastId)
    case None => (rows, None)
    case Some(id) => var r := RowDispatched(rows[id]); (rows[id := r], Some(r))
  }

  function RowsSet(rows: Table, id: nat, f: JobRecord -> JobRecord): Table {
    if id in rows then rows[id := f(rows[id])] else rows
  }

  // --------------------------------------------------------- the `dyn JobStore`

  /** Either provider of the store capability. */
  datatype Store = InMemory(memory: Memory) | Sqlite(lastId: nat, rows: Table)
  {
    function Records(): Table {
      if InMemory? then memory.records else rows
    }

    function LastId(): nat {
      if InMemory? then memory.nextId else lastId
    }

    function Enqueue(job: NewJob, now: Instant): Store {
      match this
      case InMemory(m) => InMemory(MemoryEnqueue(m, job, now))
      case Sqlite(last, rows) => Sqlite(last + 1, rows[last + 1 := Fresh(last + 1, job, now)])
    }

    function Pull(names: seq<string>, now: Instant): (Store, Option<JobRecord>) {
      match this
      case InMemory(m) => var (m', out) := MemoryPull(m, names, now); (InMemory(m'), out)
      case Sqlite(last, rows) => var (rows', out) := RowsPull(rows, last, names, now); (Sqlite(last, rows'), out)
    }

    function Complete(id: nat): Store {
      match this
      case InMemory(m) => InMemory(MemoryComplete(m, id))
      case Sqlite(last, rows) => Sqlite(last, RowsSet(rows, id, (r: JobRecord) => r.(status := Completed)))
    }

    function Fail(id: nat, next: Option<Instant>): Store {
      match this
      case InMemory(m) => InMemory(MemoryFail(m, id, next))
      case Sqlite(last, rows) =>
        Sqlite(last, RowsSet(rows, id, (r: JobRecord) =>
          if next.None? then r.(status := Dead) else r.Rescheduled(next.value)))
    }

    /** A clock whose text compares as the time does. */
    predicate Readable(now: Instant) {
      Sqlite? ==> FourDigitYear(now)
    }

    /** A schedule whose text compares to such a clock as the time does. */
    predicate Schedulable(t: Instant) {
      Sqlite? ==> t < FOUR_DIGIT_END
    }

    // ------------------------------------------------- representation invariant

    ghost predicate Shape() {
      IdsOk(LastId(), Records()) && (InMemory? ==> DequesOk(memory))
    }

    ghost predicate Ok() {
      && IdsOk(LastId(), Records())
      && (InMemory? ==> DequesOk(memory))
      && (forall id | id in Records() :: Schedulable(Records()[id].scheduledAt))
    }
  }

  /** Ids are handed out without gaps and a record sits under its own id. */
  ghost predicate IdsOk(last: nat, records: Table) {
    && (forall id: nat :: id in records <==> 1 <= id <= last)
    && (forall id | id in records :: records[id].id == id)
  }

  /** Every deque entry is a waiting job of that queue, no deque repeats an id,
      and every waiting job is in the deque of its queue. */
  ghost predicate DequesOk(m: Memory) {
    && (forall q | q in m.queues :: DequeOk(m.records, q, m.queues[q]))
    && (forall id | id in m.records && m.records[id].Queued() :: id in Deque(m.queues, m.records[id].queue))
  }

  ghost predicate DequeOk(records: Table, q: string, deque: seq<nat>) {
    && (forall i | 0 <= i < |deque| :: deque[i] in records && records[deque[i]].queue == q && records[deque[i]].Queued())
    && Distinct(deque)
  }

  /** In a sound memory store a job waits iff its id sits in exactly one place. */
  lemma WaitingIffInOnePlace(m: Memory, id: nat)
    requires DequesOk(m) && id in m.records
    ensures m.records[id].Queued() <==>
            exists i :: 0 <= i < |Deque(m.queues, m.records[id].queue)| && Deque(m.queues, m.records[id].queue)[i] == id
    ensures forall q, i, q', i' | InPlace(m, q, i, id) && InPlace(m, q', i', id) :: q == q' && i == i'
    ensures forall q, i | InPlace(m, q, i, id) :: q == m.records[id].queue && m.records[id].Queued()
  {
  }

  ghost predicate InPlace(m: Memory, q: string, i: int, id: nat) {
    q in m.queues && 0 <= i < |m.queues[q]| && m.queues[q][i] == id
  }

  // ------------------------------------------------------------- refinement

  /** What a store keeps of a job it has just taken. */
  predicate Recorded(job: NewJob, id: nat, now: Instant, r: JobRecord) {
    && r.id == id && r.name == job.name && r.payload == job.payload && r.queue == job.queue
    && r.maxAttempts == job.maxAttempts && r.scheduledAt == job.scheduledAt
    && r.enqueuedAt == now && r.attempt == 0 && r.status == Pending
  }

  /** The new job gets the next id and all it was submitted with; the store stays sound iff it can order
      the job's schedule. */
  lemma EnqueueRefines(s: Store, job: NewJob, now: Instant)
    requires s.Ok()
    ensures var s' := s.Enqueue(job, now); var id := s.LastId() + 1;
            && s'.LastId() == id && id !in s.Records()
            && id in s'.Records() && Recorded(job, id, now, s'.Records()[id])
            && s'.Records() == s.Records()[id := s'.Records()[id]]
            && (s'.Ok() <==> s.Schedulable(job.scheduledAt))
  {
    var s' := s.Enqueue(job, now);
    assert s'.Records()[s'.LastId()].scheduledAt == job.scheduledAt;
    if s.InMemory? {
      EnqueueKeepsDeques(s.memory, job, now);
    }
  }

  lemma EnqueueKeepsDeques(m: Memory, job: NewJob, now: Instant)
    requires DequesOk(m) && m.nextId + 1 !in m.records
    ensures DequesOk(MemoryEnqueue(m, job, now))
  {
    var id, m' := m.nextId + 1, MemoryEnqueue(m, job, now);
    forall q | q in m'.queues
      ensures DequeOk(m'.records, q, m'.queues[q])
    {
      if q in m.queues {
        assert DequeOk(m.records, q, m.queues[q]);
      }
    }
    assert m'.queues[job.queue][|m'.queues[job.queue]| - 1] == id;
  }

  lemma PullRefines(s: Store, names: seq<string>, now: Instant)
    requires s.Ok() && s.Readable(now)
    ensures var (s', out) := s.Pull(names, now);
            && s'.Ok() && s'.LastId() == s.LastId()
            && AbstractPull(s.Records(), names, now, out, s'.Records())
  {
    if s.InMemory? {
      MemoryPullRefines(s.memory, names, now);
    } else {
      RowsPullRefines(s.rows, s.lastId, names, now);
    }
  }

  lemma {:induction false} MemoryPullRefines(m: Memory, names: seq<string>, now: Instant)
    requires IdsOk(m.nextId, m.records) && DequesOk(m)
    ensures var (m', out) := MemoryPull(m, names, now);
            && IdsOk(m'.nextId, m'.records) && DequesOk(m') && m'.nextId == m.nextId
            && AbstractPull(m.records, names, now, out, m'.records)
  {
    var k := FirstReady(m, names, now);
    if k == |names| {
      forall id | id in m.records && m.records[id].queue in names
        ensures !m.records[id].Due(now)
      {
        var q := m.records[id].queue;
        var j :| 0 <= j < |names| && names[j] == q;
        assert !HasDue(m, names[j], now);
        if m.records[id].Queued() {
          NotDueAnywhere(Deque(m.queues, q), m.records, now, id);
        }
      }
    } else {
      var q := names[k];
      var i := FirstDue(Deque(m.queues, q), m.records, now);
      RemoveKeepsDeques(m, q, i);
    }
  }

  lemma NotDueAnywhere(deque: seq<nat>, records: Table, now: Instant, id: nat)
    requires id in deque && FirstDue(deque, records, now) == |deque|
    ensures !IsDue(records, id, now)
  {
    var i :| 0 <= i < |deque| && deque[i] == id;
    assert !IsDue(records, deque[i], now);
  }

  /** Taking one entry out of its deque and making that job run keeps the deques sound. */
  lemma RemoveKeepsDeques(m: Memory, q: string, i: nat)
    requires DequesOk(m) && q in m.queues && i < |m.queues[q]|
    ensures var id := m.queues[q][i];
            id in m.records
            && DequesOk(m.(queues := m.queues[q := Without(m.queues[q], i)],
                           records := m.records[id := m.records[id].Dispatched()]))
  {
    var id := m.queues[q][i];
    var rest := Without(m.queues[q], i);
    var m' := m.(queues := m.queues[q := rest], records := m.records[id := m.records[id].Dispatched()]);
    assert DequeOk(m.records, q, m.queues[q]);
    forall p | p in m'.queues
      ensures DequeOk(m'.records, p, m'.queues[p])
    {
      assert DequeOk(m.records, p, m.queues[p]);
    }
    forall x | x in m'.records && m'.records[x].Queued()
      ensures x in Deque(m'.queues, m'.records[x].queue)
    {
      assert x != id && x in Deque(m.queues, m.records[x].queue);
      var p := m.records[x].queue;
      if p == q {
        var j :| 0 <= j < |m.queues[q]| && m.queues[q][j] == x;
        assert rest[if j < i then j else j - 1] == x;
      }
    }
  }

  lemma RowsPullRefines(rows: Table, last: nat, names: seq<string>, now: Instant)
    requires IdsOk(last, rows) && FourDigitYear(now)
    requires forall id | id in rows :: rows[id].scheduledAt < FOUR_DIGIT_END
    ensures var (rows', out) := RowsPull(rows, last, names, now);
            && IdsOk(last, rows') && AbstractPull(rows, names, now, out, rows')
            && (forall id | id in rows' :: rows'[id].scheduledAt < FOUR_DIGIT_END)
  {
    RowsPullRefinesIff(rows, last, names, now);
    hide Selected, FirstRow, SortsBefore, AbstractPull;
  }

  lemma SelectedIsDue(r: JobRecord, names: seq<string>, now: Instant)
    requires FourDigitYear(now) && r.scheduledAt < FOUR_DIGIT_END
    ensures Selected(r, names, now) <==> r.queue in names && r.Due(now)
  {
    TextComparisonExact(r.scheduledAt, now);
  }

  /** The WHERE clause selects exactly the due rows if and only if every waiting row of a listed queue
      is scheduled before the year 10000. */
  lemma SelectionExactIff(rows: Table, names: seq<string>, now: Instant)
    requires FourDigitYear(now)
    ensures (forall id | id in rows :: Selected(rows[id], names, now) <==> rows[id].queue in names && rows[id].Due(now))
            <==> forall id | id in rows && rows[id].queue in names && rows[id].Queued() ::
                   rows[id].scheduledAt < FOUR_DIGIT_END
  {
    hide Format, Before;
    forall id | id in rows
      ensures (Selected(rows[id], names, now) <==> rows[id].queue in names && rows[id].Due(now)) <==>
              (rows[id].queue in names && rows[id].Queued() ==> rows[id].scheduledAt < FOUR_DIGIT_END)
    {
      TextComparisonExact(rows[id].scheduledAt, now);
    }
  }

  /** No waiting job of a listed queue is scheduled from the year 10000 on. */
  ghost predicate NoneLate(records: Table, names: seq<string>) {
    forall id | id in records && records[id].queue in names && records[id].Queued() ::
      records[id].scheduledAt < FOUR_DIGIT_END
  }

  lemma LateSortsFirst(late: JobRecord, r: JobRecord)
    requires r.scheduledAt < FOUR_DIGIT_END <= late.scheduledAt
    ensures SortsBefore(late, r) && !SortsBefore(r, late)
  {
    LateYearsPrintFirst(late.scheduledAt, r.scheduledAt);
  }

  /** The clock's text does not hide a late schedule, so it is selected. */
  lemma LateIsSelected(r: JobRecord, names: seq<string>, now: Instant)
    requires FourDigitYear(now) && r.scheduledAt >= FOUR_DIGIT_END
    ensures Selected(r, names, now) <==> r.queue in names && r.Queued()
  {
    LateYearsPrintFirst(r.scheduledAt, now);
  }

  /** If any waiting row is late, the pull picks a late one. */
  lemma {:induction false} LateIsPicked(rows: Table, names: seq<string>, now: Instant, n: nat, late: nat)
    requires FourDigitYear(now) && 1 <= late <= n && late in rows
    requires rows[late].queue in names && rows[late].Queued() && rows[late].scheduledAt >= FOUR_DIGIT_END
    ensures var pick := FirstRow(rows, names, now, n);
            pick.Some? && rows[pick.value].scheduledAt >= FOUR_DIGIT_END
  {
    hide Format, Before;
    LateIsSelected(rows[late], names, now);
    var before := FirstRow(rows, names, now, n - 1);
    if late < n {
      LateIsPicked(rows, names, now, n - 1, late);
      if n in rows && rows[n].scheduledAt < FOUR_DIGIT_END {
        LateSortsFirst(rows[before.value], rows[n]);
      }
    } else if before.Some? && rows[before.value].scheduledAt < FOUR_DIGIT_END {
      LateSortsFirst(rows[late], rows[before.value]);
    }
  }

  /** The table pull refines the abstract one if and only if no waiting row of a listed queue is
      scheduled from the year 10000 on; such a row is handed out at once, before all others. */
  lemma RowsPullRefinesIff(rows: Table, last: nat, names: seq<string>, now: Instant)
    requires IdsOk(last, rows) && FourDigitYear(now)
    ensures var (rows', out) := RowsPull(rows, last, names, now);
            && IdsOk(last, rows')
            && (AbstractPull(rows, names, now, out, rows') <==> NoneLate(rows, names))
  {
    hide Format, Before;
    var pick := FirstRow(rows, names, now, last);
    forall id | id in rows
      ensures Selected(rows[id], names, now) <==>
              rows[id].queue in names && rows[id].Queued()
              && (rows[id].scheduledAt <= now || rows[id].scheduledAt >= FOUR_DIGIT_END)
    {
      if rows[id].scheduledAt < FOUR_DIGIT_END {
        SelectedIsDue(rows[id], names, now);
      } else {
        LateIsSelected(rows[id], names, now);
      }
    }
    if !NoneLate(rows, names) {
      var late :| late in rows && rows[late].queue in names && rows[late].Queued() && rows[late].scheduledAt >= FOUR_DIGIT_END;
      LateIsPicked(rows, names, now, last, late);
    }
    hide Selected, FirstRow, SortsBefore;
  }

  /** A pull of either store, from any sound deques or rows, refines the abstract one if and only if it
      is the memory store or no waiting row of a listed queue is that late. */
  lemma PullRefinesIff(s: Store, names: seq<string>, now: Instant)
    requires s.Shape() && s.Readable(now)
    ensures var (s', out) := s.Pull(names, now);
            && s'.Shape() && s'.LastId() == s.LastId()
            && (AbstractPull(s.Records(), names, now, out, s'.Records()) <==> s.InMemory? || NoneLate(s.Records(), names))
  {
    hide Format, Before, MemoryPull, RowsPull, AbstractPull, NoneLate;
    if s.InMemory? {
      MemoryPullRefines(s.memory, names, now);
    } else {
      RowsPullRefinesIff(s.rows, s.lastId, names, now);
    }
  }

  lemma MemoryAttempt(m: Memory, names: seq<string>, now: Instant)
    requires IdsOk(m.nextId, m.records)
    ensures var out := MemoryPull(m, names, now).1;
            out.Some? ==> out.value.id in m.records && out.value == m.records[out.value.id].Dispatched()
  {
    hide FirstReady, FirstDue, HasDue;
    if FirstReady(m, names, now) < |names| {
      assert HasDue(m, names[FirstReady(m, names, now)], now);
    }
  }

  lemma RowAttempt(rows: Table, last: nat, names: seq<string>, now: Instant)
    requires IdsOk(last, rows)
    ensures var out := RowsPull(rows, last, names, now).1;
            out.Some? ==> out.value.id in rows && out.value == RowDispatched(rows[out.value.id])
  {
    hide FirstRow, Selected;
  }

  /** At the u32 limit, which no budget lets a job reach, the memory store's counter saturates and the
      table's wraps. */
  lemma AttemptsAtTheLimit(s: Store, names: seq<string>, now: Instant)
    requires s.Shape()
    ensures var out := s.Pull(names, now).1;
            out.Some? ==>
              && out.value.id in s.Records()
              && (s.Records()[out.value.id].attempt == U32_MAX ==> out.value.attempt == if s.InMemory? then U32_MAX else 0)
  {
    hide MemoryPull, RowsPull;
    if s.InMemory? {
      MemoryAttempt(s.memory, names, now);
    } else {
      RowAttempt(s.rows, s.lastId, names, now);
    }
  }

  /** The order of the waiting rows: by schedule, then by id. */
  ghost predicate Earlier(a: JobRecord, b: JobRecord) {
    a.scheduledAt < b.scheduledAt || (a.scheduledAt == b.scheduledAt && a.id < b.id)
  }

  lemma SortsBeforeIsEarlier(a: JobRecord, b: JobRecord)
    requires FourDigitYear(a.scheduledAt) && FourDigitYear(b.scheduledAt)
    ensures SortsBefore(a, b) <==> Earlier(a, b)
  {
    TextOrderIsTimeOrder(a.scheduledAt, b.scheduledAt);
  }

  /** The table pull picks the earliest schedule, and the smallest id among equals. */
  lemma {:induction false} FirstRowIsEarliest(rows: Table, names: seq<string>, now: Instant, n: nat)
    requires FourDigitYear(now)
    requires forall id | id in rows :: FourDigitYear(rows[id].scheduledAt) && rows[id].id == id
    requires FirstRow(rows, names, now, n).Some?
    ensures var pick := FirstRow(rows, names, now, n).value;
            forall id | 1 <= id <= n && id in rows && rows[id].queue in names && rows[id].Due(now) && id != pick ::
              Earlier(rows[pick], rows[id])
  {
    hide Format, Before;
    var pick := FirstRow(rows, names, now, n).value;
    var before := FirstRow(rows, names, now, n - 1);
    if before.Some? {
      FirstRowIsEarliest(rows, names, now, n - 1);
    }
    if n in rows {
      SelectedIsDue(rows[n], names, now);
      if before.Some? {
        SortsBeforeIsEarlier(rows[n], rows[before.value]);
      }
    }
    forall id | 1 <= id <= n && id in rows && rows[id].queue in names && rows[id].Due(now) && id != pick
      ensures Earlier(rows[pick], rows[id])
    {
      SelectedIsDue(rows[id], names, now);
    }
  }

  /** Completing changes one status, or nothing for an unknown id; the store stays sound iff it is not
      the memory store with that job still waiting. */
  lemma CompleteRefines(s: Store, id: nat)
    requires s.Ok()
    ensures var s' := s.Complete(id);
            && s'.LastId() == s.LastId()
            && s'.Records() == (if id in s.Records() then s.Records()[id := s.Records()[id].(status := Completed)]
                                else s.Records())
            && (s'.Ok() <==> (s.InMemory? && id in s.Records() ==> !s.Records()[id].Queued()))
  {
    if s.InMemory? && id in s.Records() {
      MarkingSoundIffNotWaiting(s.memory, id, None);
    }
  }

  /** Failing buries or re-schedules one job, or changes nothing for an unknown id; the store stays
      sound iff the job was not waiting in memory and its new schedule can be ordered. */
  lemma FailRefines(s: Store, id: nat, next: Option<Instant>)
    requires s.Ok()
    ensures var s' := s.Fail(id, next);
            && s'.LastId() == s.LastId()
            && s'.Records() == (if id !in s.Records() then s.Records()
                                else if next.None? then s.Records()[id := s.Records()[id].(status := Dead)]
                                else s.Records()[id := s.Records()[id].(status := Retrying, scheduledAt := next.value)])
            && (s'.Ok() <==> (id in s.Records() ==>
                  && (s.InMemory? ==> !s.Records()[id].Queued())
                  && (next.Some? ==> s.Schedulable(next.value))))
  {
    if s.InMemory? && id in s.Records() {
      MarkingSoundIffNotWaiting(s.memory, id, next);
    }
    var s' := s.Fail(id, next);
    if id in s.Records() && next.Some? {
      assert s'.Records()[id].scheduledAt == next.value;
    }
  }

  lemma StatusChangeKeepsDeques(m: Memory, id: nat, r: JobRecord)
    requires DequesOk(m) && id in m.records && !m.records[id].Queued()
    requires !r.Queued() && r.queue == m.records[id].queue
    ensures DequesOk(m.(records := m.records[id := r]))
  {
    forall q | q in m.queues
      ensures DequeOk(m.records[id := r], q, m.queues[q])
    {
      assert DequeOk(m.records, q, m.queues[q]);
    }
  }

  lemma RequeueKeepsDeques(m: Memory, id: nat, at: Instant)
    requires DequesOk(m) && id in m.records && !m.records[id].Queued()
    ensures DequesOk(MemoryFail(m, id, Some(at)))
  {
    var m' := MemoryFail(m, id, Some(at));
    var home := m.records[id].queue;
    forall q | q in m'.queues
      ensures DequeOk(m'.records, q, m'.queues[q])
    {
      if q in m.queues {
        assert DequeOk(m.records, q, m.queues[q]);
      }
    }
    assert m'.queues[home][|m'.queues[home]| - 1] == id;
    forall x | x in m'.records && m'.records[x].Queued()
      ensures x in Deque(m'.queues, m'.records[x].queue)
    {
      if x != id {
        assert x in Deque(m.queues, m.records[x].queue);
      }
    }
  }

  /** The memory store does not look at the status it replaces: marking a job keeps the deques
      sound exactly when that job was not waiting. */
  lemma MarkingSoundIffNotWaiting(m: Memory, id: nat, next: Option<Instant>)
    requires DequesOk(m) && id in m.records
    ensures DequesOk(MemoryFail(m, id, next)) <==> !m.records[id].Queued()
    ensures DequesOk(MemoryComplete(m, id)) <==> !m.records[id].Queued()
  {
    var r := m.records[id];
    if r.Queued() {
      var i :| 0 <= i < |Deque(m.queues, r.queue)| && Deque(m.queues, r.queue)[i] == id;
      var m1, m2 := MemoryFail(m, id, next), MemoryComplete(m, id);
      assert m2.queues[r.queue][i] == id && !DequeOk(m2.records, r.queue, m2.queues[r.queue]);
      var d := m1.queues[r.queue];
      assert d[i] == id;
      if next.Some? {
        assert d[|d| - 1] == id && i < |d| - 1;
      }
      assert !DequeOk(m1.records, r.queue, d);
    } else {
      StatusChangeKeepsDeques(m, id, r.(status := Completed));
      if next.None? {
        StatusChangeKeepsDeques(m, id, r.(status := Dead));
      } else {
        RequeueKeepsDeques(m, id, next.value);
      }
    }
  }
}

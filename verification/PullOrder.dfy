/** When the two stores hand out the same jobs: over one queue, with schedules that do not go
    backwards and no retries, the deque walk and `ORDER BY scheduled_at, id` pick alike. Also what the
    order of the listed queues means in memory. */
module PullOrder {
  import opened Common
  import opened Timestamps
  import opened JobStores

  datatype Call =
    | Enqueue(job: NewJob, at: Instant)
    | Pull(names: seq<string>, now: Instant)
    | Complete(id: nat)
    | Bury(id: nat)

  function After(s: Store, call: Call): Store {
    match call
    case Enqueue(job, at) => s.Enqueue(job, at)
    case Pull(names, now) => s.Pull(names, now).0
    case Complete(id) => s.Complete(id)
    case Bury(id) => s.Fail(id, None)
  }

  /** What the pulls of a run return, in order. */
  function Pulls(s: Store, calls: seq<Call>): seq<Option<JobRecord>>
    decreases |calls|
  {
    if calls == [] then []
    else
      (if calls[0].Pull? then [s.Pull(calls[0].names, calls[0].now).1] else []) + Pulls(After(s, calls[0]), calls[1..])
  }

  /** All jobs go to queue `q`, each scheduled no earlier than the one before. */
  ghost predicate InOrder(q: string, latest: Instant, calls: seq<Call>)
    decreases |calls|
  {
    calls == [] ||
    match calls[0]
    case Enqueue(job, _) =>
      job.queue == q && latest <= job.scheduledAt && FourDigitYear(job.scheduledAt)
      && InOrder(q, job.scheduledAt, calls[1..])
    case Pull(_, now) => FourDigitYear(now) && InOrder(q, latest, calls[1..])
    case _ => InOrder(q, latest, calls[1..])
  }

  /** The two stores hold the same records, and the one deque lists them by id. */
  ghost predicate Matches(q: string, latest: Instant, m: Memory, last: nat, rows: Table) {
    && m.nextId == last && m.records == rows && IdsOk(last, rows)
    && m.queues.Keys <= {q}
    && (forall id | id in rows ::
          rows[id].queue == q && FourDigitYear(rows[id].scheduledAt) && rows[id].scheduledAt <= latest
          && (rows[id].Queued() ==> rows[id].attempt == 0 && id in Deque(m.queues, q)))
    && (forall i, j | i in rows && j in rows && i < j :: rows[i].scheduledAt <= rows[j].scheduledAt)
    && Increasing(Deque(m.queues, q))
    && (forall id | id in Deque(m.queues, q) :: id in rows)
  }

  ghost predicate Increasing(s: seq<nat>) {
    forall i, j | 0 <= i < j < |s| :: s[i] < s[j]
  }

  /** The first due id of an increasing deque is the smallest due id. */
  lemma FirstDueIsSmallest(deque: seq<nat>, records: Table, now: Instant, id: nat)
    requires Increasing(deque) && id in deque && IsDue(records, id, now)
    ensures var i := FirstDue(deque, records, now); i < |deque| && deque[i] <= id
  {
    var j :| 0 <= j < |deque| && deque[j] == id;
  }

  lemma FirstReadyIsTheQueue(q: string, m: Memory, names: seq<string>, now: Instant)
    requires m.queues.Keys <= {q}
    ensures var k := FirstReady(m, names, now);
            if k < |names| then names[k] == q && HasDue(m, q, now) else q in names ==> !HasDue(m, q, now)
  {
    var k := FirstReady(m, names, now);
    if k == |names| && q in names {
      var j :| 0 <= j < |names| && names[j] == q;
      assert !HasDue(m, names[j], now);
    }
  }

  /** Both picks exist together and are the same job. */
  lemma SamePick(q: string, latest: Instant, m: Memory, last: nat, rows: Table, names: seq<string>, now: Instant)
    requires Matches(q, latest, m, last, rows) && FourDigitYear(now)
    ensures var pick := FirstRow(rows, names, now, last); var deque := Deque(m.queues, q);
            var i := FirstDue(deque, rows, now);
            if FirstReady(m, names, now) < |names|
            then names[FirstReady(m, names, now)] == q && i < |deque| && pick == Some(deque[i])
            else pick == None
  {
    hide Format, Before;
    var pick, deque := FirstRow(rows, names, now, last), Deque(m.queues, q);
    var i := FirstDue(deque, rows, now);
    FirstReadyIsTheQueue(q, m, names, now);
    if pick.Some? {
      SelectedIsDue(rows[pick.value], names, now);
      FirstDueIsSmallest(deque, rows, now, pick.value);
    }
    if FirstReady(m, names, now) < |names| {
      SelectedIsDue(rows[deque[i]], names, now);
      FirstRowIsEarliest(rows, names, now, last);
    }
  }

  lemma SamePull(q: string, latest: Instant, m: Memory, last: nat, rows: Table, names: seq<string>, now: Instant)
    requires Matches(q, latest, m, last, rows) && FourDigitYear(now)
    ensures var (m', out) := MemoryPull(m, names, now); var (rows', out') := RowsPull(rows, last, names, now);
            out == out' && Matches(q, latest, m', last, rows')
  {
    hide Format, Before, FirstRow, FirstReady, FirstDue, HasDue;
    SamePick(q, latest, m, last, rows, names, now);
    if FirstReady(m, names, now) < |names| {
      var deque := Deque(m.queues, q);
      var i := FirstDue(deque, rows, now);
      RemoveKeepsMatch(q, latest, m, last, rows, i);
    }
  }

  lemma WithoutOne(deque: seq<nat>, i: nat)
    requires Increasing(deque) && i < |deque|
    ensures Increasing(Without(deque, i))
    ensures forall x :: x in Without(deque, i) <==> x in deque && x != deque[i]
  {
    var rest := Without(deque, i);
    forall x ensures x in rest <==> x in deque && x != deque[i] {
      if x in deque && x != deque[i] {
        var j :| 0 <= j < |deque| && deque[j] == x;
        assert rest[if j < i then j else j - 1] == x;
      }
      if x in rest {
        var j :| 0 <= j < |rest| && rest[j] == x;
        assert deque[if j < i then j else j + 1] == x;
      }
    }
  }

  lemma RemoveKeepsMatch(q: string, latest: Instant, m: Memory, last: nat, rows: Table, i: nat)
    requires Matches(q, latest, m, last, rows) && q in m.queues && i < |m.queues[q]|
    ensures var id := m.queues[q][i];
            id in rows &&
            var r := rows[id].Dispatched();
            var m' := m.(queues := m.queues[q := Without(m.queues[q], i)], records := rows[id := r]);
            Matches(q, latest, m', last, rows[id := r])
  {
    hide Format, Before, FourDigitYear;
    WithoutOne(m.queues[q], i);
    assert m.queues[q][i] in Deque(m.queues, q);
    hide Increasing;
  }

  lemma EnqueueKeepsMatch(q: string, latest: Instant, m: Memory, last: nat, rows: Table, job: NewJob, at: Instant)
    requires Matches(q, latest, m, last, rows)
    requires job.queue == q && latest <= job.scheduledAt && FourDigitYear(job.scheduledAt)
    ensures Matches(q, job.scheduledAt, MemoryEnqueue(m, job, at), last + 1, rows[last + 1 := Fresh(last + 1, job, at)])
  {
    var m' := MemoryEnqueue(m, job, at);
    var deque, deque' := Deque(m.queues, q), Deque(m'.queues, q);
    assert deque' == deque + [last + 1];
    assert deque'[|deque|] == last + 1;
    forall i, j | 0 <= i < j < |deque'|
      ensures deque'[i] < deque'[j]
    {
      assert deque[i] in deque;
    }
    assert forall id | id in deque :: id in deque' && id in rows;
  }

  /** A job that is no longer queued leaves the match as it is. */
  lemma MarkKeepsMatch(q: string, latest: Instant, m: Memory, last: nat, rows: Table, id: nat, status: Status)
    requires Matches(q, latest, m, last, rows) && id in rows && (status.Completed? || status.Dead?)
    ensures var marked := rows[id := rows[id].(status := status)];
            Matches(q, latest, m.(records := marked), last, marked)
  {
    hide Increasing, Format, Before, FourDigitYear;
  }

  lemma CallKeepsMatch(q: string, latest: Instant, m: Memory, last: nat, rows: Table, call: Call)
    requires Matches(q, latest, m, last, rows) && InOrder(q, latest, [call])
    ensures var latest' := if call.Enqueue? then call.job.scheduledAt else latest;
            var s, t := After(InMemory(m), call), After(Sqlite(last, rows), call);
            s.InMemory? && t.Sqlite? && Matches(q, latest', s.memory, t.lastId, t.rows)
    ensures call.Pull? ==> InMemory(m).Pull(call.names, call.now).1 == Sqlite(last, rows).Pull(call.names, call.now).1
  {
    hide Format, Before, FirstRow, FirstReady, FirstDue, HasDue;
    assert m.records == rows && m.nextId == last;
    hide Matches;
    match call
    case Enqueue(job, at) => EnqueueKeepsMatch(q, latest, m, last, rows, job, at);
    case Pull(names, now) => SamePull(q, latest, m, last, rows, names, now);
    case Complete(id) =>
      if id in rows {
        MarkKeepsMatch(q, latest, m, last, rows, id, Completed);
      }
    case Bury(id) =>
      if id in rows {
        MarkKeepsMatch(q, latest, m, last, rows, id, Dead);
      }
  }

  /** For every run that keeps the order, the two stores return the same job at every pull. */
  lemma {:induction false} StoresPullAlike(q: string, latest: Instant, m: Memory, last: nat, rows: Table, calls: seq<Call>)
    requires Matches(q, latest, m, last, rows) && InOrder(q, latest, calls)
    ensures Pulls(InMemory(m), calls) == Pulls(Sqlite(last, rows), calls)
    decreases |calls|
  {
    if calls != [] {
      hide Format, Before, FirstRow, FirstReady, FirstDue, HasDue;
      var call := calls[0];
      assert InOrder(q, latest, [call]);
      CallKeepsMatch(q, latest, m, last, rows, call);
      var latest' := if call.Enqueue? then call.job.scheduledAt else latest;
      var s, t := After(InMemory(m), call), After(Sqlite(last, rows), call);
      StoresPullAlike(q, latest', s.memory, t.lastId, t.rows, calls[1..]);
    }
  }

  /** The premise on the schedules matters: of two due jobs enqueued out of order, memory hands
      out the first enqueued and the table the first scheduled. */
  lemma OutOfOrderDiffers(first: NewJob, second: NewJob, at: Instant, now: Instant)
    requires first.queue == second.queue && second.scheduledAt < first.scheduledAt <= now
    requires FourDigitYear(second.scheduledAt) && FourDigitYear(now)
    ensures var calls := [Enqueue(first, at), Enqueue(second, at), Pull([first.queue], now)];
            var a, b := Pulls(InMemory(Memory(0, map[], map[])), calls), Pulls(Sqlite(0, map[]), calls);
            |a| == |b| == 1 && a[0].Some? && b[0].Some? && a[0].value.id == 1 && b[0].value.id == 2
  {
    hide Format, Before, FirstRow;
    var names := [first.queue];
    var calls := [Enqueue(first, at), Enqueue(second, at), Pull(names, now)];
    assert calls[1..] == [Enqueue(second, at), Pull(names, now)] && calls[1..][1..] == [Pull(names, now)];
    var m := MemoryEnqueue(MemoryEnqueue(Memory(0, map[], map[]), first, at), second, at);
    assert m.queues[first.queue] == [1, 2];
    var rows := map[1 := Fresh(1, first, at), 2 := Fresh(2, second, at)];
    assert m.records == rows;
    SelectedIsDue(rows[2], names, now);
    FirstRowIsEarliest(rows, names, now, 2);
    var pick := FirstRow(rows, names, now, 2);
    var s2, t2 := InMemory(m), Sqlite(2, rows);
    assert Pulls(s2, [Pull(names, now)]) == [s2.Pull(names, now).1];
    assert Pulls(t2, [Pull(names, now)]) == [t2.Pull(names, now).1];
    assert HasDue(m, names[0], now);
  }

  // -------------------------------------------------------- order among queues

  function AfterPulls(m: Memory, names: seq<string>, now: Instant, n: nat): Memory
    decreases n
  {
    if n == 0 then m else AfterPulls(MemoryPull(m, names, now).0, names, now, n - 1)
  }

  ghost predicate Sound(m: Memory) {
    IdsOk(m.nextId, m.records) && DequesOk(m)
  }

  ghost predicate AllDue(m: Memory, q: string, now: Instant, n: nat) {
    n <= |Deque(m.queues, q)| && forall i | 0 <= i < n :: IsDue(m.records, Deque(m.queues, q)[i], now)
  }

  /** The first `n` jobs of queue `q` are gone, and nothing else has changed. */
  ghost predicate Served(m: Memory, m': Memory, q: string, n: nat) {
    && n <= |Deque(m.queues, q)| && Deque(m'.queues, q) == Deque(m.queues, q)[n..]
    && (forall p | p != q :: Deque(m'.queues, p) == Deque(m.queues, p))
    && (forall id | id in m.records && id !in Deque(m.queues, q) :: id in m'.records && m'.records[id] == m.records[id])
  }

  lemma FrontPull(m: Memory, names: seq<string>, now: Instant, n: nat)
    requires Sound(m) && names != [] && n > 0 && AllDue(m, names[0], now, n)
    ensures var m' := MemoryPull(m, names, now).0;
            Sound(m') && AllDue(m', names[0], now, n - 1) && Served(m, m', names[0], 1)
  {
    var q, deque := names[0], Deque(m.queues, names[0]);
    assert FirstDue(deque, m.records, now) == 0 && HasDue(m, q, now);
    assert FirstReady(m, names, now) == 0;
    assert Without(deque, 0) == deque[1..];
    assert DequeOk(m.records, q, deque);
    var m' := MemoryPull(m, names, now).0;
    assert m'.queues == m.queues[q := deque[1..]];
    assert m'.records == m.records[deque[0] := m.records[deque[0]].Dispatched()];
    MemoryPullRefines(m, names, now);
    hide FirstDue, FirstReady, MemoryPull, AbstractPull, IdsOk, DequesOk;
  }

  lemma ServedTwice(m: Memory, m': Memory, m'': Memory, q: string, n: nat)
    requires Served(m, m', q, 1) && Served(m', m'', q, n)
    ensures Served(m, m'', q, n + 1)
  {
    var d, d' := Deque(m.queues, q), Deque(m'.queues, q);
    assert d'[n..] == d[n + 1..];
    assert forall id | id in d' :: id in d;
  }

  lemma ServedNone(m: Memory, q: string)
    ensures Served(m, m, q, 0)
  {
    assert Deque(m.queues, q)[0..] == Deque(m.queues, q);
  }

  /** The memory store takes the listed queues as priorities: as long as the first has due jobs, its
      jobs are pulled and the other queues stay as they are. */
  lemma {:induction false} LaterQueuesWait(m: Memory, names: seq<string>, now: Instant, n: nat)
    requires Sound(m) && names != [] && AllDue(m, names[0], now, n)
    ensures Served(m, AfterPulls(m, names, now, n), names[0], n)
    decreases n
  {
    hide MemoryPull, Sound, AllDue, Served;
    if n == 0 {
      ServedNone(m, names[0]);
    } else {
      var m' := MemoryPull(m, names, now).0;
      FrontPull(m, names, now, n);
      LaterQueuesWait(m', names, now, n - 1);
      ServedTwice(m, m', AfterPulls(m', names, now, n - 1), names[0], n - 1);
    }
  }

  /** `n` jobs behind whatever is there. */
  function Enqueued(m: Memory, job: NewJob, at: Instant, n: nat): Memory {
    if n == 0 then m else MemoryEnqueue(Enqueued(m, job, at, n - 1), job, at)
  }

  /** What enqueueing to one queue leaves alone. */
  ghost predicate Behind(m: Memory, m': Memory, q: string) {
    && (forall p | p != q :: Deque(m'.queues, p) == Deque(m.queues, p))
    && (forall id | id in m.records :: id in m'.records && m'.records[id] == m.records[id])
  }

  lemma OneEnqueued(m: Memory, job: NewJob, at: Instant, now: Instant, n: nat)
    requires Sound(m) && AllDue(m, job.queue, now, n) && |Deque(m.queues, job.queue)| == n && job.scheduledAt <= now
    ensures var m' := MemoryEnqueue(m, job, at);
            && Sound(m') && AllDue(m', job.queue, now, n + 1) && |Deque(m'.queues, job.queue)| == n + 1
            && Behind(m, m', job.queue)
  {
    EnqueueKeepsDeques(m, job, at);
    var d, m' := Deque(m.queues, job.queue), MemoryEnqueue(m, job, at);
    assert Deque(m'.queues, job.queue) == d + [m.nextId + 1];
    hide DequesOk;
  }

  lemma {:induction false} EnqueuedAreDue(m: Memory, job: NewJob, at: Instant, now: Instant, n: nat)
    requires Sound(m) && Deque(m.queues, job.queue) == [] && job.scheduledAt <= now
    ensures var m' := Enqueued(m, job, at, n);
            && Sound(m') && AllDue(m', job.queue, now, n) && |Deque(m'.queues, job.queue)| == n
            && Behind(m, m', job.queue)
  {
    if n > 0 {
      EnqueuedAreDue(m, job, at, now, n - 1);
      hide Sound, AllDue, MemoryEnqueue;
      OneEnqueued(Enqueued(m, job, at, n - 1), job, at, now, n - 1);
    }
  }

  /** So for every n there is a run in which a due job of the second queue, enqueued first, waits
      through n pulls while younger jobs of the first queue go. */
  lemma SecondQueueWaits(low: NewJob, high: NewJob, at: Instant, now: Instant, n: nat)
    requires low.queue != high.queue && low.scheduledAt <= now && high.scheduledAt <= now
    ensures var m := Enqueued(MemoryEnqueue(Memory(0, map[], map[]), low, at), high, at, n);
            var m' := AfterPulls(m, [high.queue, low.queue], now, n);
            && |Deque(m.queues, high.queue)| == n && Deque(m'.queues, high.queue) == []
            && Deque(m'.queues, low.queue) == [1] && 1 in m'.records && m'.records[1].Due(now)
  {
    var first := MemoryEnqueue(Memory(0, map[], map[]), low, at);
    EnqueueKeepsDeques(Memory(0, map[], map[]), low, at);
    assert Deque(map[], low.queue) + [1] == [1];
    EnqueuedAreDue(first, high, at, now, n);
    var m := Enqueued(first, high, at, n);
    assert DequeOk(m.records, high.queue, Deque(m.queues, high.queue)) || n == 0;
    assert 1 in m.records && m.records[1].queue == low.queue && 1 !in Deque(m.queues, high.queue);
    LaterQueuesWait(m, [high.queue, low.queue], now, n);
  }
}

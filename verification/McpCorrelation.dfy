/** Request correlation of the MCP stdio transport (a response carries its request's id, section 5
    of the JSON-RPC 2.0 Specification): concurrent requests, the reader task and the timeouts share
    one map of pending replies. Steps are atomic at every lock and at every await. */
module McpCorrelation {
  import opened Common

  datatype RpcError = RpcError(code: int, message: string)

  datatype Response = Response(id: nat, result: Option<string>, error: Option<RpcError>)

  datatype McpError = RemoteError(code: int, message: string) | Timeout | WriteFailed | ReaderClosed

  datatype Answer = Value(value: string) | Null | Err(error: McpError)

  /** What a caller makes of the response it received. */
  function Unpack(r: Response): Answer {
    match r.error
    case Some(e) => Err(RemoteError(e.code, e.message))
    case None => if r.result.Some? then Value(r.result.value) else Null
  }

  /** Where one call of `request` is. `Expired` lies between the timer and the lock. */
  datatype Phase = Allocated | Registered | Waiting | Expired | Done(answer: Answer, from: Option<Response>)

  /** A call and the one-shot channel it waits on. */
  datatype Request = Request(phase: Phase, inbox: Option<Response>)

  datatype Remover = Reader | Timer

  /** `pending` holds the ids whose senders are in the shared map; `removed` logs who took them out. */
  datatype Conn = Conn(nextId: nat, pending: set<nat>, requests: map<nat, Request>, removed: seq<(nat, Remover)>)

  const INIT: Conn := Conn(1, {}, map[], [])

  datatype Step =
    | Allocate
    | Register(id: nat)
    | Write(id: nat, ok: bool)
    | Receive(response: Response)
    | Chatter
    | Expire(id: nat)
    | Forget(id: nat)
    | Take(id: nat)
    | TakeClosed(id: nat)

  predicate In(c: Conn, id: nat, phase: Phase) {
    id in c.requests && c.requests[id].phase == phase
  }

  predicate Enabled(c: Conn, step: Step) {
    match step
    case Allocate => true
    case Register(id) => In(c, id, Allocated)
    case Write(id, _) => In(c, id, Registered)
    case Receive(_) => true
    case Chatter => true
    case Expire(id) => In(c, id, Waiting) && c.requests[id].inbox.None?
    case Forget(id) => In(c, id, Expired)
    case Take(id) => In(c, id, Waiting) && c.requests[id].inbox.Some?
    case TakeClosed(id) => In(c, id, Waiting) && c.requests[id].inbox.None? && id !in c.pending
  }

  function SetPhase(c: Conn, id: nat, phase: Phase): Conn
    requires id in c.requests
  {
    c.(requests := c.requests[id := c.requests[id].(phase := phase)])
  }

  function Next(c: Conn, step: Step): Conn
    requires Enabled(c, step)
  {
    match step
    case Allocate =>
      c.(nextId := c.nextId + 1, requests := c.requests[c.nextId := Request(Allocated, None)])
    case Register(id) => SetPhase(c, id, Registered).(pending := c.pending + {id})
    case Write(id, ok) => SetPhase(c, id, if ok then Waiting else Done(Err(WriteFailed), None))
    case Receive(r) => if r.id in c.pending then Deliver(c, r) else c
    case Chatter => c
    case Expire(id) => SetPhase(c, id, Expired)
    case Forget(id) =>
      SetPhase(c, id, Done(Err(Timeout), None)).(
        pending := c.pending - {id}, removed := c.removed + if id in c.pending then [(id, Timer)] else [])
    case Take(id) =>
      var r := c.requests[id].inbox.value;
      SetPhase(c, id, Done(Unpack(r), Some(r)))
    case TakeClosed(id) => SetPhase(c, id, Done(Err(ReaderClosed), None)).(pending := c.pending - {id})
  }

  /** The reader removes the sender and sends; the send is lost if the receiver is gone. */
  function Deliver(c: Conn, r: Response): Conn {
    var taken := c.(pending := c.pending - {r.id}, removed := c.removed + [(r.id, Reader)]);
    if r.id in c.requests && c.requests[r.id].phase in {Registered, Waiting}
    then taken.(requests := c.requests[r.id := c.requests[r.id].(inbox := Some(r))])
    else taken
  }

  function Apply(c: Conn, step: Step): Conn {
    if Enabled(c, step) then Next(c, step) else c
  }

  function Exec(c: Conn, steps: seq<Step>): Conn
    decreases |steps|
  {
    if steps == [] then c else Exec(Apply(c, steps[0]), steps[1..])
  }

  // --------------------------------------------------------------- invariant

  function Removals(removed: seq<(nat, Remover)>, id: nat): nat {
    if removed == [] then 0
    else Removals(removed[..|removed| - 1], id) + if removed[|removed| - 1].0 == id then 1 else 0
  }

  /** Still pending, or taken out by the reader with a response of its own. */
  ghost predicate AwaitsOrHas(c: Conn, id: nat)
    requires id in c.requests
  {
    var inbox := c.requests[id].inbox;
    if inbox.None? then id in c.pending
    else id !in c.pending && inbox.value.id == id && Removals(c.removed, id) == 1
  }

  ghost predicate RequestOk(c: Conn, id: nat)
    requires id in c.requests
  {
    var q, n := c.requests[id], Removals(c.removed, id);
    && n <= 1 && (id in c.pending ==> n == 0)
    && match q.phase
       case Allocated => id !in c.pending && q.inbox.None? && n == 0
       case Registered => AwaitsOrHas(c, id)
       case Waiting => AwaitsOrHas(c, id)
       case Expired => q.inbox.None?
       case Done(answer, from) =>
         match from
         case Some(r) => r.id == id && answer == Unpack(r) && id !in c.pending
         case None =>
           || (answer == Err(WriteFailed) && (id in c.pending <==> n == 0))
           || (answer == Err(Timeout) && id !in c.pending)
  }

  ghost predicate Inv(c: Conn) {
    && (forall id | id in c.requests :: id < c.nextId && RequestOk(c, id))
    && (forall id: nat :: id in c.requests || (id !in c.pending && Removals(c.removed, id) == 0))
  }

  lemma OneMore(removed: seq<(nat, Remover)>, e: (nat, Remover), id: nat)
    ensures Removals(removed + [e], id) == Removals(removed, id) + if e.0 == id then 1 else 0
  {
    assert (removed + [e])[..|removed|] == removed;
  }

  /** A step that touches one call only. */
  lemma OneCallInv(c: Conn, c': Conn, id: nat)
    requires Inv(c) && c'.nextId >= c.nextId && id < c'.nextId
    requires id in c'.requests && c'.requests == c.requests[id := c'.requests[id]]
    requires forall x: nat | x != id :: x in c'.pending <==> x in c.pending
    requires forall x: nat | x != id :: Removals(c'.removed, x) == Removals(c.removed, x)
    requires RequestOk(c', id)
    ensures Inv(c')
  {
    hide Removals;
    forall x | x in c'.requests
      ensures x < c'.nextId && RequestOk(c', x)
    {
      if x != id {
        assert RequestOk(c, x);
      }
    }
    forall x: nat
      ensures x in c'.requests || (x !in c'.pending && Removals(c'.removed, x) == 0)
    {
      assert x in c.requests || (x !in c.pending && Removals(c.removed, x) == 0);
    }
  }

  /** How one more log entry counts, for every id. */
  lemma Logged(removed: seq<(nat, Remover)>, e: (nat, Remover))
    ensures forall x: nat :: Removals(removed + [e], x) == Removals(removed, x) + if e.0 == x then 1 else 0
    ensures removed + [] == removed
  {
    forall x: nat
      ensures Removals(removed + [e], x) == Removals(removed, x) + if e.0 == x then 1 else 0
    {
      OneMore(removed, e, x);
    }
  }

  /** The call that a step is about. */
  function Subject(c: Conn, step: Step): nat {
    match step
    case Allocate => c.nextId
    case Receive(r) => r.id
    case Chatter => 0
    case Register(id) => id
    case Write(id, _) => id
    case Expire(id) => id
    case Forget(id) => id
    case Take(id) => id
    case TakeClosed(id) => id
  }

  lemma StepInv(c: Conn, step: Step)
    requires Inv(c)
    ensures Inv(Apply(c, step))
  {
    var c', id := Apply(c, step), Subject(c, step);
    if c' != c {
      assert id in c.requests || (id !in c.pending && Removals(c.removed, id) == 0);
      assert id in c.requests ==> id < c.nextId && RequestOk(c, id);
      Logged(c.removed, (id, if step.Receive? then Reader else Timer));
      hide Removals, Inv;
      OneCallInv(c, c', id);
    }
  }

  lemma {:induction false} RunInv(c: Conn, steps: seq<Step>)
    requires Inv(c)
    ensures Inv(Exec(c, steps))
    decreases |steps|
  {
    if steps != [] {
      StepInv(c, steps[0]);
      RunInv(Apply(c, steps[0]), steps[1..]);
    }
  }

  // ---------------------------------------------------------------- theorems

  /** What a response says: its error if it has one, otherwise its result, and null without a result. */
  ghost predicate Says(r: Response, answer: Answer) {
    && (forall code, message :: answer == Err(RemoteError(code, message)) <==> r.error == Some(RpcError(code, message)))
    && (forall v :: answer == Value(v) <==> r.error.None? && r.result == Some(v))
    && (answer == Null <==> r.error.None? && r.result.None?)
  }

  /** In every interleaving a call that got a response got one that carries its own id and ends with
      what it says, and no call ends with a closed channel: the reader never drops a sender without
      sending. */
  lemma OwnResponseOnly(steps: seq<Step>, id: nat)
    requires var c := Exec(INIT, steps); id in c.requests && c.requests[id].phase.Done?
    ensures var done := Exec(INIT, steps).requests[id].phase;
            if done.from.Some? then done.from.value.id == id && Says(done.from.value, done.answer)
            else done.answer in {Err(WriteFailed), Err(Timeout)}
  {
    RunInv(INIT, steps);
    assert RequestOk(Exec(INIT, steps), id);
  }

  lemma ExecSnoc(c: Conn, steps: seq<Step>, step: Step)
    ensures Exec(c, steps + [step]) == Apply(Exec(c, steps), step)
    decreases |steps|
  {
    if steps == [] {
      assert [] + [step] == [step] && Exec(c, [step]) == Exec(Apply(c, step), []);
    } else {
      assert (steps + [step])[1..] == steps[1..] + [step];
      ExecSnoc(Apply(c, steps[0]), steps[1..], step);
    }
  }

  /** The first response with this id that came in while the id was pending. */
  function FirstTaken(steps: seq<Step>, id: nat): Option<Response> {
    if steps == [] then None
    else
      var init, last := steps[..|steps| - 1], steps[|steps| - 1];
      if FirstTaken(init, id).Some? then FirstTaken(init, id)
      else if last.Receive? && last.response.id == id && id in Exec(INIT, init).pending then Some(last.response)
      else None
  }

  /** Whatever a call has in its channel or has returned with is that response. */
  ghost predicate HeardOk(c: Conn, id: nat, heard: Option<Response>) {
    && (id in c.pending || id !in c.requests || c.requests[id].phase.Allocated? ==> heard.None?)
    && (id in c.requests ==>
          && (c.requests[id].inbox.Some? ==> heard == c.requests[id].inbox)
          && (c.requests[id].phase.Done? && c.requests[id].phase.from.Some? ==> heard == c.requests[id].phase.from))
  }

  lemma StepHears(c: Conn, step: Step, id: nat, heard: Option<Response>)
    requires Inv(c) && HeardOk(c, id, heard)
    ensures HeardOk(Apply(c, step), id,
                    if heard.None? && step.Receive? && step.response.id == id && id in c.pending
                    then Some(step.response) else heard)
  {
    assert id in c.requests || id !in c.pending;
    if id in c.requests {
      assert id < c.nextId && RequestOk(c, id);
    }
    hide Inv, Removals;
  }

  lemma {:induction false} RunHears(steps: seq<Step>, id: nat)
    ensures Inv(Exec(INIT, steps)) && HeardOk(Exec(INIT, steps), id, FirstTaken(steps, id))
    decreases |steps|
  {
    RunInv(INIT, steps);
    if steps != [] {
      var init, last := steps[..|steps| - 1], steps[|steps| - 1];
      assert steps == init + [last];
      RunHears(init, id);
      ExecSnoc(INIT, init, last);
      hide Inv, HeardOk, Apply;
      StepHears(Exec(INIT, init), last, id, FirstTaken(init, id));
    }
  }

  /** In every interleaving a call that ends with a response ends with the first one that came in for
      its id while it was pending, unchanged. */
  lemma FirstReplyAnswers(steps: seq<Step>, id: nat)
    requires var c := Exec(INIT, steps);
             id in c.requests && c.requests[id].phase.Done? && c.requests[id].phase.from.Some?
    ensures FirstTaken(steps, id) == Exec(INIT, steps).requests[id].phase.from
  {
    RunHears(steps, id);
  }

  /** How the write of a call went, once it was made. */
  function Written(steps: seq<Step>, id: nat): Option<bool> {
    if steps == [] then None
    else
      var init, last := steps[..|steps| - 1], steps[|steps| - 1];
      if last.Write? && last.id == id && Enabled(Exec(INIT, init), last) then Some(last.ok) else Written(init, id)
  }

  ghost predicate WriteOk(c: Conn, id: nat, written: Option<bool>) {
    if id !in c.requests || c.requests[id].phase.Allocated? || c.requests[id].phase.Registered? then written.None?
    else written.Some? && (written == Some(false) <==> c.requests[id].phase == Done(Err(WriteFailed), None))
  }

  lemma StepWrites(c: Conn, step: Step, id: nat, written: Option<bool>)
    requires Inv(c) && WriteOk(c, id, written)
    ensures WriteOk(Apply(c, step), id, if step.Write? && step.id == id && Enabled(c, step) then Some(step.ok) else written)
  {
    assert id in c.requests ==> id < c.nextId;
    hide Inv, Removals;
  }

  lemma {:induction false} RunWrites(steps: seq<Step>, id: nat)
    ensures Inv(Exec(INIT, steps)) && WriteOk(Exec(INIT, steps), id, Written(steps, id))
    decreases |steps|
  {
    RunInv(INIT, steps);
    if steps != [] {
      var init, last := steps[..|steps| - 1], steps[|steps| - 1];
      assert steps == init + [last];
      RunWrites(init, id);
      ExecSnoc(INIT, init, last);
      hide Inv, WriteOk, Apply;
      StepWrites(Exec(INIT, init), last, id, Written(init, id));
    }
  }

  /** In every interleaving a call ends with a write failure if and only if its write failed, and a call
      that wrote and got no response ends with a timeout. */
  lemma WriteFailureIff(steps: seq<Step>, id: nat)
    requires var c := Exec(INIT, steps); id in c.requests && c.requests[id].phase.Done?
    ensures var done := Exec(INIT, steps).requests[id].phase;
            && Written(steps, id).Some?
            && (done.answer == Err(WriteFailed) <==> Written(steps, id) == Some(false))
            && (done.from.None? && Written(steps, id) == Some(true) ==> done.answer == Err(Timeout))
  {
    RunWrites(steps, id);
    assert RequestOk(Exec(INIT, steps), id);
  }

  /** Ids are handed out one after the other from 1 on. */
  lemma {:induction false} IdsAreDense(steps: seq<Step>)
    ensures var c := Exec(INIT, steps); c.nextId >= 1 && forall id: nat :: id in c.requests <==> 1 <= id < c.nextId
    decreases |steps|
  {
    if steps != [] {
      var init, last := steps[..|steps| - 1], steps[|steps| - 1];
      assert steps == init + [last];
      IdsAreDense(init);
      ExecSnoc(INIT, init, last);
    }
  }

  /** A call that waits can always end: with its response once that has come in, and then in no other
      way; with a timeout, its entry gone, as long as it has not. */
  lemma WaitingCallsEnd(c: Conn, id: nat)
    requires In(c, id, Waiting)
    ensures var inbox := c.requests[id].inbox;
            if inbox.Some? then
              && !Enabled(c, Expire(id)) && !Enabled(c, Forget(id)) && !Enabled(c, TakeClosed(id))
              && Apply(c, Take(id)).requests[id].phase.Done? && Apply(c, Take(id)).requests[id].phase.from == inbox
            else
              var ended := Apply(Apply(c, Expire(id)), Forget(id));
              && !Enabled(c, Take(id)) && In(ended, id, Done(Err(Timeout), None)) && id !in ended.pending
  {
  }

  /** The branch for a reader that closed before responding is never reached. */
  lemma SenderNeverDropped(steps: seq<Step>, id: nat)
    ensures !Enabled(Exec(INIT, steps), TakeClosed(id))
  {
    RunInv(INIT, steps);
    var c := Exec(INIT, steps);
    if id in c.requests {
      assert RequestOk(c, id);
    }
  }

  /** Each pending entry is taken out at most once, by the reader or by the timer. */
  lemma RemovedAtMostOnce(steps: seq<Step>, id: nat)
    ensures var c := Exec(INIT, steps);
            Removals(c.removed, id) <= 1 && (id in c.pending ==> Removals(c.removed, id) == 0)
  {
    RunInv(INIT, steps);
    var c := Exec(INIT, steps);
    assert id in c.requests || (id !in c.pending && Removals(c.removed, id) == 0);
    if id in c.requests {
      assert RequestOk(c, id);
    }
  }

  /** A finished call is done with; only a reply with its id can still take its entry out. */
  lemma FinishedStep(c: Conn, step: Step, id: nat)
    requires Inv(c) && id in c.requests && c.requests[id].phase.Done?
    ensures var c' := Apply(c, step);
            && Inv(c') && id in c'.requests && c'.requests[id].phase == c.requests[id].phase
            && (id in c'.pending <==> id in c.pending && !(step.Receive? && step.response.id == id))
  {
    StepInv(c, step);
    assert id < c.nextId;
    hide Inv, Removals;
  }

  /** A finished call keeps its answer whatever arrives later. */
  lemma {:induction false} AnswersAreFinal(c: Conn, steps: seq<Step>, id: nat)
    requires Inv(c) && id in c.requests && c.requests[id].phase.Done?
    ensures var c' := Exec(c, steps); id in c'.requests && c'.requests[id].phase == c.requests[id].phase
    decreases |steps|
  {
    if steps != [] {
      hide Inv, Apply;
      FinishedStep(c, steps[0], id);
      AnswersAreFinal(Apply(c, steps[0]), steps[1..], id);
    }
  }

  predicate Answered(q: Request) {
    if q.phase.Done? then q.phase.answer != Err(WriteFailed) else q.inbox.Some?
  }

  /** A reply is late when its id is no longer pending: after a first response, and after the timeout
      has let go of it. Late replies change nothing. */
  lemma LateRepliesIgnored(steps: seq<Step>, r: Response)
    requires var c := Exec(INIT, steps);
             r.id in c.requests && Answered(c.requests[r.id])
    ensures Apply(Exec(INIT, steps), Receive(r)) == Exec(INIT, steps)
  {
    RunInv(INIT, steps);
    assert RequestOk(Exec(INIT, steps), r.id);
  }

  /** When every call has returned, exactly the ids are still pending whose write or flush failed and
      for which no reply has been taken. */
  lemma QuiescentPendingIff(steps: seq<Step>, id: nat)
    requires forall x | x in Exec(INIT, steps).requests :: Exec(INIT, steps).requests[x].phase.Done?
    ensures var c := Exec(INIT, steps);
            id in c.pending <==>
              id in c.requests && c.requests[id].phase.answer == Err(WriteFailed) && Removals(c.removed, id) == 0
  {
    RunInv(INIT, steps);
    var c := Exec(INIT, steps);
    assert id in c.requests || (id !in c.pending && Removals(c.removed, id) == 0);
    if id in c.requests {
      assert RequestOk(c, id);
    }
  }

  /** The entry of a failed write goes when, and only when, a reply with its id comes in after all. */
  lemma FailedEntryStaysIff(c: Conn, steps: seq<Step>, id: nat)
    requires Inv(c) && id in c.pending && id in c.requests && c.requests[id].phase == Done(Err(WriteFailed), None)
    ensures id in Exec(c, steps).pending <==> NoReply(steps, id)
  {
    FinishedPending(c, steps, id);
  }

  ghost predicate NoReply(steps: seq<Step>, id: nat) {
    forall step | step in steps :: !(step.Receive? && step.response.id == id)
  }

  lemma {:induction false} FinishedPending(c: Conn, steps: seq<Step>, id: nat)
    requires Inv(c) && id in c.requests && c.requests[id].phase.Done?
    ensures id in Exec(c, steps).pending <==> id in c.pending && NoReply(steps, id)
    decreases |steps|
  {
    if steps != [] {
      hide Inv, Apply;
      FinishedStep(c, steps[0], id);
      FinishedPending(Apply(c, steps[0]), steps[1..], id);
      assert steps == [steps[0]] + steps[1..];
    }
  }

  /** One call whose write fails is enough to leave an entry behind. */
  lemma FailedWriteLeaks()
    ensures var c := Exec(INIT, [Allocate, Register(1), Write(1, false)]);
            1 in c.pending && forall id | id in c.requests :: c.requests[id].phase.Done?
  {
    var c1 := Apply(INIT, Allocate);
    var c2 := Apply(c1, Register(1));
    var c3 := Apply(c2, Write(1, false));
    var steps := [Allocate, Register(1), Write(1, false)];
    assert steps[1..] == [Register(1), Write(1, false)] && steps[1..][1..] == [Write(1, false)];
    assert steps[1..][1..][1..] == [];
    assert Exec(c2, [Write(1, false)]) == Exec(c3, []);
    assert Exec(c1, steps[1..]) == Exec(c2, [Write(1, false)]);
  }

  // -------------------------------------------------------------- reader task

  datatype Line = Blank | Malformed | Notification(method_: string) | Reply(response: Response)

  /** The first response of a transcript that carries this id. */
  function FirstReply(lines: seq<Line>, id: nat): Option<Response> {
    if lines == [] then None
    else if lines[0].Reply? && lines[0].response.id == id then Some(lines[0].response)
    else FirstReply(lines[1..], id)
  }

  lemma {:induction false} FirstReplyAppend(lines: seq<Line>, last: Line, id: nat)
    ensures FirstReply(lines + [last], id) ==
              (if FirstReply(lines, id).Some? then FirstReply(lines, id)
               else if last.Reply? && last.response.id == id then Some(last.response) else None)
  {
    if lines == [] {
      assert [] + [last] == [last];
    } else {
      assert (lines + [last])[1..] == lines[1..] + [last];
      FirstReplyAppend(lines[1..], last, id);
    }
  }

  class ReaderTask {
    var pending: set<nat>
    var delivered: map<nat, Response>

    constructor (pending: set<nat>)
      ensures this.pending == pending && delivered == map[]
    {
      this.pending, delivered := pending, map[];
    }

    /** The reader loop over a transcript: every id that was pending gets the first response that
        carries it, all other lines are skipped, and ids without a response stay pending. */
    method Pump(lines: seq<Line>)
      requires delivered == map[]
      modifies this
      ensures delivered.Keys == set id | id in old(pending) && FirstReply(lines, id).Some?
      ensures forall id | id in delivered :: FirstReply(lines, id) == Some(delivered[id])
      ensures pending == old(pending) - delivered.Keys
    {
      for i := 0 to |lines|
        invariant delivered.Keys == set id | id in old(pending) && FirstReply(lines[..i], id).Some?
        invariant forall id | id in delivered :: FirstReply(lines[..i], id) == Some(delivered[id])
        invariant pending == old(pending) - delivered.Keys
      {
        forall id
          ensures FirstReply(lines[..i + 1], id) ==
                    (if FirstReply(lines[..i], id).Some? then FirstReply(lines[..i], id)
                     else if lines[i].Reply? && lines[i].response.id == id then Some(lines[i].response) else None)
        {
          assert lines[..i + 1] == lines[..i] + [lines[i]];
          FirstReplyAppend(lines[..i], lines[i], id);
        }
        match lines[i] {
          case Reply(r) =>
            if r.id in pending {
              pending := pending - {r.id};
              delivered := delivered[r.id := r];
            }
          case _ =>
        }
      }
      assert lines[..|lines|] == lines;
    }
  }
}

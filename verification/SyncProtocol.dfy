/** The offline sync protocol of web/offline-core.js at the grain of single store and network
    operations: a step of any asynchronous task may fall between any two steps of the others,
    messages may be lost, repeated or late, and the client may crash at any point. */
module SyncProtocol {
  import opened Common
  import opened Ordering
  import opened OfflineQueue
  import S = SyncServer

  type Id = S.Id

  /** One outstanding operation of some client task. */
  datatype Op =
    | Put(record: Record)                       // store.put("pending_events", record)
    | Send(batch: seq<Envelope>)                // transport of a dequeued batch
    | Ack(id: Id)                               // markAcknowledged: the delete
    | PutAck(id: Id)                            // markAcknowledged: the put that follows
    | Reject(failure: Failure)                  // markRejected: the get

  datatype State = State(
    enqueued: map<Id, Envelope>,                // every event ever enqueued
    pending: Queue,                             // pending_events
    acknowledged: set<Id>,                      // acknowledged_events
    server: S.Server,                           // learning_events and the last sequence
    requests: set<seq<Envelope>>,               // batches that were sent
    replies: set<(seq<Envelope>, S.Reply)>,     // answers the server gave
    ops: set<Op>)                               // outstanding client operations

  datatype Event =
    | Enqueue(envelope: Envelope, now: int)
    | Dequeue(records: seq<Record>, now: int)
    | Execute(op: Op, now: int)
    | ServerProcesses(batch: seq<Envelope>, verdicts: map<Id, S.Verdict>)
    | ServerRefuses(batch: seq<Envelope>)       // unknown student or oversized batch
    | ReplyArrives(batch: seq<Envelope>, reply: S.Reply)
    | TransportFails(batch: seq<Envelope>)
    | HttpError(batch: seq<Envelope>, registered: bool)
    | Restore(now: int)
    | Crash(lost: set<Op>)

  const START := State(map[], map[], {}, S.EMPTY, {}, {}, {})

  /** The calls of `markRejected` after a batch failed as a whole. */
  function FailureAll(ids: seq<Id>, code: string, retryable: bool): seq<Failure> {
    Map((id: Id) => Failure(id, code, retryable), ids)
  }

  function RejectionFailure(r: S.Rejection): Failure {
    Failure(r.eventId, "rejected", r.retryable)
  }

  function RejectAll(fs: seq<Failure>): set<Op> {
    set f | f in fs :: Reject(f)
  }

  function AckAll(ids: seq<Id>): set<Op> {
    set id | id in ids :: Ack(id)
  }

  /** What `dequeue` writes back, then sends. */
  function Departing(batch: seq<Record>): set<Op> {
    (set r | r in batch :: Put(r.(status := InFlight))) + {Send(Map(EnvelopeOf, batch))}
  }

  /** What `restore` writes back. */
  function RestoreAll(pending: Queue, now: int): set<Op> {
    set id | id in pending && pending[id].status == InFlight :: Put(Restored(pending, now)[id])
  }

  function AfterOp(s: State, op: Op, now: int): State {
    var t := s.(ops := s.ops - {op});
    match op
    case Put(record) => t.(pending := s.pending[IdOf(record) := record])
    case Send(batch) => t.(requests := s.requests + {batch})
    case Ack(id) => t.(pending := s.pending - {id}, ops := t.ops + {PutAck(id)})
    case PutAck(id) => t.(acknowledged := s.acknowledged + {id})
    case Reject(f) =>
      if f.eventId in s.pending then t.(ops := t.ops + {Put(Failed1(s.pending[f.eventId], f, now))}) else t
  }

  /** When an event can happen. A dequeue may take any ready records, at most 100. */
  predicate Enabled(s: State, e: Event) {
    match e
    case Enqueue(envelope, _) => envelope.eventId !in s.enqueued
    case Dequeue(batch, now) =>
      && |batch| <= BATCH_LIMIT
      && forall r :: r in batch ==> IdOf(r) in s.pending && s.pending[IdOf(r)] == r && Ready(r, now)
    case Execute(op, _) => op in s.ops
    case ServerProcesses(batch, _) => batch in s.requests && S.WellFormed(batch)
    case ServerRefuses(batch) => batch in s.requests && S.WellFormed(batch)
    case ReplyArrives(batch, reply) => (batch, reply) in s.replies
    case TransportFails(batch) => batch in s.requests
    case HttpError(batch, _) => batch in s.requests
    case Restore(_) => true
    case Crash(_) => true
  }

  function Apply(s: State, e: Event): State {
    match e
    case Enqueue(envelope, now) =>
      s.(enqueued := s.enqueued[envelope.eventId := envelope],
         pending := s.pending[envelope.eventId := Record(envelope, Pending, 0, now, None)])
    case Dequeue(batch, _) => s.(ops := s.ops + Departing(batch))
    case Execute(op, now) => AfterOp(s, op, now)
    case ServerProcesses(batch, verdicts) =>
      var r := S.Serve(s.server, batch, verdicts);
      s.(server := r.server, replies := s.replies + {(batch, r.reply)})
    case ServerRefuses(batch) => s.(replies := s.replies + {(batch, S.REFUSAL)})
    case ReplyArrives(_, reply) =>
      s.(ops := s.ops + AckAll(reply.accepted + reply.duplicates) + RejectAll(Map(RejectionFailure, reply.rejected)))
    case TransportFails(batch) =>
      s.(ops := s.ops + RejectAll(FailureAll(Map(EventId, batch), "NETWORK_UNAVAILABLE", true)))
    case HttpError(batch, registered) =>
      s.(ops := s.ops + RejectAll(FailureAll(Map(EventId, batch), "HTTP", registered)))
    case Restore(now) => s.(ops := s.ops + RestoreAll(s.pending, now))
    case Crash(lost) => s.(ops := s.ops - lost)
  }

  // ---- the invariant

  /** An outstanding operation is harmless: it writes or sends only what was enqueued, and it
      deletes or acknowledges only logged events. */
  ghost predicate SafeOp(s: State, op: Op) {
    match op
    case Put(record) => S.Knows(s.enqueued, record.envelope)
    case Send(batch) => SafeBatch(s, batch)
    case Ack(id) => id in s.server.log
    case PutAck(id) => id in s.server.log
    case Reject(_) => true
  }

  ghost predicate SafeBatch(s: State, batch: seq<Envelope>) {
    forall e :: e in batch ==> S.Knows(s.enqueued, e)
  }

  ghost predicate SafeMessages(s: State) {
    && (forall b :: b in s.requests ==> SafeBatch(s, b))
    && (forall r :: r in s.replies ==> forall id :: id in r.1.accepted + r.1.duplicates ==> id in s.server.log)
  }

  /** The queue holds the envelopes as they were enqueued; the log holds enqueued events, each once
      and in the order of their sequences; only logged events are acknowledged. */
  ghost predicate SafeTables(s: State) {
    && Keyed(s.pending)
    && (forall id :: id in s.enqueued ==> s.enqueued[id].eventId == id)
    && (forall id :: id in s.pending ==> S.Knows(s.enqueued, s.pending[id].envelope))
    && S.InSequence(s.enqueued, s.server.log, s.server.last)
    && NoRepeats(s.server.log)
    && (forall id :: id in s.acknowledged ==> id in s.server.log)
  }

  /** No enqueued event is lost. */
  ghost predicate NothingLost(s: State) {
    forall id :: id in s.enqueued ==> id in s.pending || id in s.server.log
  }

  ghost predicate Inv(s: State) {
    && SafeTables(s) && SafeMessages(s) && NothingLost(s)
    && forall op :: op in s.ops ==> SafeOp(s, op)
  }

  lemma ExecuteKeepsInv(s: State, op: Op, now: int)
    requires Inv(s) && op in s.ops
    ensures Inv(AfterOp(s, op, now))
  {
    assert SafeOp(s, op);
    var t := AfterOp(s, op, now);
    forall o | o in t.ops
      ensures SafeOp(t, o)
    {
      assert o in s.ops ==> SafeOp(s, o);
    }
  }

  lemma ServerKeepsInv(s: State, batch: seq<Envelope>, verdicts: map<Id, S.Verdict>)
    requires Inv(s) && batch in s.requests
    ensures Inv(Apply(s, ServerProcesses(batch, verdicts)))
  {
    assert SafeBatch(s, batch);
    var t := Apply(s, ServerProcesses(batch, verdicts));
    S.ServeSound(s.server, batch, verdicts);
    S.ServeInSequence(s.enqueued, s.server, batch, verdicts);
    assert forall id :: id in s.server.log ==> id in t.server.log;
    forall op | op in t.ops
      ensures SafeOp(t, op)
    {
      assert SafeOp(s, op);
      assert op.Send? ==> SafeBatch(t, op.batch);
    }
    assert forall b :: b in t.requests ==> SafeBatch(s, b) ==> SafeBatch(t, b);
  }

  lemma DequeueKeepsInv(s: State, batch: seq<Record>, now: int)
    requires Inv(s) && Enabled(s, Dequeue(batch, now))
    ensures Inv(Apply(s, Dequeue(batch, now)))
  {
    var t, sent := Apply(s, Dequeue(batch, now)), Map(EnvelopeOf, batch);
    forall e | e in sent
      ensures S.Knows(s.enqueued, e)
    {
      var i :| 0 <= i < |sent| && sent[i] == e;
      assert batch[i] in batch;
    }
    assert SafeBatch(t, sent);
  }

  lemma EnqueueKeepsInv(s: State, envelope: Envelope, now: int)
    requires Inv(s) && envelope.eventId !in s.enqueued
    ensures Inv(Apply(s, Enqueue(envelope, now)))
  {
    var t := Apply(s, Enqueue(envelope, now));
    assert forall e :: S.Knows(s.enqueued, e) ==> S.Knows(t.enqueued, e);
    assert forall b :: SafeBatch(s, b) ==> SafeBatch(t, b);
    assert SafeMessages(t) && SafeTables(t) && NothingLost(t);
    forall op | op in t.ops
      ensures SafeOp(t, op)
    {
      assert SafeOp(s, op);
    }
  }

  /** Steps that only start or drop operations. */
  lemma ClientKeepsInv(s: State, e: Event)
    requires Inv(s) && Enabled(s, e)
    requires !e.Execute? && !e.ServerProcesses? && !e.Dequeue? && !e.Enqueue?
    ensures Inv(Apply(s, e))
  {
    var t := Apply(s, e);
    assert forall b :: SafeBatch(s, b) ==> SafeBatch(t, b);
    forall op | op in t.ops
      ensures SafeOp(t, op)
    {
      assert op in s.ops ==> SafeOp(s, op);
    }
  }

  /** Every step, in every interleaving, keeps the invariant. */
  lemma StepKeepsInv(s: State, e: Event)
    requires Inv(s) && Enabled(s, e)
    ensures Inv(Apply(s, e))
  {
    match e
    case Execute(op, now) => ExecuteKeepsInv(s, op, now);
    case ServerProcesses(batch, verdicts) => ServerKeepsInv(s, batch, verdicts);
    case Dequeue(batch, now) => DequeueKeepsInv(s, batch, now);
    case Enqueue(envelope, now) => EnqueueKeepsInv(s, envelope, now);
    case _ => ClientKeepsInv(s, e);
  }

  /** No step takes anything out of the log or forgets an enqueued event, the last sequence never
      goes back, and what is appended lies above it. */
  ghost predicate Grows(s: State, t: State) {
    && s.server.log <= t.server.log && s.server.last <= t.server.last
    && (forall id :: id in s.enqueued ==> id in t.enqueued && t.enqueued[id] == s.enqueued[id])
    && (forall id :: id in t.server.log && id !in s.server.log ==>
                       id in t.enqueued && S.SequenceOf(t.enqueued[id]) > s.server.last)
  }

  lemma ServerGrows(s: State, batch: seq<Envelope>, verdicts: map<Id, S.Verdict>)
    requires Inv(s) && batch in s.requests
    ensures Grows(s, Apply(s, ServerProcesses(batch, verdicts)))
  {
    assert SafeBatch(s, batch);
    S.ServeSound(s.server, batch, verdicts);
    S.ServeAdvances(s.server, batch, verdicts);
    S.ServeInSequence(s.enqueued, s.server, batch, verdicts);
  }

  lemma StepGrows(s: State, e: Event)
    requires Inv(s) && Enabled(s, e)
    ensures Grows(s, Apply(s, e))
  {
    match e
    case ServerProcesses(batch, verdicts) => ServerGrows(s, batch, verdicts);
    case Execute(op, now) => SameServerGrows(s, AfterOp(s, op, now));
    case Enqueue(envelope, now) => SameServerGrows(s, Apply(s, e));
    case _ =>
      assert Apply(s, e).server == s.server && Apply(s, e).enqueued == s.enqueued;
      SameServerGrows(s, Apply(s, e));
  }

  lemma SameServerGrows(s: State, t: State)
    requires t.server == s.server
    requires forall id :: id in s.enqueued ==> id in t.enqueued && t.enqueued[id] == s.enqueued[id]
    ensures Grows(s, t)
  {
  }

  lemma GrowsFurther(a: State, b: State, c: State)
    requires Grows(a, b) && Grows(b, c)
    ensures Grows(a, c)
  {
  }

  // ---- runs

  ghost predicate IsRun(s: State, es: seq<Event>)
    decreases |es|
  {
    es == [] || (Enabled(s, es[0]) && IsRun(Apply(s, es[0]), es[1..]))
  }

  function After(s: State, es: seq<Event>): State
    decreases |es|
  {
    if es == [] then s else After(Apply(s, es[0]), es[1..])
  }

  lemma {:induction false} RunKeepsInv(s: State, es: seq<Event>)
    requires Inv(s) && IsRun(s, es)
    ensures Inv(After(s, es)) && Grows(s, After(s, es))
    decreases |es|
  {
    if es != [] {
      StepKeepsInv(s, es[0]);
      StepGrows(s, es[0]);
      RunKeepsInv(Apply(s, es[0]), es[1..]);
      GrowsFurther(s, Apply(s, es[0]), After(s, es));
    }
  }

  /** Exactly once: after any run from the empty system, every enqueued event is in the queue or
      in the log, the log holds it at most once and holds nothing else, in rising order of device
      sequence, and only logged events are acknowledged; so an empty queue means that the log is
      exactly what was enqueued. */
  lemma {:induction false} ExactlyOnce(es: seq<Event>)
    requires IsRun(START, es)
    ensures
      var s := After(START, es);
      && (forall id :: id in s.enqueued ==> id in s.pending || id in s.server.log)
      && NoRepeats(s.server.log)
      && (forall id :: id in s.server.log ==> id in s.enqueued)
      && (forall i, j :: 0 <= i < j < |s.server.log| ==>
            S.SequenceOf(s.enqueued[s.server.log[i]]) < S.SequenceOf(s.enqueued[s.server.log[j]]))
      && (forall id :: id in s.acknowledged ==> id in s.server.log)
      && (s.pending == map[] ==> forall id :: id in s.enqueued <==> id in s.server.log)
  {
    RunKeepsInv(START, es);
  }

  // ---- reachability

  lemma {:induction false} Extend(s: State, es: seq<Event>, e: Event)
    requires IsRun(s, es) && Enabled(After(s, es), e)
    ensures IsRun(s, es + [e]) && After(s, es + [e]) == Apply(After(s, es), e)
    decreases |es|
  {
    var es' := es + [e];
    if es == [] {
      assert es'[1..] == [];
    } else {
      Extend(Apply(s, es[0]), es[1..], e);
      assert es'[0] == es[0] && es'[1..] == es[1..] + [e];
    }
  }

  ghost predicate Reaches(s: State, t: State) {
    exists es :: IsRun(s, es) && After(s, es) == t
  }

  lemma ReachesItself(s: State)
    ensures Reaches(s, s)
  {
    assert IsRun(s, []) && After(s, []) == s;
  }

  lemma ReachesNext(s: State, t: State, e: Event)
    requires Reaches(s, t) && Enabled(t, e)
    ensures Reaches(s, Apply(t, e))
  {
    var es :| IsRun(s, es) && After(s, es) == t;
    Extend(s, es, e);
    assert IsRun(s, es + [e]) && After(s, es + [e]) == Apply(t, e);
  }

  lemma ReachesKeepsInv(s: State, t: State)
    requires Inv(s) && Reaches(s, t)
    ensures Inv(t) && Grows(s, t)
  {
    var es :| IsRun(s, es) && After(s, es) == t;
    RunKeepsInv(s, es);
  }

  /** An event that is overtaken, not logged although a sequence from its own on was accepted, is
      never logged in any run. */
  lemma OvertakenForever(s: State, t: State, id: Id)
    requires Inv(s) && Reaches(s, t) && id in s.enqueued && S.Overtaken(s.server, s.enqueued[id])
    ensures id in t.enqueued && S.Overtaken(t.server, t.enqueued[id])
  {
    ReachesKeepsInv(s, t);
  }
}

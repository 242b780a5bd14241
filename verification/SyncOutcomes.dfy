/** What one sync does to each record of the queue, event by event: which are gone, which wait again
    and for how long, which are given up, and which stay in flight. */
module SyncOutcomes {
  import opened Common
  import opened Ordering
  import opened OfflineQueue
  import opened OfflineSync
  import R = SyncRefinement

  /** The record waits for another attempt: its count is one higher, and the delay is that of the
      new count. */
  predicate Waits(r: Record, now: Record, later: int) {
    now == Record(r.envelope, Pending, r.attempts + 1,
                  later + (if r.attempts == 0 then 5000 else if r.attempts == 1 then 15000
                           else if r.attempts == 2 then 60000 else if r.attempts == 3 then 300000 else 900000),
                  r.failureCode)
  }

  /** The record is kept, but no sync takes it up again. */
  predicate GivenUp(r: Record, now: Record, code: string) {
    now == Record(r.envelope, Failed, r.attempts, r.nextRetryAt, Some(code))
  }

  predicate Flies(r: Record, now: Record) {
    now == Record(r.envelope, InFlight, r.attempts, r.nextRetryAt, r.failureCode)
  }

  // ---- the marks, one by one

  lemma {:induction false} Unmarked(q: Queue, fs: seq<Failure>, now: int, id: string)
    requires id in q && forall f :: f in fs ==> f.eventId != id
    ensures id in MarkedAll(q, fs, now) && MarkedAll(q, fs, now)[id] == q[id]
  {
    if fs != [] {
      var init := fs[..|fs| - 1];
      assert fs[|fs| - 1] in fs && forall f :: f in init ==> f in fs;
      Unmarked(q, init, now, id);
    }
  }

  ghost predicate OnePerEvent(fs: seq<Failure>) {
    forall i, j :: 0 <= i < j < |fs| ==> fs[i].eventId != fs[j].eventId
  }

  /** With one failure for each event, a record bears the mark of its own. */
  lemma {:induction false} MarkedOnce(q: Queue, fs: seq<Failure>, now: int, f: Failure)
    requires OnePerEvent(fs) && f in fs && f.eventId in q
    ensures f.eventId in MarkedAll(q, fs, now) && MarkedAll(q, fs, now)[f.eventId] == Failed1(q[f.eventId], f, now)
  {
    var init, last := fs[..|fs| - 1], fs[|fs| - 1];
    if f == last {
      Unmarked(q, init, now, f.eventId);
    } else {
      assert f in init;
      MarkedOnce(q, init, now, f);
    }
  }

  /** What the mark is. */
  lemma MarkIs(r: Record, f: Failure, later: int)
    ensures f.retryable ==> Waits(r, Failed1(r.(status := InFlight), f, later), later)
    ensures !f.retryable ==> GivenUp(r, Failed1(r.(status := InFlight), f, later), f.code)
  {
  }

  // ---- a request that failed as a whole

  lemma {:induction false} WholeFailure(q: Queue, ids: seq<string>, code: string, retryable: bool, later: int,
                                        r: Record)
    requires NoRepeats(ids) && IdOf(r) in ids && IdOf(r) in q && q[IdOf(r)] == r.(status := InFlight)
    ensures var after := MarkedAll(q, P.FailureAll(ids, code, retryable), later);
            && IdOf(r) in after
            && (retryable ==> Waits(r, after[IdOf(r)], later))
            && (!retryable ==> GivenUp(r, after[IdOf(r)], code))
  {
    var fs, f := P.FailureAll(ids, code, retryable), Failure(IdOf(r), code, retryable);
    var i :| 0 <= i < |ids| && ids[i] == IdOf(r);
    assert fs[i] == f && f in fs;
    MarkedOnce(q, fs, later, f);
    MarkIs(r, f, later);
  }

  // ---- a reply

  lemma {:induction false} Rejected(q: Queue, reply: S.Reply, later: int, r: Record, b: bool)
    requires R.DistinctRejections(reply.rejected) && S.Rejection(IdOf(r), b) in reply.rejected
    requires IdOf(r) in q && IdOf(r) !in AckSet(reply) && q[IdOf(r)] == r.(status := InFlight)
    ensures var after := AfterReply(q, reply, later);
            && IdOf(r) in after
            && (b ==> Waits(r, after[IdOf(r)], later))
            && (!b ==> GivenUp(r, after[IdOf(r)], "rejected"))
  {
    var fs, f := Map(P.RejectionFailure, reply.rejected), Failure(IdOf(r), "rejected", b);
    var i :| 0 <= i < |reply.rejected| && reply.rejected[i] == S.Rejection(IdOf(r), b);
    assert fs[i] == f && f in fs;
    MarkedOnce(q - AckSet(reply), fs, later, f);
    MarkIs(r, f, later);
  }

  lemma {:induction false} Acknowledged(q: Queue, reply: S.Reply, later: int, id: string)
    requires id in AckSet(reply)
    ensures id !in AfterReply(q, reply, later)
  {
    MarkedAllKeys(q - AckSet(reply), Map(P.RejectionFailure, reply.rejected), later);
  }

  // ---- one sync

  /** Every event has a sequence, from 1 on: the schema of a request. */
  predicate InSchema(batch: seq<Record>) {
    forall r :: r in batch ==> r.envelope.deviceSequence.Some? && r.envelope.deviceSequence.value >= 1
  }

  lemma SchemaIsWellFormed(batch: seq<Record>)
    ensures S.WellFormed(Map(EnvelopeOf, batch)) <==> InSchema(batch)
  {
    var sent := Map(EnvelopeOf, batch);
    if S.WellFormed(sent) {
      forall r | r in batch
        ensures r.envelope.deviceSequence.Some? && r.envelope.deviceSequence.value >= 1
      {
        var i :| 0 <= i < |batch| && batch[i] == r;
        assert sent[i] in sent;
      }
    }
    if InSchema(batch) {
      forall e | e in sent
        ensures S.SequenceOf(e) >= 1
      {
        var i :| 0 <= i < |sent| && sent[i] == e;
        assert batch[i] in batch;
      }
    }
  }

  /** The state of the queue when the request goes out. */
  lemma Departed(q: Queue, now: int, batch: seq<Record>, r: Record)
    requires IsBatch(q, now, batch) && r in batch
    ensures var ids, flipped := Map(IdOf, batch), Flipped(q, IdSet(batch));
            && NoRepeats(ids) && IdOf(r) in ids && ids == Map(EventId, Map(EnvelopeOf, batch))
            && IdOf(r) in flipped && flipped[IdOf(r)] == r.(status := InFlight)
  {
    R.DistinctIds(q, now, batch);
    var i :| 0 <= i < |batch| && batch[i] == r;
    assert Map(IdOf, batch)[i] == IdOf(r);
    BatchIds(q, now, batch, Map(EventId, Map(EnvelopeOf, batch)));
  }

  /** The refusal of a whole batch names the empty id only. */
  lemma {:induction false} OtherThanRefused(q: Queue, later: int, id: string)
    requires id in q
    ensures var after := AfterReply(q, S.REFUSAL, later);
            && id in after
            && after[id] == if id == "" then q[id].(status := Failed, failureCode := Some("rejected")) else q[id]
  {
    var fs := Map(P.RejectionFailure, S.REFUSAL.rejected);
    assert AckSet(S.REFUSAL) == {} && q - {} == q && fs == [Failure("", "rejected", false)];
    if id == "" {
      MarkedOnce(q, fs, later, Failure("", "rejected", false));
    } else {
      Unmarked(q, fs, later, id);
    }
  }

  /** What becomes of an event whose request does not end in a reply that names it: it waits again
      after a lost request, a lost reply and a readable error status, unless that says the device is
      not registered, which gives the event up; it stays in flight after an unreadable answer and
      after the refusal of a whole batch. */
  predicate AfterNoReply(t: Transport, schema: bool, r: Record, after: Record, later: int) {
    match t
    case Unreached => Waits(r, after, later)
    case ReplyLost => Waits(r, after, later)
    case HttpError(_, NotRegistered) => GivenUp(r, after, "HTTP")
    case HttpError(_, OtherError) => Waits(r, after, later)
    case HttpError(_, Unreadable) => Flies(r, after)
    case Malformed(_) => Flies(r, after)
    case Refused =>
      if !schema then Waits(r, after, later)
      else if r.envelope.eventId == "" then GivenUp(r, after, "rejected")
      else Flies(r, after)
    case Delivered => Waits(r, after, later)
  }

  lemma {:induction false} EventWithoutReply(w: World, w': World, now: int, batch: seq<Record>, later: int,
                                             t: Transport, verdicts: map<string, S.Verdict>, r: Record)
    requires IsBatch(w.pending, now, batch) && r in batch && SyncedBy(w, w', batch, later, t, verdicts)
    requires t.Delivered? ==> !InSchema(batch)
    ensures r.envelope.eventId in w'.pending
    ensures AfterNoReply(t, InSchema(batch), r, w'.pending[r.envelope.eventId], later)
  {
    var q, sent, ids := Flipped(w.pending, IdSet(batch)), Map(EnvelopeOf, batch), Map(IdOf, batch);
    Departed(w.pending, now, batch, r);
    SchemaIsWellFormed(batch);
    match Fate(t, sent)
    case HttpError(_, body) =>
      if body != Unreadable {
        WholeFailure(q, ids, "HTTP", body == OtherError, later, r);
      }
    case Malformed(_) =>
    case Refused => OtherThanRefused(q, later, IdOf(r));
    case Delivered =>
    case _ => WholeFailure(q, ids, "NETWORK_UNAVAILABLE", true, later, r);
  }

  /** After a delivered reply an event is gone exactly if it was accepted or a duplicate, it waits
      exactly if its rejection is to be retried, and it is given up exactly if it is not. */
  lemma {:induction false} EventAfterReply(w: World, w': World, now: int, batch: seq<Record>, later: int,
                                           verdicts: map<string, S.Verdict>, r: Record)
    requires IsBatch(w.pending, now, batch) && r in batch && InSchema(batch)
    requires SyncedBy(w, w', batch, later, Delivered, verdicts)
    ensures var id, reply := r.envelope.eventId, S.Serve(w.server, Map(EnvelopeOf, batch), verdicts).reply;
            && (id !in w'.pending <==> id in reply.accepted || id in reply.duplicates)
            && (id in w'.acknowledged <==> id in w.acknowledged || id in reply.accepted || id in reply.duplicates)
            && (id in w'.pending && Waits(r, w'.pending[id], later) <==> S.Rejection(id, true) in reply.rejected)
            && (id in w'.pending && GivenUp(r, w'.pending[id], "rejected") <==>
                S.Rejection(id, false) in reply.rejected)
  {
    var q, sent, id := Flipped(w.pending, IdSet(batch)), Map(EnvelopeOf, batch), r.envelope.eventId;
    var reply := S.Serve(w.server, sent, verdicts).reply;
    Departed(w.pending, now, batch, r);
    SchemaIsWellFormed(batch);
    FateOfMalformed(Delivered, sent);
    S.EveryEventIsAnswered(w.server, sent, verdicts, id);
    R.RejectionsAreDistinct(w.server, sent, verdicts);
    OneAnswer(w.server, sent, verdicts, id);
    if id in AckSet(reply) {
      Acknowledged(q, reply, later, id);
    } else {
      var b := NamedRejection(reply, id);
      Rejected(q, reply, later, r, b);
    }
  }

  /** An event that is answered and not acknowledged is rejected. */
  lemma NamedRejection(reply: S.Reply, id: string) returns (b: bool)
    requires id in S.Answered(reply) && id !in AckSet(reply)
    ensures S.Rejection(id, b) in reply.rejected
  {
    assert id in Map(S.RejectedId, reply.rejected);
    var i :| 0 <= i < |reply.rejected| && Map(S.RejectedId, reply.rejected)[i] == id;
    b := reply.rejected[i].retryable;
    assert reply.rejected[i] == S.Rejection(id, b);
  }

  /** No event is both acknowledged and rejected, or rejected in two ways. */
  lemma {:induction false} OneAnswer(server: S.Server, sent: seq<Envelope>, verdicts: map<string, S.Verdict>,
                                     id: string)
    requires NoRepeats(Map(EventId, sent))
    ensures var reply := S.Serve(server, sent, verdicts).reply;
            && (forall b :: S.Rejection(id, b) in reply.rejected ==>
                              id !in AckSet(reply) && S.Rejection(id, !b) !in reply.rejected)
  {
    var reply := S.Serve(server, sent, verdicts).reply;
    S.ServeSound(server, sent, verdicts);
    S.PermutationNoRepeats(S.Answered(reply), Map(EventId, sent));
    R.RejectionsAreDistinct(server, sent, verdicts);
    var acks, rejected := reply.accepted + reply.duplicates, Map(S.RejectedId, reply.rejected);
    assert S.Answered(reply) == acks + rejected;
    forall b | S.Rejection(id, b) in reply.rejected
      ensures id !in AckSet(reply) && S.Rejection(id, !b) !in reply.rejected
    {
      var i :| 0 <= i < |reply.rejected| && reply.rejected[i] == S.Rejection(id, b);
      assert (acks + rejected)[|acks| + i] == id;
      forall j | 0 <= j < |acks|
        ensures acks[j] != id
      {
        assert (acks + rejected)[j] == acks[j];
      }
    }
  }

  /** In plain terms: in a delivered batch without equal sequences, an event is gone exactly if it
      was logged before or is logged now, it waits exactly if it was refused for now, and it is given
      up in all other cases: at fault, too late, or refused for good. */
  lemma {:induction false} DeliveredEvent(w: World, w': World, now: int, batch: seq<Record>, later: int,
                                          verdicts: map<string, S.Verdict>, r: Record)
    requires IsBatch(w.pending, now, batch) && r in batch && InSchema(batch)
    requires forall i, j :: 0 <= i < j < |batch| ==>
               batch[i].envelope.deviceSequence != batch[j].envelope.deviceSequence
    requires SyncedBy(w, w', batch, later, Delivered, verdicts)
    ensures var id := r.envelope.eventId;
            var v := if id in verdicts then verdicts[id] else S.Fine;
            var logged, late := id in w.server.log, r.envelope.deviceSequence.value <= w.server.last;
            && (id !in w'.pending <==> (logged && v != S.Verdict.Malformed) || (!logged && !late && v == S.Fine))
            && (id in w'.server.log <==> logged || (!late && v == S.Fine))
            && (id in w'.pending && Waits(r, w'.pending[id], later) <==>
                !logged && !late && v == S.Verdict.Refused(true))
            && (id in w'.pending && GivenUp(r, w'.pending[id], "rejected") <==>
                v == S.Verdict.Malformed || (!logged && (late || v == S.Verdict.Refused(false))))
  {
    var sent := Map(EnvelopeOf, batch);
    EventAfterReply(w, w', now, batch, later, verdicts, r);
    SentDiffer(w.pending, now, batch);
    var i :| 0 <= i < |batch| && batch[i] == r;
    assert sent[i] == r.envelope && sent[i] in sent;
    S.EachEventIsAnswered(w.server, sent, verdicts, r.envelope);
    S.LoggedAfterIff(w.server, sent, verdicts, r.envelope);
    FateOfMalformed(Delivered, sent);
  }

  lemma {:induction false} SentDiffer(q: Queue, now: int, batch: seq<Record>)
    requires IsBatch(q, now, batch) && InSchema(batch)
    requires forall i, j :: 0 <= i < j < |batch| ==>
               batch[i].envelope.deviceSequence != batch[j].envelope.deviceSequence
    ensures var sent := Map(EnvelopeOf, batch);
            && (forall x :: x in sent ==> x.deviceSequence.Some? && x.deviceSequence.value >= 1)
            && (forall i, j :: 0 <= i < j < |sent| ==>
                  sent[i].eventId != sent[j].eventId && sent[i].deviceSequence != sent[j].deviceSequence)
            && S.WellFormed(sent) && S.DistinctIds(sent) && S.DistinctSequences(sent)
  {
    var sent := Map(EnvelopeOf, batch);
    R.DistinctIds(q, now, batch);
    forall x | x in sent
      ensures x.deviceSequence.Some? && x.deviceSequence.value >= 1
    {
      var i :| 0 <= i < |sent| && sent[i] == x;
      assert batch[i] in batch;
    }
    forall i, j | 0 <= i < j < |sent|
      ensures sent[i].eventId != sent[j].eventId && sent[i].deviceSequence != sent[j].deviceSequence
    {
      assert Map(IdOf, batch)[i] != Map(IdOf, batch)[j];
      assert sent[i] in sent && sent[j] in sent;
    }
  }

  lemma NotFailed(ids: seq<string>, code: string, retryable: bool, id: string)
    requires id !in ids
    ensures forall f :: f in P.FailureAll(ids, code, retryable) ==> f.eventId != id
  {
  }

  /** The fate of a request touches the events of the batch only, but for the empty id. */
  lemma {:induction false} OtherFate(q: Queue, ids: seq<string>, t: Transport, reply: S.Reply, later: int, id: string)
    requires id in q && id !in ids && id !in S.Answered(reply)
    ensures var after := AfterTransport(q, ids, t, reply, later);
            && id in after
            && after[id] == if t.Refused? && id == "" then q[id].(status := Failed, failureCode := Some("rejected"))
                            else q[id]
  {
    match t
    case HttpError(_, body) =>
      NotFailed(ids, "HTTP", body == OtherError, id);
      Unmarked(q, P.FailureAll(ids, "HTTP", body == OtherError), later, id);
    case Malformed(_) =>
    case Refused => OtherThanRefused(q, later, id);
    case Delivered =>
      NotRejected(reply, id);
      Unmarked(q - AckSet(reply), Map(P.RejectionFailure, reply.rejected), later, id);
    case _ =>
      NotFailed(ids, "NETWORK_UNAVAILABLE", true, id);
      Unmarked(q, P.FailureAll(ids, "NETWORK_UNAVAILABLE", true), later, id);
  }

  /** A sync touches the records of its batch only, but for the empty id that a refusal names. */
  lemma {:induction false} OthersStay(w: World, w': World, now: int, batch: seq<Record>, later: int, t: Transport,
                                      verdicts: map<string, S.Verdict>, id: string)
    requires IsBatch(w.pending, now, batch) && SyncedBy(w, w', batch, later, t, verdicts)
    requires id in w.pending && forall r :: r in batch ==> r.envelope.eventId != id
    ensures id in w'.pending
    ensures w'.pending[id] == if t.Refused? && InSchema(batch) && id == ""
                              then w.pending[id].(status := Failed, failureCode := Some("rejected"))
                              else w.pending[id]
  {
    var q, sent, ids := Flipped(w.pending, IdSet(batch)), Map(EnvelopeOf, batch), Map(IdOf, batch);
    BatchIds(w.pending, now, batch, Map(EventId, sent));
    SchemaIsWellFormed(batch);
    assert id in q && q[id] == w.pending[id] && id !in ids;
    S.EveryEventIsAnswered(w.server, sent, verdicts, id);
    OtherFate(q, ids, Fate(t, sent), S.Serve(w.server, sent, verdicts).reply, later, id);
  }

  lemma NotRejected(reply: S.Reply, id: string)
    requires id !in S.Answered(reply)
    ensures id !in AckSet(reply)
    ensures forall f :: f in Map(P.RejectionFailure, reply.rejected) ==> f.eventId != id
  {
    var fs := Map(P.RejectionFailure, reply.rejected);
    forall f | f in fs
      ensures f.eventId != id
    {
      var i :| 0 <= i < |fs| && fs[i] == f;
      assert Map(S.RejectedId, reply.rejected)[i] in S.Answered(reply);
    }
  }

  /** The server works through a batch exactly if the request arrives in the schema of a request;
      only a delivered reply acknowledges anything; and this is what the client reports. */
  lemma {:induction false} RestOfTheSync(w: World, w': World, now: int, batch: seq<Record>, later: int, t: Transport,
                                         verdicts: map<string, S.Verdict>)
    requires IsBatch(w.pending, now, batch) && SyncedBy(w, w', batch, later, t, verdicts)
    ensures var committed := InSchema(batch) && (t.ReplyLost? || t.Delivered? || ((t.HttpError? || t.Malformed?)
                                                                                  && t.processed));
            w'.server == if committed then S.Serve(w.server, Map(EnvelopeOf, batch), verdicts).server else w.server
    ensures !(t.Delivered? && InSchema(batch)) ==> w'.acknowledged == w.acknowledged
    ensures var result := ResultOf(Fate(t, Map(EnvelopeOf, batch)));
            && (result == Network <==> t.Unreached? || t.ReplyLost?)
            && (result == Thrown <==> t.Malformed? || (t.HttpError? && t.body == Unreadable))
            && (result == Synced <==> InSchema(batch) && (t.Refused? || t.Delivered?))
            && result != Aborted && result != SyncResult.Empty
  {
    SchemaIsWellFormed(batch);
  }

  // ---- batches and restores in plain terms

  /** A missing sequence comes last. */
  function Place(r: Record): int {
    match r.envelope.deviceSequence
    case Some(n) => n
    case None => 9007199254740991
  }

  /** A batch holds at most a hundred records, all of them pending and due; it is sorted by sequence
      and then by event id; and a due record is left behind only by a full batch of earlier ones. */
  lemma BatchIs(q: Queue, now: int, batch: seq<Record>)
    requires IsBatch(q, now, batch)
    ensures |batch| <= 100
    ensures forall r :: r in batch ==> r.envelope.eventId in q && r.status == Pending && r.nextRetryAt <= now
    ensures forall i, j :: 0 <= i < j < |batch| ==>
              Place(batch[i]) < Place(batch[j])
              || (Place(batch[i]) == Place(batch[j])
                  && StringLeq(batch[i].envelope.eventId, batch[j].envelope.eventId))
    ensures forall id :: id in q && q[id].status == Pending && q[id].nextRetryAt <= now && q[id] !in batch ==>
              |batch| == 100 && forall r :: r in batch ==> Place(r) <= Place(q[id])
  {
    forall i, j | 0 <= i < j < |batch|
      ensures Before(batch[i], batch[j])
    {
    }
  }

  /** After a restore a record that was in flight waits with the delay of its attempts so far; the
      others are as they were. */
  lemma RestoredIs(q: Queue, now: int, id: string)
    requires id in q
    ensures id in Restored(q, now)
    ensures var r := q[id];
            Restored(q, now)[id] ==
            if r.status != InFlight then r
            else Record(r.envelope, Pending, r.attempts,
                        now + (if r.attempts == 0 then 0 else if r.attempts == 1 then 5000
                               else if r.attempts == 2 then 15000 else if r.attempts == 3 then 60000
                               else if r.attempts == 4 then 300000 else 900000),
                        r.failureCode)
  {
  }
}

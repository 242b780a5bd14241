/** The sequential client refines the protocol: each of its methods is a run of single store and
    network operations, so what every run keeps holds for the client among any other tasks. */
module SyncRefinement {
  import opened Common
  import opened Ordering
  import opened OfflineQueue
  import opened OfflineSync
  import opened SyncProtocol

  /** The protocol state shows the client's tables. */
  ghost predicate View(s: State, w: World) {
    s.pending == w.pending && s.server == w.server && s.acknowledged == w.acknowledged
  }

  /** `t` differs from `s` in the queue and in spent operations at most. */
  ghost predicate OnlyQueueMoved(s: State, t: State) {
    && t.enqueued == s.enqueued && t.server == s.server && t.acknowledged == s.acknowledged
    && t.requests == s.requests && t.replies == s.replies
  }

  function InFlightPut(r: Record): Op {
    Put(r.(status := InFlight))
  }

  // Each loop below starts with the operations that it still has to do on top of a `base`, and
  // leaves no more than the base outstanding.

  /** The loop of puts in `dequeue`. */
  lemma {:induction false} FlipLoop(s: State, t: State, q: Queue, records: seq<Record>, base: set<Op>, k: nat)
    returns (t': State)
    requires Reaches(s, t) && k <= |records| && NoRepeats(records)
    requires forall r :: r in records ==> IdOf(r) in q && q[IdOf(r)] == r
    requires t.pending == Flipped(q, IdSet(records[..k]))
    requires forall i :: k <= i < |records| ==> InFlightPut(records[i]) in t.ops
    requires t.ops <= base + set i | k <= i < |records| :: InFlightPut(records[i])
    ensures Reaches(s, t') && OnlyQueueMoved(t, t') && t'.pending == Flipped(q, IdSet(records)) && t'.ops <= base
    ensures forall op :: op in t.ops && !op.Put? ==> op in t'.ops
    decreases |records| - k
  {
    if k == |records| {
      assert records[..k] == records;
      t' := t;
    } else {
      var op := InFlightPut(records[k]);
      ReachesNext(s, t, Execute(op, 0));
      FlipOne(q, records, k);
      var u := Apply(t, Execute(op, 0));
      forall i | k + 1 <= i < |records|
        ensures InFlightPut(records[i]) in u.ops
      {
        assert records[i] in records && records[k] in records && records[i] != records[k];
      }
      t' := FlipLoop(s, u, q, records, base, k + 1);
    }
  }

  /** The loop of `markRejected` calls, each a get and a put. */
  lemma {:induction false} MarkLoop(s: State, t: State, q: Queue, fs: seq<Failure>, now: int, base: set<Op>, k: nat)
    returns (t': State)
    requires Reaches(s, t) && k <= |fs| && NoRepeats(fs) && Keyed(q)
    requires t.pending == MarkedAll(q, fs[..k], now)
    requires forall i :: k <= i < |fs| ==> Reject(fs[i]) in t.ops
    requires t.ops <= base + set i | k <= i < |fs| :: Reject(fs[i])
    ensures Reaches(s, t') && OnlyQueueMoved(t, t') && t'.pending == MarkedAll(q, fs, now) && t'.ops <= base
    decreases |fs| - k
  {
    if k == |fs| {
      assert fs[..k] == fs;
      t' := t;
    } else {
      assert fs[..k + 1][..k] == fs[..k];
      MarkedAllKeepsRecords(q, fs[..k], now);
      var u := MarkOne(s, t, fs[k], now);
      t' := MarkLoop(s, u, q, fs, now, base, k + 1);
    }
  }

  lemma MarkOne(s: State, t: State, f: Failure, now: int) returns (u: State)
    requires Reaches(s, t) && Reject(f) in t.ops && Keyed(t.pending)
    ensures Reaches(s, u) && OnlyQueueMoved(t, u) && u.pending == Marked(t.pending, f, now)
    ensures forall g :: Reject(g) in t.ops && g != f ==> Reject(g) in u.ops
    ensures u.ops <= t.ops - {Reject(f)}
  {
    ReachesNext(s, t, Execute(Reject(f), now));
    u := Apply(t, Execute(Reject(f), now));
    if f.eventId in t.pending {
      var put := Put(Failed1(t.pending[f.eventId], f, now));
      ReachesNext(s, u, Execute(put, now));
      u := Apply(u, Execute(put, now));
    }
  }

  /** The loop of `markAcknowledged` calls, each a delete and a put. */
  lemma {:induction false} AckLoop(s: State, t: State, q: Queue, acked: set<string>, ids: seq<string>, base: set<Op>,
                                   k: nat) returns (t': State)
    requires Reaches(s, t) && k <= |ids|
    requires t.pending == q - Members(ids[..k]) && t.acknowledged == acked + Members(ids[..k])
    requires forall i :: k <= i < |ids| ==> ids[i] in ids[..k] || Ack(ids[i]) in t.ops
    requires t.ops <= base + set id | id in ids && id !in ids[..k] :: Ack(id)
    ensures Reaches(s, t') && t'.pending == q - Members(ids) && t'.acknowledged == acked + Members(ids)
    ensures t'.enqueued == t.enqueued && t'.server == t.server && t'.ops <= base
    ensures forall f :: Reject(f) in t.ops ==> Reject(f) in t'.ops
    decreases |ids| - k
  {
    if k == |ids| {
      assert ids[..k] == ids;
      t' := t;
    } else {
      assert ids[..k + 1] == ids[..k] + [ids[k]];
      assert Members(ids[..k + 1]) == Members(ids[..k]) + {ids[k]};
      var u := t;
      if ids[k] !in ids[..k] {
        u := AckOne(s, t, ids[k]);
      }
      t' := AckLoop(s, u, q, acked, ids, base, k + 1);
    }
  }

  lemma AckOne(s: State, t: State, id: string) returns (u: State)
    requires Reaches(s, t) && Ack(id) in t.ops
    ensures Reaches(s, u) && u.pending == t.pending - {id} && u.acknowledged == t.acknowledged + {id}
    ensures u.enqueued == t.enqueued && u.server == t.server
    ensures forall op :: op in t.ops && (op.Reject? || (op.Ack? && op != Ack(id))) ==> op in u.ops
    ensures u.ops <= t.ops - {Ack(id)}
  {
    ReachesNext(s, t, Execute(Ack(id), 0));
    u := Apply(t, Execute(Ack(id), 0));
    ReachesNext(s, u, Execute(PutAck(id), 0));
    u := Apply(u, Execute(PutAck(id), 0));
  }

  // ---- no call is made twice

  lemma DistinctIds(q: Queue, now: int, batch: seq<Record>)
    requires IsBatch(q, now, batch)
    ensures NoRepeats(Map(IdOf, batch))
  {
    var ids := Map(IdOf, batch);
    forall i, j | 0 <= i < j < |ids|
      ensures ids[i] != ids[j]
    {
      assert batch[i] in batch && batch[j] in batch && batch[i] != batch[j];
    }
  }

  lemma DistinctFailures(ids: seq<string>, code: string, retryable: bool)
    requires NoRepeats(ids)
    ensures NoRepeats(FailureAll(ids, code, retryable))
  {
  }

  ghost predicate DistinctRejections(rs: seq<S.Rejection>) {
    forall i, j :: 0 <= i < j < |rs| ==> rs[i].eventId != rs[j].eventId
  }

  lemma SuffixNoRepeats<T>(a: seq<T>, b: seq<T>)
    requires NoRepeats(a + b)
    ensures NoRepeats(b)
  {
    forall i, j | 0 <= i < j < |b|
      ensures b[i] != b[j]
    {
      assert (a + b)[|a| + i] == b[i] && (a + b)[|a| + j] == b[j];
    }
  }

  /** The server rejects no event of a batch twice. */
  lemma {:induction false} RejectionsAreDistinct(server: S.Server, batch: seq<Envelope>,
                                                 verdicts: map<string, S.Verdict>)
    requires NoRepeats(Map(EventId, batch))
    ensures DistinctRejections(S.Serve(server, batch, verdicts).reply.rejected)
  {
    S.ServeSound(server, batch, verdicts);
    DistinctAnswers(S.Serve(server, batch, verdicts).reply, Map(EventId, batch));
  }

  lemma DistinctAnswers(reply: S.Reply, ids: seq<string>)
    requires multiset(S.Answered(reply)) == multiset(ids) && NoRepeats(ids)
    ensures DistinctRejections(reply.rejected)
  {
    S.PermutationNoRepeats(S.Answered(reply), ids);
    var rejected := Map(S.RejectedId, reply.rejected);
    SuffixNoRepeats(reply.accepted + reply.duplicates, rejected);
    assert forall i :: 0 <= i < |reply.rejected| ==> rejected[i] == reply.rejected[i].eventId;
  }

  // ---- a whole sync

  lemma DepartingAre(batch: seq<Record>)
    ensures Departing(batch) == (set i | 0 <= i < |batch| :: InFlightPut(batch[i])) + {Send(Map(EnvelopeOf, batch))}
  {
    forall r | r in batch
      ensures Put(r.(status := InFlight)) in set i | 0 <= i < |batch| :: InFlightPut(batch[i])
    {
      var i :| 0 <= i < |batch| && batch[i] == r;
      assert InFlightPut(batch[i]) == Put(r.(status := InFlight));
    }
    forall i | 0 <= i < |batch|
      ensures InFlightPut(batch[i]) in Departing(batch)
    {
      assert batch[i] in batch;
    }
  }

  /** The operations of `dequeue`, then the send. */
  lemma DequeueAndSend(s: State, w: World, now: int, batch: seq<Record>) returns (u: State)
    requires View(s, w) && Keyed(w.pending) && IsBatch(w.pending, now, batch)
    ensures Reaches(s, u) && u.enqueued == s.enqueued && u.ops <= s.ops
    ensures u.pending == Flipped(w.pending, IdSet(batch)) && u.acknowledged == w.acknowledged && u.server == w.server
    ensures Map(EnvelopeOf, batch) in u.requests
  {
    var send := Send(Map(EnvelopeOf, batch));
    ReachesItself(s);
    ReachesNext(s, s, Dequeue(batch, now));
    u := Apply(s, Dequeue(batch, now));
    DepartingAre(batch);
    assert IdSet(batch[..0]) == {} && Flipped(w.pending, {}) == w.pending;
    u := FlipLoop(s, u, w.pending, batch, s.ops + {send}, 0);
    ReachesNext(s, u, Execute(send, 0));
    u := Apply(u, Execute(send, 0));
  }

  /** A request, and what the server does with it. */
  lemma Request(s: State, w: World, now: int, batch: seq<Record>, t: Transport, verdicts: map<string, S.Verdict>)
    returns (u: State)
    requires View(s, w) && Keyed(w.pending) && IsBatch(w.pending, now, batch)
    requires Arrives(t) || t.Refused? ==> S.WellFormed(Map(EnvelopeOf, batch))
    ensures Reaches(s, u) && u.enqueued == s.enqueued && u.ops <= s.ops
    ensures u.pending == Flipped(w.pending, IdSet(batch)) && u.acknowledged == w.acknowledged
    ensures var sent := Map(EnvelopeOf, batch);
            var r := S.Serve(w.server, sent, verdicts);
            && sent in u.requests
            && u.server == (if Arrives(t) then r.server else w.server)
            && (Arrives(t) ==> (sent, r.reply) in u.replies)
            && (t.Refused? ==> (sent, S.REFUSAL) in u.replies)
  {
    var sent := Map(EnvelopeOf, batch);
    u := DequeueAndSend(s, w, now, batch);
    if Arrives(t) {
      ReachesNext(s, u, ServerProcesses(sent, verdicts));
      u := Apply(u, ServerProcesses(sent, verdicts));
    } else if t.Refused? {
      ReachesNext(s, u, ServerRefuses(sent));
      u := Apply(u, ServerRefuses(sent));
    }
  }

  lemma RejectsAre(fs: seq<Failure>)
    ensures RejectAll(fs) == set i | 0 <= i < |fs| :: Reject(fs[i])
  {
    forall f | f in fs
      ensures Reject(f) in set i | 0 <= i < |fs| :: Reject(fs[i])
    {
      var i :| 0 <= i < |fs| && fs[i] == f;
    }
  }

  /** A batch that failed as a whole: one rejection per id. */
  lemma WholeFailure(s: State, u: State, e: Event, sent: seq<Envelope>, fs: seq<Failure>, later: int)
    returns (t: State)
    requires Reaches(s, u) && sent in u.requests && NoRepeats(fs) && Keyed(u.pending)
    requires (e == TransportFails(sent) && fs == FailureAll(Map(EventId, sent), "NETWORK_UNAVAILABLE", true))
          || (e.HttpError? && e.batch == sent && fs == FailureAll(Map(EventId, sent), "HTTP", e.registered))
    ensures Reaches(s, t) && OnlyQueueMoved(u, t) && t.pending == MarkedAll(u.pending, fs, later) && t.ops <= u.ops
  {
    ReachesNext(s, u, e);
    t := Apply(u, e);
    assert forall i :: 0 <= i < |fs| ==> fs[i] in fs;
    RejectsAre(fs);
    t := MarkLoop(s, t, u.pending, fs, later, u.ops, 0);
  }

  /** A delivered answer: acknowledgements, then rejections. */
  lemma Answer(s: State, u: State, sent: seq<Envelope>, reply: S.Reply, later: int) returns (t: State)
    requires Reaches(s, u) && (sent, reply) in u.replies && DistinctRejections(reply.rejected) && Keyed(u.pending)
    ensures Reaches(s, t) && t.enqueued == u.enqueued && t.server == u.server
    ensures t.acknowledged == u.acknowledged + AckSet(reply) && t.ops <= u.ops
    ensures t.pending == AfterReply(u.pending, reply, later)
  {
    var acks, fs := reply.accepted + reply.duplicates, Map(RejectionFailure, reply.rejected);
    ReachesNext(s, u, ReplyArrives(sent, reply));
    t := Apply(u, ReplyArrives(sent, reply));
    assert Members(acks[..0]) == {} && u.pending - {} == u.pending;
    assert forall i :: 0 <= i < |acks| ==> acks[i] in acks;
    assert forall i :: 0 <= i < |fs| ==> fs[i] in fs && Reject(fs[i]) in t.ops;
    RejectsAre(fs);
    t := AckLoop(s, t, u.pending, u.acknowledged, acks, u.ops + RejectAll(fs), 0);
    t := MarkLoop(s, t, u.pending - AckSet(reply), fs, later, u.ops, 0);
  }

  /** What the client does with the outcome. */
  lemma Outcome(s: State, u: State, sent: seq<Envelope>, t: Transport, reply: S.Reply, later: int)
    returns (s': State)
    requires Reaches(s, u) && sent in u.requests && NoRepeats(Map(EventId, sent)) && Keyed(u.pending)
    requires DistinctRejections(reply.rejected)
    requires t.Delivered? ==> (sent, reply) in u.replies
    requires t.Refused? ==> (sent, S.REFUSAL) in u.replies
    ensures Reaches(s, s') && s'.enqueued == u.enqueued && s'.server == u.server && s'.ops <= u.ops
    ensures s'.acknowledged == if t.Delivered? then u.acknowledged + AckSet(reply) else u.acknowledged
    ensures s'.pending == AfterTransport(u.pending, Map(EventId, sent), t, reply, later)
  {
    var ids := Map(EventId, sent);
    match t
    case HttpError(_, body) =>
      s' := u;
      if body != Unreadable {
        DistinctFailures(ids, "HTTP", body == OtherError);
        s' := WholeFailure(s, u, Event.HttpError(sent, body == OtherError), sent,
                           FailureAll(ids, "HTTP", body == OtherError), later);
      }
    case Malformed(_) =>
      s' := u;
    case Refused =>
      assert AckSet(S.REFUSAL) == {};
      s' := Answer(s, u, sent, S.REFUSAL, later);
    case Delivered =>
      s' := Answer(s, u, sent, reply, later);
    case _ =>
      DistinctFailures(ids, "NETWORK_UNAVAILABLE", true);
      s' := WholeFailure(s, u, TransportFails(sent), sent, FailureAll(ids, "NETWORK_UNAVAILABLE", true), later);
  }

  /** A sync whose request meets this fate. */
  lemma FateIsProtocolRun(s: State, w: World, now: int, later: int, batch: seq<Record>, t: Transport,
                          verdicts: map<string, S.Verdict>) returns (s': State)
    requires View(s, w) && Keyed(w.pending) && IsBatch(w.pending, now, batch)
    requires Arrives(t) || t.Refused? ==> S.WellFormed(Map(EnvelopeOf, batch))
    ensures Reaches(s, s') && s'.enqueued == s.enqueued && s'.ops <= s.ops
    ensures var sent := Map(EnvelopeOf, batch);
            var reply := S.Serve(w.server, sent, verdicts).reply;
            var q := AfterTransport(Flipped(w.pending, IdSet(batch)), Map(EventId, sent), t, reply, later);
            View(s', AfterSync(w, q, sent, t, verdicts))
  {
    var sent := Map(EnvelopeOf, batch);
    var u := Request(s, w, now, batch, t, verdicts);
    WritesKeepRecords(w.pending, IdSet(batch), Failure("", "", true), now);
    DistinctIds(w.pending, now, batch);
    assert Map(EventId, sent) == Map(IdOf, batch);
    RejectionsAreDistinct(w.server, sent, verdicts);
    s' := Outcome(s, u, sent, t, S.Serve(w.server, sent, verdicts).reply, later);
  }

  /** Every sync of the client, whatever happens to its request, is a run of the protocol, and
      none of its operations is outstanding at the end. */
  lemma SyncIsProtocolRun(s: State, w: World, w': World, now: int, later: int, batch: seq<Record>, t: Transport,
                          verdicts: map<string, S.Verdict>) returns (s': State)
    requires View(s, w) && Keyed(w.pending) && IsBatch(w.pending, now, batch)
    requires SyncedBy(w, w', batch, later, t, verdicts)
    ensures Reaches(s, s') && View(s', w') && s'.enqueued == s.enqueued && s'.ops <= s.ops
  {
    FateOfMalformed(t, Map(EnvelopeOf, batch));
    s' := FateIsProtocolRun(s, w, now, later, batch, Fate(t, Map(EnvelopeOf, batch)), verdicts);
    assert Map(EventId, Map(EnvelopeOf, batch)) == Map(IdOf, batch);
  }

  // ---- enqueue and restore

  lemma EnqueueIsProtocolRun(s: State, w: World, envelope: Envelope, now: int) returns (s': State)
    requires View(s, w) && envelope.eventId !in s.enqueued
    ensures Reaches(s, s') && s'.enqueued == s.enqueued[envelope.eventId := envelope] && s'.ops == s.ops
    ensures View(s', w.(pending := w.pending[envelope.eventId := Record(envelope, Pending, 0, now, None)]))
  {
    ReachesItself(s);
    ReachesNext(s, s, Enqueue(envelope, now));
    s' := Apply(s, Enqueue(envelope, now));
  }

  /** The queue while `todo` is still to be written back. */
  function PartlyRestored(q: Queue, todo: set<string>, now: int): Queue {
    map id | id in q :: if id in todo then q[id] else Restored(q, now)[id]
  }

  function InFlightIds(q: Queue): set<string> {
    set id | id in q && q[id].status == InFlight
  }

  /** The puts of `restore` that are still to be done. */
  function RestorePuts(q: Queue, now: int, todo: set<string>): set<Op>
    requires todo <= q.Keys
  {
    set id | id in todo :: Put(Restored(q, now)[id])
  }

  lemma RestoreOne(t: State, q: Queue, now: int, base: set<Op>, todo: set<string>, id: string)
    requires Keyed(q) && todo <= q.Keys && id in todo && q[id].status == InFlight
    requires t.pending == PartlyRestored(q, todo, now)
    requires RestorePuts(q, now, todo) <= t.ops <= base + RestorePuts(q, now, todo)
    ensures var u := AfterOp(t, Put(Restored(q, now)[id]), now);
            && u.pending == PartlyRestored(q, todo - {id}, now)
            && RestorePuts(q, now, todo - {id}) <= u.ops <= base + RestorePuts(q, now, todo - {id})
  {
    forall other | other in todo - {id}
      ensures Put(Restored(q, now)[other]) != Put(Restored(q, now)[id])
    {
      assert IdOf(Restored(q, now)[other]) == other && IdOf(Restored(q, now)[id]) == id;
    }
  }

  /** The loop of puts in `restore`. */
  lemma {:induction false} RestoreLoop(s: State, t: State, q: Queue, now: int, base: set<Op>, todo: set<string>)
    returns (t': State)
    requires Reaches(s, t) && Keyed(q) && todo <= InFlightIds(q)
    requires t.pending == PartlyRestored(q, todo, now)
    requires RestorePuts(q, now, todo) <= t.ops <= base + RestorePuts(q, now, todo)
    ensures Reaches(s, t') && OnlyQueueMoved(t, t') && t'.pending == Restored(q, now) && t'.ops <= base
    decreases |todo|
  {
    if todo == {} {
      assert PartlyRestored(q, {}, now) == Restored(q, now);
      t' := t;
    } else {
      var id :| id in todo;
      var op := Put(Restored(q, now)[id]);
      assert op in RestorePuts(q, now, todo);
      RestoreOne(t, q, now, base, todo, id);
      ReachesNext(s, t, Execute(op, now));
      t' := RestoreLoop(s, Apply(t, Execute(op, now)), q, now, base, todo - {id});
    }
  }

  lemma RestoreIsProtocolRun(s: State, w: World, now: int) returns (s': State)
    requires View(s, w) && Keyed(w.pending)
    ensures Reaches(s, s') && s'.enqueued == s.enqueued && s'.ops <= s.ops
    ensures View(s', w.(pending := Restored(w.pending, now)))
  {
    ReachesItself(s);
    ReachesNext(s, s, Event.Restore(now));
    var t := Apply(s, Event.Restore(now));
    assert PartlyRestored(w.pending, InFlightIds(w.pending), now) == w.pending;
    assert RestorePuts(w.pending, now, InFlightIds(w.pending)) == RestoreAll(w.pending, now);
    s' := RestoreLoop(s, t, w.pending, now, s.ops, InFlightIds(w.pending));
  }
}

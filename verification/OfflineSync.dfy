/** `OfflineSyncClient._syncOnce` of web/offline-core.js against the idempotent server, and the
    rounds in which a queue drains. */
module OfflineSync {
  import opened Common
  import opened Ordering
  import opened OfflineQueue
  import S = SyncServer
  import P = SyncProtocol

  /** The JSON body of an error status. `Unreadable` is null, or a detail that is no text and no
      list, on which `detail.includes` throws. */
  datatype ErrorBody = OtherError | NotRegistered | Unreadable

  /** What becomes of one request; `processed` says whether the server had committed it. */
  datatype Transport =
    | Unreached                                             // the request never arrives
    | ReplyLost                                             // the server commits, the reply is lost
    | HttpError(processed: bool, body: ErrorBody)           // an error status
    | Malformed(processed: bool)                            // response.json() throws
    | Refused                                               // the server refuses the batch as a whole
    | Delivered

  datatype SyncResult = Aborted | Empty | Network | Http | Thrown | Synced

  function ResultOf(t: Transport): SyncResult {
    match t
    case Unreached => Network
    case ReplyLost => Network
    case HttpError(_, body) => if body == Unreadable then Thrown else Http
    case Malformed(_) => Thrown
    case Refused => Synced
    case Delivered => Synced
  }

  /** The parts of the world that exactly-once speaks of. */
  datatype World = World(pending: Queue, server: S.Server, acknowledged: set<string>)

  /** Every enqueued event is queued or logged, the log has it at most once and nothing else, and
      only logged events are acknowledged. */
  ghost predicate Accounted(enqueued: set<string>, w: World) {
    && Keyed(w.pending) && NoRepeats(w.server.log)
    && (forall id :: id in enqueued ==> id in w.pending || id in w.server.log)
    && (forall id :: id in w.pending ==> id in enqueued)
    && (forall id :: id in w.server.log ==> id in enqueued)
    && (forall id :: id in w.acknowledged ==> id in w.server.log)
  }

  /** The server works through the batch. */
  predicate Arrives(t: Transport) {
    match t
    case Unreached => false
    case HttpError(processed, _) => processed
    case Malformed(processed) => processed
    case Refused => false
    case _ => true
  }

  /** What becomes of a request once the server has looked at its schema: a batch with an event
      whose sequence is missing or not positive is answered by an error status, whose detail is a
      list, and is not processed. */
  function Fate(t: Transport, batch: seq<Envelope>): Transport {
    if S.WellFormed(batch) then t
    else
      match t
      case Unreached => Unreached
      case ReplyLost => Unreached
      case HttpError(_, body) => HttpError(false, body)
      case Malformed(_) => Malformed(false)
      case Refused => HttpError(false, OtherError)
      case Delivered => HttpError(false, OtherError)
  }

  lemma FateOfMalformed(t: Transport, batch: seq<Envelope>)
    ensures Arrives(Fate(t, batch)) || Fate(t, batch).Refused? ==> S.WellFormed(batch)
    ensures S.WellFormed(batch) ==> Fate(t, batch) == t
  {
  }

  function Members(ids: seq<string>): set<string> {
    set id | id in ids
  }

  function AckSet(r: S.Reply): set<string> {
    Members(r.accepted + r.duplicates)
  }

  function AfterReply(q: Queue, reply: S.Reply, now: int): Queue {
    MarkedAll(q - AckSet(reply), Map(P.RejectionFailure, reply.rejected), now)
  }

  /** The queue after the client has dealt with the outcome of a request for `ids`. */
  function AfterTransport(q: Queue, ids: seq<string>, t: Transport, reply: S.Reply, now: int): Queue {
    match t
    case Unreached => MarkedAll(q, P.FailureAll(ids, "NETWORK_UNAVAILABLE", true), now)
    case ReplyLost => MarkedAll(q, P.FailureAll(ids, "NETWORK_UNAVAILABLE", true), now)
    case HttpError(_, Unreadable) => q
    case HttpError(_, body) => MarkedAll(q, P.FailureAll(ids, "HTTP", body == OtherError), now)
    case Malformed(_) => q
    case Refused => AfterReply(q, S.REFUSAL, now)
    case Delivered => AfterReply(q, reply, now)
  }

  lemma AfterReplyKeys(q: Queue, reply: S.Reply, now: int)
    requires Keyed(q)
    ensures Keyed(AfterReply(q, reply, now)) && AfterReply(q, reply, now).Keys == q.Keys - AckSet(reply)
  {
    MarkedAllKeepsRecords(q - AckSet(reply), Map(P.RejectionFailure, reply.rejected), now);
  }

  lemma AfterTransportKeys(q: Queue, ids: seq<string>, t: Transport, reply: S.Reply, now: int)
    requires Keyed(q)
    ensures Keyed(AfterTransport(q, ids, t, reply, now))
    ensures AfterTransport(q, ids, t, reply, now).Keys == if t.Delivered? then q.Keys - AckSet(reply) else q.Keys
  {
    MarkedAllKeepsRecords(q, P.FailureAll(ids, "NETWORK_UNAVAILABLE", true), now);
    if t.HttpError? {
      MarkedAllKeepsRecords(q, P.FailureAll(ids, "HTTP", t.body == OtherError), now);
    }
    AfterReplyKeys(q, S.REFUSAL, now);
    AfterReplyKeys(q, reply, now);
  }

  lemma LogKeepsAccount(enqueued: set<string>, w: World, ids: seq<string>, r: S.Served)
    requires Accounted(enqueued, w) && S.Sound(w.server.log, ids, r.server.log, r.reply)
    requires forall id :: id in ids ==> id in w.pending
    ensures Accounted(enqueued, w.(server := r.server))
  {
  }

  lemma QueueKeepsAccount(enqueued: set<string>, w: World, q: Queue, acked: set<string>)
    requires Accounted(enqueued, w) && Keyed(q) && q.Keys == w.pending.Keys - acked
    requires forall id :: id in acked ==> id in w.server.log
    ensures Accounted(enqueued, World(q, w.server, w.acknowledged + acked))
    ensures Accounted(enqueued, World(q, w.server, w.acknowledged))
  {
  }

  /** The effect of a sync on the three tables, given the queue it leaves. */
  function AfterSync(w: World, q: Queue, batch: seq<Envelope>, t: Transport, verdicts: map<string, S.Verdict>): World {
    var r := S.Serve(w.server, batch, verdicts);
    World(q, if Arrives(t) then r.server else w.server,
          if t.Delivered? then w.acknowledged + AckSet(r.reply) else w.acknowledged)
  }

  lemma {:induction false} TablesKeepAccount(enqueued: set<string>, w: World, q: Queue, batch: seq<Envelope>,
                                             t: Transport, verdicts: map<string, S.Verdict>)
    requires Accounted(enqueued, w) && Keyed(q)
    requires forall id :: id in Map(EventId, batch) ==> id in w.pending
    requires q.Keys ==
             if t.Delivered? then w.pending.Keys - AckSet(S.Serve(w.server, batch, verdicts).reply) else w.pending.Keys
    ensures Accounted(enqueued, AfterSync(w, q, batch, t, verdicts))
  {
    var r := S.Serve(w.server, batch, verdicts);
    S.ServeSound(w.server, batch, verdicts);
    LogKeepsAccount(enqueued, w, Map(EventId, batch), r);
    var w' := if Arrives(t) then w.(server := r.server) else w;
    QueueKeepsAccount(enqueued, w', q, if t.Delivered? then AckSet(r.reply) else {});
  }

  /** A whole sync keeps the account, whatever happens to the request. */
  lemma {:induction false} SyncKeepsAccount(enqueued: set<string>, w: World, batch: seq<Envelope>, t: Transport,
                                            verdicts: map<string, S.Verdict>, now: int)
    requires Accounted(enqueued, w)
    requires forall id :: id in Map(EventId, batch) ==> id in w.pending
    ensures
      var ids, reply := Map(EventId, batch), S.Serve(w.server, batch, verdicts).reply;
      var q := AfterTransport(Flipped(w.pending, Members(ids)), ids, t, reply, now);
      Accounted(enqueued, AfterSync(w, q, batch, t, verdicts))
  {
    var ids := Map(EventId, batch);
    var flipped := Flipped(w.pending, Members(ids));
    var reply := S.Serve(w.server, batch, verdicts).reply;
    WritesKeepRecords(w.pending, Members(ids), Failure("", "", true), now);
    AfterTransportKeys(flipped, ids, t, reply, now);
    TablesKeepAccount(enqueued, w, AfterTransport(flipped, ids, t, reply, now), batch, t, verdicts);
  }

  lemma EnqueueKeepsAccount(enqueued: set<string>, w: World, envelope: Envelope, now: int)
    requires Accounted(enqueued, w) && envelope.eventId !in enqueued
    ensures Accounted(enqueued + {envelope.eventId},
                      w.(pending := w.pending[envelope.eventId := Record(envelope, Pending, 0, now, None)]))
  {
  }

  lemma RestoreKeepsAccount(enqueued: set<string>, w: World, now: int)
    requires Accounted(enqueued, w)
    ensures Accounted(enqueued, w.(pending := Restored(w.pending, now)))
  {
  }

  /** The new state as a function of the old one, the batch and what became of the request. */
  ghost predicate SyncedBy(before: World, after: World, batch: seq<Record>, later: int, t: Transport,
                           verdicts: map<string, S.Verdict>)
  {
    var sent, ids := Map(EnvelopeOf, batch), Map(IdOf, batch);
    var fate, reply := Fate(t, sent), S.Serve(before.server, sent, verdicts).reply;
    after == AfterSync(before, AfterTransport(Flipped(before.pending, IdSet(batch)), ids, fate, reply, later), sent,
                       fate, verdicts)
  }

  lemma NothingFlipped(q: Queue)
    ensures Flipped(q, {}) == q && IdSet([]) == {}
  {
  }

  lemma BatchIds(q: Queue, now: int, batch: seq<Record>, ids: seq<string>)
    requires IsBatch(q, now, batch) && ids == Map(EventId, Map(EnvelopeOf, batch))
    ensures ids == Map(IdOf, batch)
    ensures forall id :: id in ids ==> id in q
    ensures Members(ids) == IdSet(batch)
  {
  }

  // ---- what stays in flight

  lemma {:induction false} MarkedAllFrees(q: Queue, fs: seq<Failure>, now: int, id: string)
    requires id in q
    ensures id in MarkedAll(q, fs, now)
    ensures MarkedAll(q, fs, now)[id].status == InFlight <==>
              q[id].status == InFlight && forall f :: f in fs ==> f.eventId != id
  {
    if fs != [] {
      var init, last := fs[..|fs| - 1], fs[|fs| - 1];
      MarkedAllFrees(q, init, now, id);
      assert forall f :: f in fs <==> f in init || f == last;
    }
  }

  /** After a reply, whatever it says, the client leaves an event in flight exactly if the reply
      names it nowhere. */
  lemma {:induction false} UnnamedStaysInFlight(q: Queue, reply: S.Reply, now: int, id: string)
    requires id in q && q[id].status == InFlight
    ensures var after := AfterReply(q, reply, now);
            id in after && after[id].status == InFlight <==> id !in S.Answered(reply)
  {
    var left, fs := q - AckSet(reply), Map(P.RejectionFailure, reply.rejected);
    var rejected := Map(S.RejectedId, reply.rejected);
    assert id in S.Answered(reply) <==> id in AckSet(reply) || id in rejected;
    MarkedAllKeys(left, fs, now);
    if id in left {
      MarkedAllFrees(left, fs, now, id);
      if id in rejected {
        var i :| 0 <= i < |rejected| && rejected[i] == id;
        assert fs[i] in fs && fs[i].eventId == id;
      } else {
        forall f | f in fs
          ensures f.eventId != id
        {
          var i :| 0 <= i < |fs| && fs[i] == f;
          assert rejected[i] in rejected;
        }
      }
    }
  }

  lemma {:induction false} MarkedAllKeys(q: Queue, fs: seq<Failure>, now: int)
    ensures MarkedAll(q, fs, now).Keys == q.Keys
  {
    if fs != [] {
      MarkedAllKeys(q, fs[..|fs| - 1], now);
    }
  }

  /** A request that failed as a whole re-queues or fails each of its events. */
  lemma {:induction false} FailureFrees(q: Queue, ids: seq<string>, code: string, retryable: bool, now: int, id: string)
    requires id in q && id in ids
    ensures var after := MarkedAll(q, P.FailureAll(ids, code, retryable), now);
            id in after && after[id].status != InFlight
  {
    var fs := P.FailureAll(ids, code, retryable);
    var i :| 0 <= i < |ids| && ids[i] == id;
    assert fs[i] in fs && fs[i].eventId == id;
    MarkedAllFrees(q, fs, now, id);
  }

  /** The fates of a request after which an event of its batch is still in flight: a body that
      the client cannot read, and the refusal, which names no event (but the empty id). */
  predicate LeavesInFlight(t: Transport, id: string) {
    || t.Malformed?
    || (t.HttpError? && t.body == Unreadable)
    || (t.Refused? && id != "")
  }

  /** After a sync an event of its batch is still in flight in exactly those cases, whatever the
      server finds; only a restore takes it up again. */
  lemma {:induction false} StaysInFlightIff(w: World, w': World, now: int, batch: seq<Record>, later: int, t: Transport,
                                            verdicts: map<string, S.Verdict>, id: string)
    requires IsBatch(w.pending, now, batch) && id in IdSet(batch)
    requires SyncedBy(w, w', batch, later, t, verdicts)
    ensures id in w'.pending && w'.pending[id].status == InFlight <==>
              LeavesInFlight(Fate(t, Map(EnvelopeOf, batch)), id)
  {
    var q, sent, ids := Flipped(w.pending, IdSet(batch)), Map(EnvelopeOf, batch), Map(IdOf, batch);
    BatchIds(w.pending, now, batch, Map(EventId, sent));
    assert id in q && q[id].status == InFlight && id in ids;
    var reply := S.Serve(w.server, sent, verdicts).reply;
    S.EveryEventIsAnswered(w.server, sent, verdicts, id);
    FateFrees(q, ids, Fate(t, sent), reply, later, id);
  }

  lemma FateFrees(q: Queue, ids: seq<string>, t: Transport, reply: S.Reply, now: int, id: string)
    requires id in q && q[id].status == InFlight && id in ids && id in S.Answered(reply)
    ensures var after := AfterTransport(q, ids, t, reply, now);
            id in after && after[id].status == InFlight <==> LeavesInFlight(t, id)
  {
    match t
    case Delivered => UnnamedStaysInFlight(q, reply, now, id);
    case Refused =>
      assert S.Answered(S.REFUSAL) == [""];
      UnnamedStaysInFlight(q, S.REFUSAL, now, id);
    case HttpError(_, body) =>
      if body != Unreadable {
        FailureFrees(q, ids, "HTTP", body == OtherError, now, id);
      }
    case Malformed(_) =>
    case _ => FailureFrees(q, ids, "NETWORK_UNAVAILABLE", true, now, id);
  }

  class OfflineSyncClient {
    const queue: PendingEventQueue
    const server: S.EventStore

    constructor (queue: PendingEventQueue, server: S.EventStore)
      ensures this.queue == queue && this.server == server
    {
      this.queue, this.server := queue, server;
    }

    ghost function Now(): World
      reads queue, server
    {
      World(queue.pendingEvents, server.Now(), queue.acknowledgedEvents.Keys)
    }

    /** Acknowledges each id once, as the code does through a Set. */
    method AcknowledgeAll(ids: seq<string>, now: int)
      modifies queue
      ensures queue.pendingEvents == old(queue.pendingEvents) - Members(ids)
      ensures queue.acknowledgedEvents.Keys == old(queue.acknowledgedEvents).Keys + Members(ids)
    {
      for i := 0 to |ids|
        invariant queue.pendingEvents == old(queue.pendingEvents) - Members(ids[..i])
        invariant queue.acknowledgedEvents.Keys == old(queue.acknowledgedEvents).Keys + Members(ids[..i])
      {
        assert Members(ids[..i + 1]) == Members(ids[..i]) + {ids[i]};
        if ids[i] !in ids[..i] {
          queue.MarkAcknowledged(ids[i], now);
        }
      }
      assert ids[..|ids|] == ids;
    }

    /** What the client does with the body of a success. */
    method HandleReply(reply: S.Reply, now: int)
      modifies queue
      ensures queue.pendingEvents == AfterReply(old(queue.pendingEvents), reply, now)
      ensures queue.acknowledgedEvents.Keys == old(queue.acknowledgedEvents).Keys + AckSet(reply)
    {
      AcknowledgeAll(reply.accepted + reply.duplicates, now);
      queue.MarkAll(Map(P.RejectionFailure, reply.rejected), now);
    }

    /** What the client does with the outcome of a request. */
    method HandleOutcome(ids: seq<string>, t: Transport, reply: S.Reply, now: int) returns (result: SyncResult)
      modifies queue
      ensures queue.pendingEvents == AfterTransport(old(queue.pendingEvents), ids, t, reply, now)
      ensures queue.acknowledgedEvents.Keys ==
              if t.Delivered? then old(queue.acknowledgedEvents).Keys + AckSet(reply)
              else old(queue.acknowledgedEvents).Keys
      ensures result == ResultOf(t)
    {
      match t {
        case Unreached =>
          queue.MarkAll(P.FailureAll(ids, "NETWORK_UNAVAILABLE", true), now);
          result := Network;
        case ReplyLost =>
          queue.MarkAll(P.FailureAll(ids, "NETWORK_UNAVAILABLE", true), now);
          result := Network;
        case HttpError(_, body) =>
          if body == Unreadable {
            return Thrown;
          }
          queue.MarkAll(P.FailureAll(ids, "HTTP", body == OtherError), now);
          result := Http;
        case Malformed(_) =>
          result := Thrown;
        case Refused =>
          HandleReply(S.REFUSAL, now);
          result := Synced;
        case Delivered =>
          HandleReply(reply, now);
          result := Synced;
      }
    }

    /** The request, the server's part in it, and the client's answer to the outcome. */
    method Exchange(batch: seq<Envelope>, later: int, t: Transport, verdicts: map<string, S.Verdict>)
      returns (result: SyncResult)
      modifies queue, server
      ensures result == ResultOf(t)
      ensures var ids, reply := Map(EventId, batch), S.Serve(old(server.Now()), batch, verdicts).reply;
              Now() == AfterSync(old(Now()), AfterTransport(old(queue.pendingEvents), ids, t, reply, later), batch, t,
                                 verdicts)
    {
      var reply := S.Reply([], [], []);
      if Arrives(t) {
        reply := server.ProcessBatch(batch, verdicts);
      }
      result := HandleOutcome(Map(EventId, batch), t, reply, later);
    }

    /** `_syncOnce` at time `now`, its answer handled at time `later`. */
    method SyncOnce(aborted: bool, now: int, later: int, t: Transport, verdicts: map<string, S.Verdict>,
                    ghost enqueued: set<string>) returns (result: SyncResult, ghost batch: seq<Record>)
      requires Accounted(enqueued, Now())
      modifies queue, server
      ensures Accounted(enqueued, Now())
      ensures old(server.log) <= server.log
      ensures aborted ==> result == Aborted && Now() == old(Now())
      ensures !aborted ==> IsBatch(old(queue.pendingEvents), now, batch)
      ensures !aborted && batch == [] ==> result == Empty && Now() == old(Now())
      ensures !aborted && batch != [] ==>
                && result == ResultOf(Fate(t, Map(EnvelopeOf, batch)))
                && SyncedBy(old(Now()), Now(), batch, later, t, verdicts)
    {
      batch := [];
      if aborted {
        return Aborted, [];
      }
      var envelopes;
      envelopes, batch := queue.Dequeue(now);
      if |envelopes| == 0 {
        NothingFlipped(old(queue.pendingEvents));
        return Empty, batch;
      }
      var fate := Fate(t, envelopes);
      BatchIds(old(queue.pendingEvents), now, batch, Map(EventId, envelopes));
      SyncKeepsAccount(enqueued, old(Now()), envelopes, fate, verdicts, later);
      S.ServeSound(old(server.Now()), envelopes, verdicts);
      result := Exchange(envelopes, later, fate, verdicts);
    }
  }

  // ---- draining

  /** A round with an accepting server: the batch leaves the queue, logged and acknowledged. */
  ghost predicate AcceptedRound(before: World, after: World, now: int, batch: seq<Record>) {
    && IsBatch(before.pending, now, batch)
    && after.pending == before.pending - IdSet(batch)
    && after.acknowledged == before.acknowledged + IdSet(batch)
    && before.server.log <= after.server.log
    && forall id :: id in IdSet(batch) ==> id in after.server.log
  }

  lemma AcceptedQueue(q: Queue, ids: set<string>, reply: S.Reply, later: int)
    requires reply.rejected == [] && AckSet(reply) == ids
    ensures AfterReply(Flipped(q, ids), reply, later) == q - ids
  {
    assert Map(P.RejectionFailure, reply.rejected) == [];
  }

  /** A delivered sync of a batch that is in order for the server, in which no event is at fault,
      overtaken or level with another, is such a round. */
  lemma SyncIsRound(before: World, after: World, now: int, batch: seq<Record>, later: int,
                    verdicts: map<string, S.Verdict>)
    requires IsBatch(before.pending, now, batch) && SyncedBy(before, after, batch, later, Delivered, verdicts)
    requires S.InOrder(before.server, Map(EnvelopeOf, batch), verdicts)
    ensures AcceptedRound(before, after, now, batch)
  {
    var sent, ids := Map(EnvelopeOf, batch), Map(IdOf, batch);
    var r := S.Serve(before.server, sent, verdicts);
    BatchIds(before.pending, now, batch, Map(EventId, sent));
    FateOfMalformed(Delivered, sent);
    S.InOrderIsTaken(before.server, sent, verdicts);
    S.ServeSound(before.server, sent, verdicts);
    assert AckSet(r.reply) == IdSet(batch);
    AcceptedQueue(before.pending, IdSet(batch), r.reply, later);
    forall id | id in IdSet(batch)
      ensures id in after.server.log
    {
      var i :| 0 <= i < |batch| && IdOf(batch[i]) == id;
      assert sent[i] in sent;
    }
  }

  /** The events that still wait for a sync; failed and in-flight records are not among them. */
  function PendingIds(q: Queue): set<string> {
    set id | id in q && q[id].status == Pending
  }

  ghost predicate PendingReady(q: Queue, now: int) {
    forall id :: id in PendingIds(q) ==> Ready(q[id], now)
  }

  lemma {:induction false} IdSetSize(q: Queue, rs: seq<Record>)
    requires NoRepeats(rs) && forall r :: r in rs ==> IdOf(r) in q && q[IdOf(r)] == r
    ensures |IdSet(rs)| == |rs|
  {
    if rs != [] {
      var init, last := rs[..|rs| - 1], rs[|rs| - 1];
      assert rs == init + [last];
      IdSetSize(q, init);
      assert last !in init;
      assert IdSet(rs) == IdSet(init) + {IdOf(last)};
      assert IdOf(last) !in IdSet(init);
    }
  }

  /** From `w` to `w'` nothing came into the queue; the pending events that left it, or stopped
      waiting, are logged and acknowledged; records that are in flight or failed stay as they are. */
  ghost predicate Progressed(w: World, w': World) {
    && w'.pending.Keys <= w.pending.Keys && PendingIds(w'.pending) <= PendingIds(w.pending)
    && w.server.log <= w'.server.log && w.acknowledged <= w'.acknowledged
    && (forall id :: id in PendingIds(w.pending) && id !in PendingIds(w'.pending) ==> Settled(w', id))
    && (forall id :: id in w.pending && id !in PendingIds(w.pending) ==>
                       id in w'.pending && w'.pending[id] == w.pending[id])
  }

  ghost predicate Settled(w: World, id: string) {
    id !in w.pending && id in w.server.log && id in w.acknowledged
  }

  lemma ProgressedFurther(a: World, b: World, c: World)
    requires Progressed(a, b) && Progressed(b, c)
    ensures Progressed(a, c)
  {
    forall id | id in PendingIds(a.pending) && id !in PendingIds(c.pending)
      ensures Settled(c, id)
    {
      if id !in PendingIds(b.pending) {
        assert Settled(b, id);
      }
    }
  }

  lemma RoundProgresses(before: World, after: World, now: int, batch: seq<Record>)
    requires AcceptedRound(before, after, now, batch) && Keyed(before.pending)
    ensures IdSet(batch) <= PendingIds(before.pending)
    ensures PendingIds(after.pending) == PendingIds(before.pending) - IdSet(batch)
    ensures Progressed(before, after)
  {
  }

  /** With every pending record ready, one round removes a hundred of them, or all. */
  lemma RoundShrinks(before: World, after: World, t0: int, now: int, batch: seq<Record>)
    requires PendingReady(before.pending, t0) && t0 <= now && Keyed(before.pending)
    requires AcceptedRound(before, after, now, batch)
    ensures |PendingIds(after.pending)| == Remaining(|PendingIds(before.pending)|, 1)
    ensures PendingReady(after.pending, t0) && Keyed(after.pending) && Progressed(before, after)
  {
    var q := before.pending;
    IdSetSize(q, batch);
    RoundProgresses(before, after, now, batch);
    if |batch| < BATCH_LIMIT {
      forall id | id in PendingIds(q)
        ensures id in IdSet(batch)
      {
        assert Ready(q[id], now) && q[id] in batch;
      }
      assert PendingIds(q) == IdSet(batch);
    }
  }

  function Remaining(n: nat, k: nat): nat {
    if n <= BATCH_LIMIT * k then 0 else n - BATCH_LIMIT * k
  }

  /** Against an accepting server, with the clock past every retry time, a queue with n pending
      events has max(0, n - 100k) of them left after k syncs, so none after exactly ceil(n / 100);
      what left it is logged and acknowledged, and records that are in flight or failed stay as
      they are. */
  lemma {:induction false} DrainsInRounds(ws: seq<World>, nows: seq<int>, batches: seq<seq<Record>>, t0: int, k: nat)
    requires |ws| == |nows| + 1 == |batches| + 1 && k < |ws|
    requires PendingReady(ws[0].pending, t0) && Keyed(ws[0].pending)
    requires forall i :: 0 <= i < |nows| ==> t0 <= nows[i] && AcceptedRound(ws[i], ws[i + 1], nows[i], batches[i])
    ensures |PendingIds(ws[k].pending)| == Remaining(|PendingIds(ws[0].pending)|, k)
    ensures PendingIds(ws[k].pending) == {} <==> |PendingIds(ws[0].pending)| <= BATCH_LIMIT * k
    ensures PendingReady(ws[k].pending, t0) && Keyed(ws[k].pending) && Progressed(ws[0], ws[k])
  {
    if k > 0 {
      DrainsInRounds(ws, nows, batches, t0, k - 1);
      var w, w' := ws[k - 1], ws[k];
      assert AcceptedRound(w, ws[k - 1 + 1], nows[k - 1], batches[k - 1]);
      RoundShrinks(w, w', t0, nows[k - 1], batches[k - 1]);
      ProgressedFurther(ws[0], w, w');
    }
    assert |PendingIds(ws[k].pending)| == 0 <==> PendingIds(ws[k].pending) == {};
  }
}

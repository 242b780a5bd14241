/** Whole runs of the offline client: every sequence of enqueues, reloads and syncs, whatever happens
    to the requests, is a run of the protocol; and exactly when some such sequence can still deliver
    all that was not refused for good. */
module SyncDelivery {
  import opened Common
  import opened Ordering
  import opened OfflineQueue
  import opened OfflineSync
  import opened SyncProtocol
  import opened SyncRefinement

  /** One call on the client: a fresh event, the restore of a page load, or a sync. */
  datatype Call =
    | Add(envelope: Envelope, now: int)
    | Reload(now: int)
    | Sync(now: int, later: int, batch: seq<Record>, transport: Transport, verdicts: map<string, S.Verdict>)

  ghost predicate Takes(w: World, call: Call, w': World) {
    match call
    case Add(envelope, now) =>
      w' == w.(pending := w.pending[envelope.eventId := Record(envelope, Pending, 0, now, None)])
    case Reload(now) => w' == w.(pending := Restored(w.pending, now))
    case Sync(now, later, batch, transport, verdicts) =>
      && IsBatch(w.pending, now, batch)
      && if batch == [] then w' == w else SyncedBy(w, w', batch, later, transport, verdicts)
  }

  /** The calls lead from each of these worlds to the next. */
  ghost predicate ClientRun(ws: seq<World>, calls: seq<Call>) {
    |ws| == |calls| + 1 && forall i :: 0 <= i < |calls| ==> Takes(ws[i], calls[i], ws[i + 1])
  }

  /** What has been enqueued after the calls. */
  function EnqueuedBy(known: map<string, Envelope>, calls: seq<Call>): map<string, Envelope> {
    if calls == [] then known
    else
      var before, call := EnqueuedBy(known, calls[..|calls| - 1]), calls[|calls| - 1];
      if call.Add? then before[call.envelope.eventId := call.envelope] else before
  }

  /** Every event is enqueued under an id of its own. */
  ghost predicate Fresh(known: map<string, Envelope>, calls: seq<Call>) {
    if calls == [] then true
    else
      var before, call := calls[..|calls| - 1], calls[|calls| - 1];
      Fresh(known, before) && (call.Add? ==> call.envelope.eventId !in EnqueuedBy(known, before))
  }

  // ---- runs of the client are runs of the protocol

  lemma {:induction false} RunConcat(s: State, es: seq<Event>, fs: seq<Event>)
    requires IsRun(s, es) && IsRun(After(s, es), fs)
    ensures IsRun(s, es + fs) && After(s, es + fs) == After(After(s, es), fs)
    decreases |es|
  {
    if es == [] {
      assert es + fs == fs;
    } else {
      RunConcat(Apply(s, es[0]), es[1..], fs);
      assert (es + fs)[0] == es[0] && (es + fs)[1..] == es[1..] + fs;
    }
  }

  lemma ReachesAcross(s: State, t: State, u: State)
    requires Reaches(s, t) && Reaches(t, u)
    ensures Reaches(s, u)
  {
    var es :| IsRun(s, es) && After(s, es) == t;
    var fs :| IsRun(t, fs) && After(t, fs) == u;
    RunConcat(s, es, fs);
  }

  lemma TakesKeyed(w: World, call: Call, w': World)
    requires Keyed(w.pending) && Takes(w, call, w')
    ensures Keyed(w'.pending)
  {
    match call
    case Sync(now, later, batch, transport, verdicts) =>
      if batch != [] {
        var sent := Map(EnvelopeOf, batch);
        WritesKeepRecords(w.pending, IdSet(batch), Failure("", "", true), now);
        AfterTransportKeys(Flipped(w.pending, IdSet(batch)), Map(IdOf, batch), Fate(transport, sent),
                           S.Serve(w.server, sent, verdicts).reply, later);
      }
    case Reload(now) => WritesKeepRecords(w.pending, {}, Failure("", "", true), now);
    case Add(_, _) =>
  }

  lemma CallIsProtocolRun(s: State, w: World, call: Call, w': World) returns (s': State)
    requires View(s, w) && Keyed(w.pending) && Takes(w, call, w')
    requires call.Add? ==> call.envelope.eventId !in s.enqueued
    ensures Reaches(s, s') && View(s', w') && s'.ops <= s.ops
    ensures s'.enqueued == if call.Add? then s.enqueued[call.envelope.eventId := call.envelope] else s.enqueued
  {
    match call
    case Add(envelope, now) =>
      s' := EnqueueIsProtocolRun(s, w, envelope, now);
    case Reload(now) =>
      s' := RestoreIsProtocolRun(s, w, now);
    case Sync(now, later, batch, transport, verdicts) =>
      if batch == [] {
        ReachesItself(s);
        s' := s;
      } else {
        s' := SyncIsProtocolRun(s, w, w', now, later, batch, transport, verdicts);
      }
  }

  /** Any sequence of calls, with any fates of their requests, is a run of the protocol that ends
      with none of its operations outstanding. */
  lemma {:induction false} ClientRunIsProtocolRun(s: State, ws: seq<World>, calls: seq<Call>) returns (s': State)
    requires ClientRun(ws, calls) && Fresh(s.enqueued, calls) && View(s, ws[0]) && Keyed(ws[0].pending)
    ensures Reaches(s, s') && View(s', ws[|calls|]) && Keyed(ws[|calls|].pending) && s'.ops <= s.ops
    ensures s'.enqueued == EnqueuedBy(s.enqueued, calls)
    decreases |calls|
  {
    if calls == [] {
      ReachesItself(s);
      s' := s;
    } else {
      var n := |calls| - 1;
      var t := ClientRunIsProtocolRun(s, ws[..n + 1], calls[..n]);
      assert Takes(ws[n], calls[n], ws[n + 1]);
      s' := CallIsProtocolRun(t, ws[n], calls[n], ws[n + 1]);
      TakesKeyed(ws[n], calls[n], ws[n + 1]);
      ReachesAcross(s, t, s');
    }
  }

  // ---- a run that delivers everything

  /** The events of the queue that were not refused for good. */
  function LiveIds(q: Queue): set<string> {
    set id | id in q && q[id].status != Failed
  }

  /** These events have positive, different sequences and each is logged or not yet overtaken. */
  ghost predicate Ordered(w: World, ids: set<string>) {
    && ids <= w.pending.Keys && w.server.last >= 0
    && (forall id :: id in ids ==> Upcoming(w, id))
    && (forall a, b :: a in ids && b in ids && a != b ==> SequenceAt(w.pending, a) != SequenceAt(w.pending, b))
  }

  function SequenceAt(q: Queue, id: string): int {
    if id in q then S.SequenceOf(q[id].envelope) else 0
  }

  predicate Upcoming(w: World, id: string) {
    SequenceAt(w.pending, id) >= 1 && (id in w.server.log || SequenceAt(w.pending, id) > w.server.last)
  }

  /** The network delivers the request and the answer, and the server finds no other fault: nothing
      malformed, no missing dependency, no rule of the domain broken. */
  predicate Delivers(call: Call) {
    call.Sync? && call.transport == Delivered && call.verdicts == map[]
  }

  lemma {:induction false} BatchInOrder(w: World, now: int, batch: seq<Record>)
    requires Keyed(w.pending) && IsBatch(w.pending, now, batch) && Ordered(w, PendingIds(w.pending))
    ensures S.InOrder(w.server, Map(EnvelopeOf, batch), map[])
  {
    var sent := Map(EnvelopeOf, batch);
    DistinctIds(w.pending, now, batch);
    assert Map(EventId, sent) == Map(IdOf, batch);
    forall e | e in sent
      ensures S.SequenceOf(e) >= 1 && (e.eventId in w.server.log || S.SequenceOf(e) > w.server.last)
    {
      var i :| 0 <= i < |batch| && sent[i] == e;
      assert batch[i] in batch && Upcoming(w, IdOf(batch[i]));
    }
    var sequences := Map(S.SequenceOf, sent);
    forall i, j | 0 <= i < j < |sequences|
      ensures sequences[i] != sequences[j]
    {
      assert batch[i] in batch && batch[j] in batch;
      assert Map(IdOf, batch)[i] != Map(IdOf, batch)[j];
      assert sequences[i] == SequenceAt(w.pending, IdOf(batch[i]));
      assert sequences[j] == SequenceAt(w.pending, IdOf(batch[j]));
    }
  }

  /** What a round leaves behind comes after it. */
  lemma {:induction false} RestComesAfter(w: World, now: int, batch: seq<Record>, id: string)
    requires Keyed(w.pending) && IsBatch(w.pending, now, batch) && Ordered(w, PendingIds(w.pending))
    requires id in PendingIds(w.pending) && Ready(w.pending[id], now) && id !in IdSet(batch)
    ensures forall e :: e in Map(EnvelopeOf, batch) ==> S.SequenceOf(e) < SequenceAt(w.pending, id)
  {
    var r, sent := w.pending[id], Map(EnvelopeOf, batch);
    assert r !in batch;
    forall e | e in sent
      ensures S.SequenceOf(e) < SequenceAt(w.pending, id)
    {
      var i :| 0 <= i < |batch| && sent[i] == e;
      assert batch[i] in batch && Before(batch[i], r);
      assert Upcoming(w, id) && Upcoming(w, IdOf(batch[i]));
      assert IdOf(batch[i]) in IdSet(batch);
    }
  }

  lemma FirstBatch(q: Queue, now: int) returns (batch: seq<Record>)
    requires Keyed(q) && PendingReady(q, now) && PendingIds(q) != {}
    ensures IsBatch(q, now, batch) && batch != []
  {
    var rs := ListThem(q, set id | id in q && Ready(q[id], now));
    PrefixIsBatch(q, now, rs);
    batch := Sort(Before, rs)[..Least(|rs|)];
    var some :| some in PendingIds(q);
    assert q[some] in rs;
  }

  /** What a delivered sync of this batch leaves. */
  function Delivering(w: World, now: int, batch: seq<Record>): World {
    var sent := Map(EnvelopeOf, batch);
    var reply := S.Serve(w.server, sent, map[]).reply;
    AfterSync(w, AfterTransport(Flipped(w.pending, IdSet(batch)), Map(IdOf, batch), Delivered, reply, now), sent,
              Delivered, map[])
  }

  lemma DeliveringIsSync(w: World, now: int, batch: seq<Record>)
    requires S.WellFormed(Map(EnvelopeOf, batch))
    ensures SyncedBy(w, Delivering(w, now, batch), batch, now, Delivered, map[])
    ensures Delivering(w, now, batch).server == S.Serve(w.server, Map(EnvelopeOf, batch), map[]).server
  {
    FateOfMalformed(Delivered, Map(EnvelopeOf, batch));
  }

  /** The sync that delivers the batch of `w` at time `now`. */
  lemma OneRound(w: World, now: int) returns (call: Call, w': World)
    requires Keyed(w.pending) && PendingReady(w.pending, now) && PendingIds(w.pending) != {}
    requires Ordered(w, PendingIds(w.pending))
    ensures Delivers(call) && Takes(w, call, w') && AcceptedRound(w, w', now, call.batch) && call.batch != []
    ensures w'.server == S.Serve(w.server, Map(EnvelopeOf, call.batch), map[]).server
  {
    var batch := FirstBatch(w.pending, now);
    BatchInOrder(w, now, batch);
    DeliveringIsSync(w, now, batch);
    call, w' := Sync(now, now, batch, Delivered, map[]), Delivering(w, now, batch);
    SyncIsRound(w, w', now, batch, now, map[]);
  }

  /** A round keeps the rest in order. */
  lemma {:induction false} RoundKeepsOrder(w: World, w': World, now: int, batch: seq<Record>)
    requires Keyed(w.pending) && PendingReady(w.pending, now) && Ordered(w, PendingIds(w.pending))
    requires AcceptedRound(w, w', now, batch)
    requires w'.server == S.Serve(w.server, Map(EnvelopeOf, batch), map[]).server
    ensures Ordered(w', PendingIds(w'.pending))
  {
    var sent := Map(EnvelopeOf, batch);
    RoundProgresses(w, w', now, batch);
    S.ServeAdvances(w.server, sent, map[]);
    forall id | id in PendingIds(w'.pending)
      ensures Upcoming(w', id) && SequenceAt(w'.pending, id) == SequenceAt(w.pending, id)
    {
      assert Upcoming(w, id);
      RestComesAfter(w, now, batch, id);
    }
  }

  /** Ceil(n / 100). */
  function Rounds(n: nat): nat {
    (n + BATCH_LIMIT - 1) / BATCH_LIMIT
  }

  lemma Prepend(w: World, call: Call, ws: seq<World>, calls: seq<Call>)
    requires ClientRun(ws, calls) && Takes(w, call, ws[0])
    ensures ClientRun([w] + ws, [call] + calls)
  {
    var ws', calls' := [w] + ws, [call] + calls;
    forall i | 0 <= i < |calls'|
      ensures Takes(ws'[i], calls'[i], ws'[i + 1])
    {
      if i > 0 {
        assert Takes(ws[i - 1], calls[i - 1], ws[i - 1 + 1]);
      }
    }
  }

  /** With all pending records ready and in order, syncs that are delivered and meet no other fault
      empty the queue of them. */
  lemma {:induction false} Drain(w: World, now: int) returns (ws: seq<World>, calls: seq<Call>)
    requires Keyed(w.pending) && PendingReady(w.pending, now) && Ordered(w, PendingIds(w.pending))
    ensures ClientRun(ws, calls) && ws[0] == w && forall call :: call in calls ==> Delivers(call)
    ensures |calls| == Rounds(|PendingIds(w.pending)|)
    ensures Progressed(w, ws[|calls|]) && PendingIds(ws[|calls|].pending) == {}
    decreases |PendingIds(w.pending)|
  {
    if PendingIds(w.pending) == {} {
      ws, calls := [w], [];
    } else {
      var call, w' := OneRound(w, now);
      RoundShrinks(w, w', now, now, call.batch);
      RoundKeepsOrder(w, w', now, call.batch);
      assert |PendingIds(w.pending)| > 0;
      var ws', calls' := Drain(w', now);
      Prepend(w, call, ws', calls');
      ProgressedFurther(w, w', ws'[|calls'|]);
      ws, calls := [w] + ws', [call] + calls';
    }
  }

  /** A time by which these records may be retried. */
  lemma {:induction false} RetryTime(q: Queue, ids: set<string>) returns (now: int)
    requires forall id :: id in ids ==> id in q
    ensures forall id :: id in ids ==> q[id].nextRetryAt <= now
    decreases |ids|
  {
    if ids == {} {
      now := 0;
    } else {
      var id :| id in ids;
      now := RetryTime(q, ids - {id});
      if now < q[id].nextRetryAt {
        now := q[id].nextRetryAt;
      }
    }
  }

  /** Every live event has left the queue, logged and acknowledged, and the others are as they were. */
  ghost predicate DrainedTo(w: World, last: World) {
    && (forall id :: id in LiveIds(w.pending) ==> Settled(last, id))
    && (forall id :: id in w.pending && id !in LiveIds(w.pending) ==>
                       id in last.pending && last.pending[id] == w.pending[id])
  }

  lemma ReloadedAndDrained(w: World, w': World, last: World)
    requires w' == w.(pending := Restored(w.pending, 0))
    requires Progressed(w', last) && PendingIds(last.pending) == {}
    ensures DrainedTo(w, last)
  {
    assert PendingIds(w'.pending) == LiveIds(w.pending);
  }

  /** A reload and then ceil(n / 100) such syncs take every event that was not refused for good out
      of the queue; what was refused stays. */
  lemma ReloadAndDrain(w: World) returns (ws: seq<World>, calls: seq<Call>)
    requires Keyed(w.pending) && Ordered(w, LiveIds(w.pending))
    ensures ClientRun(ws, calls) && ws[0] == w && DrainedTo(w, ws[|calls|])
    ensures |calls| > 0 && calls[0].Reload? && forall i :: 1 <= i < |calls| ==> Delivers(calls[i])
    ensures |calls| == 1 + Rounds(|LiveIds(w.pending)|)
  {
    var w', now := ReloadNow(w);
    var ws', calls' := Drain(w', now);
    Prepend(w, Reload(0), ws', calls');
    ReloadedAndDrained(w, w', ws'[|calls'|]);
    ws, calls := [w] + ws', [Reload(0)] + calls';
  }

  lemma ReloadNow(w: World) returns (w': World, now: int)
    requires Keyed(w.pending) && Ordered(w, LiveIds(w.pending))
    ensures w' == w.(pending := Restored(w.pending, 0)) && Keyed(w'.pending)
    ensures PendingIds(w'.pending) == LiveIds(w.pending)
    ensures PendingReady(w'.pending, now) && Ordered(w', PendingIds(w'.pending))
  {
    w' := w.(pending := Restored(w.pending, 0));
    WritesKeepRecords(w.pending, {}, Failure("", "", true), 0);
    assert PendingIds(w'.pending) == LiveIds(w.pending);
    ReloadKeepsOrder(w, w');
    now := RetryTime(w'.pending, PendingIds(w'.pending));
  }

  lemma ReloadKeepsOrder(w: World, w': World)
    requires Ordered(w, LiveIds(w.pending)) && w' == w.(pending := Restored(w.pending, 0))
    ensures Ordered(w', LiveIds(w.pending))
  {
    forall id | id in LiveIds(w.pending)
      ensures Upcoming(w', id) && SequenceAt(w'.pending, id) == SequenceAt(w.pending, id)
    {
      assert Upcoming(w, id);
    }
  }

  // ---- exactly when everything can still be delivered

  /** The live events that are not logged have different sequences above the last accepted one. */
  ghost predicate Deliverable(s: State) {
    && (forall id :: id in LiveIds(s.pending) && id !in s.server.log ==>
                       SequenceAt(s.pending, id) > s.server.last)
    && (forall a, b :: a in LiveIds(s.pending) && b in LiveIds(s.pending) && a != b
                       && a !in s.server.log && b !in s.server.log ==>
                         SequenceAt(s.pending, a) != SequenceAt(s.pending, b))
  }

  lemma {:induction false} LoggedDiffer(s: State, a: Id, b: Id)
    requires Inv(s) && a in s.server.log && b in s.server.log && a != b
    ensures a in s.enqueued && b in s.enqueued && S.SequenceOf(s.enqueued[a]) != S.SequenceOf(s.enqueued[b])
  {
    var i :| 0 <= i < |s.server.log| && s.server.log[i] == a;
    var j :| 0 <= j < |s.server.log| && s.server.log[j] == b;
  }

  lemma {:induction false} LiveIsOrdered(s: State)
    requires Inv(s) && Deliverable(s)
    ensures Ordered(World(s.pending, s.server, s.acknowledged), LiveIds(s.pending))
  {
    forall a, b | a in LiveIds(s.pending) && b in LiveIds(s.pending) && a != b
      ensures SequenceAt(s.pending, a) != SequenceAt(s.pending, b)
    {
      assert S.Knows(s.enqueued, s.pending[a].envelope) && S.Knows(s.enqueued, s.pending[b].envelope);
      if a in s.server.log && b in s.server.log {
        LoggedDiffer(s, a, b);
      }
    }
  }

  /** All that was not refused for good in `s` is out of the queue, logged and acknowledged in `t`. */
  ghost predicate AllSettled(s: State, t: State) {
    forall id :: id in LiveIds(s.pending) ==> id !in t.pending && id in t.server.log && id in t.acknowledged
  }

  /** From every reachable state with a deliverable queue, a crash that loses all outstanding
      operations, a reload and ceil(n / 100) delivered syncs without another fault are a run of the
      protocol that settles every live event and leaves no operation outstanding. */
  lemma {:induction false} CanStillBeDelivered(s: State) returns (t: State, ws: seq<World>, calls: seq<Call>)
    requires Inv(s) && Deliverable(s)
    ensures ClientRun(ws, calls) && View(s, ws[0]) && View(t, ws[|calls|])
    ensures |calls| > 0 && calls[0].Reload? && forall i :: 1 <= i < |calls| ==> Delivers(calls[i])
    ensures |calls| == 1 + Rounds(|LiveIds(s.pending)|)
    ensures Reaches(s, t) && Reaches(Apply(s, Crash(s.ops)), t) && t.ops == {}
    ensures AllSettled(s, t)
    ensures forall id :: id in s.pending && id !in LiveIds(s.pending) ==>
                           id in t.pending && t.pending[id] == s.pending[id]
  {
    var crashed, w := Apply(s, Crash(s.ops)), World(s.pending, s.server, s.acknowledged);
    LiveIsOrdered(s);
    ws, calls := ReloadAndDrain(w);
    NothingAdded(crashed.enqueued, calls);
    t := ClientRunIsProtocolRun(crashed, ws, calls);
    ReachesItself(s);
    ReachesNext(s, s, Crash(s.ops));
    ReachesAcross(s, crashed, t);
    forall id | id in LiveIds(s.pending)
      ensures id !in t.pending && id in t.server.log && id in t.acknowledged
    {
      assert Settled(ws[|calls|], id);
    }
  }

  lemma {:induction false} NothingAdded(known: map<string, Envelope>, calls: seq<Call>)
    requires forall call :: call in calls ==> !call.Add?
    ensures Fresh(known, calls) && EnqueuedBy(known, calls) == known
  {
    if calls != [] {
      assert calls[|calls| - 1] in calls;
      NothingAdded(known, calls[..|calls| - 1]);
    }
  }

  /** Some run settles every live event exactly if those that are not logged have different
      sequences above the last accepted one. */
  lemma {:induction false} DeliverableIff(s: State)
    requires Inv(s)
    ensures (exists t :: Reaches(s, t) && AllSettled(s, t)) <==> Deliverable(s)
  {
    if Deliverable(s) {
      var t, ws, calls := CanStillBeDelivered(s);
      assert Reaches(s, t) && AllSettled(s, t);
    }
    if t :| Reaches(s, t) && AllSettled(s, t) {
      SettledWereDeliverable(s, t);
    }
  }

  lemma SettledWereDeliverable(s: State, t: State)
    requires Inv(s) && Reaches(s, t) && AllSettled(s, t)
    ensures Deliverable(s)
  {
    ReachesKeepsInv(s, t);
    forall id | id in LiveIds(s.pending)
      ensures id in t.server.log && SequenceAt(s.pending, id) == S.SequenceOf(t.enqueued[id])
    {
      assert S.Knows(s.enqueued, s.pending[id].envelope);
    }
    forall a, b | a in LiveIds(s.pending) && b in LiveIds(s.pending) && a != b
      ensures SequenceAt(s.pending, a) != SequenceAt(s.pending, b)
    {
      LoggedDiffer(t, a, b);
    }
  }

  // ---- an event that is overtaken is lost

  lemma {:induction false} MarkedAllFails(q: Queue, fs: seq<Failure>, now: int, id: string)
    requires id in q && forall f :: f in fs && f.eventId == id ==> !f.retryable
    ensures id in MarkedAll(q, fs, now)
    ensures (exists f :: f in fs && f.eventId == id) ==> MarkedAll(q, fs, now)[id].status == Failed
    ensures !(exists f :: f in fs && f.eventId == id) ==> MarkedAll(q, fs, now)[id] == q[id]
  {
    if fs != [] {
      var init, last := fs[..|fs| - 1], fs[|fs| - 1];
      assert fs == init + [last];
      MarkedAllFails(q, init, now, id);
    }
  }

  /** A reply that only ever refuses the event, and for good, fails its record. */
  lemma {:induction false} RefusedFails(q: Queue, reply: S.Reply, now: int, id: string)
    requires id in q && id !in AckSet(reply) && S.Rejection(id, false) in reply.rejected
    requires forall x :: x in reply.rejected && x.eventId == id ==> !x.retryable
    ensures id in AfterReply(q, reply, now) && AfterReply(q, reply, now)[id].status == Failed
  {
    var fs := Map(RejectionFailure, reply.rejected);
    var j :| 0 <= j < |reply.rejected| && reply.rejected[j] == S.Rejection(id, false);
    assert fs[j] in fs && fs[j].eventId == id;
    forall f | f in fs && f.eventId == id
      ensures !f.retryable
    {
      var k :| 0 <= k < |fs| && fs[k] == f;
      assert reply.rejected[k] in reply.rejected;
    }
    MarkedAllFails(q - AckSet(reply), fs, now, id);
  }

  /** The next delivered sync that carries an overtaken event marks it failed, for good. */
  lemma {:induction false} OvertakenFails(w: World, w': World, now: int, batch: seq<Record>, later: int,
                                          verdicts: map<string, S.Verdict>, r: Record)
    requires IsBatch(w.pending, now, batch) && SyncedBy(w, w', batch, later, Delivered, verdicts)
    requires S.WellFormed(Map(EnvelopeOf, batch)) && w.server.last >= 0
    requires r in batch && S.Overtaken(w.server, r.envelope)
    ensures IdOf(r) in w'.pending && w'.pending[IdOf(r)].status == Failed
  {
    var sent := Map(EnvelopeOf, batch);
    var i :| 0 <= i < |batch| && batch[i] == r;
    assert sent[i] in sent;
    FateOfMalformed(Delivered, sent);
    OnlyOneRecord(w.pending, now, batch, r);
    S.OvertakenIsRefused(w.server, sent, verdicts, r.envelope);
    S.ServeSound(w.server, sent, verdicts);
    RefusedFails(Flipped(w.pending, IdSet(batch)), S.Serve(w.server, sent, verdicts).reply, later, IdOf(r));
  }

  lemma OnlyOneRecord(q: Queue, now: int, batch: seq<Record>, r: Record)
    requires IsBatch(q, now, batch) && r in batch
    ensures S.OnlyEvent(Map(EnvelopeOf, batch), r.envelope)
  {
    var sent := Map(EnvelopeOf, batch);
    forall f | f in sent && f.eventId == r.envelope.eventId
      ensures f == r.envelope
    {
      var i :| 0 <= i < |sent| && sent[i] == f;
      assert batch[i] in batch;
    }
  }

  lemma LoneBatch(q: Queue, now: int, r: Record)
    requires IdOf(r) in q && q[IdOf(r)] == r && Ready(r, now)
    requires forall id :: id in q && id != IdOf(r) ==> !Ready(q[id], now)
    ensures IsBatch(q, now, [r]) && IdSet([r]) == {IdOf(r)}
  {
  }

  lemma LoneServe(server: S.Server, e: Envelope)
    requires e.eventId !in server.log && S.SequenceOf(e) > server.last >= 0
    ensures S.Serve(server, [e], map[])
         == S.Served(S.Server(server.log + [e.eventId], S.SequenceOf(e)), S.Reply([e.eventId], [], []))
  {
    assert Sort(S.SequenceLeq, [e]) == [e];
    assert [e][..0] == [];
    assert S.Process(server, [], map[]) == S.Outcome(server.log, 0, S.Reply([], [], []));
  }

  /** An event is enqueued and its request fails, so it waits for the retry. */
  lemma FirstWaits(e: Envelope) returns (ws: seq<World>, calls: seq<Call>)
    ensures ClientRun(ws, calls) && Fresh(map[], calls) && EnqueuedBy(map[], calls) == map[e.eventId := e]
    ensures ws[0] == World(map[], S.EMPTY, {})
    ensures ws[|calls|] == World(map[e.eventId := Record(e, Pending, 1, 5000, None)], S.EMPTY, {})
  {
    var w0, r := World(map[], S.EMPTY, {}), Record(e, Pending, 0, 0, None);
    var w1 := w0.(pending := map[e.eventId := r]);
    var w2 := w0.(pending := map[e.eventId := Record(e, Pending, 1, 5000, None)]);
    FirstFails(w1, w2, e);
    ws, calls := [w0], [];
    ws, calls := Next(ws, calls, map[], Add(e, 0), w1);
    ws, calls := Next(ws, calls, map[], Sync(0, 0, [r], Unreached, map[]), w2);
  }

  /** Meanwhile another one is enqueued and accepted. */
  lemma Overtaking(e: Envelope, f: Envelope) returns (ws: seq<World>, calls: seq<Call>)
    requires e.eventId != f.eventId && 1 <= S.SequenceOf(e) < S.SequenceOf(f)
    ensures ClientRun(ws, calls) && Fresh(map[], calls) && ws[0] == World(map[], S.EMPTY, {})
    ensures ws[|calls|].server == S.Server([f.eventId], S.SequenceOf(f))
    ensures ws[|calls|].pending == map[e.eventId := Record(e, Pending, 1, 5000, None)]
  {
    var r, g := Record(e, Pending, 1, 5000, None), Record(f, Pending, 0, 1, None);
    var w := World(map[e.eventId := r, f.eventId := g], S.EMPTY, {});
    var w' := World(map[e.eventId := r], S.Server([f.eventId], S.SequenceOf(f)), {f.eventId});
    SecondArrives(w, w', r, f);
    ws, calls := FirstWaits(e);
    ws, calls := Next(ws, calls, map[], Add(f, 1), w);
    ws, calls := Next(ws, calls, map[], Sync(1, 1, [g], Delivered, map[]), w');
  }

  /** A run goes on by one call. */
  lemma Next(ws: seq<World>, calls: seq<Call>, known: map<string, Envelope>, call: Call, w: World)
    returns (ws': seq<World>, calls': seq<Call>)
    requires ClientRun(ws, calls) && Fresh(known, calls) && Takes(ws[|calls|], call, w)
    requires call.Add? ==> call.envelope.eventId !in EnqueuedBy(known, calls)
    ensures ws' == ws + [w] && calls' == calls + [call]
    ensures ClientRun(ws', calls') && Fresh(known, calls')
    ensures EnqueuedBy(known, calls')
         == if call.Add? then EnqueuedBy(known, calls)[call.envelope.eventId := call.envelope]
            else EnqueuedBy(known, calls)
  {
    ws', calls' := ws + [w], calls + [call];
    assert calls'[..|calls|] == calls;
    forall i | 0 <= i < |calls'|
      ensures Takes(ws'[i], calls'[i], ws'[i + 1])
    {
      if i < |calls| {
        assert Takes(ws[i], calls[i], ws[i + 1]);
      }
    }
  }

  lemma FirstFails(w: World, w': World, e: Envelope)
    requires w.pending == map[e.eventId := Record(e, Pending, 0, 0, None)]
    requires w' == w.(pending := map[e.eventId := Record(e, Pending, 1, 5000, None)])
    ensures Takes(w, Sync(0, 0, [Record(e, Pending, 0, 0, None)], Unreached, map[]), w')
  {
    var r := Record(e, Pending, 0, 0, None);
    LoneBatch(w.pending, 0, r);
    var q, fs := Flipped(w.pending, {e.eventId}), FailureAll([e.eventId], "NETWORK_UNAVAILABLE", true);
    assert fs == [Failure(e.eventId, "NETWORK_UNAVAILABLE", true)] && fs[..0] == [];
    assert q == map[e.eventId := r.(status := InFlight)];
    assert MarkedAll(q, fs, 0) == Marked(MarkedAll(q, fs[..0], 0), fs[0], 0) == w'.pending;
    assert Map(EnvelopeOf, [r]) == [e] && Map(IdOf, [r]) == [e.eventId];
  }

  lemma SecondArrives(w: World, w': World, r: Record, f: Envelope)
    requires IdOf(r) != f.eventId && r.nextRetryAt > 1 && S.SequenceOf(f) >= 1
    requires w == World(map[IdOf(r) := r, f.eventId := Record(f, Pending, 0, 1, None)], S.EMPTY, {})
    requires w' == World(map[IdOf(r) := r], S.Server([f.eventId], S.SequenceOf(f)), {f.eventId})
    ensures Takes(w, Sync(1, 1, [Record(f, Pending, 0, 1, None)], Delivered, map[]), w')
  {
    var g := Record(f, Pending, 0, 1, None);
    LoneBatch(w.pending, 1, g);
    LoneServe(S.EMPTY, f);
    assert Map(EnvelopeOf, [g]) == [f] && Map(IdOf, [g]) == [f.eventId];
    FateOfMalformed(Delivered, [f]);
    var reply := S.Reply([f.eventId], [], []);
    assert AckSet(reply) == {f.eventId};
    AcceptedQueue(w.pending, {f.eventId}, reply, 1);
    assert w.pending - {f.eventId} == w'.pending;
  }

  /** The system can reach a state in which an event waits in the queue, never refused, that no
      continuation logs: two events are enough, and one request that fails. */
  lemma {:induction false} OvertakingRun(e: Envelope, f: Envelope) returns (t: State)
    requires e.eventId != f.eventId && 1 <= S.SequenceOf(e) < S.SequenceOf(f)
    ensures Reaches(START, t) && Inv(t)
    ensures e.eventId in t.pending && t.pending[e.eventId].status == Pending && S.Overtaken(t.server, e)
    ensures !Deliverable(t)
    ensures forall u :: Reaches(t, u) ==> e.eventId !in u.server.log
  {
    var ws, calls := Overtaking(e, f);
    t := ClientRunIsProtocolRun(START, ws, calls);
    ReachesKeepsInv(START, t);
    assert S.Knows(t.enqueued, t.pending[e.eventId].envelope);
    assert e.eventId in LiveIds(t.pending) && SequenceAt(t.pending, e.eventId) == S.SequenceOf(e);
    forall u | Reaches(t, u)
      ensures e.eventId !in u.server.log
    {
      OvertakenForever(t, u, e.eventId);
      ReachesKeepsInv(t, u);
    }
  }
}

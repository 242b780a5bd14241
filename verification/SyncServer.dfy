/** The idempotent event log of app/infrastructure/event_store.py and the verdict loop of
    app/sync/service.py that stands on it, with the device sequence that the loop insists on. */
module SyncServer {
  import opened Common
  import opened Ordering

  type Id = string

  /** What the server finds in an event besides its id and its sequence: `Malformed` is found before
      the duplicate check; `Refused`, a missing dependency or a rule of the domain, after the
      sequence checks. */
  datatype Verdict = Fine | Malformed | Refused(retryable: bool)

  datatype Rejection = Rejection(eventId: Id, retryable: bool)

  datatype Reply = Reply(accepted: seq<Id>, duplicates: seq<Id>, rejected: seq<Rejection>)

  /** The answer to a whole batch that is not looked at: one rejection without an event id. */
  const REFUSAL := Reply([], [], [Rejection("", false)])

  /** The rows of learning_events in insertion order, and devices.last_device_sequence. */
  datatype Server = Server(log: seq<Id>, last: int)

  const EMPTY := Server([], 0)

  function RejectedId(r: Rejection): Id {
    r.eventId
  }

  /** The ids that a reply names, in any of its three lists. */
  function Answered(r: Reply): seq<Id> {
    r.accepted + r.duplicates + Map(RejectedId, r.rejected)
  }

  function SequenceOf(e: Envelope): int {
    if e.deviceSequence.Some? then e.deviceSequence.value else 0
  }

  /** The schema of a request: every event has a sequence, from 1 on. */
  predicate WellFormed(batch: seq<Envelope>) {
    forall e :: e in batch ==> SequenceOf(e) >= 1
  }

  /** The order of `ordered_events`: the tuple of sequence and event id. */
  predicate SequenceLeq(a: Envelope, b: Envelope) {
    if SequenceOf(a) != SequenceOf(b) then SequenceOf(a) < SequenceOf(b) else StringLeq(a.eventId, b.eventId)
  }

  // ---- the loop

  /** The state of the loop; `top` is `accepted_max_sequence`. */
  datatype Outcome = Outcome(log: seq<Id>, top: int, reply: Reply)

  predicate OutOfSequence(top: int, last: int, e: Envelope) {
    (top != 0 && SequenceOf(e) <= top) || SequenceOf(e) <= last
  }

  function Max(a: int, b: int): int {
    if a >= b then a else b
  }

  function Take(o: Outcome, last: int, e: Envelope, v: Verdict): Outcome {
    var id, r := e.eventId, o.reply;
    if v.Malformed? then o.(reply := r.(rejected := r.rejected + [Rejection(id, false)]))
    else if id in o.log then o.(reply := r.(duplicates := r.duplicates + [id]))
    else if OutOfSequence(o.top, last, e) then o.(reply := r.(rejected := r.rejected + [Rejection(id, false)]))
    else if v.Refused? then o.(reply := r.(rejected := r.rejected + [Rejection(id, v.retryable)]))
    else Outcome(o.log + [id], Max(o.top, SequenceOf(e)), r.(accepted := r.accepted + [id]))
  }

  function VerdictOf(verdicts: map<Id, Verdict>, e: Envelope): Verdict {
    if e.eventId in verdicts then verdicts[e.eventId] else Fine
  }

  /** The state of the loop after these events. */
  function Process(server: Server, events: seq<Envelope>, verdicts: map<Id, Verdict>): Outcome {
    if events == [] then Outcome(server.log, 0, Reply([], [], []))
    else
      var e := events[|events| - 1];
      Take(Process(server, events[..|events| - 1], verdicts), server.last, e, VerdictOf(verdicts, e))
  }

  datatype Served = Served(server: Server, reply: Reply)

  /** The server and its answer after one batch, whose order does not matter: it is sorted first,
      and the sequence of the device advances at the end. */
  function Serve(server: Server, batch: seq<Envelope>, verdicts: map<Id, Verdict>): Served {
    var o := Process(server, Sort(SequenceLeq, batch), verdicts);
    Served(Server(o.log, if o.reply.accepted != [] then o.top else server.last), o.reply)
  }

  // ---- what every batch keeps

  /** The log only grows, by events of the batch and without repeats; an id is acknowledged only
      when it is logged; and the answers are to the events, one to each. */
  ghost predicate Sound(log: seq<Id>, events: seq<Id>, log': seq<Id>, reply: Reply) {
    Traced(log, events, log', reply) && multiset(Answered(reply)) == multiset(events)
  }

  ghost predicate Traced(log: seq<Id>, events: seq<Id>, log': seq<Id>, reply: Reply) {
    && log <= log'
    && (NoRepeats(log) ==> NoRepeats(log'))
    && (forall e :: e in log' <==> e in log || e in reply.accepted)
    && (forall e :: e in reply.accepted ==> e in events && e !in log)
    && (forall e :: e in reply.duplicates ==> e in log' && e in events)
    && (forall r :: r in reply.rejected ==> r.eventId in events)
  }

  lemma NoRepeatsSnoc(s: seq<Id>, x: Id)
    requires NoRepeats(s) && x !in s
    ensures NoRepeats(s + [x])
  {
  }

  lemma TakeTraced(log: seq<Id>, events: seq<Id>, o: Outcome, last: int, e: Envelope, v: Verdict)
    requires Traced(log, events, o.log, o.reply)
    ensures Traced(log, events + [e.eventId], Take(o, last, e, v).log, Take(o, last, e, v).reply)
  {
    assert e.eventId in events + [e.eventId];
    if e.eventId !in o.log && NoRepeats(log) {
      NoRepeatsSnoc(o.log, e.eventId);
    }
  }

  lemma RejectionAnswers(r: Reply, rejection: Rejection)
    ensures multiset(Answered(r.(rejected := r.rejected + [rejection])))
         == multiset(Answered(r)) + multiset{rejection.eventId}
  {
    assert Map(RejectedId, r.rejected + [rejection]) == Map(RejectedId, r.rejected) + [rejection.eventId];
  }

  lemma AcceptanceAnswers(r: Reply, id: Id)
    ensures multiset(Answered(r.(accepted := r.accepted + [id]))) == multiset(Answered(r)) + multiset{id}
    ensures multiset(Answered(r.(duplicates := r.duplicates + [id]))) == multiset(Answered(r)) + multiset{id}
  {
  }

  lemma TakeAnswers(o: Outcome, last: int, e: Envelope, v: Verdict)
    ensures multiset(Answered(Take(o, last, e, v).reply)) == multiset(Answered(o.reply)) + multiset{e.eventId}
  {
    AcceptanceAnswers(o.reply, e.eventId);
    RejectionAnswers(o.reply, Rejection(e.eventId, false));
    if v.Refused? {
      RejectionAnswers(o.reply, Rejection(e.eventId, v.retryable));
    }
  }

  lemma {:induction false} ProcessSound(server: Server, events: seq<Envelope>, verdicts: map<Id, Verdict>)
    ensures var o := Process(server, events, verdicts);
            Sound(server.log, Map(EventId, events), o.log, o.reply)
  {
    if events != [] {
      var before, e := events[..|events| - 1], events[|events| - 1];
      ProcessSound(server, before, verdicts);
      var o, v := Process(server, before, verdicts), VerdictOf(verdicts, e);
      TakeTraced(server.log, Map(EventId, before), o, server.last, e, v);
      TakeAnswers(o, server.last, e, v);
      assert Map(EventId, events) == Map(EventId, before) + [e.eventId];
    }
  }

  /** What the loop keeps holds of the whole batch, in whatever order it came. */
  lemma {:induction false} ServeSound(server: Server, batch: seq<Envelope>, verdicts: map<Id, Verdict>)
    ensures var r := Serve(server, batch, verdicts);
            Sound(server.log, Map(EventId, batch), r.server.log, r.reply)
  {
    var events := Sort(SequenceLeq, batch);
    ProcessSound(server, events, verdicts);
    MapPermutation(EventId, events, batch);
    SameMembers(Map(EventId, events), Map(EventId, batch));
  }

  lemma SameMembers<T>(a: seq<T>, b: seq<T>)
    requires multiset(a) == multiset(b)
    ensures forall x :: x in a <==> x in b
  {
    assert forall x :: x in a <==> x in multiset(a);
    assert forall x :: x in b <==> x in multiset(b);
  }

  /** Every event of a batch is named in the reply, and nothing else is. */
  lemma {:induction false} EveryEventIsAnswered(server: Server, batch: seq<Envelope>, verdicts: map<Id, Verdict>,
                                                id: Id)
    ensures id in Answered(Serve(server, batch, verdicts).reply) <==> id in Map(EventId, batch)
  {
    ServeSound(server, batch, verdicts);
    SameMembers(Answered(Serve(server, batch, verdicts).reply), Map(EventId, batch));
  }

  // ---- the device sequence

  /** The top of the loop is the largest accepted sequence, and every accepted one was above `last`. */
  ghost predicate TopIs(server: Server, events: seq<Envelope>, o: Outcome) {
    && (o.reply.accepted == [] <==> o.top == 0)
    && (o.top != 0 ==> o.top > server.last && exists e :: e in events && e.eventId in o.reply.accepted
                                                         && SequenceOf(e) == o.top)
    && (forall id :: id in o.reply.accepted ==>
                       exists e :: e in events && e.eventId == id && server.last < SequenceOf(e) <= o.top)
  }

  lemma {:induction false} ProcessTop(server: Server, events: seq<Envelope>, verdicts: map<Id, Verdict>)
    requires server.last >= 0
    ensures TopIs(server, events, Process(server, events, verdicts))
  {
    if events != [] {
      var before, e := events[..|events| - 1], events[|events| - 1];
      var o, o' := Process(server, before, verdicts), Process(server, events, verdicts);
      ProcessTop(server, before, verdicts);
      assert forall x :: x in before ==> x in events;
      forall id | id in o'.reply.accepted
        ensures exists x :: x in events && x.eventId == id && server.last < SequenceOf(x) <= o'.top
      {
        if id in o.reply.accepted {
          var x :| x in before && x.eventId == id && server.last < SequenceOf(x) <= o.top;
          assert x in events;
        } else {
          assert e in events && e.eventId == id;
        }
      }
    }
  }

  ghost predicate DistinctIds(batch: seq<Envelope>) {
    NoRepeats(Map(EventId, batch))
  }

  ghost predicate DistinctSequences(batch: seq<Envelope>) {
    NoRepeats(Map(SequenceOf, batch))
  }

  ghost predicate Rising(events: seq<Envelope>) {
    forall i, j :: 0 <= i < j < |events| ==> SequenceOf(events[i]) < SequenceOf(events[j])
  }

  lemma SequenceLeqIsPreorder()
    ensures TotalPreorder(SequenceLeq)
  {
    StringOrder();
    forall a: Envelope, b: Envelope
      ensures SequenceLeq(a, b) || SequenceLeq(b, a)
    {
      assert StringLeq(a.eventId, b.eventId) || StringLeq(b.eventId, a.eventId);
    }
    forall a: Envelope, b: Envelope, c: Envelope | SequenceLeq(a, b) && SequenceLeq(b, c)
      ensures SequenceLeq(a, c)
    {
      assert StringLeq(a.eventId, b.eventId) && StringLeq(b.eventId, c.eventId) ==> StringLeq(a.eventId, c.eventId);
    }
  }

  lemma {:induction false} PermutationNoRepeats<T>(a: seq<T>, b: seq<T>)
    requires multiset(a) == multiset(b) && NoRepeats(b)
    ensures NoRepeats(a)
  {
    NoRepeatsMultiset(a);
    NoRepeatsMultiset(b);
  }

  /** A batch with distinct ids and sequences reaches the loop in rising order. */
  lemma {:induction false} SortRises(batch: seq<Envelope>)
    requires DistinctIds(batch) && DistinctSequences(batch)
    ensures Rising(Sort(SequenceLeq, batch)) && DistinctIds(Sort(SequenceLeq, batch))
    ensures forall e :: e in Sort(SequenceLeq, batch) <==> e in batch
  {
    var events := Sort(SequenceLeq, batch);
    SequenceLeqIsPreorder();
    SortSorted(SequenceLeq, batch);
    SortKeepsMembers(SequenceLeq, batch);
    MapPermutation(EventId, events, batch);
    MapPermutation(SequenceOf, events, batch);
    PermutationNoRepeats(Map(EventId, events), Map(EventId, batch));
    PermutationNoRepeats(Map(SequenceOf, events), Map(SequenceOf, batch));
    forall i, j | 0 <= i < j < |events|
      ensures SequenceOf(events[i]) < SequenceOf(events[j])
    {
      assert SequenceLeq(events[i], events[j]);
      assert Map(SequenceOf, events)[i] != Map(SequenceOf, events)[j];
    }
  }

  /** In rising order the second comparison of the loop never refuses. */
  lemma {:induction false} RisingTop(server: Server, events: seq<Envelope>, verdicts: map<Id, Verdict>)
    requires Rising(events) && WellFormed(events) && events != []
    ensures Process(server, events, verdicts).top <= SequenceOf(events[|events| - 1])
  {
    var before := events[..|events| - 1];
    if before != [] {
      RisingTop(server, before, verdicts);
    }
  }

  lemma RisingFits(server: Server, events: seq<Envelope>, verdicts: map<Id, Verdict>)
    requires Rising(events) && WellFormed(events) && events != []
    ensures var before, e := events[..|events| - 1], events[|events| - 1];
            OutOfSequence(Process(server, before, verdicts).top, server.last, e) <==> SequenceOf(e) <= server.last
  {
    var before := events[..|events| - 1];
    if before != [] {
      RisingTop(server, before, verdicts);
    }
  }

  lemma TakeLogs(o: Outcome, last: int, e: Envelope, v: Verdict, id: Id)
    ensures id in Take(o, last, e, v).log <==>
              id in o.log || (id == e.eventId && v.Fine? && !OutOfSequence(o.top, last, e))
  {
  }

  lemma {:induction false} OtherIdsStay(server: Server, events: seq<Envelope>, verdicts: map<Id, Verdict>, id: Id)
    requires id !in Map(EventId, events)
    ensures id in Process(server, events, verdicts).log <==> id in server.log
  {
    ProcessSound(server, events, verdicts);
  }

  lemma DistinctInit(events: seq<Envelope>)
    requires DistinctIds(events) && events != []
    ensures DistinctIds(events[..|events| - 1])
    ensures events[|events| - 1].eventId !in Map(EventId, events[..|events| - 1])
  {
    var ids := Map(EventId, events);
    assert Map(EventId, events[..|events| - 1]) == ids[..|events| - 1];
  }

  lemma {:induction false} RisingLogsIff(server: Server, events: seq<Envelope>, verdicts: map<Id, Verdict>, e: Envelope)
    requires Rising(events) && WellFormed(events) && DistinctIds(events) && e in events
    ensures e.eventId in Process(server, events, verdicts).log <==>
              e.eventId in server.log || (VerdictOf(verdicts, e).Fine? && SequenceOf(e) > server.last)
  {
    var before, f := events[..|events| - 1], events[|events| - 1];
    DistinctInit(events);
    RisingFits(server, events, verdicts);
    TakeLogs(Process(server, before, verdicts), server.last, f, VerdictOf(verdicts, f), e.eventId);
    if e == f {
      OtherIdsStay(server, before, verdicts, e.eventId);
    } else {
      var i :| 0 <= i < |before| && before[i] == e;
      assert Map(EventId, before)[i] == e.eventId;
      RisingLogsIff(server, before, verdicts, e);
    }
  }

  /** With distinct positive sequences, an event is logged after its batch exactly if it was logged
      before, or nothing else is wrong with it and its sequence is above the last accepted one. */
  lemma {:induction false} LoggedAfterIff(server: Server, batch: seq<Envelope>, verdicts: map<Id, Verdict>, e: Envelope)
    requires WellFormed(batch) && DistinctIds(batch) && DistinctSequences(batch) && e in batch
    ensures e.eventId in Serve(server, batch, verdicts).server.log <==>
              e.eventId in server.log || (VerdictOf(verdicts, e).Fine? && SequenceOf(e) > server.last)
  {
    SortRises(batch);
    RisingLogsIff(server, Sort(SequenceLeq, batch), verdicts, e);
  }

  // ---- the answer to each event

  /** What the three lists of a reply say of one event, given the server's finding, whether the
      event was logged before, and whether it comes too late. */
  predicate Says(reply: Reply, id: Id, v: Verdict, logged: bool, late: bool) {
    && (id in reply.duplicates <==> !v.Malformed? && logged)
    && (id in reply.accepted <==> v.Fine? && !logged && !late)
    && (Rejection(id, false) in reply.rejected <==> v.Malformed? || (!logged && (late || v == Refused(false))))
    && (Rejection(id, true) in reply.rejected <==> v == Refused(true) && !logged && !late)
  }

  /** Another event of the batch with the same sequence and a smaller id was accepted. */
  ghost predicate Preempted(batch: seq<Envelope>, accepted: seq<Id>, e: Envelope) {
    exists f :: f in batch && f.eventId in accepted && Precedes(f, e)
  }

  predicate Precedes(f: Envelope, e: Envelope) {
    f.deviceSequence == e.deviceSequence && f.eventId != e.eventId && StringLeq(f.eventId, e.eventId)
  }

  lemma {:induction false} TopIsAccepted(server: Server, events: seq<Envelope>, verdicts: map<Id, Verdict>)
    requires WellFormed(events)
    ensures var o := Process(server, events, verdicts);
            && (o.top != 0 ==> exists f :: f in events && f.eventId in o.reply.accepted && SequenceOf(f) == o.top)
            && (forall id :: id in o.reply.accepted ==>
                               exists f :: f in events && f.eventId == id && SequenceOf(f) <= o.top)
  {
    if events != [] {
      var before, e := events[..|events| - 1], events[|events| - 1];
      var o, o' := Process(server, before, verdicts), Process(server, events, verdicts);
      TopIsAccepted(server, before, verdicts);
      assert forall x :: x in before ==> x in events;
      forall id | id in o'.reply.accepted
        ensures exists f :: f in events && f.eventId == id && SequenceOf(f) <= o'.top
      {
        if id in o.reply.accepted {
          var f :| f in before && f.eventId == id && SequenceOf(f) <= o.top;
          assert f in events;
        } else {
          assert e in events && e.eventId == id;
        }
      }
    }
  }

  /** The event after a sorted prefix comes too late exactly below the last sequence or behind an
      accepted event of its own sequence. */
  lemma {:induction false} LateIff(server: Server, events: seq<Envelope>, verdicts: map<Id, Verdict>)
    requires WellFormed(events) && DistinctIds(events) && Sorted(SequenceLeq, events) && events != []
    ensures var before, e := events[..|events| - 1], events[|events| - 1];
            var o := Process(server, before, verdicts);
            OutOfSequence(o.top, server.last, e) <==>
              SequenceOf(e) <= server.last || Preempted(before, o.reply.accepted, e)
  {
    var before, e := events[..|events| - 1], events[|events| - 1];
    var o := Process(server, before, verdicts);
    TopIsAccepted(server, before, verdicts);
    DistinctInit(events);
    forall f | f in before
      ensures SequenceLeq(f, e) && f.eventId != e.eventId && WellFormed([f])
    {
      var i :| 0 <= i < |before| && before[i] == f;
      assert Map(EventId, before)[i] == f.eventId && events[i] in events;
    }
    if o.top != 0 && SequenceOf(e) <= o.top {
      var f :| f in before && f.eventId in o.reply.accepted && SequenceOf(f) == o.top;
      assert WellFormed([f]) && f in [f] && e in events;
      assert Precedes(f, e);
    }
    if Preempted(before, o.reply.accepted, e) {
      var f :| f in before && f.eventId in o.reply.accepted && Precedes(f, e);
      var g :| g in before && g.eventId == f.eventId && SequenceOf(g) <= o.top;
      SameIdSameEvent(before, f, g);
      assert WellFormed([f]) && f in [f];
    }
  }

  /** The answers to other events say nothing of this one. */
  lemma OthersSayNothing(o: Outcome, last: int, f: Envelope, v: Verdict, id: Id)
    requires f.eventId != id
    ensures var reply := Take(o, last, f, v).reply;
            && (id in reply.duplicates <==> id in o.reply.duplicates)
            && (id in reply.accepted <==> id in o.reply.accepted)
            && (forall b :: Rejection(id, b) in reply.rejected <==> Rejection(id, b) in o.reply.rejected)
    ensures forall x :: x != f.eventId ==> (x in o.reply.accepted <==> x in Take(o, last, f, v).reply.accepted)
  {
  }

  lemma {:induction false} Unnamed(server: Server, events: seq<Envelope>, verdicts: map<Id, Verdict>, id: Id)
    requires id !in Map(EventId, events)
    ensures var reply := Process(server, events, verdicts).reply;
            && id !in reply.accepted && id !in reply.duplicates
            && forall b :: Rejection(id, b) !in reply.rejected
  {
    ProcessSound(server, events, verdicts);
  }

  /** A later event of the order does not preempt an earlier one. */
  lemma LaterDoesNotPreempt(events: seq<Envelope>, accepted: seq<Id>, accepted': seq<Id>, e: Envelope)
    requires events != [] && Sorted(SequenceLeq, events) && DistinctIds(events)
    requires e in events[..|events| - 1]
    requires forall id :: id != events[|events| - 1].eventId ==> (id in accepted <==> id in accepted')
    ensures Preempted(events[..|events| - 1], accepted, e) <==> Preempted(events, accepted', e)
  {
    var before, last := events[..|events| - 1], events[|events| - 1];
    var i :| 0 <= i < |before| && before[i] == e;
    StringOrder();
    DistinctInit(events);
    assert SequenceLeq(e, last) && !Precedes(last, e);
    forall f | f in before
      ensures f.eventId != last.eventId && f in events
    {
      var j :| 0 <= j < |before| && before[j] == f;
      assert Map(EventId, before)[j] == f.eventId;
    }
  }

  lemma TakeSays(o: Outcome, last: int, e: Envelope, v: Verdict)
    requires e.eventId !in o.reply.accepted && e.eventId !in o.reply.duplicates
    requires forall b :: Rejection(e.eventId, b) !in o.reply.rejected
    ensures Says(Take(o, last, e, v).reply, e.eventId, v, e.eventId in o.log, OutOfSequence(o.top, last, e))
    ensures forall id :: id != e.eventId ==> (id in Take(o, last, e, v).reply.accepted <==> id in o.reply.accepted)
  {
  }

  lemma {:induction false} LastAnswer(server: Server, events: seq<Envelope>, verdicts: map<Id, Verdict>)
    requires WellFormed(events) && DistinctIds(events) && Sorted(SequenceLeq, events) && events != []
    ensures var reply, e := Process(server, events, verdicts).reply, events[|events| - 1];
            Says(reply, e.eventId, VerdictOf(verdicts, e), e.eventId in server.log,
                 SequenceOf(e) <= server.last || Preempted(events, reply.accepted, e))
  {
    var before, e := events[..|events| - 1], events[|events| - 1];
    var o, o' := Process(server, before, verdicts), Process(server, events, verdicts);
    DistinctInit(events);
    LateIff(server, events, verdicts);
    Unnamed(server, before, verdicts, e.eventId);
    OtherIdsStay(server, before, verdicts, e.eventId);
    TakeSays(o, server.last, e, VerdictOf(verdicts, e));
    assert events == before + [e];
    assert Preempted(before, o.reply.accepted, e) <==> Preempted(events, o'.reply.accepted, e);
  }

  lemma InitKeeps(events: seq<Envelope>)
    requires WellFormed(events) && Sorted(SequenceLeq, events) && events != []
    ensures WellFormed(events[..|events| - 1]) && Sorted(SequenceLeq, events[..|events| - 1])
  {
  }

  lemma {:induction false} EarlierAnswer(server: Server, events: seq<Envelope>, verdicts: map<Id, Verdict>, e: Envelope,
                                         v: Verdict)
    requires Sorted(SequenceLeq, events) && DistinctIds(events) && events != [] && e in events[..|events| - 1]
    requires var before := events[..|events| - 1];
             var reply := Process(server, before, verdicts).reply;
             Says(reply, e.eventId, v, e.eventId in server.log,
                  SequenceOf(e) <= server.last || Preempted(before, reply.accepted, e))
    ensures var reply := Process(server, events, verdicts).reply;
            Says(reply, e.eventId, v, e.eventId in server.log,
                 SequenceOf(e) <= server.last || Preempted(events, reply.accepted, e))
  {
    var before, f := events[..|events| - 1], events[|events| - 1];
    var o, o' := Process(server, before, verdicts), Process(server, events, verdicts);
    DistinctInit(events);
    var i :| 0 <= i < |before| && before[i] == e;
    assert Map(EventId, before)[i] == e.eventId;
    OthersSayNothing(o, server.last, f, VerdictOf(verdicts, f), e.eventId);
    LaterDoesNotPreempt(events, o.reply.accepted, o'.reply.accepted, e);
  }

  lemma {:induction false} SortedAnswers(server: Server, events: seq<Envelope>, verdicts: map<Id, Verdict>, e: Envelope)
    requires WellFormed(events) && DistinctIds(events) && Sorted(SequenceLeq, events) && e in events
    ensures var reply := Process(server, events, verdicts).reply;
            Says(reply, e.eventId, VerdictOf(verdicts, e), e.eventId in server.log,
                 SequenceOf(e) <= server.last || Preempted(events, reply.accepted, e))
  {
    if e == events[|events| - 1] {
      LastAnswer(server, events, verdicts);
    } else {
      InitKeeps(events);
      DistinctInit(events);
      SortedAnswers(server, events[..|events| - 1], verdicts, e);
      EarlierAnswer(server, events, verdicts, e, VerdictOf(verdicts, e));
    }
  }

  /** The answer to each event of a well-formed batch with distinct ids: malformed ones are rejected
      for good, logged ones are duplicates, late ones are rejected for good, refused ones as the
      refusal says, and the rest is accepted. */
  lemma {:induction false} AnswerIs(server: Server, batch: seq<Envelope>, verdicts: map<Id, Verdict>, e: Envelope)
    requires WellFormed(batch) && DistinctIds(batch) && e in batch
    ensures var reply := Serve(server, batch, verdicts).reply;
            Says(reply, e.eventId, VerdictOf(verdicts, e), e.eventId in server.log,
                 SequenceOf(e) <= server.last || Preempted(batch, reply.accepted, e))
  {
    var events := Sort(SequenceLeq, batch);
    SequenceLeqIsPreorder();
    SortSorted(SequenceLeq, batch);
    SortKeepsMembers(SequenceLeq, batch);
    MapPermutation(EventId, events, batch);
    PermutationNoRepeats(Map(EventId, events), Map(EventId, batch));
    SortedAnswers(server, events, verdicts, e);
  }

  /** In plain terms, for a batch in which no two events share an id or a sequence. */
  lemma {:induction false} EachEventIsAnswered(server: Server, batch: seq<Envelope>, verdicts: map<Id, Verdict>,
                                               e: Envelope)
    requires forall x :: x in batch ==> x.deviceSequence.Some? && x.deviceSequence.value >= 1
    requires forall i, j :: 0 <= i < j < |batch| ==>
               batch[i].eventId != batch[j].eventId && batch[i].deviceSequence != batch[j].deviceSequence
    requires e in batch
    ensures var reply := Serve(server, batch, verdicts).reply;
            var v := if e.eventId in verdicts then verdicts[e.eventId] else Fine;
            var logged, late := e.eventId in server.log, e.deviceSequence.value <= server.last;
            && (e.eventId in reply.duplicates <==> v != Malformed && logged)
            && (e.eventId in reply.accepted <==> v == Fine && !logged && !late)
            && (Rejection(e.eventId, false) in reply.rejected <==>
                v == Malformed || (!logged && (late || v == Refused(false))))
            && (Rejection(e.eventId, true) in reply.rejected <==> v == Refused(true) && !logged && !late)
  {
    assert WellFormed(batch) && DistinctIds(batch);
    AnswerIs(server, batch, verdicts, e);
    forall f | f in batch
      ensures !Precedes(f, e)
    {
      var i :| 0 <= i < |batch| && batch[i] == f;
      var j :| 0 <= j < |batch| && batch[j] == e;
    }
  }

  /** Nothing in the batch is refused: no other fault, distinct sequences, each event logged or
      above the last accepted sequence. */
  ghost predicate InOrder(server: Server, batch: seq<Envelope>, verdicts: map<Id, Verdict>) {
    && WellFormed(batch) && DistinctIds(batch) && DistinctSequences(batch)
    && forall e :: e in batch ==>
                     VerdictOf(verdicts, e).Fine? && (e.eventId in server.log || SequenceOf(e) > server.last)
  }

  lemma {:induction false} RisingIsTaken(server: Server, events: seq<Envelope>, verdicts: map<Id, Verdict>)
    requires Rising(events) && InOrder(server, events, verdicts)
    ensures Process(server, events, verdicts).reply.rejected == []
  {
    if events != [] {
      var before, e := events[..|events| - 1], events[|events| - 1];
      assert Map(EventId, before) == Map(EventId, events)[..|events| - 1];
      assert Map(SequenceOf, before) == Map(SequenceOf, events)[..|events| - 1];
      RisingIsTaken(server, before, verdicts);
      ProcessSound(server, before, verdicts);
      RisingFits(server, events, verdicts);
    }
  }

  /** A batch in order is logged and acknowledged as a whole. */
  lemma {:induction false} InOrderIsTaken(server: Server, batch: seq<Envelope>, verdicts: map<Id, Verdict>)
    requires InOrder(server, batch, verdicts)
    ensures var r := Serve(server, batch, verdicts);
            && r.reply.rejected == []
            && (forall id :: id in r.reply.accepted + r.reply.duplicates <==> id in Map(EventId, batch))
            && (forall e :: e in batch ==> e.eventId in r.server.log)
  {
    var events, reply := Sort(SequenceLeq, batch), Serve(server, batch, verdicts).reply;
    SortRises(batch);
    MapPermutation(SequenceOf, events, batch);
    PermutationNoRepeats(Map(SequenceOf, events), Map(SequenceOf, batch));
    RisingIsTaken(server, events, verdicts);
    ServeSound(server, batch, verdicts);
    assert Map(RejectedId, reply.rejected) == [];
    assert Answered(reply) == reply.accepted + reply.duplicates;
    SameMembers(Answered(reply), Map(EventId, batch));
    forall e | e in batch
      ensures e.eventId in Serve(server, batch, verdicts).server.log
    {
      LoggedAfterIff(server, batch, verdicts, e);
    }
  }

  // ---- the sequence only advances

  /** After a batch the last sequence is the old one or that of the largest accepted event, and
      every accepted event lies between the two. */
  lemma {:induction false} ServeAdvances(server: Server, batch: seq<Envelope>, verdicts: map<Id, Verdict>)
    requires server.last >= 0
    ensures var r := Serve(server, batch, verdicts);
            && r.server.last >= server.last
            && (r.server.last == server.last || exists e :: e in batch && e.eventId in r.reply.accepted
                                                            && SequenceOf(e) == r.server.last)
            && (forall id :: id in r.reply.accepted ==>
                      exists e :: e in batch && e.eventId == id && server.last < SequenceOf(e) <= r.server.last)
  {
    var events, r := Sort(SequenceLeq, batch), Serve(server, batch, verdicts);
    ProcessTop(server, events, verdicts);
    SortKeepsMembers(SequenceLeq, batch);
    assert forall e :: e in events <==> e in batch;
    if r.server.last != server.last {
      var e :| e in events && e.eventId in r.reply.accepted && SequenceOf(e) == r.server.last;
      assert e in batch;
    }
    forall id | id in r.reply.accepted
      ensures exists e :: e in batch && e.eventId == id && server.last < SequenceOf(e) <= r.server.last
    {
      var e :| e in events && e.eventId == id && server.last < SequenceOf(e) <= r.server.last;
      assert e in batch;
    }
  }

  /** An event is overtaken after a batch exactly if it was before, or a later one of the batch was
      accepted, whether or not its own refusal was to be retried. */
  lemma {:induction false} OvertakenAfterIff(server: Server, batch: seq<Envelope>, verdicts: map<Id, Verdict>,
                                             e: Envelope)
    requires server.last >= 0 && DistinctIds(batch)
    ensures var r := Serve(server, batch, verdicts);
            SequenceOf(e) <= r.server.last <==>
              SequenceOf(e) <= server.last
              || exists f :: f in batch && f.eventId in r.reply.accepted && SequenceOf(e) <= SequenceOf(f)
  {
    var r := Serve(server, batch, verdicts);
    ServeAdvances(server, batch, verdicts);
    if f :| f in batch && f.eventId in r.reply.accepted && SequenceOf(e) <= SequenceOf(f) {
      var g :| g in batch && g.eventId == f.eventId && server.last < SequenceOf(g) <= r.server.last;
      SameIdSameEvent(batch, f, g);
    }
  }

  lemma SameIdSameEvent(batch: seq<Envelope>, e: Envelope, f: Envelope)
    requires DistinctIds(batch) && e in batch && f in batch && e.eventId == f.eventId
    ensures e == f
  {
    var i :| 0 <= i < |batch| && batch[i] == e;
    var j :| 0 <= j < |batch| && batch[j] == f;
    assert Map(EventId, batch)[i] == Map(EventId, batch)[j];
  }

  /** An event that is not logged although a sequence from its own on was accepted. */
  predicate Overtaken(server: Server, e: Envelope) {
    e.eventId !in server.log && SequenceOf(e) <= server.last
  }

  /** `e` is the only event of the batch with its id. */
  ghost predicate OnlyEvent(batch: seq<Envelope>, e: Envelope) {
    forall f :: f in batch && f.eventId == e.eventId ==> f == e
  }

  lemma {:induction false} ProcessOvertaken(server: Server, events: seq<Envelope>, verdicts: map<Id, Verdict>,
                                            e: Envelope)
    requires Overtaken(server, e) && OnlyEvent(events, e)
    ensures var o := Process(server, events, verdicts);
            && e.eventId !in o.log
            && forall r :: r in o.reply.rejected && r.eventId == e.eventId ==> !r.retryable
  {
    if events != [] {
      ProcessOvertaken(server, events[..|events| - 1], verdicts, e);
    }
  }

  /** No batch ever logs an overtaken event; it is refused for good. */
  lemma {:induction false} OvertakenIsRefused(server: Server, batch: seq<Envelope>, verdicts: map<Id, Verdict>,
                                              e: Envelope)
    requires server.last >= 0 && Overtaken(server, e) && OnlyEvent(batch, e)
    ensures var r := Serve(server, batch, verdicts);
            && Overtaken(r.server, e)
            && (e in batch ==> Rejection(e.eventId, false) in r.reply.rejected)
            && forall x :: x in r.reply.rejected && x.eventId == e.eventId ==> !x.retryable
  {
    var reply := Serve(server, batch, verdicts).reply;
    SortKeepsMembers(SequenceLeq, batch);
    ProcessOvertaken(server, Sort(SequenceLeq, batch), verdicts, e);
    ServeAdvances(server, batch, verdicts);
    ServeSound(server, batch, verdicts);
    if e in batch {
      var i :| 0 <= i < |batch| && batch[i] == e;
      assert Map(EventId, batch)[i] == e.eventId;
      EveryEventIsAnswered(server, batch, verdicts, e.eventId);
      assert e.eventId in Map(RejectedId, reply.rejected);
      var j :| 0 <= j < |reply.rejected| && Map(RejectedId, reply.rejected)[j] == e.eventId;
      assert reply.rejected[j] in reply.rejected;
    }
  }

  /** The log holds known events with rising sequences, none above the last accepted one. */
  ghost predicate InSequence(known: map<Id, Envelope>, log: seq<Id>, last: int) {
    && last >= 0
    && (forall id :: id in log ==> id in known && 1 <= SequenceOf(known[id]) <= last)
    && forall i, j :: 0 <= i < j < |log| ==> SequenceOf(known[log[i]]) < SequenceOf(known[log[j]])
  }

  ghost predicate Knows(known: map<Id, Envelope>, e: Envelope) {
    e.eventId in known && known[e.eventId] == e
  }

  lemma {:induction false} ProcessInSequence(known: map<Id, Envelope>, server: Server, events: seq<Envelope>,
                                             verdicts: map<Id, Verdict>)
    requires InSequence(known, server.log, server.last) && forall e :: e in events ==> Knows(known, e)
    ensures var o := Process(server, events, verdicts);
            InSequence(known, o.log, Max(server.last, o.top))
  {
    if events != [] {
      assert events[|events| - 1] in events;
      ProcessInSequence(known, server, events[..|events| - 1], verdicts);
    }
  }

  /** A batch keeps the log in sequence, and appends only above the last accepted sequence. */
  lemma {:induction false} ServeInSequence(known: map<Id, Envelope>, server: Server, batch: seq<Envelope>,
                                           verdicts: map<Id, Verdict>)
    requires InSequence(known, server.log, server.last) && forall e :: e in batch ==> Knows(known, e)
    ensures var r := Serve(server, batch, verdicts);
            && InSequence(known, r.server.log, r.server.last)
            && (forall id :: id in r.server.log && id !in server.log ==> SequenceOf(known[id]) > server.last)
  {
    var events, r := Sort(SequenceLeq, batch), Serve(server, batch, verdicts);
    SortKeepsMembers(SequenceLeq, batch);
    ProcessInSequence(known, server, events, verdicts);
    ProcessTop(server, events, verdicts);
    ServeSound(server, batch, verdicts);
    ServeAdvances(server, batch, verdicts);
    forall id | id in r.server.log && id !in server.log
      ensures SequenceOf(known[id]) > server.last
    {
      var e :| e in batch && e.eventId == id && server.last < SequenceOf(e) <= r.server.last;
      assert Knows(known, e);
    }
  }

  // ---- a second delivery

  /** A batch has nothing more to say about the event: it is logged, at fault or overtaken. */
  predicate Closed(server: Server, verdicts: map<Id, Verdict>, e: Envelope) {
    e.eventId in server.log || !VerdictOf(verdicts, e).Fine? || SequenceOf(e) <= server.last
  }

  lemma {:induction false} ProcessCloses(server: Server, events: seq<Envelope>, verdicts: map<Id, Verdict>, e: Envelope)
    requires server.last >= 0 && e in events
    ensures var o := Process(server, events, verdicts);
            && o.top >= 0
            && (e.eventId in o.log || !VerdictOf(verdicts, e).Fine? || OutOfSequence(o.top, server.last, e))
  {
    var before, f := events[..|events| - 1], events[|events| - 1];
    ProcessTop(server, before, verdicts);
    if e != f {
      assert e in before;
      ProcessCloses(server, before, verdicts, e);
    }
  }

  lemma {:induction false} ServeCloses(server: Server, batch: seq<Envelope>, verdicts: map<Id, Verdict>, e: Envelope)
    requires server.last >= 0 && e in batch
    ensures Closed(Serve(server, batch, verdicts).server, verdicts, e)
  {
    var events := Sort(SequenceLeq, batch);
    SortKeepsMembers(SequenceLeq, batch);
    ProcessCloses(server, events, verdicts, e);
    ProcessTop(server, events, verdicts);
  }

  lemma {:induction false} ClosedHasNoEffect(server: Server, events: seq<Envelope>, verdicts: map<Id, Verdict>)
    requires forall e :: e in events ==> Closed(server, verdicts, e)
    ensures var o := Process(server, events, verdicts);
            o.log == server.log && o.reply.accepted == []
  {
    if events != [] {
      ClosedHasNoEffect(server, events[..|events| - 1], verdicts);
      assert Closed(server, verdicts, events[|events| - 1]);
    }
  }

  /** Delivering events of a batch again, any of them, any number of times and in any order, with
      the same findings, changes nothing and accepts nothing: every effect happened the first
      time. */
  lemma {:induction false} RedeliveryHasNoEffect(server: Server, batch: seq<Envelope>, verdicts: map<Id, Verdict>,
                                                 again: seq<Envelope>)
    requires server.last >= 0 && forall e :: e in again ==> e in batch
    ensures var first := Serve(server, batch, verdicts).server;
            var second := Serve(first, again, verdicts);
            second.server == first && second.reply.accepted == []
  {
    var first := Serve(server, batch, verdicts).server;
    SortKeepsMembers(SequenceLeq, again);
    forall e | e in Sort(SequenceLeq, again)
      ensures Closed(first, verdicts, e)
    {
      ServeCloses(server, batch, verdicts, e);
    }
    ClosedHasNoEffect(first, Sort(SequenceLeq, again), verdicts);
  }

  /** Whatever the findings are by then, events that are logged have no effect again. */
  lemma {:induction false} LoggedHasNoEffect(server: Server, again: seq<Envelope>, verdicts: map<Id, Verdict>)
    requires forall e :: e in again ==> e.eventId in server.log
    ensures Serve(server, again, verdicts).server == server && Serve(server, again, verdicts).reply.accepted == []
  {
    SortKeepsMembers(SequenceLeq, again);
    ClosedHasNoEffect(server, Sort(SequenceLeq, again), verdicts);
  }

  // ---- the store

  datatype AppendError = DuplicateEvent | StoreFailure

  /** The rows of one device, as far as ids and the last sequence go. */
  class EventStore {
    var log: seq<Id>
    var last: int

    constructor ()
      ensures Now() == EMPTY
    {
      log, last := [], 0;
    }

    function Now(): Server
      reads this
    {
      Server(log, last)
    }

    /** One insert in its own transaction. `broken` stands for any database error other than the
        unique violation; both roll back. */
    method AppendLearningEvent(eventId: Id, raiseOnDuplicate: bool, broken: bool) returns (r: Result<bool, AppendError>)
      modifies this`log
      ensures log == if r == Ok(true) then old(log) + [eventId] else old(log)
      ensures r == Ok(true) <==> !broken && eventId !in old(log)
      ensures r == Ok(false) <==> !broken && eventId in old(log) && !raiseOnDuplicate
      ensures r == Err(DuplicateEvent) <==> !broken && eventId in old(log) && raiseOnDuplicate
      ensures NoRepeats(old(log)) ==> NoRepeats(log)
    {
      ghost var before := log;
      if broken {
        return Err(StoreFailure);
      }
      if eventId in log {
        if raiseOnDuplicate {
          return Err(DuplicateEvent);
        }
        return Ok(false);
      }
      log := log + [eventId];
      if NoRepeats(before) {
        NoRepeatsSnoc(before, eventId);
      }
      r := Ok(true);
    }

    /** The loop over one batch; the transaction commits before the reply is returned. */
    method ProcessBatch(batch: seq<Envelope>, verdicts: map<Id, Verdict>) returns (reply: Reply)
      modifies this
      ensures Served(Now(), reply) == Serve(old(Now()), batch, verdicts)
      ensures Sound(old(log), Map(EventId, batch), log, reply)
    {
      var accepted: seq<Id>, duplicates: seq<Id>, rejected: seq<Rejection>, top := [], [], [], 0;
      ghost var start := Now();
      var events := Sort(SequenceLeq, batch);
      for i := 0 to |events|
        invariant last == start.last
        invariant Outcome(log, top, Reply(accepted, duplicates, rejected)) == Process(start, events[..i], verdicts)
      {
        assert events[..i + 1][..i] == events[..i];
        var e := events[i];
        var id, verdict := e.eventId, VerdictOf(verdicts, e);
        if verdict.Malformed? {
          rejected := rejected + [Rejection(id, false)];
        } else if id in log {
          duplicates := duplicates + [id];
        } else if top != 0 && SequenceOf(e) <= top {
          rejected := rejected + [Rejection(id, false)];
        } else if SequenceOf(e) <= last {
          rejected := rejected + [Rejection(id, false)];
        } else if verdict.Refused? {
          rejected := rejected + [Rejection(id, verdict.retryable)];
        } else {
          log := log + [id];
          accepted := accepted + [id];
          top := Max(top, SequenceOf(e));
        }
      }
      assert events[..|events|] == events;
      if accepted != [] {
        last := top;
      }
      reply := Reply(accepted, duplicates, rejected);
      ServeSound(start, batch, verdicts);
    }
  }
}

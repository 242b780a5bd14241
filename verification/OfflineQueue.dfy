/** `PendingEventQueue` of web/offline-core.js: the persistent queue, its batches and back-off. */
module OfflineQueue {
  import opened Common
  import opened Ordering

  const RETRY_SCHEDULE_MS := [0, 5000, 15000, 60000, 300000, 900000]
  const BATCH_LIMIT := 100
  const MAX_SAFE_INTEGER := 9007199254740991

  function NextRetryDelayMs(attempt: nat): int {
    RETRY_SCHEDULE_MS[if attempt < 5 then attempt else 5]
  }

  /** The back-off never shrinks and never exceeds a quarter of an hour. */
  lemma BackOffGrows(a: nat, b: nat)
    requires a <= b
    ensures 0 <= NextRetryDelayMs(a) <= NextRetryDelayMs(b) <= 900000
    ensures a < b <= 5 ==> NextRetryDelayMs(a) < NextRetryDelayMs(b)
  {
  }

  datatype Status = Pending | InFlight | Failed

  datatype Record = Record(envelope: Envelope, status: Status, attempts: nat, nextRetryAt: int,
                           failureCode: Option<string>)

  type Queue = map<string, Record>

  function IdOf(r: Record): string {
    r.envelope.eventId
  }

  function EnvelopeOf(r: Record): Envelope {
    r.envelope
  }

  function Rank(r: Record): int {
    if r.envelope.deviceSequence.Some? then r.envelope.deviceSequence.value else MAX_SAFE_INTEGER
  }

  /** The comparison of `dequeue`: by device sequence, then by event id. */
  predicate Before(a: Record, b: Record) {
    if Rank(a) != Rank(b) then Rank(a) < Rank(b) else StringLeq(IdOf(a), IdOf(b))
  }

  /** Every record is stored under its own event id. */
  ghost predicate Keyed(q: Queue) {
    forall id :: id in q ==> IdOf(q[id]) == id
  }

  predicate Ready(r: Record, now: int) {
    r.status == Pending && r.nextRetryAt <= now
  }

  function IdSet(rs: seq<Record>): set<string> {
    set r | r in rs :: IdOf(r)
  }

  /** The batch of one dequeue: at most 100 ready records, sorted, and as long as a ready record
      stays behind, full and before it. */
  ghost predicate IsBatch(q: Queue, now: int, batch: seq<Record>) {
    && Sorted(Before, batch) && NoRepeats(batch)
    && (forall r :: r in batch ==> IdOf(r) in q && q[IdOf(r)] == r && Ready(r, now))
    && |batch| <= BATCH_LIMIT
    && forall id :: id in q && Ready(q[id], now) && q[id] !in batch ==>
         |batch| == BATCH_LIMIT && forall r :: r in batch ==> Before(r, q[id])
  }

  // ---- batches are unique

  lemma BeforeIsPreorder()
    ensures TotalPreorder(Before)
  {
    StringOrder();
    forall a: Record, b: Record
      ensures Before(a, b) || Before(b, a)
    {
      assert StringLeq(IdOf(a), IdOf(b)) || StringLeq(IdOf(b), IdOf(a));
    }
    forall a: Record, b: Record, c: Record | Before(a, b) && Before(b, c)
      ensures Before(a, c)
    {
      assert StringLeq(IdOf(a), IdOf(b)) && StringLeq(IdOf(b), IdOf(c)) ==> StringLeq(IdOf(a), IdOf(c));
    }
  }

  /** `rs` lists the ready records of the queue, each once. */
  ghost predicate ListsReady(q: Queue, now: int, rs: seq<Record>) {
    && NoRepeats(rs)
    && forall r :: r in rs <==> IdOf(r) in q && q[IdOf(r)] == r && Ready(r, now)
  }

  lemma ReadyHasNoTies(q: Queue, now: int, rs: seq<Record>)
    requires ListsReady(q, now, rs)
    ensures NoTies(Before, rs)
  {
    StringOrder();
    forall a, b | a in rs && b in rs && Before(a, b) && Before(b, a)
      ensures a == b
    {
      assert IdOf(a) == IdOf(b);
    }
  }

  lemma SameMembersSameMultiset<T>(a: seq<T>, b: seq<T>)
    requires NoRepeats(a) && NoRepeats(b)
    requires forall x :: x in a <==> x in b
    ensures multiset(a) == multiset(b)
  {
    NoRepeatsMultiset(a);
    NoRepeatsMultiset(b);
    forall x
      ensures multiset(a)[x] == multiset(b)[x]
    {
      assert x in a <==> x in multiset(a);
      assert x in b <==> x in multiset(b);
    }
  }

  /** What the batch leaves behind. */
  function Without(rs: seq<Record>, batch: seq<Record>): (rest: seq<Record>)
    ensures forall r :: r in rest <==> r in rs && r !in batch
  {
    if rs == [] then []
    else if rs[0] in batch then Without(rs[1..], batch)
    else [rs[0]] + Without(rs[1..], batch)
  }

  lemma {:induction false} WithoutNoRepeats(rs: seq<Record>, batch: seq<Record>)
    requires NoRepeats(rs)
    ensures NoRepeats(Without(rs, batch))
  {
    if rs != [] {
      var tail := rs[1..];
      assert NoRepeats(tail) by {
        forall i, j | 0 <= i < j < |tail|
          ensures tail[i] != tail[j]
        {
          assert rs[i + 1] != rs[j + 1];
        }
      }
      WithoutNoRepeats(tail, batch);
      assert rs[0] !in tail;
    }
  }

  lemma AppendNoRepeats<T>(a: seq<T>, b: seq<T>)
    requires NoRepeats(a) && NoRepeats(b)
    requires forall x :: x in a ==> x !in b
    ensures NoRepeats(a + b)
  {
    var c := a + b;
    forall i, j | 0 <= i < j < |c|
      ensures c[i] != c[j]
    {
      if i < |a| <= j {
        assert c[i] in a && c[j] in b;
      }
    }
  }

  lemma {:induction false} SortNoRepeats(rs: seq<Record>)
    requires NoRepeats(rs)
    ensures NoRepeats(Sort(Before, rs))
  {
    NoRepeatsMultiset(rs);
    NoRepeatsMultiset(Sort(Before, rs));
  }

  lemma AppendSorted(a: seq<Record>, b: seq<Record>)
    requires Sorted(Before, a) && Sorted(Before, b)
    requires forall x, y :: x in a && y in b ==> Before(x, y)
    ensures Sorted(Before, a + b)
  {
  }

  function Least(n: nat): nat {
    if n < BATCH_LIMIT then n else BATCH_LIMIT
  }

  /** The batch followed by the sorted rest. */
  lemma BatchAndRest(q: Queue, now: int, rs: seq<Record>, batch: seq<Record>) returns (whole: seq<Record>)
    requires Keyed(q) && ListsReady(q, now, rs) && IsBatch(q, now, batch)
    ensures batch <= whole && Sorted(Before, whole) && NoRepeats(whole)
    ensures forall r :: r in whole <==> r in rs
    ensures |batch| == |whole| || |batch| == BATCH_LIMIT
  {
    var left := Without(rs, batch);
    var rest := Sort(Before, left);
    whole := batch + rest;
    SortKeepsMembers(Before, left);
    WithoutNoRepeats(rs, batch);
    SortNoRepeats(left);
    AppendNoRepeats(batch, rest);
    BeforeIsPreorder();
    SortSorted(Before, left);
    forall x, y | x in batch && y in rest
      ensures Before(x, y)
    {
      assert y in left && q[IdOf(y)] == y;
    }
    AppendSorted(batch, rest);
    if rest != [] {
      assert rest[0] in left && q[IdOf(rest[0])] == rest[0];
    }
  }

  /** A batch is the first 100 of the sorted ready records. */
  lemma {:induction false} BatchIsPrefix(q: Queue, now: int, rs: seq<Record>, batch: seq<Record>)
    requires Keyed(q) && ListsReady(q, now, rs) && IsBatch(q, now, batch)
    ensures batch == Sort(Before, rs)[..Least(|rs|)]
  {
    var whole := BatchAndRest(q, now, rs, batch);
    SameMembersSameMultiset(whole, rs);
    BeforeIsPreorder();
    SortSorted(Before, rs);
    ReadyHasNoTies(q, now, rs);
    assert NoTies(Before, whole);
    SortedUnique(Before, whole, Sort(Before, rs));
    assert |whole| == |rs|;
  }

  lemma InPrefix<T>(s: seq<T>, n: nat, j: nat)
    requires j < n <= |s|
    ensures s[j] in s[..n]
  {
  }

  /** And the first 100 of the sorted ready records are a batch. */
  lemma {:induction false} PrefixIsBatch(q: Queue, now: int, rs: seq<Record>)
    requires Keyed(q) && ListsReady(q, now, rs)
    ensures IsBatch(q, now, Sort(Before, rs)[..Least(|rs|)])
  {
    var sorted, n := Sort(Before, rs), Least(|rs|);
    var batch := sorted[..n];
    BeforeIsPreorder();
    SortSorted(Before, rs);
    SortKeepsMembers(Before, rs);
    SortNoRepeats(rs);
    forall id | id in q && Ready(q[id], now) && q[id] !in batch
      ensures |batch| == BATCH_LIMIT && forall r :: r in batch ==> Before(r, q[id])
    {
      assert q[id] in rs && q[id] in sorted;
      var j: nat :| 0 <= j < |sorted| && sorted[j] == q[id];
      if j < n {
        InPrefix(sorted, n, j);
      }
    }
  }

  lemma {:induction false} ListThem(q: Queue, ids: set<string>) returns (rs: seq<Record>)
    requires Keyed(q) && forall id :: id in ids ==> id in q
    ensures NoRepeats(rs)
    ensures forall r :: r in rs <==> IdOf(r) in ids && q[IdOf(r)] == r
    decreases |ids|
  {
    if ids == {} {
      rs := [];
    } else {
      var id :| id in ids;
      rs := ListThem(q, ids - {id});
      AppendNoRepeats(rs, [q[id]]);
      rs := rs + [q[id]];
    }
  }

  /** One queue at one time has one batch. */
  lemma BatchIsUnique(q: Queue, now: int, a: seq<Record>, b: seq<Record>)
    requires Keyed(q) && IsBatch(q, now, a) && IsBatch(q, now, b)
    ensures a == b
  {
    var rs := ListThem(q, set id | id in q && Ready(q[id], now));
    BatchIsPrefix(q, now, rs, a);
    BatchIsPrefix(q, now, rs, b);
  }

  // ---- the writes

  /** Exactly the batch is marked in flight. */
  function Flipped(q: Queue, ids: set<string>): Queue {
    map id | id in q :: if id in ids then q[id].(status := InFlight) else q[id]
  }

  datatype Failure = Failure(eventId: string, code: string, retryable: bool)

  function Failed1(r: Record, f: Failure, now: int): Record {
    if f.retryable then
      r.(status := Pending, attempts := r.attempts + 1, nextRetryAt := now + NextRetryDelayMs(r.attempts + 1))
    else r.(status := Failed, failureCode := Some(f.code))
  }

  /** `markRejected`: nothing happens to an unknown id. */
  function Marked(q: Queue, f: Failure, now: int): Queue {
    if f.eventId in q then q[f.eventId := Failed1(q[f.eventId], f, now)] else q
  }

  function MarkedAll(q: Queue, fs: seq<Failure>, now: int): Queue {
    if fs == [] then q else Marked(MarkedAll(q, fs[..|fs| - 1], now), fs[|fs| - 1], now)
  }

  /** `restore`: what was in flight waits again, after the delay of its attempts so far. */
  function Restored(q: Queue, now: int): Queue {
    map id | id in q ::
      if q[id].status == InFlight
      then q[id].(status := Pending, nextRetryAt := now + NextRetryDelayMs(q[id].attempts)) else q[id]
  }

  /** No write drops or re-keys a record; only an acknowledgement takes one out. */
  lemma WritesKeepRecords(q: Queue, ids: set<string>, f: Failure, now: int)
    requires Keyed(q)
    ensures Flipped(q, ids).Keys == q.Keys && Keyed(Flipped(q, ids))
    ensures Marked(q, f, now).Keys == q.Keys && Keyed(Marked(q, f, now))
    ensures Restored(q, now).Keys == q.Keys && Keyed(Restored(q, now))
  {
  }

  lemma {:induction false} MarkedAllKeepsRecords(q: Queue, fs: seq<Failure>, now: int)
    requires Keyed(q)
    ensures MarkedAll(q, fs, now).Keys == q.Keys && Keyed(MarkedAll(q, fs, now))
  {
    if fs != [] {
      MarkedAllKeepsRecords(q, fs[..|fs| - 1], now);
      WritesKeepRecords(MarkedAll(q, fs[..|fs| - 1], now), {}, fs[|fs| - 1], now);
    }
  }

  /** After a restore nothing is in flight, and what was is ready again within a quarter of an
      hour. */
  lemma RestoreFreesAll(q: Queue, now: int, id: string)
    requires id in q
    ensures Restored(q, now)[id].status != InFlight
    ensures q[id].status == InFlight ==> Ready(Restored(q, now)[id], now + 900000)
  {
  }

  class PendingEventQueue {
    var pendingEvents: Queue
    var acknowledgedEvents: map<string, int>

    constructor ()
      ensures pendingEvents == map[] && acknowledgedEvents == map[]
    {
      pendingEvents, acknowledgedEvents := map[], map[];
    }

    /** The records of the store, in no particular order. */
    method All() returns (records: seq<Record>)
      requires Keyed(pendingEvents)
      ensures NoRepeats(records)
      ensures forall r :: r in records <==> IdOf(r) in pendingEvents && pendingEvents[IdOf(r)] == r
    {
      records := [];
      var ids := pendingEvents.Keys;
      while ids != {}
        invariant ids <= pendingEvents.Keys && NoRepeats(records)
        invariant forall r :: r in records <==>
                  IdOf(r) in pendingEvents && IdOf(r) !in ids && pendingEvents[IdOf(r)] == r
        decreases |ids|
      {
        var id :| id in ids;
        AppendNoRepeats(records, [pendingEvents[id]]);
        records := records + [pendingEvents[id]];
        ids := ids - {id};
      }
    }

    method Enqueue(envelope: Envelope, now: int)
      requires Keyed(pendingEvents)
      modifies this`pendingEvents
      ensures pendingEvents == old(pendingEvents)[envelope.eventId := Record(envelope, Pending, 0, now, None)]
      ensures Keyed(pendingEvents)
    {
      pendingEvents := pendingEvents[envelope.eventId := Record(envelope, Pending, 0, now, None)];
    }

    /** Takes the batch and marks exactly its records in flight. */
    method Dequeue(now: int) returns (envelopes: seq<Envelope>, ghost batch: seq<Record>)
      requires Keyed(pendingEvents)
      modifies this`pendingEvents
      ensures IsBatch(old(pendingEvents), now, batch) && envelopes == Map(EnvelopeOf, batch)
      ensures pendingEvents == Flipped(old(pendingEvents), IdSet(batch))
    {
      var records := All();
      var ready := Filter(records, now);
      FilterLists(pendingEvents, now, records);
      PrefixIsBatch(pendingEvents, now, ready);
      var sorted := Sort(Before, ready);
      var batched := sorted[..Least(|sorted|)];
      batch := batched;
      PutInFlight(batched, now);
      envelopes := Map(EnvelopeOf, batched);
    }

    /** The loop of `store.put` over the batch. */
    method PutInFlight(batched: seq<Record>, ghost now: int)
      requires IsBatch(pendingEvents, now, batched)
      modifies this`pendingEvents
      ensures pendingEvents == Flipped(old(pendingEvents), IdSet(batched))
    {
      ghost var q := pendingEvents;
      assert q == Flipped(q, IdSet(batched[..0]));
      for i := 0 to |batched|
        invariant pendingEvents == Flipped(q, IdSet(batched[..i]))
      {
        var record := batched[i];
        FlipOne(q, batched, i);
        pendingEvents := pendingEvents[IdOf(record) := record.(status := InFlight)];
      }
      assert batched[..|batched|] == batched;
    }

    method MarkAcknowledged(id: string, now: int)
      modifies this
      ensures pendingEvents == old(pendingEvents) - {id}
      ensures acknowledgedEvents == old(acknowledgedEvents)[id := now]
    {
      pendingEvents := pendingEvents - {id};
      acknowledgedEvents := acknowledgedEvents[id := now];
    }

    method MarkRejected(f: Failure, now: int)
      modifies this`pendingEvents
      ensures pendingEvents == Marked(old(pendingEvents), f, now)
    {
      if f.eventId !in pendingEvents {
        return;
      }
      var record := pendingEvents[f.eventId];
      if !f.retryable {
        record := record.(status := Failed);
        record := record.(failureCode := Some(f.code));
        pendingEvents := pendingEvents[f.eventId := record];
        return;
      }
      record := record.(status := Pending);
      record := record.(attempts := record.attempts + 1);
      record := record.(nextRetryAt := now + NextRetryDelayMs(record.attempts));
      pendingEvents := pendingEvents[f.eventId := record];
    }

    /** The loops over `markRejected`. */
    method MarkAll(fs: seq<Failure>, now: int)
      modifies this`pendingEvents
      ensures pendingEvents == MarkedAll(old(pendingEvents), fs, now)
    {
      ghost var q := pendingEvents;
      for i := 0 to |fs|
        invariant pendingEvents == MarkedAll(q, fs[..i], now)
      {
        assert fs[..i + 1][..i] == fs[..i];
        MarkRejected(fs[i], now);
      }
      assert fs[..|fs|] == fs;
    }

    /** The loop over every record of the store. */
    method Restore(now: int)
      requires Keyed(pendingEvents)
      modifies this`pendingEvents
      ensures pendingEvents == Restored(old(pendingEvents), now)
    {
      ghost var q := pendingEvents;
      var records := All();
      for i := 0 to |records|
        invariant pendingEvents.Keys == q.Keys
        invariant forall id :: id in q ==>
                  pendingEvents[id] == if q[id] in records[..i] then Restored(q, now)[id] else q[id]
      {
        var record := records[i];
        assert record in records && q[IdOf(record)] == record;
        assert records[..i + 1] == records[..i] + [record];
        if record.status == InFlight {
          record := record.(status := Pending, nextRetryAt := now + NextRetryDelayMs(record.attempts));
          pendingEvents := pendingEvents[IdOf(record) := record];
        }
      }
      assert records[..|records|] == records;
      assert forall id :: id in q ==> q[id] in records;
    }
  }

  // ---- helpers of dequeue

  function Filter(rs: seq<Record>, now: int): (ready: seq<Record>)
    ensures forall r :: r in ready <==> r in rs && Ready(r, now)
  {
    if rs == [] then []
    else if Ready(rs[0], now) then [rs[0]] + Filter(rs[1..], now)
    else Filter(rs[1..], now)
  }

  lemma {:induction false} FilterNoRepeats(rs: seq<Record>, now: int)
    requires NoRepeats(rs)
    ensures NoRepeats(Filter(rs, now))
  {
    if rs != [] {
      var tail := rs[1..];
      assert NoRepeats(tail) by {
        forall i, j | 0 <= i < j < |tail|
          ensures tail[i] != tail[j]
        {
          assert rs[i + 1] != rs[j + 1];
        }
      }
      FilterNoRepeats(tail, now);
      assert rs[0] !in tail;
    }
  }

  lemma {:induction false} FilterLists(q: Queue, now: int, rs: seq<Record>)
    requires NoRepeats(rs) && forall r :: r in rs <==> IdOf(r) in q && q[IdOf(r)] == r
    ensures ListsReady(q, now, Filter(rs, now))
  {
    FilterNoRepeats(rs, now);
  }

  lemma FlipOne(q: Queue, batched: seq<Record>, i: nat)
    requires i < |batched| && IdOf(batched[i]) in q && q[IdOf(batched[i])] == batched[i]
    ensures Flipped(q, IdSet(batched[..i]))[IdOf(batched[i]) := batched[i].(status := InFlight)]
         == Flipped(q, IdSet(batched[..i + 1]))
  {
  }
}

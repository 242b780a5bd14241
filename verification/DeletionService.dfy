/** The methods behind the deletion protocol: `StudentMemoryDeletionService` of
    app/memory/deletion.py and `rebuild_student` of scripts/rebuild_memory_index.py, each proved
    to be the protocol steps of module Deletion and, for the erasing loop, to remove exactly the
    student's rows. */
module DeletionService {
  import opened Common
  import opened Deletion

  datatype Table =
    | StudentTokens | StudentSkillStates | StudyPlans | SessionBranches | SessionItems | AnswerAttempts
    | StudySessions | LearningEvents | AgentEvents | MisconceptionEvidence | LearningEpisodes
    | StudentMemoryFacts | InterventionStats | MemoryOutbox | Devices | SyncConflicts | LegacyMasteryImports

  /** A row of a personal table. Branches and items carry only a session id; `validated` is the
      status column of learning_episodes. */
  datatype Row = Row(student: Student, session: string, id: string, validated: bool)

  type Rows = map<Table, set<Row>>

  const PG_DELETIONS: seq<Table> := [
    StudentTokens, StudentSkillStates, StudyPlans, SessionBranches, SessionItems, AnswerAttempts,
    StudySessions, LearningEvents, AgentEvents, MisconceptionEvidence, LearningEpisodes,
    StudentMemoryFacts, InterventionStats, MemoryOutbox, Devices, SyncConflicts, LegacyMasteryImports]

  predicate BySession(t: Table) {
    t == SessionBranches || t == SessionItems
  }

  predicate Total(rows: Rows) {
    forall t: Table :: t in rows
  }

  /** The row belongs to the student, for branches and items through its session. */
  predicate Owned(rows: Rows, t: Table, r: Row, s: Student)
    requires Total(rows)
  {
    if BySession(t) then exists q :: q in rows[StudySessions] && q.session == r.session && q.student == s
    else r.student == s
  }

  function Others(rows: Rows, t: Table, s: Student): set<Row>
    requires Total(rows)
  {
    set r | r in rows[t] && !Owned(rows, t, r, s)
  }

  /** Every personal row of the student is gone and no other row is. */
  ghost predicate RowsErased(before: Rows, after: Rows, s: Student) {
    Total(before) && Total(after) && forall t: Table :: t != MemoryOutbox ==> after[t] == Others(before, t, s)
  }

  lemma DeletionOrder(i: nat)
    requires i < |PG_DELETIONS|
    ensures PG_DELETIONS[i] !in PG_DELETIONS[..i]
    ensures BySession(PG_DELETIONS[i]) ==> StudySessions !in PG_DELETIONS[..i]
  {
  }

  lemma DeletionsCoverTables(t: Table)
    ensures t in PG_DELETIONS
  {
  }

  /** How one delivery attempt ends. */
  datatype Attempt = Applied | AppliedUnmarked | NotApplied(next: Delivery)

  function AttemptEvent(s: Student, op: Operation, a: Attempt): Event {
    match a
    case Applied => Delivered(s, op)
    case AppliedUnmarked => DeliveredUnmarked(s, op)
    case NotApplied(next) => NotDelivered(s, op, next)
  }

  predicate GoodAttempt(a: Attempt) {
    a.NotApplied? ==> a.next == Retrying || a.next == DeadLetter
  }

  /** The memories of a student in the authoritative tables. */
  function Memories(rows: Rows, s: Student): set<Operation>
    requires Total(rows)
  {
    (set r | r in rows[LearningEpisodes] && r.student == s && r.validated :: UpsertEpisode(r.id))
    + (set r | r in rows[StudentMemoryFacts] && r.student == s :: UpsertFact(r.id))
  }

  /** The memories are the validated episodes and the facts. */
  lemma MemoriesAre(rows: Rows, s: Student, op: Operation)
    requires Total(rows)
    ensures op in Memories(rows, s) <==>
              match op
              case UpsertEpisode(id) =>
                exists r :: r in rows[LearningEpisodes] && r.student == s && r.id == id && r.validated
              case UpsertFact(id) => exists r :: r in rows[StudentMemoryFacts] && r.student == s && r.id == id
              case DeleteStudent => false
  {
  }

  /** Which rows an erasure keeps: in the tables of branches and items those whose session is not one
      of the student, in the others those of other students. */
  lemma ErasedRowsAre(before: Rows, after: Rows, s: Student, t: Table, r: Row)
    requires RowsErased(before, after, s) && t != MemoryOutbox
    ensures t != SessionBranches && t != SessionItems ==> (r in after[t] <==> r in before[t] && r.student != s)
    ensures t == SessionBranches || t == SessionItems ==>
              (r in after[t] <==>
               r in before[t] && forall q :: q in before[StudySessions] && q.session == r.session ==> q.student != s)
  {
  }

  /** A completion records that the deletion is verified, that it failed for good if its delete row is
      a dead letter, and otherwise that it is still pending; nothing else about any student. */
  predicate Recorded(before: Db, after: Db, s: Student, verified: bool) {
    && after.deletions == before.deletions[s := if verified then Verified
                                                else if (s, DeleteStudent) in after.outbox
                                                     && after.outbox[(s, DeleteStudent)] == DeadLetter then Failed
                                                else IndexDeletionPending]
    && after.students == if verified then before.students[s := Deleted] else before.students
  }

  /** The delete row was tried once if it was due, and the index follows the attempt. */
  predicate Attempted(before: Db, after: Db, s: Student, due: bool, attempt: Attempt) {
    && after.outbox == (if !due || attempt.AppliedUnmarked? then before.outbox
                        else before.outbox[(s, DeleteStudent) := if attempt.Applied? then Removed else attempt.next])
    && after.index == if !due || attempt.NotApplied? then before.index else set m | m in before.index && m.0 != s
  }

  class MemoryDeletion {
    var students: map<Student, StudentStatus>
    var deletions: map<Student, DeletionState>
    var outbox: map<(Student, Operation), Delivery>
    var index: set<(Student, Operation)>
    var locks: map<Student, Holder>
    var rows: Rows

    constructor (rows: Rows)
      requires Total(rows)
      ensures State() == Empty && this.rows == rows && Valid()
    {
      students, deletions, outbox, index, locks, this.rows := map[], map[], map[], {}, map[], rows;
    }

    ghost function State(): Db
      reads this
    {
      Db(students, deletions, outbox, index, locks)
    }

    ghost predicate Valid()
      reads this
    {
      Inv(State()) && Total(rows)
    }

    method RequestDeletion(s: Student) returns (ok: bool)
      requires Valid() && Free(State(), s)
      modifies this
      ensures Valid() && rows == old(rows)
      ensures ok <==> Enabled(old(State()), Request(s))
      ensures State() == if ok then Apply(old(State()), Request(s)) else old(State())
    {
      if s !in students || students[s] != Active {
        return false;
      }
      StepKeepsInvIfEnabled(State(), Request(s));
      if Requested !in AllowedTransitions(if s in deletions then Some(deletions[s]) else None) {
        return false;
      }
      deletions := deletions[s := Requested];
      students := students[s := DeletionPending];
      ok := true;
    }

    /** The loop over the deletion statements, in dependency order, then the delete row and the
        state change; the illegal transition at the end rolls everything back. */
    method ExecuteSqliteDeletion(s: Student) returns (ok: bool)
      requires Valid() && Free(State(), s)
      modifies this
      ensures Valid()
      ensures ok <==> Enabled(old(State()), Execute(s))
      ensures State() == if ok then Apply(old(State()), Execute(s)) else old(State())
      ensures if ok then RowsErased(old(rows), rows, s) else rows == old(rows)
    {
      var savedRows, savedOutbox := rows, outbox;
      DeletePersonalRows(s);
      outbox := Enqueue(outbox, (s, DeleteStudent));
      if SqliteDeleted !in AllowedTransitions(if s in deletions then Some(deletions[s]) else None) {
        rows, outbox := savedRows, savedOutbox;
        return false;
      }
      StepKeepsInvIfEnabled(old(State()), Execute(s));
      deletions := deletions[s := SqliteDeleted];
      ok := true;
    }

    method DeletePersonalRows(s: Student)
      requires Total(rows)
      modifies this`rows, this`outbox
      ensures RowsErased(old(rows), rows, s)
      ensures outbox == WithoutStudent(old(outbox), s)
    {
      ghost var before := rows;
      for i := 0 to |PG_DELETIONS|
        invariant ErasedUpTo(before, rows, i, s)
        invariant outbox == if MemoryOutbox in PG_DELETIONS[..i] then WithoutStudent(old(outbox), s) else old(outbox)
      {
        var table := PG_DELETIONS[i];
        DeletionOrder(i);
        EraseNext(before, rows, i, s);
        if table == MemoryOutbox {
          outbox := WithoutStudent(outbox, s);
        } else {
          rows := rows[table := Others(rows, table, s)];
        }
      }
      AllErased(before, rows, s);
    }

    /** One delivery of the outbox worker. */
    method Deliver(s: Student, op: Operation, a: Attempt)
      requires Valid() && Due(State(), s, op) && GoodAttempt(a)
      modifies this`index, this`outbox
      ensures Valid()
      ensures State() == Apply(old(State()), AttemptEvent(s, op, a))
    {
      StepKeepsInv(State(), AttemptEvent(s, op, a));
      if !a.NotApplied? {
        if op == DeleteStudent {
          index := set m | m in index && m.0 != s;
        } else {
          index := index + {(s, op)};
        }
      }
      if a.Applied? {
        outbox := outbox[(s, op) := if op == DeleteStudent then Removed else Indexed];
      } else if a.NotApplied? {
        outbox := outbox[(s, op) := a.next];
      }
    }

    /** `canVerify` says whether the index can report what it holds. The result is None for the
        wrong state; a finalization never meets the error it guards against. */
    method CompleteIndexDeletion(s: Student, hasIndex: bool, attempt: Attempt, canVerify: bool)
      returns (r: Option<bool>)
      requires Valid() && Free(State(), s) && GoodAttempt(attempt)
      modifies this
      ensures Valid() && rows == old(rows) && locks == old(locks)
      ensures r.None? <==> StateOf(old(State()), s) !in {Some(SqliteDeleted), Some(IndexDeletionPending)}
      ensures r.None? ==> State() == old(State())
      ensures r.Some? ==> (r == Some(true) <==> !hasIndex || (canVerify && NotIndexed(State(), s)))
      ensures r.Some? ==> Recorded(old(State()), State(), s, r.value)
      ensures r.Some? ==> var due := hasIndex && Due(old(State()), s, DeleteStudent);
                          Attempted(old(State()), State(), s, due, attempt)
    {
      if s !in deletions || (deletions[s] != SqliteDeleted && deletions[s] != IndexDeletionPending) {
        return None;
      }
      ghost var locks0 := locks;
      StepKeepsInv(State(), CompleteBegin(s));
      locks := locks[s := Completing];
      assert locks - {s} == locks0;
      assert StudentInv(State(), s);
      if !hasIndex {
        FinalizeVerified(s, false);
        return Some(true);
      }
      TryDelete(s, attempt);
      var verified := VerifyOrDefer(s, canVerify);
      r := Some(verified);
    }

    /** One more attempt at the delete row, if it is still due. */
    method TryDelete(s: Student, attempt: Attempt)
      requires Valid() && (s, DeleteStudent) in outbox && GoodAttempt(attempt)
      modifies this`index, this`outbox
      ensures Valid() && (s, DeleteStudent) in outbox
      ensures Attempted(old(State()), State(), s, Due(old(State()), s, DeleteStudent), attempt)
    {
      if outbox[(s, DeleteStudent)] == Pending || outbox[(s, DeleteStudent)] == Retrying {
        Deliver(s, DeleteStudent, attempt);
      }
    }

    /** The end of a completion: ask the index, then finalize or record why not. */
    method VerifyOrDefer(s: Student, canVerify: bool) returns (verified: bool)
      requires Valid() && s in locks && locks[s] == Completing
      modifies this`deletions, this`students, this`locks
      ensures Valid() && locks == old(locks) - {s}
      ensures verified <==> canVerify && NotIndexed(State(), s)
      ensures Recorded(old(State()), State(), s, verified)
    {
      assert StudentInv(State(), s);
      verified := canVerify && forall m :: m in index ==> m.0 != s;
      if verified {
        FinalizeVerified(s, true);
      } else {
        var next := if outbox[(s, DeleteStudent)] == DeadLetter then Failed else IndexDeletionPending;
        StepKeepsInv(State(), if next == Failed then MarkFailed(s) else MarkPending(s));
        deletions := deletions[s := next];
        locks := locks - {s};
      }
    }

    method FinalizeVerified(s: Student, ghost hasIndex: bool)
      requires Valid() && Enabled(State(), Finalize(s, hasIndex))
      modifies this`deletions, this`students, this`locks
      ensures Valid()
      ensures State() == Apply(old(State()), Finalize(s, hasIndex))
    {
      StepKeepsInv(State(), Finalize(s, hasIndex));
      deletions := deletions[s := Verified];
      students := students[s := Deleted];
      locks := locks - {s};
    }

    /** Deliver every pending upsert of the student once. */
    method Drain(s: Student, ops: set<Operation>, attempts: Operation -> Attempt)
      requires Valid() && DeleteStudent !in ops
      requires forall op :: op in ops ==> (s, op) in outbox && outbox[(s, op)] == Pending
      requires forall op :: GoodAttempt(attempts(op))
      modifies this`index, this`outbox
      ensures Valid()
      ensures forall m :: m in index <==> m in old(index) || (m.0 == s && m.1 in ops && !attempts(m.1).NotApplied?)
    {
      var todo := ops;
      while todo != {}
        invariant todo <= ops && Valid()
        invariant forall op :: op in todo ==> (s, op) in outbox && outbox[(s, op)] == Pending
        invariant forall m :: m in index <==>
                    m in old(index) || (m.0 == s && m.1 in ops && m.1 !in todo && !attempts(m.1).NotApplied?)
        decreases |todo|
      {
        var op :| op in todo;
        DeliverUpsert(s, op, attempts(op));
        todo := todo - {op};
      }
    }

    method DeliverUpsert(s: Student, op: Operation, a: Attempt)
      requires Valid() && op != DeleteStudent && GoodAttempt(a)
      requires (s, op) in outbox && outbox[(s, op)] == Pending
      modifies this`index, this`outbox
      ensures Valid()
      ensures forall m :: m in index <==> m in old(index) || (m == (s, op) && !a.NotApplied?)
      ensures outbox.Keys == old(outbox).Keys && forall k :: k in outbox && k != (s, op) ==> outbox[k] == old(outbox)[k]
    {
      Deliver(s, op, a);
    }

    /** Delete first, deliver the delete, and only then enqueue and deliver what the tables hold.
        When every delivery succeeds the index holds exactly the student's memories. */
    method RebuildStudent(s: Student, first: Attempt, attempts: Operation -> Attempt) returns (r: Option<bool>)
      requires Valid() && Free(State(), s) && GoodAttempt(first)
      requires forall op :: GoodAttempt(attempts(op))
      modifies this`outbox, this`index, this`locks
      ensures Valid() && locks == old(locks)
      ensures r.None? <==> !Guarded(old(State()), s)
      ensures r.None? ==> State() == old(State())
      ensures r == Some(true) <==> Guarded(old(State()), s) && first == Applied
      ensures r == Some(true) ==>
                forall op :: (s, op) in index <==> op in Memories(rows, s) && !attempts(op).NotApplied?
      ensures forall m: (Student, Operation) :: m.0 != s ==> (m in index <==> m in old(index))
    {
      if s !in students || students[s] != Active || s in deletions {
        return None;
      }
      ghost var locks0 := locks;
      var deleted := RebuildDelete(s, first);
      if deleted {
        RebuildUpserts(s, attempts);
      }
      StepKeepsInv(State(), Unlock(s));
      locks := locks - {s};
      assert locks == locks0;
      r := Some(deleted);
    }

    /** Phase one commits only the delete row and delivers it. */
    method RebuildDelete(s: Student, first: Attempt) returns (deleted: bool)
      requires Valid() && Free(State(), s) && Guarded(State(), s) && GoodAttempt(first)
      modifies this`outbox, this`index, this`locks
      ensures Valid() && locks == old(locks)[s := Rebuilding]
      ensures deleted <==> first == Applied
      ensures deleted <==> DeleteRow(State(), s) == Some(Removed)
      ensures deleted ==> NotIndexed(State(), s)
      ensures forall k :: k in outbox && k.0 == s ==> k.1 == DeleteStudent
      ensures forall m: (Student, Operation) :: m.0 != s ==> (m in index <==> m in old(index))
    {
      StepKeepsInv(State(), RebuildBegin(s));
      outbox := Enqueue(WithoutStudent(outbox, s), (s, DeleteStudent));
      locks := locks[s := Rebuilding];
      Deliver(s, DeleteStudent, first);
      deleted := outbox[(s, DeleteStudent)] == Removed;
    }

    /** Phase two enqueues what the tables hold and drains the worker. */
    method RebuildUpserts(s: Student, attempts: Operation -> Attempt)
      requires Valid() && Enabled(State(), RebuildEnqueue(s, Memories(rows, s)))
      requires forall k :: k in outbox && k.0 == s ==> k.1 == DeleteStudent
      requires forall op :: GoodAttempt(attempts(op))
      modifies this`outbox, this`index
      ensures Valid()
      ensures forall m :: m in index <==>
                m in old(index) || (m.0 == s && m.1 in Memories(rows, s) && !attempts(m.1).NotApplied?)
    {
      var ops := Memories(rows, s);
      StepKeepsInv(State(), RebuildEnqueue(s, ops));
      outbox := EnqueueAll(outbox, s, ops);
      Drain(s, ops, attempts);
    }
  }

  lemma StepKeepsInvIfEnabled(db: Db, e: Event)
    requires Inv(db)
    ensures Enabled(db, e) ==> Inv(Apply(db, e))
  {
    if Enabled(db, e) {
      StepKeepsInv(db, e);
    }
  }

  /** The first tables of the list are erased, the others untouched. */
  ghost predicate ErasedUpTo(before: Rows, now: Rows, i: nat, s: Student)
    requires i <= |PG_DELETIONS|
  {
    && Total(before) && Total(now)
    && forall t: Table ::
         now[t] == if t != MemoryOutbox && t in PG_DELETIONS[..i] then Others(before, t, s) else before[t]
  }

  lemma AllErased(before: Rows, now: Rows, s: Student)
    requires ErasedUpTo(before, now, |PG_DELETIONS|, s)
    ensures RowsErased(before, now, s) && MemoryOutbox in PG_DELETIONS[..|PG_DELETIONS|]
  {
    forall t: Table
      ensures t in PG_DELETIONS[..|PG_DELETIONS|]
    {
      DeletionsCoverTables(t);
      assert PG_DELETIONS[..|PG_DELETIONS|] == PG_DELETIONS;
    }
  }

  lemma EraseNext(before: Rows, now: Rows, i: nat, s: Student)
    requires i < |PG_DELETIONS| && ErasedUpTo(before, now, i, s)
    ensures var table := PG_DELETIONS[i];
            && ErasedUpTo(before, if table == MemoryOutbox then now else now[table := Others(now, table, s)], i + 1, s)
            && forall t :: t in PG_DELETIONS[..i + 1] <==> t in PG_DELETIONS[..i] || t == table
  {
    var table := PG_DELETIONS[i];
    DeletionOrder(i);
    assert PG_DELETIONS[..i + 1] == PG_DELETIONS[..i] + [table];
    SameOwners(before, now, table, s);
  }

  /** As long as the session rows are there, ownership reads the same. */
  lemma SameOwners(before: Rows, now: Rows, t: Table, s: Student)
    requires Total(before) && Total(now)
    requires now[t] == before[t]
    requires BySession(t) ==> now[StudySessions] == before[StudySessions]
    ensures Others(now, t, s) == Others(before, t, s)
  {
  }
}

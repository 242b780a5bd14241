/** Student memory deletion (app/memory/deletion.py) together with the writers it must stop:
    guarded episode and fact writes (app/memory/episode_builder.py), outbox delivery
    (app/memory/worker.py) and the two-phase rebuild (scripts/rebuild_memory_index.py). One step
    is one committed transaction or one delivery; a session-level lock per student spans the
    transactions of a rebuild and of a completion, and a crash just drops it. */
module Deletion {
  import opened Common

  type Student = string

  datatype StudentStatus = Active | DeletionPending | Deleted

  datatype DeletionState = Requested | SqliteDeleted | IndexDeletionPending | Verified | Failed

  datatype Operation = DeleteStudent | UpsertEpisode(episodeId: string) | UpsertFact(factId: string)

  /** Status of an outbox row; `Removed` is the terminal "deleted" of a delete row. */
  datatype Delivery = Pending | Retrying | DeadLetter | Indexed | Removed

  /** Who holds the student's advisory lock between two transactions. */
  datatype Holder = Rebuilding | Completing

  /** The committed tables that the protocol ties together, the derived index, and the locks.
      `upserts` of a student are keyed like the idempotency key. */
  datatype Db = Db(
    students: map<Student, StudentStatus>,
    deletions: map<Student, DeletionState>,
    outbox: map<(Student, Operation), Delivery>,
    index: set<(Student, Operation)>,
    locks: map<Student, Holder>)

  // ---- _ALLOWED_TRANSITIONS

  function AllowedTransitions(current: Option<DeletionState>): set<DeletionState> {
    match current
    case None => {Requested}
    case Some(Requested) => {Requested, SqliteDeleted}
    case Some(SqliteDeleted) => {SqliteDeleted, IndexDeletionPending, Verified, Failed}
    case Some(IndexDeletionPending) => {IndexDeletionPending, Verified, Failed}
    case Some(Verified) => {Verified}
    case Some(Failed) => {Failed}
  }

  function StateOf(db: Db, s: Student): Option<DeletionState> {
    if s in db.deletions then Some(db.deletions[s]) else None
  }

  predicate MaySet(db: Db, s: Student, state: DeletionState) {
    state in AllowedTransitions(StateOf(db, s))
  }

  function Progress(state: Option<DeletionState>): nat {
    match state
    case None => 0
    case Some(Requested) => 1
    case Some(SqliteDeleted) => 2
    case Some(IndexDeletionPending) => 3
    case Some(Verified) => 4
    case Some(Failed) => 4
  }

  /** Personal rows have been removed. */
  predicate Erased(db: Db, s: Student) {
    s in db.deletions && db.deletions[s] != Requested
  }

  predicate Guarded(db: Db, s: Student) {
    s in db.students && db.students[s] == Active && s !in db.deletions
  }

  /** Delivery status of the student's delete row. */
  function DeleteRow(db: Db, s: Student): Option<Delivery> {
    if (s, DeleteStudent) in db.outbox then Some(db.outbox[(s, DeleteStudent)]) else None
  }

  predicate Free(db: Db, s: Student) {
    s !in db.locks
  }

  // ---- outbox helpers

  function WithoutStudent(outbox: map<(Student, Operation), Delivery>, s: Student): map<(Student, Operation), Delivery>
  {
    map k | k in outbox && k.0 != s :: outbox[k]
  }

  /** `ON CONFLICT (idempotency_key) DO NOTHING`. */
  function Enqueue(outbox: map<(Student, Operation), Delivery>, k: (Student, Operation)):
      map<(Student, Operation), Delivery>
  {
    if k in outbox then outbox else outbox[k := Pending]
  }

  function EnqueueAll(outbox: map<(Student, Operation), Delivery>, s: Student, ops: set<Operation>):
      map<(Student, Operation), Delivery>
  {
    map k | k in outbox.Keys + (set op | op in ops :: (s, op)) :: if k in outbox then outbox[k] else Pending
  }

  predicate Due(db: Db, s: Student, op: Operation) {
    (s, op) in db.outbox && (db.outbox[(s, op)] == Pending || db.outbox[(s, op)] == Retrying)
  }

  function IndexAfter(db: Db, s: Student, op: Operation): set<(Student, Operation)> {
    if op == DeleteStudent then set m | m in db.index && m.0 != s else db.index + {(s, op)}
  }

  // ---- the transactions

  datatype Event =
    | CreateStudent(s: Student)
    | Request(s: Student)
    | Execute(s: Student)
    | Write(s: Student, op: Operation)
    | RebuildBegin(s: Student)
    | RebuildEnqueue(s: Student, ops: set<Operation>)
    | CompleteBegin(s: Student)
    | Finalize(s: Student, hasIndex: bool)
    | MarkFailed(s: Student)
    | MarkPending(s: Student)
    | Unlock(s: Student)
    | Delivered(s: Student, op: Operation)
    | DeliveredUnmarked(s: Student, op: Operation)
    | NotDelivered(s: Student, op: Operation, next: Delivery)

  /** When the code lets the transaction commit. */
  predicate Enabled(db: Db, e: Event) {
    match e
    case CreateStudent(s) => s !in db.students
    case Request(s) => Free(db, s) && s in db.students && db.students[s] == Active && MaySet(db, s, Requested)
    case Execute(s) => Free(db, s) && MaySet(db, s, SqliteDeleted)
    case Write(s, op) => Free(db, s) && Guarded(db, s) && op != DeleteStudent
    case RebuildBegin(s) => Free(db, s) && Guarded(db, s)
    case RebuildEnqueue(s, ops) =>
      && s in db.locks && db.locks[s] == Rebuilding
      && DeleteRow(db, s) == Some(Removed) && DeleteStudent !in ops
    case CompleteBegin(s) => Free(db, s) && StateOf(db, s) in {Some(SqliteDeleted), Some(IndexDeletionPending)}
    case Finalize(s, hasIndex) =>
      && s in db.locks && db.locks[s] == Completing && MaySet(db, s, Verified)
      && s in db.students && db.students[s] == DeletionPending
      && (hasIndex ==> forall m :: m in db.index ==> m.0 != s)
    case MarkFailed(s) =>
      && s in db.locks && db.locks[s] == Completing && MaySet(db, s, Failed)
      && DeleteRow(db, s) == Some(DeadLetter)
    case MarkPending(s) => s in db.locks && db.locks[s] == Completing && MaySet(db, s, IndexDeletionPending)
    case Unlock(s) => s in db.locks
    case Delivered(s, op) => Due(db, s, op)
    case DeliveredUnmarked(s, op) => Due(db, s, op)
    case NotDelivered(s, op, next) => Due(db, s, op) && (next == Retrying || next == DeadLetter)
  }

  function Apply(db: Db, e: Event): Db
    requires Enabled(db, e)
  {
    match e
    case CreateStudent(s) => db.(students := db.students[s := Active])
    case Request(s) => db.(students := db.students[s := DeletionPending], deletions := db.deletions[s := Requested])
    case Execute(s) =>
      db.(outbox := Enqueue(WithoutStudent(db.outbox, s), (s, DeleteStudent)),
          deletions := db.deletions[s := SqliteDeleted])
    case Write(s, op) => db.(outbox := Enqueue(db.outbox, (s, op)))
    case RebuildBegin(s) =>
      db.(outbox := Enqueue(WithoutStudent(db.outbox, s), (s, DeleteStudent)), locks := db.locks[s := Rebuilding])
    case RebuildEnqueue(s, ops) => db.(outbox := EnqueueAll(db.outbox, s, ops))
    case CompleteBegin(s) => db.(locks := db.locks[s := Completing])
    case Finalize(s, _) =>
      db.(deletions := db.deletions[s := Verified], students := db.students[s := Deleted], locks := db.locks - {s})
    case MarkFailed(s) => db.(deletions := db.deletions[s := Failed], locks := db.locks - {s})
    case MarkPending(s) => db.(deletions := db.deletions[s := IndexDeletionPending], locks := db.locks - {s})
    case Unlock(s) => db.(locks := db.locks - {s})
    case Delivered(s, op) =>
      db.(index := IndexAfter(db, s, op),
          outbox := db.outbox[(s, op) := if op == DeleteStudent then Removed else Indexed])
    case DeliveredUnmarked(s, op) => db.(index := IndexAfter(db, s, op))
    case NotDelivered(s, op, next) => db.(outbox := db.outbox[(s, op) := next])
  }

  // ---- the invariant

  /** The rows of one student agree with each other. */
  ghost predicate StudentInv(db: Db, s: Student) {
    && (s in db.deletions ==> s in db.students)
    && (s in db.students ==> (db.students[s] == Active <==> s !in db.deletions))
    && (s in db.students ==> (db.students[s] == Deleted <==> StateOf(db, s) == Some(Verified)))
    && (s in db.locks ==> if db.locks[s] == Rebuilding then Guarded(db, s)
                          else StateOf(db, s) == Some(SqliteDeleted) || StateOf(db, s) == Some(IndexDeletionPending))
    && (Erased(db, s) ==> OnlyDeleteRow(db, s))
    && (Erased(db, s) && DeleteRow(db, s) == Some(Removed) ==> NotIndexed(db, s))
    && DeleteRow(db, s) != Some(Indexed)
  }

  predicate OnlyDeleteRow(db: Db, s: Student) {
    (s, DeleteStudent) in db.outbox && forall k :: k in db.outbox && k.0 == s ==> k.1 == DeleteStudent
  }

  predicate NotIndexed(db: Db, s: Student) {
    forall m :: m in db.index ==> m.0 != s
  }

  ghost predicate Inv(db: Db) {
    forall s :: StudentInv(db, s)
  }

  const Empty := Db(map[], map[], map[], {}, map[])

  function StatusOf(db: Db, s: Student): Option<StudentStatus> {
    if s in db.students then Some(db.students[s]) else None
  }

  function HolderOf(db: Db, s: Student): Option<Holder> {
    if s in db.locks then Some(db.locks[s]) else None
  }

  /** The two databases hold the same about the student in every table, the index and the locks. */
  ghost predicate SameRows(db: Db, db': Db, s: Student) {
    && StatusOf(db', s) == StatusOf(db, s) && StateOf(db', s) == StateOf(db, s) && HolderOf(db', s) == HolderOf(db, s)
    && (forall op :: (s, op) in db'.outbox <==> (s, op) in db.outbox)
    && (forall op :: (s, op) in db.outbox ==> db'.outbox[(s, op)] == db.outbox[(s, op)])
    && (forall op :: (s, op) in db'.index <==> (s, op) in db.index)
  }

  /** A transaction leaves every other student's rows alone. */
  lemma OthersUntouched(db: Db, e: Event, s: Student)
    requires Enabled(db, e) && s != e.s
    ensures SameRows(db, Apply(db, e), s)
  {
  }

  /** The invariant speaks of the rows of one student only. */
  lemma SameRowsSameInv(db: Db, db': Db, s: Student)
    requires SameRows(db, db', s) && StudentInv(db, s)
    ensures StudentInv(db', s)
    ensures NotIndexed(db, s) ==> NotIndexed(db', s)
  {
    if NotIndexed(db, s) {
      forall m | m in db'.index
        ensures m.0 != s
      {
        assert (m.0, m.1) == m;
      }
    }
    if OnlyDeleteRow(db, s) {
      forall k | k in db'.outbox && k.0 == s
        ensures k.1 == DeleteStudent
      {
        assert (k.0, k.1) == k;
      }
    }
  }

  lemma OwnInv(db: Db, e: Event)
    requires Enabled(db, e) && StudentInv(db, e.s)
    ensures StudentInv(Apply(db, e), e.s)
  {
  }

  lemma StepKeepsInv(db: Db, e: Event)
    requires Inv(db) && Enabled(db, e)
    ensures Inv(Apply(db, e))
  {
    forall s
      ensures StudentInv(Apply(db, e), s)
    {
      if s == e.s {
        OwnInv(db, e);
      } else {
        OthersUntouched(db, e, s);
        SameRowsSameInv(db, Apply(db, e), s);
      }
    }
  }

  /** The deletion state moves forward along the allowed transitions, and a terminal state is
      final. */
  lemma StepMovesForward(db: Db, e: Event, s: Student)
    requires Inv(db) && Enabled(db, e)
    ensures Progress(StateOf(db, s)) <= Progress(StateOf(Apply(db, e), s))
    ensures StateOf(db, s) in {Some(Verified), Some(Failed)} ==> StateOf(Apply(db, e), s) == StateOf(db, s)
    ensures StateOf(Apply(db, e), s) != StateOf(db, s) ==>
            StateOf(Apply(db, e), s).Some? && MaySet(db, s, StateOf(Apply(db, e), s).value)
  {
    assert StudentInv(db, s);
  }

  /** After erasure nothing can fill the index again. */
  lemma StepKeepsIndexEmpty(db: Db, e: Event, s: Student)
    requires Inv(db) && Enabled(db, e)
    requires Erased(db, s) && NotIndexed(db, s)
    ensures NotIndexed(Apply(db, e), s)
  {
    assert StudentInv(db, s);
  }

  // ---- the transactions in plain terms

  function RowOf(db: Db, s: Student, op: Operation): Option<Delivery> {
    if (s, op) in db.outbox then Some(db.outbox[(s, op)]) else None
  }

  /** When each transaction can commit, in terms of the student's own rows: a deletion can be asked
      for while the student is active, erasing is possible until a completion has begun to record its
      result, a completion starts in two states, and only it verifies, defers or fails. */
  lemma EnabledIff(db: Db, e: Event)
    requires Inv(db)
    ensures var status, state, holder := StatusOf(db, e.s), StateOf(db, e.s), HolderOf(db, e.s);
            var row := RowOf(db, e.s, DeleteStudent);
            Enabled(db, e) <==>
              match e
              case CreateStudent(_) => status == None
              case Request(_) => holder == None && status == Some(Active)
              case Execute(_) => holder == None && (state == Some(Requested) || state == Some(SqliteDeleted))
              case Write(_, op) => holder == None && status == Some(Active) && op != DeleteStudent
              case RebuildBegin(_) => holder == None && status == Some(Active)
              case RebuildEnqueue(_, ops) =>
                holder == Some(Rebuilding) && row == Some(Removed) && DeleteStudent !in ops
              case CompleteBegin(_) =>
                holder == None && (state == Some(SqliteDeleted) || state == Some(IndexDeletionPending))
              case Finalize(s, hasIndex) => holder == Some(Completing) && (hasIndex ==> NotIndexed(db, s))
              case MarkFailed(_) => holder == Some(Completing) && row == Some(DeadLetter)
              case MarkPending(_) => holder == Some(Completing)
              case Unlock(_) => holder != None
              case Delivered(s, op) => RowOf(db, s, op) in {Some(Pending), Some(Retrying)}
              case DeliveredUnmarked(s, op) => RowOf(db, s, op) in {Some(Pending), Some(Retrying)}
              case NotDelivered(s, op, next) =>
                RowOf(db, s, op) in {Some(Pending), Some(Retrying)} && next in {Retrying, DeadLetter}
  {
    assert StudentInv(db, e.s);
  }

  /** What each transaction does to status, state and lock of its student. */
  lemma StatesAfter(db: Db, e: Event)
    requires Enabled(db, e)
    ensures var db' := Apply(db, e);
            && StatusOf(db', e.s) == (match e
                                      case CreateStudent(_) => Some(Active)
                                      case Request(_) => Some(DeletionPending)
                                      case Finalize(_, _) => Some(Deleted)
                                      case _ => StatusOf(db, e.s))
            && StateOf(db', e.s) == (match e
                                     case Request(_) => Some(Requested)
                                     case Execute(_) => Some(SqliteDeleted)
                                     case Finalize(_, _) => Some(Verified)
                                     case MarkFailed(_) => Some(Failed)
                                     case MarkPending(_) => Some(IndexDeletionPending)
                                     case _ => StateOf(db, e.s))
            && HolderOf(db', e.s) == (match e
                                      case RebuildBegin(_) => Some(Rebuilding)
                                      case CompleteBegin(_) => Some(Completing)
                                      case Finalize(_, _) => None
                                      case MarkFailed(_) => None
                                      case MarkPending(_) => None
                                      case Unlock(_) => None
                                      case _ => HolderOf(db, e.s))
  {
  }

  /** What it does to an outbox row of its student: erasing and a rebuild leave nothing but a fresh
      delete row, a write adds a row unless there is one, and only a delivery changes one. */
  lemma RowAfter(db: Db, e: Event, op: Operation)
    requires Enabled(db, e)
    ensures RowOf(Apply(db, e), e.s, op) ==
            match e
            case Execute(_) => if op == DeleteStudent then Some(Pending) else None
            case RebuildBegin(_) => if op == DeleteStudent then Some(Pending) else None
            case Write(s, written) =>
              if op == written && RowOf(db, s, op) == None then Some(Pending) else RowOf(db, s, op)
            case RebuildEnqueue(s, ops) =>
              if op in ops && RowOf(db, s, op) == None then Some(Pending) else RowOf(db, s, op)
            case Delivered(s, delivered) =>
              if op != delivered then RowOf(db, s, op)
              else if op == DeleteStudent then Some(Removed)
              else Some(Indexed)
            case NotDelivered(s, failed, next) => if op == failed then Some(next) else RowOf(db, s, op)
            case _ => RowOf(db, e.s, op)
  {
  }

  /** What it does to a memory of its student in the index: only deliveries change it, that of the
      delete row takes it out, that of the memory puts it in, whether or not the row is marked. */
  lemma MemoryAfter(db: Db, e: Event, op: Operation)
    requires Enabled(db, e) && op != DeleteStudent
    ensures (e.s, op) in Apply(db, e).index <==>
              if (e.Delivered? || e.DeliveredUnmarked?) && e.op == DeleteStudent then false
              else (e.s, op) in db.index || ((e.Delivered? || e.DeliveredUnmarked?) && e.op == op)
  {
  }

  // ---- runs

  ghost predicate Run(dbs: seq<Db>, es: seq<Event>) {
    && |dbs| == |es| + 1 && dbs[0] == Empty
    && forall i :: 0 <= i < |es| ==> Enabled(dbs[i], es[i]) && dbs[i + 1] == Apply(dbs[i], es[i])
  }

  lemma {:induction false} RunKeepsInv(dbs: seq<Db>, es: seq<Event>, i: nat)
    requires Run(dbs, es) && i < |dbs|
    ensures Inv(dbs[i])
  {
    if i > 0 {
      RunKeepsInv(dbs, es, i - 1);
      assert dbs[i - 1 + 1] == Apply(dbs[i - 1], es[i - 1]);
      StepKeepsInv(dbs[i - 1], es[i - 1]);
    }
  }

  lemma {:induction false} RunMovesForward(dbs: seq<Db>, es: seq<Event>, i: nat, j: nat, s: Student)
    requires Run(dbs, es) && i <= j < |dbs|
    ensures Progress(StateOf(dbs[i], s)) <= Progress(StateOf(dbs[j], s))
    ensures StateOf(dbs[i], s) in {Some(Verified), Some(Failed)} ==> StateOf(dbs[j], s) == StateOf(dbs[i], s)
    decreases j - i
  {
    if i < j {
      RunKeepsInv(dbs, es, i);
      assert dbs[i + 1] == Apply(dbs[i], es[i]);
      StepMovesForward(dbs[i], es[i], s);
      RunMovesForward(dbs, es, i + 1, j, s);
    }
  }

  lemma {:induction false} RunKeepsIndexEmpty(dbs: seq<Db>, es: seq<Event>, i: nat, j: nat, s: Student)
    requires Run(dbs, es) && i <= j < |dbs|
    requires Erased(dbs[i], s) && NotIndexed(dbs[i], s)
    ensures Erased(dbs[j], s) && NotIndexed(dbs[j], s)
    decreases j - i
  {
    if i < j {
      RunKeepsInv(dbs, es, i);
      assert dbs[i + 1] == Apply(dbs[i], es[i]);
      StepMovesForward(dbs[i], es[i], s);
      StepKeepsIndexEmpty(dbs[i], es[i], s);
      RunKeepsIndexEmpty(dbs, es, i + 1, j, s);
    }
  }

  /** Deletion never resurrects. Over any interleaving of requests, executions, guarded writes,
      rebuilds, deliveries, failures and crashes: status and deletion row agree; after the
      erasing transaction the outbox holds only the delete row; and once that row has been
      delivered the index is empty for the student in every later state. */
  lemma DeletionNeverResurrects(dbs: seq<Db>, es: seq<Event>, i: nat, j: nat, s: Student)
    requires Run(dbs, es) && i <= j < |dbs|
    requires s in dbs[i].students
    ensures dbs[i].students[s] == Active <==> s !in dbs[i].deletions
    ensures dbs[i].students[s] == Deleted <==> StateOf(dbs[i], s) == Some(Verified)
    ensures Erased(dbs[i], s) ==> Erased(dbs[j], s) && OnlyDeleteRow(dbs[j], s)
    ensures Erased(dbs[i], s) && DeleteRow(dbs[i], s) == Some(Removed) ==> NotIndexed(dbs[j], s)
  {
    RunKeepsInv(dbs, es, i);
    RunKeepsInv(dbs, es, j);
    RunMovesForward(dbs, es, i, j, s);
    assert StudentInv(dbs[i], s) && StudentInv(dbs[j], s);
    if Erased(dbs[i], s) && DeleteRow(dbs[i], s) == Some(Removed) {
      RunKeepsIndexEmpty(dbs, es, i, j, s);
    }
  }

  /** The finalization of a completion that began never meets its own error: the state table
      allows it and the student is deletion_pending. */
  lemma FinalizationNeverRaises(dbs: seq<Db>, es: seq<Event>, i: nat, s: Student)
    requires Run(dbs, es) && i < |dbs|
    requires s in dbs[i].locks && dbs[i].locks[s] == Completing
    ensures Enabled(dbs[i], Finalize(s, false))
    ensures NotIndexed(dbs[i], s) ==> Enabled(dbs[i], Finalize(s, true))
    ensures Enabled(dbs[i], MarkPending(s))
  {
    RunKeepsInv(dbs, es, i);
    assert StudentInv(dbs[i], s);
  }

  // ---- verified means gone, if the index was asked

  /** A completion that has an index to ask verifies only an empty one, for good. */
  lemma VerifiedByIndexMeansGone(dbs: seq<Db>, es: seq<Event>, i: nat, j: nat, s: Student)
    requires Run(dbs, es) && i < |es| && i < j < |dbs|
    requires es[i] == Finalize(s, true)
    ensures StateOf(dbs[j], s) == Some(Verified) && NotIndexed(dbs[j], s)
  {
    assert dbs[i + 1] == Apply(dbs[i], es[i]) && Enabled(dbs[i], es[i]);
    RunMovesForward(dbs, es, i + 1, j, s);
    RunKeepsIndexEmpty(dbs, es, i + 1, j, s);
  }

  lemma Extend(dbs: seq<Db>, es: seq<Event>, e: Event) returns (dbs': seq<Db>, es': seq<Event>)
    requires Run(dbs, es) && Enabled(dbs[|es|], e)
    ensures Run(dbs', es') && |es'| == |es| + 1
    ensures dbs'[|es'|] == Apply(dbs[|es|], e)
  {
    dbs', es' := dbs + [Apply(dbs[|es|], e)], es + [e];
  }

  /** A memory is written and delivered to the index. */
  lemma IndexedMemory(s: Student, op: Operation) returns (dbs: seq<Db>, es: seq<Event>)
    requires op != DeleteStudent
    ensures Run(dbs, es) && var db := dbs[|es|];
            Guarded(db, s) && Free(db, s) && (s, op) in db.index
  {
    dbs, es := [Empty], [];
    dbs, es := Extend(dbs, es, CreateStudent(s));
    dbs, es := Extend(dbs, es, Write(s, op));
    dbs, es := Extend(dbs, es, Delivered(s, op));
  }

  /** Without one (`index is None`) the deletion is reported verified although memories are
      still indexed: the delete row was never delivered. */
  lemma VerifiedWithoutIndexCanKeepMemories(s: Student, op: Operation) returns (dbs: seq<Db>, es: seq<Event>)
    requires op != DeleteStudent
    ensures Run(dbs, es) && var db := dbs[|es|];
            StateOf(db, s) == Some(Verified) && !NotIndexed(db, s)
  {
    dbs, es := IndexedMemory(s, op);
    dbs, es := Extend(dbs, es, Request(s));
    dbs, es := Extend(dbs, es, Execute(s));
    dbs, es := Extend(dbs, es, CompleteBegin(s));
    assert (s, op) in dbs[|es|].index;
    dbs, es := Extend(dbs, es, Finalize(s, false));
    assert (s, op) in dbs[|es|].index;
  }

  // ---- exactly when verified means gone

  /** The last delivery about the student, if there was one, put a memory into the index. */
  predicate MemoryDeliveredLast(es: seq<Event>, s: Student) {
    if es == [] then false
    else
      match es[|es| - 1]
      case Delivered(t, op) => if t == s then op != DeleteStudent else MemoryDeliveredLast(es[..|es| - 1], s)
      case DeliveredUnmarked(t, op) =>
        if t == s then op != DeleteStudent else MemoryDeliveredLast(es[..|es| - 1], s)
      case _ => MemoryDeliveredLast(es[..|es| - 1], s)
  }

  /** Only deliveries about the student change what the index holds about the student. */
  lemma StepIndex(db: Db, e: Event, s: Student)
    requires Enabled(db, e)
    ensures NotIndexed(Apply(db, e), s) <==>
              if (e.Delivered? || e.DeliveredUnmarked?) && e.s == s then e.op == DeleteStudent else NotIndexed(db, s)
  {
    if (e.Delivered? || e.DeliveredUnmarked?) && e.op != DeleteStudent {
      assert (e.s, e.op) in Apply(db, e).index;
    } else if e.Delivered? || e.DeliveredUnmarked? {
      if !NotIndexed(db, s) && e.s != s {
        var m :| m in db.index && m.0 == s;
        assert m in Apply(db, e).index;
      }
    }
  }

  /** Over any run the index holds something about the student exactly if the last delivery
      about the student was one of a memory. */
  lemma {:induction false} IndexFollowsDeliveries(dbs: seq<Db>, es: seq<Event>, i: nat, s: Student)
    requires Run(dbs, es) && i < |dbs|
    ensures NotIndexed(dbs[i], s) <==> !MemoryDeliveredLast(es[..i], s)
  {
    if i > 0 {
      IndexFollowsDeliveries(dbs, es, i - 1, s);
      assert dbs[i - 1 + 1] == Apply(dbs[i - 1], es[i - 1]) && Enabled(dbs[i - 1], es[i - 1]);
      StepIndex(dbs[i - 1], es[i - 1], s);
      assert es[..i][..i - 1] == es[..i - 1];
    }
  }

  /** A verified student is gone in every later state exactly if the last delivery before the
      verification was not one of a memory; asking the index, or having marked the delete row
      as delivered, is enough. */
  lemma {:induction false} VerifiedMeansGoneIff(dbs: seq<Db>, es: seq<Event>, i: nat, s: Student, hasIndex: bool)
    requires Run(dbs, es) && i < |es| && es[i] == Finalize(s, hasIndex)
    ensures (forall j :: i < j < |dbs| ==> NotIndexed(dbs[j], s)) <==> !MemoryDeliveredLast(es[..i], s)
    ensures hasIndex || DeleteRow(dbs[i], s) == Some(Removed) ==> !MemoryDeliveredLast(es[..i], s)
  {
    assert dbs[i + 1] == Apply(dbs[i], es[i]) && Enabled(dbs[i], es[i]);
    IndexFollowsDeliveries(dbs, es, i, s);
    StepIndex(dbs[i], es[i], s);
    RunKeepsInv(dbs, es, i);
    assert StudentInv(dbs[i], s);
    if NotIndexed(dbs[i], s) {
      forall j | i < j < |dbs|
        ensures NotIndexed(dbs[j], s)
      {
        RunKeepsIndexEmpty(dbs, es, i + 1, j, s);
      }
    }
  }
}

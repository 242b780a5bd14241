/** The migration runner of app/infrastructure/migration_runner.py: each migration in its own
    transaction (app/infrastructure/pg.py), concurrent runners serialized by one session lock. */
module Migrations {
  import opened Common

  type Version = nat

  /** File names sort by their four-digit version; no two migrations share one. */
  ghost predicate Increasing(ms: seq<Version>) {
    forall i, j :: 0 <= i < j < |ms| ==> ms[i] < ms[j]
  }

  /** The migrations of the list that this build supports. */
  function Supported(ms: seq<Version>, target: Version): seq<Version> {
    if ms == [] then []
    else
      var init := Supported(ms[..|ms| - 1], target);
      if ms[|ms| - 1] <= target then init + [ms[|ms| - 1]] else init
  }

  /** `[m for m in available if m not in applied and m <= target]`. */
  function Pending(ms: seq<Version>, target: Version, applied: set<Version>): seq<Version> {
    if ms == [] then []
    else
      var init := Pending(ms[..|ms| - 1], target, applied);
      if ms[|ms| - 1] !in applied && ms[|ms| - 1] <= target then init + [ms[|ms| - 1]] else init
  }

  /** The schema after the migrations `ms`, in order. */
  function Fold<S>(migrate: (S, Version) -> S, s: S, ms: seq<Version>): S {
    if ms == [] then s else migrate(Fold(migrate, s, ms[..|ms| - 1]), ms[|ms| - 1])
  }

  function Versions(ms: seq<Version>): set<Version> {
    set v | v in ms
  }

  /** The committed database has run exactly the first `n` supported migrations, in order. */
  ghost predicate AtPrefix<S>(migrate: (S, Version) -> S, initial: S, supported: seq<Version>, schema: S,
                              applied: set<Version>, n: nat)
  {
    && n <= |supported|
    && applied == Versions(supported[..n])
    && schema == Fold(migrate, initial, supported[..n])
  }

  lemma {:induction false} SupportedAre(ms: seq<Version>, target: Version)
    requires Increasing(ms)
    ensures forall v :: v in Supported(ms, target) <==> v in ms && v <= target
    ensures Increasing(Supported(ms, target))
  {
    if ms != [] {
      var init := ms[..|ms| - 1];
      SupportedAre(init, target);
      assert ms == init + [ms[|ms| - 1]];
      forall v | v in init
        ensures v < ms[|ms| - 1]
      {
        var i :| 0 <= i < |init| && init[i] == v;
        assert ms[i] < ms[|ms| - 1];
      }
      var s := Supported(init, target);
      assert forall i :: 0 <= i < |s| ==> s[i] in s;
    }
  }

  /** With a prefix applied, what is pending is the rest of the list. */
  lemma {:induction false} PendingIsRest(ms: seq<Version>, target: Version, applied: set<Version>, n: nat)
    requires Increasing(ms) && n <= |Supported(ms, target)|
    requires forall v :: v in Supported(ms, target) ==> (v in applied <==> v in Supported(ms, target)[..n])
    ensures Pending(ms, target, applied) == Supported(ms, target)[n..]
  {
    if ms != [] {
      var init := ms[..|ms| - 1];
      var v := ms[|ms| - 1];
      SupportedAre(ms, target);
      var s := Supported(init, target);
      if v > target {
        PendingIsRest(init, target, applied, n);
      } else {
        var all := s + [v];
        assert all[|s|] == v;
        if n == |all| {
          assert all[..n] == all;
          assert s[..|s|] == s;
          PendingIsRest(init, target, applied, |s|);
        } else {
          assert all[..n] == s[..n];
          LastNotEarlier(all, n);
          PendingIsRest(init, target, applied, n);
          assert all[n..] == s[n..] + [v];
        }
      }
    }
  }

  lemma LastNotEarlier(all: seq<Version>, n: nat)
    requires Increasing(all) && n < |all|
    ensures all[|all| - 1] !in all[..n]
    ensures all[|all| - 1] in all
  {
  }

  lemma PrefixStep<S>(migrate: (S, Version) -> S, initial: S, supported: seq<Version>, schema: S,
                      applied: set<Version>, n: nat)
    requires AtPrefix(migrate, initial, supported, schema, applied, n) && n < |supported|
    ensures AtPrefix(migrate, initial, supported, migrate(schema, supported[n]), applied + {supported[n]}, n + 1)
  {
    var more := supported[..n + 1];
    assert more == supported[..n] + [supported[n]];
    assert more[..|more| - 1] == supported[..n];
  }

  datatype MigrationError = UnsupportedDatabase | MigrationFailed(version: Version)

  /** The committed tables of one database, and how many migrations they have seen. */
  class Database<S> {
    var schema: S
    var applied: set<Version>
    ghost var count: nat
    ghost const initial: S

    constructor (initial: S)
      ensures schema == initial == this.initial && applied == {} && count == 0
    {
      schema, applied, count, this.initial := initial, {}, 0, initial;
    }

    ghost predicate Valid(migrate: (S, Version) -> S, ms: seq<Version>, target: Version)
      reads this
    {
      Increasing(ms) && AtPrefix(migrate, initial, Supported(ms, target), schema, applied, count)
    }

    /** A build with a later target has been here. */
    predicate Newer(target: Version)
      reads this
    {
      exists v :: v in applied && v > target
    }

    /** `fails` says which migrations raise, and `partial` what such a migration has done to the
        schema by then; the transaction throws that away. */
    method MigrateDatabase(migrate: (S, Version) -> S, ms: seq<Version>, target: Version,
                           fails: Version -> bool, partial: (S, Version) -> S)
      returns (r: Result<Version, MigrationError>)
      requires Newer(target) || Valid(migrate, ms, target)
      modifies this
      ensures old(Newer(target)) ==> r == Err(UnsupportedDatabase) && schema == old(schema) && applied == old(applied)
      ensures !old(Newer(target)) ==> Valid(migrate, ms, target) && count >= old(count)
      ensures r.Ok? ==> count == |Supported(ms, target)|
      ensures r.Ok? ==> schema == Fold(migrate, initial, Supported(ms, target))
      ensures r.Ok? ==> r.value == if count == 0 then 0 else Supported(ms, target)[count - 1]
      ensures r.Err? && !old(Newer(target)) ==>
                && count < |Supported(ms, target)|
                && r.error == MigrationFailed(Supported(ms, target)[count])
                && fails(Supported(ms, target)[count])
      ensures !old(Newer(target)) && (forall v :: v in Supported(ms, target) ==> !fails(v)) ==> r.Ok?
    {
      if exists v :: v in applied && v > target {
        return Err(UnsupportedDatabase);
      }
      ghost var supported := Supported(ms, target);
      SupportedAre(ms, target);
      PendingIsRest(ms, target, applied, count);
      var pending := Pending(ms, target, applied);
      ghost var start := count;
      for i := 0 to |pending|
        invariant Valid(migrate, ms, target) && count == start + i
      {
        var version := pending[i];
        assert version == supported[count];
        var saved := schema;
        PrefixStep(migrate, initial, supported, schema, applied, count);
        if fails(version) {
          schema := partial(schema, version);
          schema := saved;
          return Err(MigrationFailed(version));
        }
        schema := migrate(schema, version);
        applied := applied + {version};
        count := count + 1;
      }
      assert supported[..count] == supported;
      var version := MaxVersion(supported);
      r := Ok(version);
    }

    /** `max(applied) if applied else 0`. */
    method MaxVersion(ghost supported: seq<Version>) returns (version: Version)
      requires Increasing(supported) && applied == Versions(supported)
      ensures version == if supported == [] then 0 else supported[|supported| - 1]
    {
      assert supported != [] ==> supported[0] in Versions(supported);
      if applied == {} {
        return 0;
      }
      var v0 :| v0 in applied;
      ghost var last := supported[|supported| - 1];
      assert last in applied;
      LastIsMax(supported);
      version :| version in applied && forall v :: v in applied ==> v <= version;
    }
  }

  lemma LastIsMax(supported: seq<Version>)
    requires Increasing(supported) && supported != []
    ensures forall v :: v in Versions(supported) ==> v <= supported[|supported| - 1]
  {
  }

  // ---- concurrent runners

  type Pid = nat

  /** Where a runner is; only the lock holder is past `Waiting`. */
  datatype Runner<S> =
    | Waiting
    | Locked
    | Looping(pending: seq<Version>)
    | InTransaction(version: Version, rest: seq<Version>, working: S, finished: bool)
    | Succeeded
    | Stopped

  datatype State<S> = State(schema: S, applied: set<Version>, lock: Option<Pid>, runners: map<Pid, Runner<S>>)

  datatype Event<S> =
    | Start(p: Pid)
    | Acquire(p: Pid)
    | ReadApplied(p: Pid)
    | Begin(p: Pid)
    | Statement(p: Pid, working: S)
    | FinishMigrate(p: Pid)
    | Commit(p: Pid)
    | Fail(p: Pid)
    | Crash(p: Pid)
    | Return(p: Pid)

  predicate Holds<S>(st: State<S>, p: Pid) {
    st.lock == Some(p) && p in st.runners
  }

  predicate Enabled<S>(st: State<S>, e: Event<S>) {
    match e
    case Start(p) => p !in st.runners
    case Acquire(p) => st.lock.None? && p in st.runners && st.runners[p].Waiting?
    case ReadApplied(p) => Holds(st, p) && st.runners[p].Locked?
    case Begin(p) => Holds(st, p) && st.runners[p].Looping? && st.runners[p].pending != []
    case Statement(p, _) => Holds(st, p) && st.runners[p].InTransaction? && !st.runners[p].finished
    case FinishMigrate(p) => Holds(st, p) && st.runners[p].InTransaction? && !st.runners[p].finished
    case Commit(p) => Holds(st, p) && st.runners[p].InTransaction? && st.runners[p].finished
    case Fail(p) => Holds(st, p) && st.runners[p].InTransaction?
    case Crash(p) => Holds(st, p)
    case Return(p) => Holds(st, p) && st.runners[p].Looping? && st.runners[p].pending == []
  }

  function Set<S>(st: State<S>, p: Pid, r: Runner<S>): State<S> {
    st.(runners := st.runners[p := r])
  }

  function Apply<S>(migrate: (S, Version) -> S, ms: seq<Version>, target: Version, st: State<S>, e: Event<S>): State<S>
    requires Enabled(st, e)
  {
    var p := e.p;
    match e
    case Start(_) => Set(st, p, Waiting)
    case Acquire(_) => Set(st.(lock := Some(p)), p, Locked)
    case ReadApplied(_) => Set(st, p, Looping(Pending(ms, target, st.applied)))
    case Begin(_) =>
      var q := st.runners[p].pending;
      Set(st, p, InTransaction(q[0], q[1..], st.schema, false))
    case Statement(_, working) => Set(st, p, st.runners[p].(working := working))
    case FinishMigrate(_) =>
      Set(st, p, st.runners[p].(working := migrate(st.schema, st.runners[p].version), finished := true))
    case Commit(_) =>
      var r := st.runners[p];
      Set(st.(schema := r.working, applied := st.applied + {r.version}), p, Looping(r.rest))
    case Fail(_) => Set(st.(lock := None), p, Stopped)
    case Crash(_) => Set(st.(lock := None), p, Stopped)
    case Return(_) => Set(st.(lock := None), p, Succeeded)
  }

  /** The holder's plan is the rest of the list after what is committed. */
  ghost predicate Planned<S>(migrate: (S, Version) -> S, supported: seq<Version>, st: State<S>, r: Runner<S>, n: nat)
    requires n <= |supported|
  {
    match r
    case Waiting => false
    case Locked => true
    case Looping(q) => q == supported[n..]
    case InTransaction(v, rest, working, finished) =>
      && n < |supported| && v == supported[n] && rest == supported[n + 1..]
      && (finished ==> working == migrate(st.schema, v))
    case Succeeded => false
    case Stopped => false
  }

  ghost predicate Inv<S>(migrate: (S, Version) -> S, initial: S, supported: seq<Version>, st: State<S>, n: nat) {
    && AtPrefix(migrate, initial, supported, st.schema, st.applied, n)
    && (forall p :: p in st.runners ==> st.lock == Some(p) || st.runners[p] in {Waiting, Succeeded, Stopped})
    && (st.lock.Some? ==> st.lock.value in st.runners && Planned(migrate, supported, st, st.runners[st.lock.value], n))
    && ((exists p :: p in st.runners && st.runners[p].Succeeded?) ==> n == |supported|)
  }

  /** One step keeps the invariant and applies at most the next migration. */
  lemma StepKeepsInv<S>(migrate: (S, Version) -> S, initial: S, ms: seq<Version>, target: Version, st: State<S>,
                        n: nat, e: Event<S>)
    returns (m: nat)
    requires Increasing(ms) && Inv(migrate, initial, Supported(ms, target), st, n) && Enabled(st, e)
    ensures n <= m <= n + 1
    ensures Inv(migrate, initial, Supported(ms, target), Apply(migrate, ms, target, st, e), m)
  {
    var supported := Supported(ms, target);
    m := n;
    if e.ReadApplied? {
      PendingIsRest(ms, target, st.applied, n);
    } else if e.Begin? {
      assert supported[n..][1..] == supported[n + 1..];
    } else if e.Commit? {
      PrefixStep(migrate, initial, supported, st.schema, st.applied, n);
      m := n + 1;
    }
  }

  ghost predicate Run<S>(migrate: (S, Version) -> S, initial: S, ms: seq<Version>, target: Version,
                         sts: seq<State<S>>, es: seq<Event<S>>)
  {
    && |sts| == |es| + 1 && sts[0] == State(initial, {}, None, map[])
    && forall i :: 0 <= i < |es| ==> Enabled(sts[i], es[i]) && sts[i + 1] == Apply(migrate, ms, target, sts[i], es[i])
  }

  /** Over any run of any number of runners, with failures and crashes at any point, what is
      committed is always a prefix of the list, run once and in order. */
  lemma {:induction false} MigrationsRunOnce<S>(migrate: (S, Version) -> S, initial: S, ms: seq<Version>,
                                                target: Version, sts: seq<State<S>>, es: seq<Event<S>>, i: nat)
    returns (n: nat)
    requires Increasing(ms) && Run(migrate, initial, ms, target, sts, es) && i < |sts|
    ensures Inv(migrate, initial, Supported(ms, target), sts[i], n)
  {
    if i == 0 {
      n := 0;
    } else {
      var before := MigrationsRunOnce(migrate, initial, ms, target, sts, es, i - 1);
      assert sts[i - 1 + 1] == Apply(migrate, ms, target, sts[i - 1], es[i - 1]);
      n := StepKeepsInv(migrate, initial, ms, target, sts[i - 1], before, es[i - 1]);
    }
  }

  /** Whatever happened before, once one runner has returned successfully the schema is the
      whole fold. */
  lemma {:induction false} SuccessIsComplete<S>(migrate: (S, Version) -> S, initial: S, ms: seq<Version>,
                                                target: Version, sts: seq<State<S>>, es: seq<Event<S>>, i: nat, p: Pid)
    requires Increasing(ms) && Run(migrate, initial, ms, target, sts, es) && i < |sts|
    requires p in sts[i].runners && sts[i].runners[p].Succeeded?
    ensures sts[i].schema == Fold(migrate, initial, Supported(ms, target))
    ensures sts[i].applied == Versions(Supported(ms, target))
  {
    var n := MigrationsRunOnce(migrate, initial, ms, target, sts, es, i);
    assert Supported(ms, target)[..n] == Supported(ms, target);
  }
}

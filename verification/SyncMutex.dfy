/** The promise-based mutex around `sync` in web/offline-core.js: callers and runs as a
    step relation whose steps are the stretches of code between two awaits. */
module SyncMutex {
  import opened Common

  type Caller = nat
  type Run = nat

  /** Where a caller of `sync` is suspended. */
  datatype Place =
    | Waiting(run: Run)                         // await this._syncInFlight.catch(...)
    | Owning(run: Run)                          // return await run
    | Finished

  datatype State = State(
    inFlight: Option<Run>,                      // this._syncInFlight
    settled: map<Run, bool>,                    // every run ever started
    callers: map<Caller, Place>)

  datatype Event =
    | Call(c: Caller, run: Run, atOnce: bool)   // sync() up to its first await
    | Wake(c: Caller, run: Run, atOnce: bool)   // a waiter goes on after its await
    | Settle(run: Run)                          // a run resolves or rejects
    | Finish(c: Caller)                         // the owner's finally block

  const START := State(None, map[], map[])

  /** The loop test: wait for the run in flight, or start a new one and own it. `atOnce` says
      that the new promise is settled on creation, as for an aborted signal. */
  function Test(s: State, c: Caller, run: Run, atOnce: bool): State {
    if s.inFlight.Some? then s.(callers := s.callers[c := Waiting(s.inFlight.value)])
    else State(Some(run), s.settled[run := atOnce], s.callers[c := Owning(run)])
  }

  predicate Enabled(s: State, e: Event) {
    match e
    case Call(c, run, _) => c !in s.callers && run !in s.settled
    case Wake(c, run, _) =>
      && c in s.callers && s.callers[c].Waiting? && IsSettled(s, s.callers[c].run)
      && run !in s.settled
    case Settle(run) => run in s.settled && !s.settled[run]
    case Finish(c) => c in s.callers && s.callers[c].Owning? && IsSettled(s, s.callers[c].run)
  }

  predicate IsSettled(s: State, run: Run) {
    run in s.settled && s.settled[run]
  }

  function Apply(s: State, e: Event): State
    requires Enabled(s, e)
  {
    match e
    case Call(c, run, atOnce) => Test(s, c, run, atOnce)
    case Wake(c, run, atOnce) => Test(s, c, run, atOnce)
    case Settle(run) => s.(settled := s.settled[run := true])
    case Finish(c) =>
      var t := s.(callers := s.callers[c := Finished]);
      if s.inFlight == Some(s.callers[c].run) then t.(inFlight := None) else t
  }

  predicate Owns(s: State, c: Caller, run: Run) {
    c in s.callers && s.callers[c] == Owning(run)
  }

  ghost predicate Inv(s: State) {
    && (forall r: Run :: r in s.settled && !s.settled[r] ==> s.inFlight == Some(r))
    && (s.inFlight.Some? ==> s.inFlight.value in s.settled && exists c: Caller :: Owns(s, c, s.inFlight.value))
    && (forall c: Caller, r: Run :: Owns(s, c, r) ==> s.inFlight == Some(r))
    && (forall c: Caller, d: Caller, r: Run :: Owns(s, c, r) && Owns(s, d, r) ==> c == d)
    && (forall c: Caller :: c in s.callers && s.callers[c].Waiting? ==> s.callers[c].run in s.settled)
  }

  lemma TestKeepsInv(s: State, c: Caller, run: Run, atOnce: bool)
    requires Inv(s) && run !in s.settled
    requires c !in s.callers || s.callers[c].Waiting?
    ensures Inv(Test(s, c, run, atOnce))
  {
    var t := Test(s, c, run, atOnce);
    if s.inFlight.Some? {
      var owner :| Owns(s, owner, s.inFlight.value);
      assert Owns(t, owner, s.inFlight.value);
      assert forall d: Caller, r: Run :: Owns(t, d, r) ==> Owns(s, d, r);
    } else {
      assert Owns(t, c, run);
      assert forall d: Caller, r: Run :: Owns(t, d, r) && d != c ==> Owns(s, d, r);
      assert forall d: Caller, r: Run :: Owns(t, d, r) ==> d == c && r == run;
    }
  }

  lemma SettleKeepsInv(s: State, run: Run)
    requires Inv(s) && Enabled(s, Settle(run))
    ensures Inv(Apply(s, Settle(run)))
  {
    var t := Apply(s, Settle(run));
    assert forall c: Caller, r: Run :: Owns(t, c, r) <==> Owns(s, c, r);
  }

  lemma FinishKeepsInv(s: State, c: Caller)
    requires Inv(s) && Enabled(s, Finish(c))
    ensures Inv(Apply(s, Finish(c))) && Apply(s, Finish(c)).inFlight.None?
  {
    var t := Apply(s, Finish(c));
    assert Owns(s, c, s.callers[c].run);
    assert forall d: Caller, r: Run :: Owns(t, d, r) ==> Owns(s, d, r) && d != c;
  }

  lemma StepKeepsInv(s: State, e: Event)
    requires Inv(s) && Enabled(s, e)
    ensures Inv(Apply(s, e))
  {
    match e
    case Call(c, run, atOnce) => TestKeepsInv(s, c, run, atOnce);
    case Wake(c, run, atOnce) => TestKeepsInv(s, c, run, atOnce);
    case Settle(run) => SettleKeepsInv(s, run);
    case Finish(c) => FinishKeepsInv(s, c);
  }

  ghost predicate IsRun(s: State, es: seq<Event>)
    decreases |es|
  {
    es == [] || (Enabled(s, es[0]) && IsRun(Apply(s, es[0]), es[1..]))
  }

  ghost function After(s: State, es: seq<Event>): State
    requires IsRun(s, es)
    decreases |es|
  {
    if es == [] then s else After(Apply(s, es[0]), es[1..])
  }

  lemma {:induction false} RunKeepsInv(s: State, es: seq<Event>)
    requires Inv(s) && IsRun(s, es)
    ensures Inv(After(s, es))
    decreases |es|
  {
    if es != [] {
      StepKeepsInv(s, es[0]);
      RunKeepsInv(Apply(s, es[0]), es[1..]);
    }
  }

  /** For any number of callers and any wake-up order there is never more than one unsettled
      `_syncOnce`, and it is the one in `_syncInFlight`. */
  lemma {:induction false} MutualExclusion(es: seq<Event>, r: Run)
    requires IsRun(START, es)
    ensures var s := After(START, es); r in s.settled && !s.settled[r] ==> s.inFlight == Some(r)
  {
    RunKeepsInv(START, es);
  }

  /** The field is cleared by nobody but the owner of the run in it, and only once that run is
      settled; it is never overwritten while set. The identity test in the finally block
      therefore always succeeds. */
  lemma OnlyTheOwnerClears(s: State, e: Event)
    requires Inv(s) && Enabled(s, e) && s.inFlight.Some?
    ensures Apply(s, e).inFlight != s.inFlight ==>
              && Apply(s, e).inFlight.None?
              && e.Finish? && Owns(s, e.c, s.inFlight.value) && s.settled[s.inFlight.value]
    ensures e.Finish? ==> s.inFlight == Some(s.callers[e.c].run)
  {
    if e.Finish? {
      assert Owns(s, e.c, s.callers[e.c].run);
    }
  }

  /** A run starts only when every earlier one is settled, so runs never overlap. */
  lemma RunsAreSerial(s: State, e: Event, r: Run)
    requires Inv(s) && Enabled(s, e)
    requires r in Apply(s, e).settled && r !in s.settled
    ensures forall q :: q in s.settled ==> s.settled[q]
  {
  }

  /** How far a caller is from the end: waiting, owning a run under way, owning a settled run,
      finished. */
  function Distance(s: State, c: Caller): nat {
    if c !in s.callers || s.callers[c].Finished? then 0
    else if s.callers[c].Waiting? then 3
    else if IsSettled(s, s.callers[c].run) then 1
    else 2
  }

  /** `e` brings one caller nearer to the end and no caller further away from it. */
  ghost predicate Progress(s: State, e: Event)
    requires Enabled(s, e)
  {
    && (exists c: Caller :: Distance(Apply(s, e), c) < Distance(s, c))
    && forall c: Caller :: Distance(Apply(s, e), c) <= Distance(s, c)
  }

  /** No deadlock: while some caller is unfinished there is a step that makes progress, and it needs
      the network only to settle the run in flight. */
  lemma AlwaysProgress(s: State, c: Caller, next: Run) returns (e: Event)
    requires Inv(s) && Distance(s, c) > 0 && next !in s.settled
    ensures Enabled(s, e) && Progress(s, e)
    ensures e.Settle? ==> s.inFlight == Some(e.run)
  {
    if s.inFlight.Some? {
      var r := s.inFlight.value;
      var owner :| Owns(s, owner, r);
      e := if s.settled[r] then Finish(owner) else Settle(r);
      assert Distance(Apply(s, e), owner) < Distance(s, owner);
    } else {
      assert s.callers[c].Waiting? by {
        assert s.callers[c].Owning? ==> Owns(s, c, s.callers[c].run);
      }
      e := Wake(c, next, false);
      assert Distance(Apply(s, e), c) < Distance(s, c);
    }
  }
}

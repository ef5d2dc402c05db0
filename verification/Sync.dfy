/** The handshake between the event loop and the file watcher
    (UE4SS/src/Sync.cpp, UE4SS/include/Sync.hpp) as a state machine over the
    atomic operations of the two threads.

    `atomic::wait(old)` re-checks and blocks in one step; a blocked thread goes
    back to checking when the other thread notifies and a store came after the
    value it blocked on, or spuriously at any time. */
module Sync {

  datatype Value = Idle | WaitForMain | WaitForOther | Complete

  /** `ScopedThreadSynchronizer` notifies after storing `Complete`;
      `sync_and_execute` does not. */
  datatype Style = Scoped | Execute

  /** The requesting thread: outside, in `wait(WaitForMain)`, in the
      synchronised body, about to notify. */
  datatype RequesterPc = Outside | Checking | Blocked(seen: nat) | InBody | Notifying

  /** The event loop: in its own body, then the operations of
      `process_sync_request`, with `wait(WaitForOther)` in the middle. */
  datatype MainPc = Looping | Loading | StoringOther | NotifyingOther | Rechecking | Waiting(seen: nat) | StoringIdle

  datatype State = State(
    value: Value,
    r: RequesterPc,
    m: MainPc,
    log: seq<Value>,        // every value stored, oldest first
    requests: nat,          // requests made
    served: nat,            // synchronised bodies entered
    acknowledged: nat)      // handshakes the event loop has finished

  const INITIAL := State(Idle, Outside, Looping, [], 0, 0, 0)

  datatype Step = Request | Requester | Main | SpuriousRequester | SpuriousMain

  predicate Enabled(step: Step, s: State) {
    match step
    case Request => s.r.Outside?
    case Requester => s.r.Checking? || s.r.InBody? || s.r.Notifying?
    case Main => !s.m.Waiting?
    case SpuriousRequester => s.r.Blocked?
    case SpuriousMain => s.m.Waiting?
  }

  function Store(s: State, v: Value): State {
    s.(value := v, log := s.log + [v])
  }

  function WakeMain(s: State): State {
    if s.m.Waiting? && s.m.seen < |s.log| then s.(m := Rechecking) else s
  }

  function WakeRequester(s: State): State {
    if s.r.Blocked? && s.r.seen < |s.log| then s.(r := Checking) else s
  }

  function RequesterStep(style: Style, s: State): State
    requires Enabled(Requester, s)
  {
    match s.r
    case Checking =>
      if s.value == WaitForMain then s.(r := Blocked(|s.log|)) else s.(r := InBody, served := s.served + 1)
    case InBody =>
      Store(s, Complete).(r := if style.Scoped? then Notifying else Outside)
    case Notifying =>
      WakeMain(s).(r := Outside)
  }

  function MainStep(s: State): State
    requires Enabled(Main, s)
  {
    match s.m
    case Looping => s.(m := Loading)
    case Loading => s.(m := if s.value == WaitForMain then StoringOther else Looping)
    case StoringOther => Store(s, WaitForOther).(m := NotifyingOther)
    case NotifyingOther => WakeRequester(s).(m := Rechecking)
    case Rechecking => s.(m := if s.value == WaitForOther then Waiting(|s.log|) else StoringIdle)
    case StoringIdle => Store(s, Idle).(m := Looping, acknowledged := s.acknowledged + 1)
  }

  function Next(style: Style, step: Step, s: State): State
    requires Enabled(step, s)
  {
    match step
    case Request => Store(s, WaitForMain).(r := Checking, requests := s.requests + 1)
    case Requester => RequesterStep(style, s)
    case Main => MainStep(s)
    case SpuriousRequester => s.(r := Checking)
    case SpuriousMain => s.(m := Rechecking)
  }

  // ----- runs -----

  /** The hypothesis on the requester: it starts a request only at `Idle`. */
  predicate Disciplined(step: Step, s: State) {
    Enabled(step, s) && (step.Request? ==> s.value.Idle?)
  }

  predicate DisciplinedRun(style: Style, s: State, steps: seq<Step>)
    decreases |steps|
  {
    steps == [] || (Disciplined(steps[0], s) && DisciplinedRun(style, Next(style, steps[0], s), steps[1..]))
  }

  function After(style: Style, s: State, steps: seq<Step>): State
    requires DisciplinedRun(style, s, steps)
    decreases |steps|
  {
    if steps == [] then s else After(style, Next(style, steps[0], s), steps[1..])
  }

  ghost predicate Leads(style: Style, s: State, t: State) {
    exists steps :: DisciplinedRun(style, s, steps) && After(style, s, steps) == t
  }

  ghost predicate Reachable(style: Style, s: State) { Leads(style, INITIAL, s) }

  lemma LeadsToItself(style: Style, s: State)
    ensures Leads(style, s, s)
  {
    assert DisciplinedRun(style, s, []) && After(style, s, []) == s;
  }

  lemma {:induction false} OneStepMore(style: Style, s: State, steps: seq<Step>, step: Step)
    requires DisciplinedRun(style, s, steps) && Disciplined(step, After(style, s, steps))
    ensures DisciplinedRun(style, s, steps + [step])
    ensures After(style, s, steps + [step]) == Next(style, step, After(style, s, steps))
    decreases |steps|
  {
    if steps == [] {
      assert ([step])[1..] == [];
      assert steps + [step] == [step];
    } else {
      assert (steps + [step])[1..] == steps[1..] + [step];
      OneStepMore(style, Next(style, steps[0], s), steps[1..], step);
    }
  }

  lemma LeadsOn(style: Style, s: State, t: State, step: Step)
    requires Leads(style, s, t) && Disciplined(step, t)
    ensures Leads(style, s, Next(style, step, t))
  {
    var steps :| DisciplinedRun(style, s, steps) && After(style, s, steps) == t;
    OneStepMore(style, s, steps, step);
  }

  // ----- what every step keeps -----

  /** Where the two threads can be, by the value of the atomic. */
  predicate Positions(style: Style, s: State) {
    match s.value
    case Idle => (s.r.Outside? || s.r.Notifying?) && (s.m.Looping? || s.m.Loading?)
    case WaitForMain =>
      && (s.r.Checking? || s.r == Blocked(|s.log|))
      && (s.m.Looping? || s.m.Loading? || s.m.StoringOther?)
    case WaitForOther =>
      && (s.r.Checking? || s.r.InBody? || (s.r.Blocked? && s.r.seen < |s.log| && s.m.NotifyingOther?))
      && (s.m.NotifyingOther? || s.m.Rechecking? || s.m == Waiting(|s.log|))
    case Complete =>
      && (s.r.Outside? || s.r.Notifying?)
      && (s.m.NotifyingOther? || s.m.Rechecking? || s.m.StoringIdle?
          || (s.m.Waiting? && s.m.seen < |s.log| && (s.r.Notifying? || style.Execute?)))
  }

  /** The value the n-th store should write. */
  function Nth(n: nat): Value {
    if n % 4 == 0 then WaitForMain else if n % 4 == 1 then WaitForOther else if n % 4 == 2 then Complete else Idle
  }

  /** The stored values go round WaitForMain, WaitForOther, Complete, Idle. */
  predicate Cycles(s: State) {
    && s.value == (if s.log == [] then Idle else Nth(|s.log| - 1))
    && forall i :: 0 <= i < |s.log| ==> s.log[i] == Nth(i)
  }

  /** Every request is served once and acknowledged once. */
  predicate Counted(s: State) {
    && s.served + (if s.r.Checking? || s.r.Blocked? then 1 else 0) == s.requests
    && s.acknowledged + (if s.value.Idle? then 0 else 1) == s.requests
  }

  predicate Invariant(style: Style, s: State) {
    Positions(style, s) && Cycles(s) && Counted(s)
  }

  lemma StepKeepsPositions(style: Style, step: Step, s: State)
    requires Positions(style, s) && Disciplined(step, s)
    ensures Positions(style, Next(style, step, s))
  {}

  lemma StepKeepsCycles(style: Style, step: Step, s: State)
    requires Positions(style, s) && Cycles(s) && Disciplined(step, s)
    ensures Cycles(Next(style, step, s))
  {}

  lemma StepKeepsCounts(style: Style, step: Step, s: State)
    requires Positions(style, s) && Counted(s) && Disciplined(step, s)
    ensures Counted(Next(style, step, s))
  {}

  lemma StepKeepsInvariant(style: Style, step: Step, s: State)
    requires Invariant(style, s) && Disciplined(step, s)
    ensures Invariant(style, Next(style, step, s))
  {
    StepKeepsPositions(style, step, s);
    StepKeepsCycles(style, step, s);
    StepKeepsCounts(style, step, s);
  }

  lemma {:induction false} RunKeepsInvariant(style: Style, s: State, steps: seq<Step>)
    requires Invariant(style, s) && DisciplinedRun(style, s, steps)
    ensures Invariant(style, After(style, s, steps))
    decreases |steps|
  {
    if steps != [] {
      StepKeepsInvariant(style, steps[0], s);
      RunKeepsInvariant(style, Next(style, steps[0], s), steps[1..]);
    }
  }

  lemma ReachableInvariant(style: Style, s: State)
    requires Reachable(style, s)
    ensures Invariant(style, s)
  {
    var steps :| DisciplinedRun(style, INITIAL, steps) && After(style, INITIAL, steps) == s;
    RunKeepsInvariant(style, INITIAL, steps);
  }

  // ----- safety -----

  predicate Overlap(s: State) { s.r.InBody? && s.m.Looping? }

  /** While the requester is in its body the event loop is inside
      `process_sync_request`, and each request gets exactly one body, in turn. */
  lemma BodiesNeverOverlap(style: Style, s: State)
    requires Reachable(style, s)
    ensures !Overlap(s)
    ensures s.r.InBody? ==> s.value.WaitForOther? && (s.m.NotifyingOther? || s.m.Rechecking? || s.m.Waiting?)
    ensures Cycles(s) && Counted(s)
  {
    ReachableInvariant(style, s);
  }

  /** A thread sleeps through the change it waits for and nobody will tell it. */
  predicate LostWakeUp(s: State) {
    || (s.r.Blocked? && s.value != WaitForMain && !s.m.NotifyingOther?)
    || (s.m.Waiting? && s.value != WaitForOther && !s.r.Notifying?)
  }

  lemma NoWakeUpIsLost(s: State)
    requires Reachable(Scoped, s)
    ensures !LostWakeUp(s)
  {
    ReachableInvariant(Scoped, s);
  }

  // ----- progress: a pending request is finished in a bounded number of steps -----

  function RequesterRank(r: RequesterPc): nat {
    match r
    case Outside => 0
    case Notifying => 3
    case InBody => 4
    case Blocked(_) => 5
    case Checking => 6
  }

  function MainRank(m: MainPc): nat {
    match m
    case StoringIdle => 1
    case Waiting(_) => 2
    case Rechecking => 3
    case NotifyingOther => 5
    case StoringOther => 6
    case Loading => 7
    case Looping => 8
  }

  function Rank(s: State): nat { RequesterRank(s.r) + MainRank(s.m) }

  function Spurious(steps: seq<Step>): nat {
    if steps == [] then 0
    else (if steps[0].SpuriousRequester? || steps[0].SpuriousMain? then 1 else 0) + Spurious(steps[1..])
  }

  /** The request is pending before every step. */
  predicate PendingThroughout(style: Style, s: State, steps: seq<Step>)
    requires DisciplinedRun(style, s, steps)
    decreases |steps|
  {
    steps == [] || (!s.value.Idle? && PendingThroughout(style, Next(style, steps[0], s), steps[1..]))
  }

  lemma StepLowersRank(style: Style, step: Step, s: State)
    requires Invariant(style, s) && Disciplined(step, s) && !s.value.Idle?
    ensures var s' := Next(style, step, s);
      || s'.value.Idle?
      || Rank(s') < Rank(s)
      || ((step.SpuriousRequester? || step.SpuriousMain?) && Rank(s') == Rank(s) + 1)
  {}

  /** However the two threads are interleaved, a pending request takes at most
      fourteen of their steps, plus two for every spurious wake-up. */
  lemma {:induction false} PendingIsBounded(style: Style, s: State, steps: seq<Step>)
    requires Invariant(style, s) && DisciplinedRun(style, s, steps) && PendingThroughout(style, s, steps)
    ensures |steps| <= Rank(s) + 2 * Spurious(steps) <= 14 + 2 * Spurious(steps)
    decreases |steps|
  {
    if steps != [] {
      var s' := Next(style, steps[0], s);
      StepKeepsInvariant(style, steps[0], s);
      StepLowersRank(style, steps[0], s);
      if s'.value.Idle? {
        assert steps[1..] == [];
      } else {
        PendingIsBounded(style, s', steps[1..]);
      }
    }
  }

  /** And some thread can always take the next step. */
  lemma PendingIsNeverStuck(s: State)
    requires Reachable(Scoped, s) && !s.value.Idle?
    ensures Enabled(Requester, s) || Enabled(Main, s)
  {
    ReachableInvariant(Scoped, s);
  }

  // ----- where the code does not meet this -----

  /** `sync_and_execute` loses the event loop's wake-up exactly when it stores
      `Complete` while the event loop is asleep. */
  lemma ExecuteLosesWakeUpIff(s: State)
    requires Reachable(Execute, s) && s.r.InBody?
    ensures LostWakeUp(Next(Execute, Requester, s)) <==> s.m.Waiting?
  {
    ReachableInvariant(Execute, s);
  }

  lemma ExecuteCanLoseWakeUp() returns (s: State)
    ensures Reachable(Execute, s) && LostWakeUp(s)
    ensures forall step: Step :: Disciplined(step, s) ==> step.SpuriousMain?
  {
    LeadsToItself(Execute, INITIAL);
    s := INITIAL;
    LeadsOn(Execute, INITIAL, s, Request);
    s := Next(Execute, Request, s);
    s := MainSteps(Execute, INITIAL, s, 3);
    LeadsOn(Execute, INITIAL, s, Requester);
    s := Next(Execute, Requester, s);
    s := MainSteps(Execute, INITIAL, s, 2);
    LeadsOn(Execute, INITIAL, s, Requester);
    s := Next(Execute, Requester, s);
  }

  /** The event loop runs on alone, for up to three steps. */
  lemma MainSteps(style: Style, s: State, t: State, n: nat) returns (t': State)
    requires Leads(style, s, t) && n <= 3
    requires n > 0 ==> Enabled(Main, t)
    requires n > 1 ==> Enabled(Main, MainStep(t))
    requires n > 2 ==> Enabled(Main, MainStep(MainStep(t)))
    ensures Leads(style, s, t')
    ensures t' == if n == 0 then t else if n == 1 then MainStep(t)
                  else if n == 2 then MainStep(MainStep(t)) else MainStep(MainStep(MainStep(t)))
  {
    t' := t;
    if n > 0 { LeadsOn(style, s, t', Main); t' := MainStep(t'); }
    if n > 1 { LeadsOn(style, s, t', Main); t' := MainStep(t'); }
    if n > 2 { LeadsOn(style, s, t', Main); t' := MainStep(t'); }
  }

  /** A request made before the event loop has stored `Idle` is overwritten, and
      the requester runs beside the event loop. */
  lemma EarlyRequestOverlaps(s: State) returns (t: State)
    requires Invariant(Scoped, s) && s.r.Outside? && !s.value.Idle?
    ensures Leads(Scoped, Next(Scoped, Request, s), t) && Overlap(t)
  {
    var s' := Next(Scoped, Request, s);
    LeadsToItself(Scoped, s');
    t := MainSteps(Scoped, s', s', if s.m.NotifyingOther? then 3 else if s.m.Rechecking? then 2 else 1);
    LeadsOn(Scoped, s', t, Requester);
    t := Next(Scoped, Requester, t);
  }

  /** The discipline is what a caller must check: a request keeps the bodies
      apart, whatever follows, exactly when it is made at `Idle`. */
  lemma RequestIsSafeIff(s: State)
    requires Reachable(Scoped, s) && s.r.Outside?
    ensures (forall t :: Leads(Scoped, Next(Scoped, Request, s), t) ==> !Overlap(t)) <==> s.value.Idle?
  {
    ReachableInvariant(Scoped, s);
    var s' := Next(Scoped, Request, s);
    if s.value.Idle? {
      StepKeepsInvariant(Scoped, Request, s);
      forall t | Leads(Scoped, s', t) ensures !Overlap(t) {
        var steps :| DisciplinedRun(Scoped, s', steps) && After(Scoped, s', steps) == t;
        RunKeepsInvariant(Scoped, s', steps);
      }
    } else {
      var t := EarlyRequestOverlaps(s);
    }
  }
}

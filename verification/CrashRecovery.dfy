/** Recovery from a fault with `sigsetjmp` regions (UE4SS/src/main_linux.cpp):
    four kinds of region, each with one flag and one jump buffer per thread. */
module CrashRecovery {
  import opened Text

  datatype Kind = Init | Mod | Alloc | Iter

  /** A call that is still on the stack and has filled the buffer of its kind. */
  datatype Frame = Frame(kind: Kind, id: nat)

  datatype State = State(
    armed: set<Kind>,           // the flags s_has_*_jmpbuf that are set
    buffer: map<Kind, nat>,     // the frame whose sigsetjmp filled each buffer last
    stack: seq<Frame>,          // live region frames, innermost last
    nextId: nat)

  const START := State({}, map[], [], 0)

  /** What a fault does: a live frame returns false, a jump goes to a frame that
      has returned already (undefined), or nobody catches it. */
  datatype Outcome = Caught(frame: Frame) | Stale(kind: Kind) | Fatal

  // ----- what the operations compute -----

  function Entered(s: State, k: Kind): State {
    State(s.armed + {k}, s.buffer[k := s.nextId], s.stack + [Frame(k, s.nextId)], s.nextId + 1)
  }

  /** The body of the innermost region returns. */
  function Exited(s: State): State
    requires s.stack != []
  {
    s.(armed := s.armed - {s.stack[|s.stack| - 1].kind}, stack := s.stack[..|s.stack| - 1])
  }

  /** It throws instead: the flag stays as it is. */
  function Thrown(s: State): State
    requires s.stack != []
  {
    s.(stack := s.stack[..|s.stack| - 1])
  }

  function Priority(k: Kind): nat {
    match k { case Init => 0 case Iter => 1 case Alloc => 2 case Mod => 3 }
  }

  /** The armed kind of highest priority. */
  function Chosen(armed: set<Kind>): (r: Option<Kind>)
    ensures r.None? <==> armed == {}
    ensures r.Some? ==> r.value in armed && forall k <- armed :: Priority(k) <= Priority(r.value)
  {
    if Mod in armed then Some(Mod)
    else if Alloc in armed then Some(Alloc)
    else if Iter in armed then Some(Iter)
    else if Init in armed then Some(Init)
    else
      assert forall k <- armed :: k.Mod? || k.Alloc? || k.Iter? || k.Init?;
      None
  }

  /** How deep the frame is that a buffer was filled by, if it is still there. */
  function Depth(stack: seq<Frame>, f: Frame): (r: Option<nat>)
    ensures r.Some? ==> r.value < |stack| && stack[r.value] == f
    ensures r.None? ==> f !in stack
  {
    if stack == [] then None
    else if stack[|stack| - 1] == f then Some(|stack| - 1)
    else Depth(stack[..|stack| - 1], f)
  }

  function OutcomeOf(s: State): Outcome {
    match Chosen(s.armed)
    case None => Fatal
    case Some(k) =>
      if k in s.buffer && Depth(s.stack, Frame(k, s.buffer[k])).Some? then Caught(Frame(k, s.buffer[k])) else Stale(k)
  }

  /** After a caught fault the frame and everything inside it are gone. */
  function Faulted(s: State): State
    requires OutcomeOf(s).Caught?
  {
    var f := OutcomeOf(s).frame;
    s.(armed := s.armed - {f.kind}, stack := s.stack[..Depth(s.stack, f).value])
  }

  /** What the handler has done before it jumps: every flag but init's is cleared
      first. */
  function Disarmed(s: State, k: Kind): State {
    if k.Init? then s else s.(armed := s.armed - {k})
  }

  /** The thread after a fault, also when the jump goes to a dead frame. */
  function AfterFault(s: State): State {
    match OutcomeOf(s)
    case Caught(_) => Faulted(s)
    case Stale(k) => Disarmed(s, k)
    case Fatal => s
  }

  // ----- the thread's variables -----

  class Thread {
    var armed: set<Kind>
    var buffer: map<Kind, nat>
    var stack: seq<Frame>
    var nextId: nat

    function View(): State
      reads this
    {
      State(armed, buffer, stack, nextId)
    }

    constructor ()
      ensures View() == START
    {
      armed, buffer, stack, nextId := {}, map[], [], 0;
    }

    /** `sigsetjmp` returns 0 in `ue4ss_with_*_recovery` or at the init recovery
        point, and the flag is set. */
    method Enter(k: Kind)
      modifies this
      ensures View() == Entered(old(View()), k)
    {
      stack := stack + [Frame(k, nextId)];
      buffer := buffer[k := nextId];
      nextId := nextId + 1;
      armed := armed + {k};
    }

    /** The region's body is done: the flag is cleared and the region returns true. */
    method Exit() returns (ok: bool)
      requires stack != []
      modifies this
      ensures View() == Exited(old(View())) && ok
    {
      armed := armed - {stack[|stack| - 1].kind};
      stack := stack[..|stack| - 1];
      ok := true;
    }

    /** The handler clears the flag of `k`, except init's, and jumps; the second
        return of `sigsetjmp` clears it again and returns false. */
    method Jump(k: Kind) returns (outcome: Outcome)
      requires k in armed
      modifies this
      ensures var depth := if k in old(buffer) then Depth(old(stack), Frame(k, old(buffer)[k])) else None;
        if depth.Some?
        then outcome == Caught(Frame(k, old(buffer)[k]))
             && View() == old(View()).(armed := old(armed) - {k}, stack := old(stack)[..depth.value])
        else outcome == Stale(k) && View() == Disarmed(old(View()), k)
    {
      if k != Init { armed := armed - {k}; }
      var depth := if k in buffer then Depth(stack, Frame(k, buffer[k])) else None;
      if depth.None? {
        return Stale(k);
      }
      outcome := Caught(Frame(k, buffer[k]));
      stack := stack[..depth.value];
      armed := armed - {k};
    }

    /** `ue4ss_sigsegv_handler` */
    method Fault() returns (outcome: Outcome)
      modifies this
      ensures outcome == OutcomeOf(old(View()))
      ensures View() == AfterFault(old(View()))
    {
      if Mod in armed {
        outcome := Jump(Mod);
        return;
      }
      if Alloc in armed {
        outcome := Jump(Alloc);
        return;
      }
      if Iter in armed {
        outcome := Jump(Iter);
        return;
      }
      if Init in armed {
        outcome := Jump(Init);
        return;
      }
      outcome := Fatal;
    }
  }

  // ----- when a flag can be trusted -----

  /** The stack's frames have distinct, old ids. */
  predicate DistinctFrames(s: State) {
    && (forall i :: 0 <= i < |s.stack| ==> s.stack[i].id < s.nextId)
    && forall i, j :: 0 <= i < j < |s.stack| ==> s.stack[i].id != s.stack[j].id
  }

  /** If the flag of `k` is set, its buffer is a live frame: the innermost of its kind. */
  predicate Live(s: State, k: Kind) {
    k in s.armed ==>
      && k in s.buffer
      && exists i :: 0 <= i < |s.stack| && s.stack[i] == Frame(k, s.buffer[k])
           && forall j :: i < j < |s.stack| ==> s.stack[j].kind != k
  }

  /** A fault now is caught outside the frame that the buffer of `k` holds. */
  predicate Crosses(s: State, k: Kind)
    requires OutcomeOf(s).Caught?
  {
    var f := OutcomeOf(s).frame;
    k in s.armed && k != f.kind && k in s.buffer
      && exists i :: Depth(s.stack, f).value < i < |s.stack| && s.stack[i] == Frame(k, s.buffer[k])
  }

  lemma {:induction false} DepthIs(stack: seq<Frame>, i: nat)
    requires i < |stack|
    requires forall a, b :: 0 <= a < b < |stack| ==> stack[a].id != stack[b].id
    ensures Depth(stack, stack[i]) == Some(i)
  {
    if i < |stack| - 1 {
      DepthIs(stack[..|stack| - 1], i);
    }
  }

  /** A fault under a live flag is caught, by exactly the frame of the armed kind
      of highest priority, and only what is outside that frame is left. */
  lemma LiveFaultIsCaught(s: State, k: Kind)
    requires Chosen(s.armed) == Some(k) && Live(s, k)
    ensures OutcomeOf(s) == Caught(Frame(k, s.buffer[k]))
    ensures Faulted(s).stack < s.stack && s.stack[|Faulted(s).stack|] == Frame(k, s.buffer[k])
    ensures Faulted(s).armed == s.armed - {k} && Faulted(s).buffer == s.buffer
  {}

  /** The fault goes to a region of kind `k`, dead or alive. */
  predicate GoesTo(outcome: Outcome, k: Kind) {
    match outcome
    case Caught(f) => f.kind == k
    case Stale(j) => j == k
    case Fatal => false
  }

  /** The handler's order: mod before alloc before iteration before init, whether
      or not the frame is still there; fatal only when no flag is set. */
  lemma HandlerOrder(s: State)
    ensures GoesTo(OutcomeOf(s), Mod) <==> Mod in s.armed
    ensures GoesTo(OutcomeOf(s), Alloc) <==> Alloc in s.armed && Mod !in s.armed
    ensures GoesTo(OutcomeOf(s), Iter) <==> Iter in s.armed && Mod !in s.armed && Alloc !in s.armed
    ensures GoesTo(OutcomeOf(s), Init) <==> s.armed == {Init}
    ensures OutcomeOf(s) == Fatal <==> s.armed == {}
  {
    assert forall k <- s.armed :: k.Mod? || k.Alloc? || k.Iter? || k.Init?;
  }

  /** So a live region is returned to whenever those before it are not armed: an
      iteration under init skips one object, and init goes on. */
  lemma LiveRegionCatches(s: State)
    ensures Mod in s.armed && Live(s, Mod) ==> OutcomeOf(s) == Caught(Frame(Mod, s.buffer[Mod]))
    ensures Alloc in s.armed && Mod !in s.armed && Live(s, Alloc) ==>
      OutcomeOf(s) == Caught(Frame(Alloc, s.buffer[Alloc]))
    ensures Iter in s.armed && Mod !in s.armed && Alloc !in s.armed && Live(s, Iter) ==>
      OutcomeOf(s) == Caught(Frame(Iter, s.buffer[Iter]))
    ensures s.armed == {Init} && Live(s, Init) ==> OutcomeOf(s) == Caught(Frame(Init, s.buffer[Init]))
  {
    HandlerOrder(s);
  }

  /** A jump to a dead frame has cleared the flag it went by, but not init's. */
  lemma StaleJumpDisarms(s: State)
    requires OutcomeOf(s).Stale?
    ensures AfterFault(s).armed == if s.armed == {Init} then {Init} else s.armed - {OutcomeOf(s).kind}
    ensures AfterFault(s).(armed := s.armed) == s
  {
    HandlerOrder(s);
  }

  /** Only a kind of higher priority can cross another's frame. */
  lemma CrossedByHigherPriority(s: State, k: Kind)
    requires OutcomeOf(s).Caught? && Crosses(s, k)
    ensures Priority(OutcomeOf(s).frame.kind) > Priority(k)
  {}

  lemma EnterKeepsDistinct(s: State, k: Kind)
    requires DistinctFrames(s)
    ensures DistinctFrames(Entered(s, k))
  {
    var s' := Entered(s, k);
    assert forall i :: 0 <= i < |s.stack| ==> s'.stack[i] == s.stack[i];
  }

  /** Entering makes the flag trustworthy whatever was there before, and does
      not disturb the other kinds. */
  lemma EnterMakesLive(s: State, k: Kind, other: Kind)
    requires DistinctFrames(s)
    ensures DistinctFrames(Entered(s, k)) && Live(Entered(s, k), k)
    ensures other != k && Live(s, other) ==> Live(Entered(s, k), other)
  {
    var s' := Entered(s, k);
    EnterKeepsDistinct(s, k);
    assert s'.stack[|s.stack|] == Frame(k, s'.buffer[k]);
    if other != k && Live(s, other) && other in s.armed {
      var i :| 0 <= i < |s.stack| && s.stack[i] == Frame(other, s.buffer[other])
        && forall j :: i < j < |s.stack| ==> s.stack[j].kind != other;
      assert s'.stack[i] == Frame(other, s'.buffer[other]);
      assert forall j :: i < j < |s'.stack| ==> s'.stack[j].kind != other;
    }
  }

  lemma ExitKeepsLive(s: State, k: Kind)
    requires s.stack != [] && DistinctFrames(s) && Live(s, k)
    ensures DistinctFrames(Exited(s)) && Live(Exited(s), k)
  {
    var s' := Exited(s);
    if k in s'.armed {
      var i :| 0 <= i < |s.stack| && s.stack[i] == Frame(k, s.buffer[k])
        && forall j :: i < j < |s.stack| ==> s.stack[j].kind != k;
      assert s'.stack[i] == Frame(k, s'.buffer[k]);
    }
  }

  /** A caught fault leaves the flag of `k` trustworthy exactly when it does not
      cross the frame that flag stands for. */
  lemma FaultKeepsLiveIff(s: State, k: Kind)
    requires OutcomeOf(s).Caught? && DistinctFrames(s) && Live(s, k)
    ensures DistinctFrames(Faulted(s))
    ensures Live(Faulted(s), k) <==> !Crosses(s, k)
  {
    var s', f := Faulted(s), OutcomeOf(s).frame;
    var d := Depth(s.stack, f).value;
    if k in s'.armed {
      var i :| 0 <= i < |s.stack| && s.stack[i] == Frame(k, s.buffer[k])
        && forall j :: i < j < |s.stack| ==> s.stack[j].kind != k;
      assert i != d;
      if i < d {
        assert s'.stack[i] == Frame(k, s'.buffer[k]);
      }
    }
  }

  // ----- runs -----

  datatype Step = Enter(kind: Kind) | Exit | Fault

  /** `Exit` needs an open region; a run ends before a stale jump or a fatal fault. */
  predicate Possible(s: State, step: Step) {
    match step
    case Enter(_) => true
    case Exit => s.stack != []
    case Fault => OutcomeOf(s).Caught?
  }

  function Next(s: State, step: Step): State
    requires Possible(s, step)
  {
    match step
    case Enter(k) => Entered(s, k)
    case Exit => Exited(s)
    case Fault => Faulted(s)
  }

  predicate IsRun(s: State, steps: seq<Step>)
    decreases |steps|
  {
    steps == [] || (Possible(s, steps[0]) && IsRun(Next(s, steps[0]), steps[1..]))
  }

  function After(s: State, steps: seq<Step>): State
    requires IsRun(s, steps)
    decreases |steps|
  {
    if steps == [] then s else After(Next(s, steps[0]), steps[1..])
  }

  /** No fault of the run is caught outside an armed frame of kind `k`. */
  predicate NeverCrosses(s: State, steps: seq<Step>, k: Kind)
    requires IsRun(s, steps)
    decreases |steps|
  {
    steps == [] || (!(steps[0].Fault? && Crosses(s, k)) && NeverCrosses(Next(s, steps[0]), steps[1..], k))
  }

  lemma StepKeepsLive(s: State, step: Step, k: Kind)
    requires DistinctFrames(s) && Live(s, k) && Possible(s, step)
    requires step.Fault? ==> !Crosses(s, k)
    ensures DistinctFrames(Next(s, step)) && Live(Next(s, step), k)
  {
    match step
    case Enter(j) => EnterMakesLive(s, j, k);
    case Exit => ExitKeepsLive(s, k);
    case Fault => FaultKeepsLiveIff(s, k);
  }

  lemma {:induction false} RunKeepsLive(s: State, steps: seq<Step>, k: Kind)
    requires DistinctFrames(s) && Live(s, k) && IsRun(s, steps) && NeverCrosses(s, steps, k)
    ensures DistinctFrames(After(s, steps)) && Live(After(s, steps), k)
    decreases |steps|
  {
    if steps != [] {
      StepKeepsLive(s, steps[0], k);
      RunKeepsLive(Next(s, steps[0]), steps[1..], k);
    }
  }

  lemma {:induction false} ModIsNeverCrossed(s: State, steps: seq<Step>)
    requires IsRun(s, steps)
    ensures NeverCrosses(s, steps, Mod)
    decreases |steps|
  {
    if steps != [] {
      if steps[0].Fault? && Crosses(s, Mod) { CrossedByHigherPriority(s, Mod); }
      ModIsNeverCrossed(Next(s, steps[0]), steps[1..]);
    }
  }

  /** In every run, however the regions are nested, a set mod flag means its
      buffer is a live frame, and a fault makes exactly that frame return false. */
  lemma ModFaultsAreCaught(steps: seq<Step>)
    requires IsRun(START, steps) && Mod in After(START, steps).armed
    ensures var s := After(START, steps);
      Live(s, Mod) && OutcomeOf(s) == Caught(Frame(Mod, s.buffer[Mod]))
        && s.stack[|Faulted(s).stack|] == Frame(Mod, s.buffer[Mod]) && Faulted(s).stack < s.stack
  {
    ModIsNeverCrossed(START, steps);
    RunKeepsLive(START, steps, Mod);
    LiveFaultIsCaught(After(START, steps), Mod);
  }

  /** In runs that cross no armed frame, no fault ever jumps to a dead frame. */
  lemma UncrossedRunsHaveNoStaleJump(steps: seq<Step>)
    requires IsRun(START, steps) && forall k: Kind :: NeverCrosses(START, steps, k)
    ensures !OutcomeOf(After(START, steps)).Stale?
    ensures OutcomeOf(After(START, steps)).Fatal? <==> After(START, steps).armed == {}
  {
    var s := After(START, steps);
    var chosen := Chosen(s.armed);
    if chosen.Some? {
      RunKeepsLive(START, steps, chosen.value);
      LiveFaultIsCaught(s, chosen.value);
    }
  }

  /** After a fault in a sound state, the next fault jumps to a dead frame
      exactly when the first one crossed the frame that is then next in line. */
  lemma NextFaultIsStaleIff(s: State)
    requires OutcomeOf(s).Caught? && DistinctFrames(s) && forall k: Kind :: Live(s, k)
    ensures OutcomeOf(Faulted(s)).Stale?
      <==> Chosen(Faulted(s).armed).Some? && Crosses(s, Chosen(Faulted(s).armed).value)
  {
    var s' := Faulted(s);
    var chosen := Chosen(s'.armed);
    if chosen.Some? {
      FaultKeepsLiveIff(s, chosen.value);
      if !Crosses(s, chosen.value) { LiveFaultIsCaught(s', chosen.value); }
    }
  }

  /** The mod-level jump out of an allocator region leaves the allocator's flag
      set: a second fault is stale. */
  lemma ModJumpLeavesAllocDangling()
    ensures var s := Entered(Entered(START, Mod), Alloc);
      OutcomeOf(s) == Caught(Frame(Mod, 0)) && OutcomeOf(Faulted(s)) == Stale(Alloc)
  {
    var s := Entered(Entered(START, Mod), Alloc);
    assert s.stack == [Frame(Mod, 0), Frame(Alloc, 1)];
    DepthIs(s.stack, 0);
    assert Faulted(s).stack == [] && Faulted(s).armed == {Alloc};
  }

  /** A body that throws leaves a flag without a frame, exactly when its region
      had armed it. */
  lemma ThrowLeavesDanglingIff(s: State)
    requires s.stack != [] && DistinctFrames(s)
    requires var k := s.stack[|s.stack| - 1].kind; Live(s, k)
    ensures var k := s.stack[|s.stack| - 1].kind; Live(Thrown(s), k) <==> k !in s.armed
  {
    var n := |s.stack| - 1;
    var k := s.stack[n].kind;
    if k in s.armed {
      var i :| 0 <= i < |s.stack| && s.stack[i] == Frame(k, s.buffer[k])
        && forall j :: i < j < |s.stack| ==> s.stack[j].kind != k;
      assert i == n;
      assert forall j :: 0 <= j < n ==> s.stack[j].id != s.stack[n].id;
    }
  }

  // ----- a discipline that can be checked on entry -----

  /** Where the frame of a kind's buffer is on the stack. */
  function Place(s: State, k: Kind): int {
    if k in s.buffer && Depth(s.stack, Frame(k, s.buffer[k])).Some? then Depth(s.stack, Frame(k, s.buffer[k])).value
    else -1
  }

  /** Every flag can be trusted. */
  ghost predicate Sound(s: State) { DistinctFrames(s) && forall k: Kind :: Live(s, k) }

  /** The armed frames rise in priority from the outermost to the innermost. */
  predicate Rising(s: State) {
    forall a <- s.armed, b <- s.armed :: Place(s, a) < Place(s, b) ==> Priority(a) < Priority(b)
  }

  /** Some number of faults in a row ends in a jump to a dead frame. */
  predicate GoesStale(s: State)
    decreases |s.armed|
  {
    match OutcomeOf(s)
    case Fatal => false
    case Stale(_) => true
    case Caught(f) => GoesStale(Faulted(s))
  }

  lemma PlaceOfLive(s: State, k: Kind)
    requires DistinctFrames(s) && Live(s, k) && k in s.armed
    ensures 0 <= Place(s, k) < |s.stack| && s.stack[Place(s, k)] == Frame(k, s.buffer[k])
  {
    var i :| 0 <= i < |s.stack| && s.stack[i] == Frame(k, s.buffer[k]);
    DepthIs(s.stack, i);
  }

  lemma {:induction false} DepthInPrefix(stack: seq<Frame>, n: nat, f: Frame)
    requires n <= |stack| && forall a, b :: 0 <= a < b < |stack| ==> stack[a].id != stack[b].id
    ensures Depth(stack[..n], f)
         == if Depth(stack, f).Some? && Depth(stack, f).value < n then Depth(stack, f) else None
  {
    var cut := Depth(stack[..n], f);
    if cut.Some? {
      DepthIs(stack, cut.value);
    }
  }

  /** A fault moves no frame that it leaves. */
  predicate MovesNoFrame(s: State, k: Kind)
    requires OutcomeOf(s).Caught?
  {
    Place(Faulted(s), k) == if Place(s, k) < Place(s, OutcomeOf(s).frame.kind) then Place(s, k) else -1
  }

  lemma PlaceAfterFault(s: State, k: Kind)
    requires DistinctFrames(s) && OutcomeOf(s).Caught?
    ensures Place(s, OutcomeOf(s).frame.kind) >= 0 && MovesNoFrame(s, k)
  {
    if k in s.buffer {
      DepthInPrefix(s.stack, Depth(s.stack, OutcomeOf(s).frame).value, Frame(k, s.buffer[k]));
    }
  }

  /** An armed frame that is gone is jumped to sooner or later. */
  lemma {:induction false} DeadGoesStale(s: State, k: Kind)
    requires DistinctFrames(s) && k in s.armed && Place(s, k) < 0
    ensures GoesStale(s)
    decreases |s.armed|
  {
    if OutcomeOf(s).Caught? {
      PlaceAfterFault(s, k);
      DeadGoesStale(Faulted(s), k);
    }
  }

  lemma SoundFault(s: State)
    requires Sound(s) && s.armed != {}
    ensures OutcomeOf(s).Caught? && OutcomeOf(s).frame.kind == Chosen(s.armed).value
    ensures DistinctFrames(Faulted(s))
    ensures forall k: Kind :: Live(Faulted(s), k) <==> !Crosses(s, k)
  {
    LiveFaultIsCaught(s, Chosen(s.armed).value);
    forall k: Kind ensures Live(Faulted(s), k) <==> !Crosses(s, k) { FaultKeepsLiveIff(s, k); }
    FaultKeepsLiveIff(s, Mod);
  }

  lemma CrossedPlace(s: State, k: Kind)
    requires Sound(s) && s.armed != {} && k in s.armed && OutcomeOf(s).Caught?
    ensures Crosses(s, k) <==> Place(s, k) > Place(s, OutcomeOf(s).frame.kind)
  {
    PlaceOfLive(s, k);
    PlaceOfLive(s, OutcomeOf(s).frame.kind);
    if Crosses(s, k) {
      var i :| Depth(s.stack, OutcomeOf(s).frame).value < i < |s.stack| && s.stack[i] == Frame(k, s.buffer[k]);
      DepthIs(s.stack, i);
    }
  }

  lemma RisingAfterTop(s: State)
    requires Sound(s) && s.armed != {} && OutcomeOf(s).Caught?
    requires OutcomeOf(s).frame.kind == Chosen(s.armed).value
    requires forall k <- s.armed :: 0 <= Place(s, k) <= Place(s, OutcomeOf(s).frame.kind)
    requires forall k: Kind :: MovesNoFrame(s, k)
    ensures Rising(Faulted(s)) <==> Rising(s)
  {
    var top, s' := OutcomeOf(s).frame.kind, Faulted(s);
    forall k <- s'.armed ensures Place(s', k) == Place(s, k) {
      assert MovesNoFrame(s, k);
      PlaceOfLive(s, k);
      PlaceOfLive(s, top);
    }
    assert forall k <- s'.armed :: k in s.armed && k != top && Priority(k) < Priority(top);
    assert s.armed == s'.armed + {top};
  }

  /** In a sound state no number of faults ends in a dead frame exactly when the
      armed frames rise in priority towards the innermost. */
  lemma {:induction false} NeverStaleIffRising(s: State)
    requires Sound(s)
    ensures !GoesStale(s) <==> Rising(s)
    decreases |s.armed|
  {
    if s.armed != {} {
      SoundFault(s);
      var top, s' := OutcomeOf(s).frame.kind, Faulted(s);
      forall k <- s.armed
        ensures Crosses(s, k) <==> Place(s, k) > Place(s, top)
        ensures 0 <= Place(s, k)
      {
        CrossedPlace(s, k);
        PlaceOfLive(s, k);
      }
      forall k: Kind ensures MovesNoFrame(s, k) { PlaceAfterFault(s, k); }
      if k :| k in s.armed && Crosses(s, k) {
        DeadGoesStale(s', k);
        assert !Rising(s);
      } else {
        assert forall k: Kind :: Live(s', k);
        NeverStaleIffRising(s');
        RisingAfterTop(s);
      }
    }
  }

  /** Every other armed kind has a lower priority. */
  predicate MayEnter(armed: set<Kind>, k: Kind) {
    forall j <- armed :: j != k ==> Priority(j) < Priority(k)
  }

  lemma MayEnterByName(armed: set<Kind>)
    ensures MayEnter(armed, Mod)
    ensures MayEnter(armed, Alloc) <==> Mod !in armed
    ensures MayEnter(armed, Iter) <==> Mod !in armed && Alloc !in armed
    ensures MayEnter(armed, Init) <==> armed <= {Init}
  {
    assert forall k <- armed :: k.Mod? || k.Alloc? || k.Iter? || k.Init?;
  }

  /** Entering a region keeps the order exactly when every other armed kind has a
      lower priority: the test an entry can make. */
  lemma EnterKeepsRisingIff(s: State, k: Kind)
    requires Sound(s) && Rising(s)
    ensures Sound(Entered(s, k))
    ensures Rising(Entered(s, k)) <==> MayEnter(s.armed, k)
  {
    var s' := Entered(s, k);
    forall j: Kind ensures Live(s', j) { EnterMakesLive(s, k, j); }
    EnterMakesLive(s, k, k);
    DepthIs(s'.stack, |s.stack|);
    forall j <- s.armed | j != k ensures Place(s', j) == Place(s, j) < Place(s', k) {
      PlaceOfLive(s, j);
      assert s'.stack[Place(s, j)] == Frame(j, s'.buffer[j]);
      DepthIs(s'.stack, Place(s, j));
    }
  }

  /** The test by name: a mod region can always be entered, init's only under no
      other region. */
  lemma EntryTest(s: State)
    requires Sound(s) && Rising(s)
    ensures Rising(Entered(s, Mod))
    ensures Rising(Entered(s, Alloc)) <==> Mod !in s.armed
    ensures Rising(Entered(s, Iter)) <==> Mod !in s.armed && Alloc !in s.armed
    ensures Rising(Entered(s, Init)) <==> s.armed <= {Init}
  {
    MayEnterByName(s.armed);
    EnterKeepsRisingIff(s, Mod);
    EnterKeepsRisingIff(s, Alloc);
    EnterKeepsRisingIff(s, Iter);
    EnterKeepsRisingIff(s, Init);
  }

  lemma ExitKeepsRising(s: State)
    requires Sound(s) && Rising(s) && s.stack != []
    ensures Sound(Exited(s)) && Rising(Exited(s))
  {
    var s' := Exited(s);
    forall k: Kind ensures Live(s', k) { ExitKeepsLive(s, k); }
    ExitKeepsLive(s, Mod);
    forall k <- s'.armed ensures Place(s', k) == Place(s, k) {
      PlaceOfLive(s, k);
      DepthInPrefix(s.stack, |s.stack| - 1, Frame(k, s.buffer[k]));
      PlaceOfLive(s', k);
    }
  }

  lemma FaultKeepsRising(s: State)
    requires Sound(s) && Rising(s) && OutcomeOf(s).Caught?
    ensures Sound(Faulted(s)) && Rising(Faulted(s))
  {
    var s', top := Faulted(s), OutcomeOf(s).frame.kind;
    SoundFault(s);
    forall k <- s.armed ensures !Crosses(s, k) && 0 <= Place(s, k) <= Place(s, top) {
      CrossedPlace(s, k);
      PlaceOfLive(s, k);
    }
    forall k: Kind ensures Live(s', k) {}
    forall k: Kind ensures MovesNoFrame(s, k) { PlaceAfterFault(s, k); }
    RisingAfterTop(s);
  }

  /** Every region is entered only while all other armed kinds have lower priority. */
  predicate EntersInOrder(s: State, steps: seq<Step>)
    requires IsRun(s, steps)
    decreases |steps|
  {
    steps == [] ||
      ((steps[0].Enter? ==> MayEnter(s.armed, steps[0].kind)) && EntersInOrder(Next(s, steps[0]), steps[1..]))
  }

  /** With that test made on every entry, no fault of any run, nor any number of
      further faults, ever jumps to a dead frame. */
  lemma {:induction false} OrderedRunsNeverGoStale(s: State, steps: seq<Step>)
    requires Sound(s) && Rising(s) && IsRun(s, steps) && EntersInOrder(s, steps)
    ensures Sound(After(s, steps)) && Rising(After(s, steps)) && !GoesStale(After(s, steps))
    decreases |steps|
  {
    if steps == [] {
      NeverStaleIffRising(s);
    } else {
      match steps[0] {
        case Enter(k) => EnterKeepsRisingIff(s, k);
        case Exit => ExitKeepsRising(s);
        case Fault => FaultKeepsRising(s);
      }
      OrderedRunsNeverGoStale(Next(s, steps[0]), steps[1..]);
    }
  }

  // ----- which open region is protected -----

  /** A fault chosen for the frame's kind would return to this frame. */
  predicate Protected(s: State, f: Frame) {
    f.kind in s.armed && f.kind in s.buffer && s.buffer[f.kind] == f.id
  }

  lemma {:induction false} GoneStaysGone(s: State, steps: seq<Step>, f: Frame)
    requires IsRun(s, steps) && f !in s.stack && f.id < s.nextId
    ensures f !in After(s, steps).stack
    decreases |steps|
  {
    if steps != [] { GoneStaysGone(Next(s, steps[0]), steps[1..], f); }
  }

  lemma {:induction false} OtherBufferStays(s: State, steps: seq<Step>, f: Frame)
    requires IsRun(s, steps) && f.id < s.nextId && f.kind in s.buffer && s.buffer[f.kind] != f.id
    ensures !Protected(After(s, steps), f)
    decreases |steps|
  {
    if steps != [] { OtherBufferStays(Next(s, steps[0]), steps[1..], f); }
  }

  /** No frame of the kind is inside `f`. */
  predicate InnermostOfKind(s: State, f: Frame) {
    exists i :: 0 <= i < |s.stack| && s.stack[i] == f && forall j :: i < j < |s.stack| ==> s.stack[j].kind != f.kind
  }

  lemma ProtectedStep(s: State, step: Step, f: Frame)
    requires DistinctFrames(s) && Protected(s, f) && InnermostOfKind(s, f) && f.id < s.nextId
    requires Possible(s, step) && step != Enter(f.kind) && f in Next(s, step).stack
    ensures Protected(Next(s, step), f) && InnermostOfKind(Next(s, step), f) && DistinctFrames(Next(s, step))
  {
    var s' := Next(s, step);
    var i :| 0 <= i < |s.stack| && s.stack[i] == f && forall j :: i < j < |s.stack| ==> s.stack[j].kind != f.kind;
    if step.Enter? {
      assert s'.stack[i] == f;
    } else {
      var p :| 0 <= p < |s'.stack| && s'.stack[p] == f;
      assert s'.stack <= s.stack && s.stack[p] == f;
      assert p == i;
    }
  }

  /** An open region stays protected exactly as long as no region of its kind has
      been entered inside it: an inner one takes the buffer over, and clears the
      flag when it ends. */
  lemma {:induction false} ProtectedIff(s: State, steps: seq<Step>, f: Frame)
    requires DistinctFrames(s) && Protected(s, f) && InnermostOfKind(s, f) && f.id < s.nextId
    requires IsRun(s, steps) && f in After(s, steps).stack
    ensures Protected(After(s, steps), f) <==> Enter(f.kind) !in steps
    decreases |steps|
  {
    if steps != [] {
      var s' := Next(s, steps[0]);
      assert steps == [steps[0]] + steps[1..];
      if steps[0] == Enter(f.kind) {
        OtherBufferStays(s', steps[1..], f);
      } else {
        if f !in s'.stack { GoneStaysGone(s', steps[1..], f); }
        ProtectedStep(s, steps[0], f);
        ProtectedIff(s', steps[1..], f);
      }
    }
  }
}

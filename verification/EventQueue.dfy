/** The event queue and the batch each turn of the event loop takes from it
    (UE4SS/src/UE4SSProgram.cpp). */
module EventQueue {

  type Event = nat

  const MAX_EVENTS_PER_FRAME: nat := 5

  datatype Loop = Loop(pending: seq<Event>, executed: seq<Event>, processing: bool, paused: bool)

  /** Things that happen to the loop, in the order the queue's lock puts them. */
  datatype Action = Queue(event: Event) | Frame | Start | Stop | Pause(on: bool)

  // ----- what the operations compute -----

  function BatchSize(n: nat): nat {
    if n < MAX_EVENTS_PER_FRAME then n else MAX_EVENTS_PER_FRAME
  }

  function Step(s: Loop, a: Action): Loop {
    match a
    case Queue(e) => if s.processing then s.(pending := s.pending + [e]) else s
    case Frame =>
      if s.processing && !s.paused then
        var n := BatchSize(|s.pending|);
        s.(pending := s.pending[n..], executed := s.executed + s.pending[..n])
      else s
    case Start => s.(processing := true)
    case Stop => s.(processing := false)
    case Pause(on) => s.(paused := on)
  }

  // ----- the operations -----

  class EventLoop {
    var buffer: array<Event>
    var size: nat
    var executed: seq<Event>
    var processing: bool
    var paused: bool

    ghost predicate Valid() reads this { size <= buffer.Length }

    ghost function State(): Loop
      reads this, buffer
      requires Valid()
    {
      Loop(buffer[..size], executed, processing, paused)
    }

    constructor ()
      ensures Valid() && fresh(buffer)
      ensures State() == Loop([], [], false, false)
    {
      buffer := new Event[1](_ => 0);
      size, executed, processing, paused := 0, [], false, false;
    }

    method QueueEvent(event: Event)
      requires Valid()
      modifies this, buffer
      ensures Valid() && (buffer == old(buffer) || fresh(buffer))
      ensures State() == Step(old(State()), Queue(event))
    {
      if !processing { return; }
      if size == buffer.Length { Grow(); }
      buffer[size] := event;
      size := size + 1;
    }

    /** The vector reallocates. */
    method Grow()
      requires Valid()
      modifies this
      ensures Valid() && fresh(buffer) && size < buffer.Length
      ensures State() == old(State())
    {
      var larger := new Event[2 * size + 1](_ => 0);
      for i := 0 to size
        invariant size == old(size) && buffer == old(buffer) && Valid() && State() == old(State())
        invariant larger[..i] == buffer[..i]
      {
        larger[i] := buffer[i];
      }
      buffer := larger;
    }

    /** One turn: a stateful in-place remove-if that runs what it removes. */
    method RunFrame()
      requires Valid()
      modifies this, buffer
      ensures Valid() && buffer == old(buffer)
      ensures State() == Step(old(State()), Frame)
    {
      if !processing || paused { return; }
      ghost var queued := buffer[..size];
      var numExecuted, kept := 0, 0;
      for i := 0 to size
        invariant size == old(size) && buffer == old(buffer) && processing && !paused
        invariant numExecuted == BatchSize(i) && kept == i - numExecuted
        invariant executed == old(executed) + queued[..numExecuted]
        invariant forall j :: 0 <= j < kept ==> buffer[j] == queued[numExecuted + j]
        invariant forall j :: i <= j < size ==> buffer[j] == queued[j]
      {
        if numExecuted >= MAX_EVENTS_PER_FRAME {
          buffer[kept] := buffer[i];
          kept := kept + 1;
        } else {
          numExecuted := numExecuted + 1;
          executed := executed + [buffer[i]];
        }
      }
      size := kept;
      assert buffer[..size] == queued[numExecuted..];
    }

    method SetProcessing(on: bool)
      requires Valid()
      modifies this`processing
      ensures Valid() && State() == Step(old(State()), if on then Start else Stop)
    {
      processing := on;
    }

    method SetPaused(on: bool)
      requires Valid()
      modifies this`paused
      ensures Valid() && State() == Step(old(State()), Pause(on))
    {
      paused := on;
    }
  }

  // ----- whole runs -----

  function Run(s: Loop, actions: seq<Action>): Loop
    decreases |actions|
  {
    if actions == [] then s else Run(Step(s, actions[0]), actions[1..])
  }

  /** What was handed in while the loop was processing, in order. */
  function Accepted(processing: bool, actions: seq<Action>): seq<Event>
    decreases |actions|
  {
    if actions == [] then []
    else match actions[0]
      case Queue(e) => (if processing then [e] else []) + Accepted(processing, actions[1..])
      case Start => Accepted(true, actions[1..])
      case Stop => Accepted(false, actions[1..])
      case _ => Accepted(processing, actions[1..])
  }

  /** The turns taken while the loop was processing and not paused. */
  function ActiveFrames(processing: bool, paused: bool, actions: seq<Action>): nat
    decreases |actions|
  {
    if actions == [] then 0
    else match actions[0]
      case Queue(_) => ActiveFrames(processing, paused, actions[1..])
      case Frame => (if processing && !paused then 1 else 0) + ActiveFrames(processing, paused, actions[1..])
      case Start => ActiveFrames(true, paused, actions[1..])
      case Stop => ActiveFrames(false, paused, actions[1..])
      case Pause(on) => ActiveFrames(processing, on, actions[1..])
  }

  /** Every accepted event is executed once or still waiting, in the order it
      came, and what was executed stays executed. */
  lemma {:induction false} ExactlyOnceInOrder(s: Loop, actions: seq<Action>)
    ensures var t := Run(s, actions);
            && t.executed + t.pending == s.executed + s.pending + Accepted(s.processing, actions)
            && s.executed <= t.executed
    decreases |actions|
  {
    if actions == [] {
      assert Accepted(s.processing, actions) == [];
    } else {
      var u := Step(s, actions[0]);
      StepKeepsOrder(s, actions[0]);
      ExactlyOnceInOrder(u, actions[1..]);
      var later := Accepted(u.processing, actions[1..]);
      var now := if actions[0].Queue? && s.processing then [actions[0].event] else [];
      assert Accepted(s.processing, actions) == now + later;
      assert s.executed + s.pending + now + later == s.executed + s.pending + (now + later);
    }
  }

  lemma StepKeepsOrder(s: Loop, a: Action)
    ensures var t := Step(s, a);
            && t.executed + t.pending
            == s.executed + s.pending + (if a.Queue? && s.processing then [a.event] else [])
            && s.executed <= t.executed
  {
    var n := BatchSize(|s.pending|);
    assert s.pending[..n] + s.pending[n..] == s.pending;
    assert s.executed + s.pending + [] == s.executed + s.pending;
    if a.Frame? {
      assert s.executed + s.pending[..n] + s.pending[n..] == s.executed + (s.pending[..n] + s.pending[n..]);
    }
  }

  /** The event with `ahead` others before it has been executed once, and not
      before, ahead / 5 + 1 active turns have passed, whatever is queued later. */
  lemma {:induction false} ServedOnTime(s: Loop, actions: seq<Action>, ahead: nat)
    requires ahead < |s.pending|
    ensures |Run(s, actions).executed| > |s.executed| + ahead
       <==> ActiveFrames(s.processing, s.paused, actions) > ahead / 5
    ensures |Run(s, actions).executed| > |s.executed| + ahead
        ==> Run(s, actions).executed[|s.executed| + ahead] == s.pending[ahead]
    decreases |actions|
  {
    ExactlyOnceInOrder(s, actions);
    PlaceOf(s, Run(s, actions), Accepted(s.processing, actions), ahead);
    if actions != [] {
      var u := Step(s, actions[0]);
      var n := |u.executed| - |s.executed|;
      if ahead < n {
        ExactlyOnceInOrder(u, actions[1..]);
      } else {
        ServedOnTime(u, actions[1..], ahead - n);
      }
    }
  }

  lemma PlaceOf(s: Loop, t: Loop, later: seq<Event>, ahead: nat)
    requires t.executed + t.pending == s.executed + s.pending + later && ahead < |s.pending|
    ensures |t.executed| > |s.executed| + ahead ==> t.executed[|s.executed| + ahead] == s.pending[ahead]
  {
    var i := |s.executed| + ahead;
    assert (s.executed + s.pending + later)[i] == s.pending[ahead];
    if |t.executed| > i {
      assert (t.executed + t.pending)[i] == t.executed[i];
    }
  }

  function Frames(k: nat): (r: seq<Action>)
    ensures |r| == k
  {
    if k == 0 then [] else [Frame] + Frames(k - 1)
  }

  /** Left alone, n events are gone after exactly n / 5 turns, rounded up. */
  lemma DrainsInCeiling(s: Loop, k: nat)
    requires s.processing && !s.paused
    ensures Run(s, Frames(k)).pending == [] <==> k >= (|s.pending| + 4) / 5
  {
    OnlyFrames(s.processing, s.paused, k);
    ExactlyOnceInOrder(s, Frames(k));
    var t := Run(s, Frames(k));
    assert |t.executed| + |t.pending| == |s.executed| + |s.pending| by {
      assert |t.executed + t.pending| == |s.executed + s.pending + Accepted(s.processing, Frames(k))|;
    }
    if s.pending != [] {
      ServedOnTime(s, Frames(k), |s.pending| - 1);
    }
  }

  lemma {:induction false} OnlyFrames(processing: bool, paused: bool, k: nat)
    ensures Accepted(processing, Frames(k)) == []
    ensures ActiveFrames(processing, paused, Frames(k)) == if processing && !paused then k else 0
  {
    if k > 0 {
      assert Frames(k)[1..] == Frames(k - 1);
      OnlyFrames(processing, paused, k - 1);
    }
  }
}

/**
 The debouncer behind file watching. Triggers restart a timer; when it fires, a goroutine runs
 the callback, or leaves one more run pending if the callback is running. The critical sections
 are atomic steps; timers, goroutines and callers interleave in any way.
 */
module Debouncer {
  import opened Wrappers

  datatype State = State(
    armed: bool, // the current timer has not fired
    running: bool,
    pending: bool,
    stopped: bool,
    waiting: nat, // goroutines whose timer fired, about to take the lock
    starting: nat, // goroutines about to call fn
    inFn: nat, // goroutines in fn
    ended: nat, // goroutines back from fn, about to take the lock
    triggers: nat, // accepted triggers so far
    starts: nat, // calls of fn so far
    unserved: bool // no call of fn since the last accepted trigger
  )

  const START := State(false, false, false, false, 0, 0, 0, 0, 0, 0, false)

  datatype Action = Trigger | TimerFires | FireLocks | FnStarts | FnEnds | LoopLocks | Stop

  predicate Enabled(s: State, a: Action) {
    match a {
      case TimerFires => s.armed
      case FireLocks => s.waiting > 0
      case FnStarts => s.starting > 0
      case FnEnds => s.inFn > 0
      case LoopLocks => s.ended > 0
      case _ => true
    }
  }

  function Next(s: State, a: Action): State
    requires Enabled(s, a)
  {
    match a {
      case Trigger => if s.stopped then s else s.(armed := true, triggers := s.triggers + 1, unserved := true)
      case TimerFires => s.(armed := false, waiting := s.waiting + 1)
      case FireLocks =>
        var t := s.(waiting := s.waiting - 1);
        if s.stopped then t
        else if s.running then t.(pending := true)
        else t.(running := true, starting := s.starting + 1)
      case FnStarts =>
        s.(starting := s.starting - 1, inFn := s.inFn + 1, starts := s.starts + 1, unserved := false)
      case FnEnds => s.(inFn := s.inFn - 1, ended := s.ended + 1)
      case LoopLocks =>
        var t := s.(ended := s.ended - 1, pending := false);
        if !s.pending || s.stopped then t.(running := false) else t.(starting := s.starting + 1)
      case Stop => s.(stopped := true, armed := false)
    }
  }

  predicate IsStep(s: State, a: Action, t: State) {
    Enabled(s, a) && t == Next(s, a)
  }

  /** Any interleaving: the i-th action leads from the i-th state to the next. */
  ghost predicate IsRun(run: seq<State>, acts: seq<Action>) {
    && |run| == |acts| + 1 && run[0] == START
    && forall i :: 0 <= i < |acts| ==> IsStep(run[i], acts[i], run[i + 1])
  }

  function Bit(b: bool): nat {
    if b then 1 else 0
  }

  predicate Inv(s: State) {
    && s.starting + s.inFn + s.ended == Bit(s.running)
    && (s.pending ==> s.running)
    && Bit(s.armed) + s.waiting + Bit(s.pending) + s.starting + s.starts <= s.triggers
    && (s.unserved && !s.stopped ==> s.armed || s.waiting > 0 || s.pending || s.starting > 0)
    && (s.stopped ==> !s.armed)
  }

  lemma StepKeepsInv(s: State, a: Action, t: State)
    requires Inv(s) && IsStep(s, a, t)
    ensures Inv(t)
  {
    match a {
      case Trigger =>
      case TimerFires =>
      case FireLocks =>
      case FnStarts =>
      case FnEnds =>
      case LoopLocks =>
      case Stop =>
    }
  }

  lemma {:induction false} RunKeepsInv(run: seq<State>, acts: seq<Action>, i: nat)
    requires IsRun(run, acts) && i < |run|
    ensures Inv(run[i])
  {
    if i > 0 {
      RunKeepsInv(run, acts, i - 1);
      StepKeepsInv(run[i - 1], acts[i - 1], run[i]);
    }
  }

  /** The callback never runs concurrently with itself. */
  lemma FnNeverOverlaps(run: seq<State>, acts: seq<Action>, i: nat)
    requires IsRun(run, acts) && i < |run|
    ensures run[i].inFn <= 1 && (Enabled(run[i], FnStarts) ==> run[i].inFn == 0)
  {
    RunKeepsInv(run, acts, i);
  }

  function Count(acts: seq<Action>, a: Action): nat {
    if acts == [] then 0 else Count(acts[..|acts| - 1], a) + Bit(acts[|acts| - 1] == a)
  }

  lemma {:induction false} CountersCount(run: seq<State>, acts: seq<Action>, i: nat)
    requires IsRun(run, acts) && i < |run|
    ensures run[i].triggers <= Count(acts[..i], Trigger) && run[i].starts == Count(acts[..i], FnStarts)
  {
    if i > 0 {
      CountersCount(run, acts, i - 1);
      assert acts[..i][..i - 1] == acts[..i - 1];
      assert IsStep(run[i - 1], acts[i - 1], run[i]);
    }
  }

  /** At no point of a run have there been more calls than triggers. */
  lemma CallsNeverExceedTriggers(run: seq<State>, acts: seq<Action>, i: nat)
    requires IsRun(run, acts) && i < |run|
    ensures Count(acts[..i], FnStarts) <= Count(acts[..i], Trigger)
  {
    RunKeepsInv(run, acts, i);
    CountersCount(run, acts, i);
  }

  // ---- Bursts ----

  /** There was a trigger since the timer last fired. */
  predicate InBurst(acts: seq<Action>) {
    acts != [] && match acts[|acts| - 1] {
      case Trigger => true
      case TimerFires => false
      case _ => InBurst(acts[..|acts| - 1])
    }
  }

  /** The bursts of triggers: a trigger begins one unless there was one since the timer last fired. */
  function Bursts(acts: seq<Action>): nat {
    if acts == [] then 0
    else
      var before := acts[..|acts| - 1];
      Bursts(before) + Bit(acts[|acts| - 1] == Trigger && !InBurst(before))
  }

  predicate BurstInv(s: State, acts: seq<Action>) {
    && (s.armed ==> InBurst(acts)) && (InBurst(acts) && !s.stopped ==> s.armed)
    && Bit(s.armed) + s.waiting + Bit(s.pending) + s.starting + s.starts <= Bursts(acts)
  }

  lemma StepKeepsBursts(s: State, acts: seq<Action>, a: Action)
    requires Inv(s) && BurstInv(s, acts) && Enabled(s, a)
    ensures BurstInv(Next(s, a), acts + [a])
  {
    assert (acts + [a])[..|acts|] == acts;
  }

  lemma {:induction false} RunKeepsBursts(run: seq<State>, acts: seq<Action>, i: nat)
    requires IsRun(run, acts) && i < |run|
    ensures BurstInv(run[i], acts[..i])
  {
    if i > 0 {
      RunKeepsBursts(run, acts, i - 1);
      RunKeepsInv(run, acts, i - 1);
      assert IsStep(run[i - 1], acts[i - 1], run[i]);
      StepKeepsBursts(run[i - 1], acts[..i - 1], acts[i - 1]);
      assert acts[..i] == acts[..i - 1] + [acts[i - 1]];
    }
  }

  /** A trigger replaces the armed timer: there are at most as many calls as bursts of triggers. */
  lemma CallsNeverExceedBursts(run: seq<State>, acts: seq<Action>, i: nat)
    requires IsRun(run, acts) && i < |run|
    ensures Count(acts[..i], FnStarts) <= Bursts(acts[..i])
  {
    RunKeepsBursts(run, acts, i);
    CountersCount(run, acts, i);
  }

  lemma {:induction false} OneBurst(acts: seq<Action>, k: nat, i: nat)
    requires k <= i <= |acts| && TimerFires !in acts[k..i]
    ensures Bursts(acts[..i]) <= Bursts(acts[..k]) + Bit(!InBurst(acts[..k]))
    ensures InBurst(acts[..k]) ==> InBurst(acts[..i])
    ensures Bursts(acts[..i]) > Bursts(acts[..k]) ==> InBurst(acts[..i])
  {
    if k < i {
      assert acts[k..i] == acts[k..i - 1] + [acts[i - 1]];
      assert acts[k..i][i - 1 - k] == acts[i - 1];
      OneBurst(acts, k, i - 1);
      assert acts[..i][..i - 1] == acts[..i - 1];
    }
  }

  // The calls that are under way: those begun, and those that a timer or goroutine will make.
  function UnderWay(s: State): nat {
    s.starts + s.starting + Bit(s.pending) + s.waiting + Bit(s.armed)
  }

  /** Triggers with no timer firing in between add one call at most to those made or under way. */
  lemma BurstAddsOneCall(run: seq<State>, acts: seq<Action>, k: nat, i: nat)
    requires IsRun(run, acts) && k <= i < |run| && TimerFires !in acts[k..i]
    ensures UnderWay(run[i]) <= UnderWay(run[k]) + 1
    ensures run[k].armed ==> UnderWay(run[i]) <= UnderWay(run[k])
  {
    AddsWhatIsArmed(run, acts, k, i);
  }

  lemma {:induction false} AddsWhatIsArmed(run: seq<State>, acts: seq<Action>, k: nat, i: nat)
    requires IsRun(run, acts) && k <= i < |run| && TimerFires !in acts[k..i]
    ensures UnderWay(run[i]) + Bit(run[k].armed) <= UnderWay(run[k]) + Bit(run[i].armed)
  {
    if k < i {
      assert acts[k..i] == acts[k..i - 1] + [acts[i - 1]];
      AddsWhatIsArmed(run, acts, k, i - 1);
      RunKeepsInv(run, acts, i - 1);
      assert IsStep(run[i - 1], acts[i - 1], run[i]);
    }
  }

  lemma CountNext(acts: seq<Action>, k: nat, i: nat, a: Action)
    requires k < i <= |acts|
    ensures Count(acts[k..i], a) == Count(acts[k..i - 1], a) + Bit(acts[i - 1] == a)
  {
    assert acts[k..i][..i - k - 1] == acts[k..i - 1];
  }

  lemma {:induction false} StartingRunsOut(run: seq<State>, acts: seq<Action>, k: nat, i: nat)
    requires IsRun(run, acts) && k <= i < |run| && run[k].stopped
    ensures run[i].stopped && run[i].starting + Count(acts[k..i], FnStarts) == run[k].starting
  {
    if k < i {
      var j := i - 1;
      StartingRunsOut(run, acts, k, j);
      assert IsStep(run[j], acts[j], run[j + 1]);
      StoppedStep(run[j], acts[j], run[i]);
      CountNext(acts, k, i, FnStarts);
    } else {
      assert acts[k..i] == [];
    }
  }

  /** After Stop at most one call starts, and only one that a goroutine was about to make. */
  lemma AtMostOneCallAfterStop(run: seq<State>, acts: seq<Action>, k: nat, i: nat)
    requires IsRun(run, acts) && k < i < |run| && acts[k] == Stop
    ensures run[i].stopped && run[i].starting + Count(acts[k + 1..i], FnStarts) == run[k].starting <= 1
  {
    RunKeepsInv(run, acts, k);
    assert IsStep(run[k], acts[k], run[k + 1]);
    StartingRunsOut(run, acts, k + 1, i);
  }

  // Once stopped, a step of the debouncer begins no new run of the callback's loop.
  lemma StoppedStep(s: State, a: Action, t: State)
    requires s.stopped && IsStep(s, a, t)
    ensures t.stopped && t.starting + Bit(a == FnStarts) == s.starting
  {
  }

  // ---- Every trigger is followed by a call ----

  predicate Internal(a: Action) {
    a != Trigger && a != Stop
  }

  ghost predicate AtRest(s: State) {
    forall a :: Internal(a) ==> !Enabled(s, a)
  }

  function Work(s: State): nat {
    6 * Bit(s.armed) + 5 * s.waiting + 4 * Bit(s.pending) + 3 * s.starting + 2 * s.inFn + s.ended
  }

  lemma WorkDecreases(s: State, a: Action, t: State)
    requires Inv(s) && Internal(a) && IsStep(s, a, t)
    ensures Work(t) < Work(s)
  {
    match a {
      case TimerFires =>
      case FireLocks =>
      case FnStarts =>
      case FnEnds =>
      case LoopLocks =>
    }
  }

  /** Without new triggers the debouncer does only so many steps more. */
  lemma {:induction false} ComesToRest(run: seq<State>, acts: seq<Action>, k: nat, i: nat)
    requires IsRun(run, acts) && k <= i < |run| && forall j :: k <= j < i ==> Internal(acts[j])
    ensures i - k + Work(run[i]) <= Work(run[k])
  {
    if k < i {
      ComesToRest(run, acts, k, i - 1);
      RunKeepsInv(run, acts, i - 1);
      WorkDecreases(run[i - 1], acts[i - 1], run[i]);
    }
  }

  /** A trigger with no call of fn begun after it is on its way to one. */
  lemma UnservedTriggerIsOnItsWay(run: seq<State>, acts: seq<Action>, k: nat, i: nat)
    requires IsRun(run, acts) && k < i < |run| && acts[k] == Trigger && !run[i].stopped
    requires FnStarts !in acts[k + 1..i]
    ensures run[i].armed || run[i].waiting > 0 || run[i].pending || run[i].starting > 0
  {
    StaysUnserved(run, acts, k, i);
    RunKeepsInv(run, acts, i);
  }

  lemma {:induction false} StaysUnserved(run: seq<State>, acts: seq<Action>, k: nat, i: nat)
    requires IsRun(run, acts) && k < i < |run| && acts[k] == Trigger && !run[i].stopped
    requires FnStarts !in acts[k + 1..i]
    ensures run[i].unserved
  {
    assert IsStep(run[i - 1], acts[i - 1], run[i]);
    if k + 1 < i {
      assert acts[i - 1] == acts[k + 1..i][i - k - 2];
      assert acts[k + 1..i - 1] == acts[k + 1..i][..i - k - 2];
      StaysUnserved(run, acts, k, i - 1);
    }
  }

  /** So once at rest, every trigger has been followed by a call of fn, unless stopped. */
  lemma EveryTriggerIsServed(run: seq<State>, acts: seq<Action>, k: nat, i: nat)
    requires IsRun(run, acts) && k < i < |run| && acts[k] == Trigger && !run[i].stopped && AtRest(run[i])
    ensures FnStarts in acts[k + 1..i]
  {
    var s := run[i];
    assert !Enabled(s, TimerFires) && !Enabled(s, FireLocks) && !Enabled(s, FnStarts);
    assert !Enabled(s, FnEnds) && !Enabled(s, LoopLocks);
    RunKeepsInv(run, acts, i);
    if FnStarts !in acts[k + 1..i] {
      UnservedTriggerIsOnItsWay(run, acts, k, i);
    }
  }

  /** The critical sections of Debouncer's methods; `run` and `acts` are what has happened. */
  class Debouncer {
    var timer: Option<bool> // Some(armed) once created
    var running: bool
    var pending: bool
    var stopped: bool
    ghost var run: seq<State>
    ghost var acts: seq<Action>

    ghost function Now(): State
      requires run != []
      reads `run
    {
      run[|run| - 1]
    }

    ghost predicate Valid()
      reads this
    {
      && IsRun(run, acts)
      && var s := Now();
         s.armed == (timer == Some(true)) && s.running == running && s.pending == pending && s.stopped == stopped
    }

    constructor ()
      ensures Valid() && acts == []
    {
      timer, running, pending, stopped := None, false, false, false;
      run, acts := [START], [];
    }

    ghost method Record(a: Action)
      requires IsRun(run, acts) && Enabled(Now(), a)
      modifies `run, `acts
      ensures acts == old(acts) + [a] && IsRun(run, acts) && old(run) < run && Now() == Next(old(Now()), a)
    {
      run, acts := run + [Next(Now(), a)], acts + [a];
    }

    method Trigger()
      requires Valid()
      modifies this
      ensures Valid() && acts == old(acts) + [Action.Trigger]
    {
      Record(Action.Trigger);
      if stopped {
        return;
      }
      if timer.Some? {
        timer := Some(false);
      }
      timer := Some(true);
    }

    // The runtime starts fire on a goroutine of its own.
    method TimerFires()
      requires Valid() && timer == Some(true)
      modifies this
      ensures Valid() && acts == old(acts) + [Action.TimerFires]
    {
      timer := Some(false);
      Record(Action.TimerFires);
    }

    // The first critical section of fire: whether the goroutine goes on to the loop.
    method FireEnter() returns (loops: bool)
      requires Valid() && Now().waiting > 0
      modifies this
      ensures Valid() && acts == old(acts) + [FireLocks]
      ensures loops <==> Now().starting == old(Now()).starting + 1
    {
      Record(FireLocks);
      if stopped {
        return false;
      }
      if running {
        pending := true;
        return false;
      }
      running := true;
      return true;
    }

    // The critical section at the end of the loop: whether fn is called again.
    method LoopAgain() returns (again: bool)
      requires Valid() && Now().ended > 0
      modifies this
      ensures Valid() && acts == old(acts) + [LoopLocks]
      ensures again <==> Now().starting == old(Now()).starting + 1
    {
      Record(LoopLocks);
      if !pending || stopped {
        running, pending := false, false;
        return false;
      }
      pending := false;
      return true;
    }

    method Stop()
      requires Valid()
      modifies this
      ensures Valid() && acts == old(acts) + [Action.Stop]
    {
      Record(Action.Stop);
      stopped := true;
      if timer.Some? {
        timer := Some(false);
      }
    }
  }
}

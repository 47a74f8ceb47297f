/**
 * The USDA watcher: a worker that exports the live stage to a local USDA
 * file once the stage has been updated and at least one whole second has
 * passed since the update, the stat callbacks that record the update time, and
 * the key loop that stops the worker. Times are whole seconds (`time_t`).
 */
module UsdaWatcher {

  /** The list events the stat subscription delivers. */
  datatype ListEvent = Updated | Created | Deleted | Locked | OtherEvent

  /** What the program does after a callback: carry on, or exit with a status. */
  datatype Outcome = Continue | Exit(status: int)

  /** The export rule: at least one whole second since the last update, and no export since it. */
  predicate ShouldExport(now: int, lastUpdate: int, lastWrite: int)
  {
    now - lastUpdate > 0 && lastWrite <= lastUpdate
  }

  /** The initial stat callback: a result other than Ok ends the program with status 1. */
  function StatOutcome(resultOk: bool): (o: Outcome)
    ensures o.Exit? <==> !resultOk
    ensures o.Exit? ==> o.status == 1
  {
    if resultOk then Continue else Exit(1)
  }

  /** One step of the interleaving of callbacks and worker iterations. */
  datatype Step =
    | Event(event: ListEvent, time: int)
      /** A worker iteration reading the clock at `now` and, after an export, at `writeTime`. */
    | Tick(now: int, writeTime: int)

  /** The two times, the exports so far and whether the program has exited. */
  datatype Watch = Watch(lastUpdate: int, lastWrite: int, exports: nat, exited: bool)

  function StepOf(w: Watch, s: Step): Watch
  {
    if w.exited then w
    else match s
      case Event(Updated, t) => w.(lastUpdate := t)
      case Event(Deleted, _) => w.(exited := true)
      case Event(_, _) => w
      case Tick(now, writeTime) =>
        if ShouldExport(now, w.lastUpdate, w.lastWrite) then w.(lastWrite := writeTime, exports := w.exports + 1) else w
  }

  /** The state after a sequence of steps; nothing happens once the program has exited. */
  function Run(w: Watch, steps: seq<Step>): Watch
  {
    if steps == [] then w else StepOf(Run(w, steps[..|steps| - 1]), steps[|steps| - 1])
  }

  /** The clock never goes back, and the write time is read after the iteration's time. */
  predicate Monotone(t0: int, steps: seq<Step>)
  {
    (forall i :: 0 <= i < |steps| ==> t0 <= TimeOf(steps[i]) && (steps[i].Tick? ==> steps[i].now <= steps[i].writeTime)) &&
    (forall i, j :: 0 <= i < j < |steps| ==> LastTimeOf(steps[i]) <= TimeOf(steps[j]))
  }

  /** The clock reading a step starts with. */
  function TimeOf(s: Step): int
  {
    match s
    case Event(_, t) => t
    case Tick(now, _) => now
  }

  /** The last clock reading of a step. */
  function LastTimeOf(s: Step): int
  {
    match s
    case Event(_, t) => t
    case Tick(_, writeTime) => writeTime
  }

  /** Whether a step could trigger an export of an unchanged stage: an iteration later than the start second. */
  predicate LateTick(t0: int, s: Step)
  {
    s.Tick? && s.now > t0
  }

  /** A step that is neither an Updated nor a Deleted event. */
  predicate Quiet(s: Step)
  {
    !(s.Event? && (s.event == Updated || s.event == Deleted))
  }

  /**
   * Both times start equal; without Updated or Deleted events, the first
   * iteration after the start second exports and no later one does.
   */
  lemma {:induction false} ExactlyOneExportWithoutUpdates(t0: int, steps: seq<Step>)
    requires Monotone(t0, steps)
    requires forall i :: 0 <= i < |steps| ==> Quiet(steps[i])
    ensures Run(Watch(t0, t0, 0, false), steps).exports == if exists i :: 0 <= i < |steps| && LateTick(t0, steps[i]) then 1 else 0
    ensures !Run(Watch(t0, t0, 0, false), steps).exited
  {
    OneExportInvariant(t0, steps);
    var w := Run(Watch(t0, t0, 0, false), steps);
    if exists i :: 0 <= i < |steps| && LateTick(t0, steps[i]) {
      assert w.exports == 1;
    } else {
      assert w.exports == 0;
    }
  }

  lemma {:induction false} OneExportInvariant(t0: int, steps: seq<Step>)
    requires Monotone(t0, steps)
    requires forall i :: 0 <= i < |steps| ==> Quiet(steps[i])
    ensures var w := Run(Watch(t0, t0, 0, false), steps);
      !w.exited && w.lastUpdate == t0 &&
      (w.exports == 0 <==> w.lastWrite == t0) &&
      (w.exports == 0 <==> forall i :: 0 <= i < |steps| ==> !LateTick(t0, steps[i])) &&
      w.exports <= 1 && (w.exports == 1 ==> w.lastWrite > t0)
  {
    if steps != [] {
      var init := steps[..|steps| - 1];
      var last := steps[|steps| - 1];
      assert Monotone(t0, init) by {
        forall i | 0 <= i < |init|
          ensures init[i] == steps[i]
        {
        }
      }
      forall i | 0 <= i < |init|
        ensures Quiet(init[i])
      {
        assert init[i] == steps[i];
      }
      OneExportInvariant(t0, init);
      var before := Run(Watch(t0, t0, 0, false), init);
      assert (forall i :: 0 <= i < |steps| ==> !LateTick(t0, steps[i])) <==>
             (forall i :: 0 <= i < |init| ==> !LateTick(t0, init[i])) && !LateTick(t0, last) by {
        forall i | 0 <= i < |init|
          ensures init[i] == steps[i]
        {
        }
      }
    }
  }

  /**
   * An Updated event is exported by the first iteration at least one whole second
   * later, provided every earlier export was read from the clock no later
   * than the update.
   */
  lemma UpdateIsExported(w: Watch, u: int, now: int, writeTime: int)
    requires !w.exited && w.lastWrite <= u && now > u
    ensures var after := Run(w, [Event(Updated, u), Tick(now, writeTime)]);
      after.exports == w.exports + 1 && after.lastWrite == writeTime && after.lastUpdate == u
  {
    var steps := [Event(Updated, u), Tick(now, writeTime)];
    assert steps[..1] == [Event(Updated, u)] && steps[..1][..0] == [];
    var updated := Run(w, steps[..1]);
    assert updated == StepOf(Run(w, []), Event(Updated, u));
    assert StepOf(w, Event(Updated, u)) == w.(lastUpdate := u);
    assert Run(w, steps) == StepOf(updated, Tick(now, writeTime));
  }

  /** A Deleted event ends the program: nothing after it changes the times or exports. */
  lemma {:induction false} DeletedEndsTheRun(w: Watch, steps: seq<Step>, i: int)
    requires 0 <= i < |steps| && steps[i].Event? && steps[i].event == Deleted && !Run(w, steps[..i]).exited
    ensures Run(w, steps) == Run(w, steps[..i]).(exited := true)
  {
    if i < |steps| - 1 {
      var init := steps[..|steps| - 1];
      assert init[..i] == steps[..i];
      DeletedEndsTheRun(w, init, i);
    } else {
      assert steps[..|steps| - 1] == steps[..i];
    }
  }

  /** The watcher's shared state: the two times and the worker's stop flag. */
  class Watcher {
    var lastUpdateTime: int
    var lastUsdaWriteTime: int
    var exported: nat
    var exited: bool
    var stopped: bool

    /** Both times are read from the clock at start-up, in the same second. */
    constructor (start: int)
      ensures lastUpdateTime == start && lastUsdaWriteTime == start && exported == 0 && !exited && !stopped
    {
      lastUpdateTime := start;
      lastUsdaWriteTime := start;
      exported := 0;
      exited := false;
      stopped := false;
    }

    function State(): Watch
      reads this
    {
      Watch(lastUpdateTime, lastUsdaWriteTime, exported, exited)
    }

    /** The subscription callback: Updated records the time, Deleted exits with status 1, the rest change nothing. */
    method OnEvent(event: ListEvent, time: int) returns (outcome: Outcome)
      requires !exited
      modifies this
      ensures outcome == (if event == Deleted then Exit(1) else Continue)
      ensures lastUpdateTime == (if event == Updated then time else old(lastUpdateTime))
      ensures lastUsdaWriteTime == old(lastUsdaWriteTime) && exported == old(exported) && stopped == old(stopped)
      ensures exited <==> event == Deleted
    {
      outcome := Continue;
      match event {
        case Updated =>
          lastUpdateTime := time;
        case Deleted =>
          exited := true;
          outcome := Exit(1);
        case _ =>
      }
    }

    /**
     * One worker iteration: export when the rule allows; the write time is
     * recorded after every attempt, including one whose export fails.
     */
    method Tick(now: int, writeTime: int, exportOk: bool) returns (attempted: bool, failed: bool)
      requires !exited
      modifies this
      ensures attempted == ShouldExport(now, old(lastUpdateTime), old(lastUsdaWriteTime))
      ensures failed <==> attempted && !exportOk
      ensures lastUsdaWriteTime == (if attempted then writeTime else old(lastUsdaWriteTime))
      ensures exported == old(exported) + (if attempted then 1 else 0)
      ensures lastUpdateTime == old(lastUpdateTime) && exited == old(exited) && stopped == old(stopped)
    {
      attempted := false;
      failed := false;
      if now - lastUpdateTime > 0 && lastUsdaWriteTime <= lastUpdateTime {
        attempted := true;
        failed := !exportOk;
        lastUsdaWriteTime := writeTime;
        exported := exported + 1;
      }
    }

    /**
     * The interleaved callbacks and worker iterations, until the steps run
     * out or a Deleted event exits; every export attempt is taken to succeed
     * or fail alike, as neither changes the state.
     */
    method RunSteps(steps: seq<Step>)
      modifies this
      ensures State() == Run(old(State()), steps) && stopped == old(stopped)
    {
      var i := 0;
      while i < |steps|
        invariant 0 <= i <= |steps|
        invariant State() == Run(old(State()), steps[..i]) && stopped == old(stopped)
      {
        assert steps[..i + 1][..i] == steps[..i];
        if !exited {
          match steps[i] {
            case Event(event, time) =>
              var _ := OnEvent(event, time);
            case Tick(now, writeTime) =>
              var _, _ := Tick(now, writeTime, true);
          }
        }
        i := i + 1;
      }
      assert steps[..i] == steps;
    }

    /** After the key loop the worker is stopped. */
    method Stop()
      modifies this
      ensures stopped && State() == old(State())
    {
      stopped := true;
    }
  }

  /** Whether a key ends the key loop: 'q' or escape. */
  predicate IsQuitKey(c: char)
  {
    c == 'q' || c == 27 as char
  }

  /**
   * The key loop: reads keys until 'q' or escape; `read` is how many keys
   * it consumed, and `quit` whether it found one.
   */
  method AwaitQuit(keys: seq<char>) returns (quit: bool, read: nat)
    ensures read <= |keys|
    ensures quit <==> exists k :: 0 <= k < |keys| && IsQuitKey(keys[k])
    ensures quit ==> read > 0 && IsQuitKey(keys[read - 1])
    ensures !quit ==> read == |keys|
    ensures forall k :: 0 <= k < read - 1 ==> !IsQuitKey(keys[k])
  {
    var c: char := 0 as char;
    read := 0;
    while !IsQuitKey(c) && read < |keys|
      invariant read <= |keys|
      invariant forall k :: 0 <= k < read - 1 ==> !IsQuitKey(keys[k])
      invariant read > 0 ==> c == keys[read - 1]
      invariant read == 0 ==> c == 0 as char
    {
      c := keys[read];
      read := read + 1;
    }
    quit := IsQuitKey(c);
    if !quit {
      forall k | 0 <= k < |keys|
        ensures !IsQuitKey(keys[k])
      {
        if k == read - 1 {
          assert c == keys[k];
        }
      }
    }
  }
}

/** Running a hook script: its deadline, the grace period, its exit and the end of its output race. */
module HookRunner {

  import opened ChildTrace

  /** Success: the hook exited with 0, without an error, and was not timed out. */
  ghost predicate SucceededBefore(t: seq<Observation>, j: nat)
    requires j <= |t|
  {
    SeenBefore(t, j, Exit(false, 0)) && !SeenBefore(t, j, SigTerm)
  }

  ghost predicate WellBehavedAt(t: seq<Observation>, j: nat)
    requires j < |t|
  {
    match t[j]
    case SigTerm => !ExitedBefore(t, j) && !SeenBefore(t, j, SigTerm)
    case SigKill => !ExitedBefore(t, j) && SeenBefore(t, j, SigTerm) && !SeenBefore(t, j, SigKill)
    case Exit(_, _) => !ExitedBefore(t, j)
    case Completed(report) =>
      && ExitedBefore(t, j) && DrainedBefore(t, j) && !CompletedBefore(t, j)
      && report == HookDone(SucceededBefore(t, j))
    case _ => !t[j].Progress?
  }

  /** No signal after the exit, SIGKILL only after SIGTERM, one exit; completion at most once, after
      exit and drain, with the right result, and never missing once both have happened. */
  ghost predicate WellBehaved(t: seq<Observation>) {
    && (forall j :: 0 <= j < |t| ==> WellBehavedAt(t, j))
    && (ExitedBefore(t, |t|) && DrainedBefore(t, |t|) ==> CompletedBefore(t, |t|))
  }

  class HookProcess {
    var alive: bool             // the process handle is held
    var timedOut: bool
    var exited: bool
    var drained: bool
    var finished: bool
    var ok: bool
    // Handlers that may still run. Cancelling a timer does not take back one already queued.
    var deadlineQueued: bool
    var graceQueued: bool
    var exitQueued: bool
    var drainQueued: bool
    var trace: seq<Observation>

    ghost predicate Valid()
      reads this
    {
      && Consistent()
      && (exited && drained ==> finished)
    }

    ghost predicate Consistent()
      reads this
    {
      && (forall j :: 0 <= j < |trace| ==> WellBehavedAt(trace, j))
      && exited == ExitedBefore(trace, |trace|)
      && drained == DrainedBefore(trace, |trace|)
      && finished == CompletedBefore(trace, |trace|)
      && timedOut == SeenBefore(trace, |trace|, SigTerm)
      && alive == exitQueued == !exited
      && (deadlineQueued ==> !timedOut)
      && (graceQueued ==> timedOut && !SeenBefore(trace, |trace|, SigKill))
      && (SeenBefore(trace, |trace|, SigKill) ==> timedOut)
      && (drainQueued ==> exited)
      && TimersServed()
      && (finished ==> exited && drained)
      && (exited ==> ok == SucceededBefore(trace, |trace|))
    }

    /** A timer that was set and is no longer queued has done its work. */
    ghost predicate TimersServed()
      reads this
    {
      && (timedOut && !exited && !graceQueued ==> SeenBefore(trace, |trace|, SigKill))
      && (exited && !drainQueued <==> SeenBefore(trace, |trace|, DrainExpired))
    }

    twostate predicate Steady()
      reads this
    {
      exited == old(exited) && timedOut == old(timedOut) && deadlineQueued == old(deadlineQueued)
    }

    constructor Start()
      ensures Valid() && !exited && !timedOut && !finished && deadlineQueued && trace == []
    {
      alive, timedOut, exited, drained, finished, ok := true, false, false, false, false, false;
      deadlineQueued, graceQueued, exitQueued, drainQueued := true, false, true, false;
      trace := [];
    }

    method Observe(o: Observation)
      modifies this`trace
      ensures trace == old(trace) + [o]
      ensures forall j :: 0 <= j < |old(trace)| ==> WellBehavedAt(trace, j) == WellBehavedAt(old(trace), j)
      ensures forall p :: SeenBefore(trace, |trace|, p) == (SeenBefore(old(trace), |old(trace)|, p) || p == o)
      ensures forall p :: SeenBefore(trace, |old(trace)|, p) == SeenBefore(old(trace), |old(trace)|, p)
      ensures ExitedBefore(trace, |trace|) == (ExitedBefore(old(trace), |old(trace)|) || o.Exit?)
      ensures ExitedBefore(trace, |old(trace)|) == ExitedBefore(old(trace), |old(trace)|)
      ensures CompletedBefore(trace, |trace|) == (CompletedBefore(old(trace), |old(trace)|) || o.Completed?)
      ensures CompletedBefore(trace, |old(trace)|) == CompletedBefore(old(trace), |old(trace)|)
    {
      forall j | 0 <= j < |trace|
        ensures WellBehavedAt(trace + [o], j) == WellBehavedAt(trace, j)
      {
        Before(trace, o, j);
      }
      hide WellBehavedAt, SeenBefore, ExitedBefore, CompletedBefore;
      Grows(trace, o);
      Before(trace, o, |trace|);
      trace := trace + [o];
    }

    method OnTimeout()
      requires Valid() && deadlineQueued
      modifies this
      ensures Valid() && !deadlineQueued && exited == old(exited)
      ensures timedOut == (old(timedOut) || !old(exited))
      ensures trace == if old(exited) then old(trace) else old(trace) + [SigTerm]
    {
      deadlineQueued := false;
      if !alive {
        return;
      }
      timedOut := true;
      Observe(SigTerm);
      graceQueued := true;
    }

    method OnGraceExpired()
      requires Valid() && graceQueued
      modifies this
      ensures Valid() && !graceQueued && Steady()
      ensures trace == if old(exited) then old(trace) else old(trace) + [SigKill]
    {
      graceQueued := false;
      if !alive {
        return;
      }
      Observe(SigKill);
    }

    method OnExit(error: bool, code: int)
      requires Valid() && exitQueued
      modifies this
      ensures Valid() && exited && deadlineQueued == old(deadlineQueued) && timedOut == old(timedOut)
      ensures
        var exit, done := Exit(error, code), Completed(HookDone(!error && code == 0 && !old(timedOut)));
        trace == if old(drained) then old(trace) + [exit] + [done] else old(trace) + [exit]
    {
      hide WellBehavedAt, SeenBefore, ExitedBefore, DrainedBefore, CompletedBefore, SucceededBefore;
      RecordExit(error, code);
      Finish();
    }

    method RecordExit(error: bool, code: int)
      requires Valid() && exitQueued
      modifies this
      ensures Consistent() && exited && trace == old(trace) + [Exit(error, code)]
      ensures timedOut == old(timedOut) && deadlineQueued == old(deadlineQueued) && drained == old(drained) && !finished
      ensures ok == (!error && code == 0 && !timedOut)
    {
      exitQueued := false;
      alive := false;
      if timedOut {
        ok := false;
      } else if error || code != 0 {
        ok := false;
      } else {
        ok := true;
      }
      exited := true;
      drainQueued := true;
      Observe(Exit(error, code));
    }

    method OnDrainTimeout()
      requires Valid() && drainQueued
      modifies this
      ensures Valid() && drained && Steady()
      ensures
        var done := Completed(HookDone(ok));
        trace == if old(finished) then old(trace) + [DrainExpired] else old(trace) + [DrainExpired] + [done]
    {
      hide WellBehavedAt, SeenBefore, ExitedBefore, DrainedBefore, CompletedBefore, SucceededBefore;
      RecordDrain(true);
      Finish();
    }

    method OnDrained()
      requires Valid()
      modifies this
      ensures Valid() && drained && Steady()
      ensures
        var done := Completed(HookDone(ok));
        trace == if old(exited) && !old(finished) then old(trace) + [Drained] + [done] else old(trace) + [Drained]
    {
      hide WellBehavedAt, SeenBefore, ExitedBefore, DrainedBefore, CompletedBefore, SucceededBefore;
      RecordDrain(false);
      Finish();
    }

    method RecordDrain(gaveUp: bool)
      requires Valid() && (gaveUp ==> drainQueued)
      modifies this`drained, this`drainQueued, this`trace
      ensures Consistent() && drained && trace == old(trace) + [if gaveUp then DrainExpired else Drained]
    {
      drained := true;
      if gaveUp {
        drainQueued := false;
      }
      Observe(if gaveUp then DrainExpired else Drained);
    }

    method Finish()
      requires Consistent()
      modifies this
      ensures Valid()
      ensures exited == old(exited) && drained == old(drained) && ok == old(ok)
      ensures Steady()
      ensures finished == (old(exited) && old(drained))
      ensures
        trace == if finished && !old(finished) then old(trace) + [Completed(HookDone(ok))] else old(trace)
    {
      if finished || !exited || !drained {
        return;
      }
      finished := true;
      Observe(Completed(HookDone(ok)));
    }
  }

  // ----- The runner -----

  /** The processes of `hs` that have not reported yet. */
  ghost function Unfinished(hs: seq<HookProcess>): seq<HookProcess>
    reads hs
  {
    if hs == [] then [] else (if hs[0].finished then [] else [hs[0]]) + Unfinished(hs[1..])
  }

  lemma {:induction false} UnfinishedAppend(hs: seq<HookProcess>, h: HookProcess)
    ensures Unfinished(hs + [h]) == Unfinished(hs) + if h.finished then [] else [h]
  {
    if hs == [] {
      assert hs + [h] == [h];
    } else {
      assert (hs + [h])[1..] == hs[1..] + [h];
      UnfinishedAppend(hs[1..], h);
    }
  }

  class Runner {
    var active: seq<HookProcess>    // keeps the processes alive: their handlers hold weak references

    constructor ()
      ensures active == []
    {
      active := [];
    }

    /** Starts a hook, or reports failure at once; no process that has yet to report is let go. */
    method AsyncRun(pipeOk: bool, spawnOk: bool) returns (failedNow: bool, started: HookProcess?)
      modifies this
      ensures failedNow == !(pipeOk && spawnOk) == (started == null)
      ensures active == old(Unfinished(active)) + if started == null then [] else [started]
      ensures started != null ==> fresh(started) && started.Valid() && !started.finished && started.trace == []
    {
      hide WellBehavedAt, SeenBefore, ExitedBefore, DrainedBefore, CompletedBefore;
      var kept := [];
      for i := 0 to |active|
        invariant active == old(active)
        invariant kept == old(Unfinished(active[..i]))
      {
        UnfinishedAppend(active[..i], active[i]);
        assert active[..i + 1] == active[..i] + [active[i]];
        if !active[i].finished {
          kept := kept + [active[i]];
        }
      }
      assert active[..|active|] == active;
      active := kept;
      if !pipeOk || !spawnOk {
        return true, null;
      }
      var process := new HookProcess.Start();
      active := active + [process];
      return false, process;
    }
  }

  // ----- All runs -----

  datatype HookEvent = DeadlineFires | GraceFires | Exits(error: bool, code: int) | OutputEnds | DrainFires

  /** Event i is the first exit. */
  ghost predicate ExitsFirst(events: seq<HookEvent>, i: nat)
    requires i < |events|
  {
    events[i].Exits? && forall h :: 0 <= h < i ==> !events[h].Exits?
  }

  /** Event i is a deadline that finds the hook running. */
  ghost predicate TimesOut(events: seq<HookEvent>, i: nat)
    requires i < |events|
  {
    events[i].DeadlineFires? && forall h :: 0 <= h < i ==> !events[h].Exits? && !events[h].DeadlineFires?
  }

  /** Event i is a grace timer that finds a timed out hook still running. */
  ghost predicate OutlivesGrace(events: seq<HookEvent>, i: nat)
    requires i < |events|
  {
    && events[i].GraceFires? && (exists h :: 0 <= h < i && TimesOut(events, h))
    && forall h :: 0 <= h < i ==> !events[h].Exits?
  }

  /** Event i is a drain timer after the exit. */
  ghost predicate GivesUpOutput(events: seq<HookEvent>, i: nat)
    requires i < |events|
  {
    events[i].DrainFires? && exists h :: 0 <= h < i && events[h].Exits?
  }

  /** What is seen is what the first k events lead to. */
  ghost predicate Reflects(t: seq<Observation>, events: seq<HookEvent>, k: nat)
    requires k <= |events|
  {
    && ExitedBefore(t, |t|) == (exists i :: 0 <= i < k && events[i].Exits?)
    && SeenBefore(t, |t|, SigTerm) == (exists i :: 0 <= i < k && TimesOut(events, i))
    && SeenBefore(t, |t|, SigKill) == (exists i :: 0 <= i < k && OutlivesGrace(events, i))
    && SeenBefore(t, |t|, DrainExpired) == (exists i :: 0 <= i < k && GivesUpOutput(events, i))
    && SeenBefore(t, |t|, Drained) == (exists i :: 0 <= i < k && events[i].OutputEnds?)
    && (forall e, c :: SeenBefore(t, |t|, Exit(e, c))
                       == exists i :: 0 <= i < k && ExitsFirst(events, i) && events[i] == Exits(e, c))
  }

  /** What one event adds, with the deadline timer still set or not. */
  ghost predicate Adds(t: seq<Observation>, event: HookEvent, deadlineQueued: bool, u: seq<Observation>) {
    var exited := ExitedBefore(t, |t|);
    && ExitedBefore(u, |u|) == (exited || event.Exits?)
    && SeenBefore(u, |u|, SigTerm)
         == (SeenBefore(t, |t|, SigTerm) || (event.DeadlineFires? && deadlineQueued && !exited))
    && SeenBefore(u, |u|, SigKill)
         == (SeenBefore(t, |t|, SigKill) || (event.GraceFires? && SeenBefore(t, |t|, SigTerm) && !exited))
    && SeenBefore(u, |u|, DrainExpired) == (SeenBefore(t, |t|, DrainExpired) || (event.DrainFires? && exited))
    && SeenBefore(u, |u|, Drained) == (SeenBefore(t, |t|, Drained) || event.OutputEnds?)
    && (forall e, c :: SeenBefore(u, |u|, Exit(e, c))
                       == (SeenBefore(t, |t|, Exit(e, c)) || (event == Exits(e, c) && !exited)))
  }

  lemma ReflectsNext(t: seq<Observation>, events: seq<HookEvent>, k: nat, deadlineQueued: bool, u: seq<Observation>)
    requires k < |events| && Reflects(t, events, k) && Adds(t, events[k], deadlineQueued, u)
    requires deadlineQueued == forall i :: 0 <= i < k ==> !events[i].DeadlineFires?
    ensures Reflects(u, events, k + 1)
  {
    hide SeenBefore, ExitedBefore;
    var exited := ExitedBefore(t, |t|);
    assert TimesOut(events, k) == (events[k].DeadlineFires? && deadlineQueued && !exited);
    assert OutlivesGrace(events, k) == (events[k].GraceFires? && SeenBefore(t, |t|, SigTerm) && !exited);
    assert GivesUpOutput(events, k) == (events[k].DrainFires? && exited);
    assert ExitsFirst(events, k) == (events[k].Exits? && !exited);
  }

  /** Runs the handler of `event` if it is queued; a timer handler may run after it was cancelled. */
  method Dispatch(hook: HookProcess, event: HookEvent, reading: bool) returns (stillReading: bool)
    requires hook.Valid() && reading == !SeenBefore(hook.trace, |hook.trace|, Drained)
    modifies hook
    ensures hook.Valid() && stillReading == !SeenBefore(hook.trace, |hook.trace|, Drained)
    ensures hook.deadlineQueued == (old(hook.deadlineQueued) && !event.DeadlineFires?)
    ensures Adds(old(hook.trace), event, old(hook.deadlineQueued), hook.trace)
  {
    hide WellBehavedAt, SeenBefore, ExitedBefore;
    stillReading := reading && !event.OutputEnds?;
    ghost var before := hook.trace;
    match event {
      case DeadlineFires => if hook.deadlineQueued { hook.OnTimeout(); }
      case GraceFires => if hook.graceQueued { hook.OnGraceExpired(); }
      case Exits(error, code) => if hook.exitQueued { hook.OnExit(error, code); }
      case OutputEnds => if reading { hook.OnDrained(); }
      case DrainFires => if hook.drainQueued { hook.OnDrainTimeout(); }
    }
    if hook.trace != before {
      ghost var o := hook.trace[|before|];
      GrewBy(before, o, hook.trace);
    }
  }

  /** Every interleaving of the handlers. What is seen is well behaved. A hook is told to stop exactly
      if a deadline finds it running, and killed exactly if the grace timer then does; its output is given
      up exactly if the drain timer fires after its exit; and it reports exactly if it has exited and its
      output has ended or been given up. */
  method RunHook(events: seq<HookEvent>) returns (trace: seq<Observation>)
    ensures WellBehaved(trace)
    ensures Reflects(trace, events, |events|)
    ensures CompletedBefore(trace, |trace|) <==> ExitedBefore(trace, |trace|) && DrainedBefore(trace, |trace|)
  {
    hide WellBehavedAt, SeenBefore, ExitedBefore, DrainedBefore, CompletedBefore, Reflects, Adds;
    var hook := new HookProcess.Start();
    ReflectsNothing(events);
    var reading := true;
    for k := 0 to |events|
      invariant hook.Valid() && fresh(hook)
      invariant hook.deadlineQueued == (forall i :: 0 <= i < k ==> !events[i].DeadlineFires?)
      invariant Reflects(hook.trace, events, k)
      invariant reading == !SeenBefore(hook.trace, |hook.trace|, Drained)
    {
      ghost var before, deadlineQueued := hook.trace, hook.deadlineQueued;
      reading := Dispatch(hook, events[k], reading);
      ReflectsNext(before, events, k, deadlineQueued, hook.trace);
    }
    trace := hook.trace;
  }

  lemma ReflectsNothing(events: seq<HookEvent>)
    ensures Reflects([], events, 0) && !SeenBefore([], 0, Drained)
  {
  }
}

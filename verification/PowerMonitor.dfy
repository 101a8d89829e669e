/** Waiting for the host to be switched off and on again. */
module PowerMonitor {

  const OFF := "xyz.openbmc_project.State.Chassis.PowerState.Off"
  const ON := "xyz.openbmc_project.State.Chassis.PowerState.On"

  /** An observed power state, from the first read or from a signal, or the deadline. */
  datatype Event = Observed(state: string) | Deadline

  /** Event j ends the wait if nothing before it did. */
  ghost predicate Decides(events: seq<Event>, j: nat)
    requires j < |events|
  {
    || events[j] == Deadline
    || (events[j] == Observed(ON) && exists i :: 0 <= i < j && events[i] == Observed(OFF))
  }

  /** Event j is the first to end the wait, and that is what was reported. */
  ghost predicate DecidedBy(events: seq<Event>, j: nat, reports: seq<bool>) {
    && j < |events|
    && Decides(events, j)
    && (forall i :: 0 <= i < j ==> !Decides(events, i))
    && reports == [events[j] != Deadline]
  }

  /** What a wait must have reported: nothing, or once what the first deciding event says. */
  ghost predicate Outcome(events: seq<Event>, reports: seq<bool>) {
    || (reports == [] && forall j :: 0 <= j < |events| ==> !Decides(events, j))
    || (exists j: nat :: DecidedBy(events, j, reports))
  }

  class HostPowerMonitor {
    var sawOff: bool
    var waiting: bool               // the completion callback is set
    var reports: seq<bool>          // what it was called with
    ghost var history: seq<Event>

    ghost predicate Valid()
      reads this
    {
      && sawOff == (exists i :: 0 <= i < |history| && history[i] == Observed(OFF))
      && waiting == (reports == [])
      && Outcome(history, reports)
    }

    constructor ()
      ensures Valid() && waiting && reports == [] && history == []
    {
      sawOff, waiting, reports, history := false, true, [], [];
    }

    method OnStateChanged(state: string)
      requires Valid()
      modifies this
      ensures Valid() && history == old(history) + [Observed(state)]
    {
      Extend(Observed(state));
      if !sawOff && state == OFF {
        sawOff := true;
        assert history[|history| - 1] == Observed(OFF);
      } else if sawOff && state == ON {
        Finish(true);
        assert old(waiting) ==> DecidedBy(history, |history| - 1, reports);
      }
    }

    method OnDeadline()
      requires Valid()
      modifies this
      ensures Valid() && history == old(history) + [Deadline]
    {
      Extend(Deadline);
      Finish(false);
      assert old(waiting) ==> DecidedBy(history, |history| - 1, reports);
    }

    ghost method Extend(event: Event)
      requires Valid()
      modifies this`history
      ensures history == old(history) + [event]
      ensures waiting ==> forall j :: 0 <= j < |history| - 1 ==> !Decides(history, j)
      ensures !waiting ==> Outcome(history, reports)
      ensures sawOff == exists i :: 0 <= i < |history| - 1 && history[i] == Observed(OFF)
    {
      var before := history;
      history := history + [event];
      assert forall i :: 0 <= i < |before| ==> history[i] == before[i];
      assert forall j :: 0 <= j < |before| ==> Decides(history, j) == Decides(before, j);
      if !waiting {
        var j: nat :| DecidedBy(before, j, reports);
        assert DecidedBy(history, j, reports);
      }
    }

    method Finish(ok: bool)
      modifies this`waiting, this`reports
      ensures !waiting
      ensures reports == if old(waiting) then old(reports) + [ok] else old(reports)
    {
      if !waiting {
        return;
      }
      waiting := false;
      reports := reports + [ok];
    }
  }

  /** One wait, over every series of observations and deadlines, late ones included. */
  method WaitForPowerCycle(events: seq<Event>) returns (reports: seq<bool>)
    ensures Outcome(events, reports)
  {
    var monitor := new HostPowerMonitor();
    for k := 0 to |events|
      invariant monitor.Valid() && fresh(monitor) && monitor.history == events[..k]
    {
      match events[k]
      case Observed(state) => monitor.OnStateChanged(state);
      case Deadline => monitor.OnDeadline();
    }
    assert events[..|events|] == events;
    reports := monitor.reports;
  }

  /** An Off, then an On, with no deadline before the On. */
  ghost predicate Cycle(events: seq<Event>, i: nat, j: nat) {
    && i < j < |events|
    && events[i] == Observed(OFF) && events[j] == Observed(ON)
    && forall k :: 0 <= k < j ==> events[k] != Deadline
  }

  /** The wait reports at most once, and true exactly when it saw such a cycle. */
  lemma OutcomeMeaning(events: seq<Event>, reports: seq<bool>)
    requires Outcome(events, reports)
    ensures |reports| <= 1
    ensures reports == [true] <==> exists i: nat, j: nat :: Cycle(events, i, j)
  {
    if i: nat, j: nat :| Cycle(events, i, j) {
      assert Decides(events, j);
      var first: nat :| DecidedBy(events, first, reports);
      assert events[first] != Deadline;
    }
    if reports == [true] {
      var j: nat :| DecidedBy(events, j, reports);
      var i: nat :| 0 <= i < j && events[i] == Observed(OFF);
      assert Cycle(events, i, j) by {
        forall k | 0 <= k < j
          ensures events[k] != Deadline
        {
          assert !Decides(events, k);
        }
      }
    }
  }
}

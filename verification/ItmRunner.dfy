/** Running the ITM binary: its deadline, progress reports, exit, output log and completion. */
module ItmRunner {
  import opened ChildTrace
  import opened RunLog

  const EXIT_SW_TIMEOUT: int := -2
  const NO_UPDATE: nat := 0xFF

  /** What reading the progress file gives. */
  type Reading = r: nat | r <= 100 || r == 0xFF witness 0xFF

  /** The progress reported. */
  ghost function Percents(t: seq<Observation>): seq<nat> {
    if t == [] then []
    else
      var before, last := Percents(t[..|t| - 1]), t[|t| - 1];
      if last.Progress? then before + [last.percent] else before
  }

  lemma PercentsNext(t: seq<Observation>, o: Observation)
    ensures Percents(t + [o]) == if o.Progress? then Percents(t) + [o.percent] else Percents(t)
  {
    assert (t + [o])[..|t|] == t;
  }

  /** The last of the reports; a run starts from 0. */
  function LastOf(percents: seq<nat>): nat {
    if percents == [] then 0 else percents[|percents| - 1]
  }

  ghost function LastProgress(t: seq<Observation>): nat {
    LastOf(Percents(t))
  }

  /** The code reported is -2 if the child was killed, and otherwise -1 after an error and the exit status if
      there was none. */
  ghost predicate Reports(t: seq<Observation>, j: nat, code: int)
    requires j <= |t|
  {
    forall i :: 0 <= i < j && t[i].Exit? ==>
      code == if SeenBefore(t, j, SigKill) then -2 else if t[i].error then -1 else t[i].code
  }

  ghost predicate WellBehavedAt(t: seq<Observation>, j: nat)
    requires j < |t|
  {
    match t[j]
    case SigTerm => false
    case SigKill => !ExitedBefore(t, j) && !SeenBefore(t, j, SigKill)
    case Progress(p) => !ExitedBefore(t, j) && p <= 100 && p != LastProgress(t[..j])
    case Exit(_, _) => !ExitedBefore(t, j)
    case Completed(report) =>
      && ExitedBefore(t, j) && DrainedBefore(t, j) && !CompletedBefore(t, j)
      && report.ItmDone? && Reports(t, j, report.code)
    case _ => true
  }

  /** At most one signal, none after the exit; progress up to 100 that never repeats itself and ends
      with the exit; one exit; completion at most once, after exit and drain, with the right code, and
      never missing once both have happened. */
  ghost predicate WellBehaved(t: seq<Observation>) {
    && (forall j :: 0 <= j < |t| ==> WellBehavedAt(t, j))
    && (ExitedBefore(t, |t|) && DrainedBefore(t, |t|) ==> CompletedBefore(t, |t|))
  }

  datatype ItmEvent =
    | DeadlineFires
    | Exits(error: bool, code: int, reading: Reading)
    | Chunk(data: string, kernel: seq<WriteResult>)
    | OutputEnds
    | DrainFires
    | PollReply(failed: bool, reading: Reading)
    | PollTimer(pipeOk: bool)

  /** How polling stands: a reply or the timer may be awaited until the exit, and what was reported. */
  datatype Polling = Polling(waiting: bool, timer: bool, over: bool, reported: seq<nat>)

  /** A reading is reported if there is one and it is not the last one reported. */
  function Tells(p: Polling, reading: Reading): bool {
    reading != NO_UPDATE && reading != LastOf(p.reported)
  }

  function Told(p: Polling, reading: Reading): Polling {
    if Tells(p, reading) then p.(reported := p.reported + [reading]) else p
  }

  function PollStep(p: Polling, event: ItmEvent): Polling {
    match event
    case PollReply(failed, reading) =>
      if !p.waiting then p
      else if failed || p.over then p.(waiting := false)
      else Told(p.(waiting := false, timer := true), reading)
    case PollTimer(pipeOk) =>
      if !p.timer then p
      else if p.over then p.(timer := false)
      else p.(waiting := p.waiting || pipeOk, timer := !pipeOk)
    case Exits(_, _, reading) => if p.over then p else Told(p.(over := true), reading)
    case _ => p
  }

  /** The first poll is made at the start; without a pipe it is put off. */
  function Polled(events: seq<ItmEvent>, pollPipeOk: bool): Polling {
    if events == [] then Polling(pollPipeOk, !pollPipeOk, false, [])
    else PollStep(Polled(events[..|events| - 1], pollPipeOk), events[|events| - 1])
  }

  lemma PolledNext(events: seq<ItmEvent>, k: nat, pollPipeOk: bool)
    requires k < |events|
    ensures Polled(events[..k + 1], pollPipeOk) == PollStep(Polled(events[..k], pollPipeOk), events[k])
  {
    hide PollStep;
    assert events[..k + 1][..k] == events[..k];
  }

  /** Nothing reported is taken back, and polling is over exactly once the child has exited. */
  lemma {:induction false} PolledGrows(events: seq<ItmEvent>, k: nat, pollPipeOk: bool)
    requires k <= |events|
    ensures Polled(events[..k], pollPipeOk).reported <= Polled(events, pollPipeOk).reported
    ensures Polled(events, pollPipeOk).over <==> exists i :: 0 <= i < |events| && events[i].Exits?
    decreases |events|
  {
    hide Told;
    if k == |events| {
      assert events[..k] == events;
    }
    if events != [] {
      var n := |events| - 1;
      PolledGrows(events[..n], if k <= n then k else n, pollPipeOk);
      assert k <= n ==> events[..n][..k] == events[..k];
      ToldGrows(Polled(events[..n], pollPipeOk), events[n]);
    }
  }

  lemma ToldGrows(p: Polling, event: ItmEvent)
    ensures p.reported <= PollStep(p, event).reported
    ensures PollStep(p, event).over == (p.over || event.Exits?)
  {
  }

  /** The reply that is awaited, if it comes before the exit with a reading, and the reading at the first
      exit leave that reading reported; and until the exit polling goes on unless a reply fails. */
  lemma ReadingIsReported(events: seq<ItmEvent>, k: nat, pollPipeOk: bool)
    requires k < |events| && forall i :: 0 <= i < k ==> !events[i].Exits?
    ensures
      var before, after := Polled(events[..k], pollPipeOk), Polled(events[..k + 1], pollPipeOk);
      && after.reported <= Polled(events, pollPipeOk).reported
      && ((events[k].PollReply? && !events[k].failed && before.waiting) || events[k].Exits? ==>
            events[k].reading == NO_UPDATE || LastOf(after.reported) == events[k].reading)
      && (before.waiting || before.timer ==>
            after.waiting || after.timer || (events[k].PollReply? && events[k].failed))
      && (before.timer && events[k].PollTimer? ==> if events[k].pipeOk then after.waiting else after.timer)
  {
    PolledGrows(events[..k], k, pollPipeOk);
    PolledGrows(events, k + 1, pollPipeOk);
    PolledNext(events, k, pollPipeOk);
    hide Polled;
  }

  /** What was reported was read, by a reply or at an exit, and is not what was reported before it; the first
      report is not 0. */
  lemma {:induction false} ReportedWereRead(events: seq<ItmEvent>, pollPipeOk: bool)
    ensures
      var reported := Polled(events, pollPipeOk).reported;
      && (forall r :: r in reported ==> r <= 100 && WasRead(events, r))
      && NoRepeat(reported)
  {
    hide PollStep, WasRead, NoRepeat;
    NothingReported();
    if events != [] {
      var n := |events| - 1;
      var before := Polled(events[..n], pollPipeOk);
      ReportedWereRead(events[..n], pollPipeOk);
      StepReports(before, events[n]);
      var reported := Polled(events, pollPipeOk).reported;
      forall r | r in reported
        ensures r <= 100 && WasRead(events, r)
      {
        StillRead(events, n, r);
      }
      if reported != before.reported {
        NoRepeatNext(before.reported, events[n].reading);
      }
    }
  }

  /** Each report differs from the one before, and the first from 0. */
  ghost predicate NoRepeat(reported: seq<nat>) {
    && (reported != [] ==> reported[0] != 0)
    && forall i :: 0 < i < |reported| ==> reported[i] != reported[i - 1]
  }

  lemma NothingReported()
    ensures NoRepeat([])
  {
  }

  lemma NoRepeatNext(reported: seq<nat>, next: nat)
    requires NoRepeat(reported) && next != LastOf(reported)
    ensures NoRepeat(reported + [next])
  {
  }

  lemma StepReports(p: Polling, event: ItmEvent)
    ensures
      var after := PollStep(p, event).reported;
      || after == p.reported
      || ((event.PollReply? || event.Exits?) && event.reading <= 100 && event.reading != LastOf(p.reported)
          && after == p.reported + [event.reading])
  {
  }

  lemma StillRead(events: seq<ItmEvent>, n: nat, r: nat)
    requires n < |events| && (WasRead(events[..n], r) || Reads(events[n], r))
    ensures WasRead(events, r)
  {
    hide Reads;
    if !Reads(events[n], r) {
      var i :| 0 <= i < n && Reads(events[..n][i], r);
      assert Reads(events[i], r);
    }
  }

  ghost predicate Reads(event: ItmEvent, r: nat) {
    (event.PollReply? || event.Exits?) && event.reading == r
  }

  ghost predicate WasRead(events: seq<ItmEvent>, r: nat) {
    exists i :: 0 <= i < |events| && Reads(events[i], r)
  }

  /** Polls the progress file on a worker and reports what is new. */
  class ProgressPoller {
    var lastProgress: nat
    var stopped: bool
    var replyPending: bool
    var timerQueued: bool     // may still run after it was cancelled

    constructor ()
      ensures lastProgress == 0 && !stopped && !replyPending && !timerQueued
    {
      lastProgress, stopped, replyPending, timerQueued := 0, false, false, false;
    }

    /** Stops polling and reads the file one last time. */
    method Stop(reading: Reading) returns (report: seq<nat>)
      modifies this
      ensures stopped && replyPending == old(replyPending) && timerQueued == old(timerQueued)
      ensures report == if reading != NO_UPDATE && reading != old(lastProgress) then [reading] else []
      ensures lastProgress == if report == [] then old(lastProgress) else report[0]
    {
      stopped := true;
      report := Report(reading);
    }

    method Report(reading: Reading) returns (report: seq<nat>)
      modifies this`lastProgress
      ensures report == if reading != NO_UPDATE && reading != old(lastProgress) then [reading] else []
      ensures lastProgress == if report == [] then old(lastProgress) else report[0]
    {
      report := [];
      if reading != NO_UPDATE && reading != lastProgress {
        lastProgress := reading;
        report := [reading];
      }
    }

    method Poll(pipeOk: bool)
      modifies this`replyPending, this`timerQueued
      ensures replyPending == (old(replyPending) || (!stopped && pipeOk))
      ensures timerQueued == (old(timerQueued) || (!stopped && !pipeOk))
    {
      if stopped {
        return;
      }
      if !pipeOk {
        ScheduleNextPoll();
        return;
      }
      replyPending := true;
    }

    method ScheduleNextPoll()
      modifies this`timerQueued
      ensures timerQueued == (old(timerQueued) || !stopped)
    {
      if !stopped {
        timerQueued := true;
      }
    }

    method OnReply(failed: bool, reading: Reading) returns (report: seq<nat>)
      requires replyPending
      modifies this
      ensures stopped == old(stopped) && !replyPending
      ensures timerQueued == (old(timerQueued) || (!failed && !stopped))
      ensures
        var told := !failed && !stopped && reading != NO_UPDATE && reading != old(lastProgress);
        report == if told then [reading] else []
      ensures lastProgress == if report == [] then old(lastProgress) else report[0]
    {
      replyPending := false;
      if failed || stopped {
        return [];
      }
      report := Report(reading);
      ScheduleNextPoll();
    }

    method OnTimer(pipeOk: bool)
      requires timerQueued
      modifies this
      ensures stopped == old(stopped) && lastProgress == old(lastProgress)
      ensures replyPending == (old(replyPending) || (!stopped && pipeOk)) && timerQueued == (!stopped && !pipeOk)
    {
      timerQueued := false;
      Poll(pipeOk);
    }
  }

  class ItmProcess {
    const poller: ProgressPoller
    const tee: OutputTee
    var alive: bool             // the process handle is held
    var timedOut: bool
    var exited: bool
    var drained: bool
    var finished: bool
    var exitCode: int
    // Handlers that may still run. Cancelling a timer does not take back one already queued.
    var deadlineQueued: bool
    var exitQueued: bool
    var drainQueued: bool
    var trace: seq<Observation>

    ghost function Repr(): set<object>
      reads this
    {
      {this, poller, tee, tee.log}
    }

    ghost predicate Valid()
      reads Repr()
    {
      && Consistent()
      && (exited && drained ==> finished)
    }

    ghost predicate Consistent()
      reads Repr()
    {
      && Tracked()
      && poller.stopped == exited
      && poller.lastProgress == LastProgress(trace)
      && tee.reading == tee.handlerSet == !SeenBefore(trace, |trace|, Drained)
      && tee.log.isOpen == !finished
    }

    ghost predicate Tracked()
      reads this
    {
      && (forall j :: 0 <= j < |trace| ==> WellBehavedAt(trace, j))
      && exited == ExitedBefore(trace, |trace|)
      && drained == DrainedBefore(trace, |trace|)
      && finished == CompletedBefore(trace, |trace|)
      && timedOut == SeenBefore(trace, |trace|, SigKill)
      && alive == exitQueued == !exited
      && (deadlineQueued ==> !timedOut)
      && (exited && !drainQueued <==> SeenBefore(trace, |trace|, DrainExpired))
      && (drainQueued ==> exited)
      && (finished ==> exited && drained)
      && (exited ==> Reports(trace, |trace|, exitCode))
    }

    ghost function Polls(): Polling
      reads this, poller
    {
      Polling(poller.replyPending, poller.timerQueued, poller.stopped, Percents(trace))
    }

    constructor Start(log: LogFile, pipeOk: bool)
      requires log.isOpen && log.content == ""
      ensures Valid() && trace == [] && !exited && !finished && !timedOut && deadlineQueued
      ensures tee.log == log && fresh(Repr() - {log}) && tee.reading && log.content == ""
      ensures Polls() == Polled([], pipeOk)
    {
      poller := new ProgressPoller();
      tee := new OutputTee(log);
      alive, timedOut, exited, drained, finished, exitCode := true, false, false, false, false, -1;
      deadlineQueued, exitQueued, drainQueued := true, true, false;
      trace := [];
      new;
      poller.Poll(pipeOk);
    }

    method Observe(o: Observation)
      modifies this`trace
      ensures trace == old(trace) + [o]
      ensures forall j :: 0 <= j < |old(trace)| ==> WellBehavedAt(trace, j) == WellBehavedAt(old(trace), j)
      ensures forall p :: SeenBefore(trace, |trace|, p) == (SeenBefore(old(trace), |old(trace)|, p) || p == o)
      ensures forall p :: SeenBefore(trace, |old(trace)|, p) == SeenBefore(old(trace), |old(trace)|, p)
      ensures ExitedBefore(trace, |trace|) == (ExitedBefore(old(trace), |old(trace)|) || o.Exit?)
      ensures ExitedBefore(trace, |old(trace)|) == ExitedBefore(old(trace), |old(trace)|)
      ensures CompletedBefore(trace, |trace|) == (CompletedBefore(old(trace), |old(trace)|) || o.Completed?)
      ensures CompletedBefore(trace, |old(trace)|) == CompletedBefore(old(trace), |old(trace)|)
      ensures trace[..|old(trace)|] == old(trace)
      ensures Percents(trace) == if o.Progress? then Percents(old(trace)) + [o.percent] else Percents(old(trace))
    {
      forall j | 0 <= j < |trace|
        ensures WellBehavedAt(trace + [o], j) == WellBehavedAt(trace, j)
      {
        Before(trace, o, j);
        assert (trace + [o])[..j] == trace[..j];
      }
      hide WellBehavedAt, SeenBefore, ExitedBefore, CompletedBefore, Percents;
      Grows(trace, o);
      Before(trace, o, |trace|);
      PercentsNext(trace, o);
      assert (trace + [o])[..|trace|] == trace;
      trace := trace + [o];
    }

    method ReportProgress(report: seq<nat>)
      requires Tracked() && !exited && |report| <= 1
      requires report != [] ==> report[0] <= 100 && report[0] != LastProgress(trace)
      modifies this`trace
      ensures Tracked() && trace == if report == [] then old(trace) else old(trace) + [Progress(report[0])]
      ensures Percents(trace) == if report == [] then Percents(old(trace)) else Percents(old(trace)) + [report[0]]
      ensures forall o: Observation ::
        !o.Progress? ==> SeenBefore(trace, |trace|, o) == SeenBefore(old(trace), |old(trace)|, o)
    {
      if report != [] {
        Observe(Progress(report[0]));
      }
    }

    method OnReply(failed: bool, reading: Reading)
      requires Valid() && poller.replyPending
      modifies this, poller
      ensures Valid() && Steady() && Polls() == PollStep(old(Polls()), PollReply(failed, reading))
      ensures
        var told := !failed && !old(exited) && Tells(old(Polls()), reading);
        trace == if told then old(trace) + [Progress(reading)] else old(trace)
    {
      hide WellBehavedAt, SeenBefore, ExitedBefore, DrainedBefore, CompletedBefore, Reports, Percents;
      var report := poller.OnReply(failed, reading);
      if report != [] {
        ReportProgress(report);
      }
    }

    method OnPollTimer(pipeOk: bool)
      requires Valid() && poller.timerQueued
      modifies poller
      ensures Valid() && Polls() == PollStep(old(Polls()), PollTimer(pipeOk))
    {
      hide WellBehavedAt, SeenBefore, ExitedBefore, DrainedBefore, CompletedBefore, Reports, Percents;
      poller.OnTimer(pipeOk);
    }

    /** What no timer or output handler changes. */
    twostate predicate Steady()
      reads this
    {
      exited == old(exited) && timedOut == old(timedOut) && deadlineQueued == old(deadlineQueued)
    }

    method OnDeadlineExpired()
      requires Valid() && deadlineQueued
      modifies this
      ensures Valid() && !deadlineQueued && exited == old(exited)
      ensures timedOut == (old(timedOut) || !old(exited)) && Polls() == old(Polls())
      ensures trace == if old(exited) then old(trace) else old(trace) + [SigKill]
    {
      deadlineQueued := false;
      if !alive {
        return;
      }
      timedOut := true;
      Observe(SigKill);
    }

    method OnProcessExit(error: bool, code: int, reading: Reading)
      requires Valid() && exitQueued
      modifies this, poller, tee.log`isOpen
      ensures Valid() && exited && deadlineQueued == old(deadlineQueued) && timedOut == old(timedOut)
      ensures exitCode == if old(timedOut) then -2 else if error then -1 else code
      ensures Polls() == PollStep(old(Polls()), Exits(error, code, reading))
      ensures
        var told := if Tells(old(Polls()), reading) then old(trace) + [Progress(reading)] else old(trace);
        var exit, done := Exit(error, code), Completed(ItmDone(exitCode));
        trace == if old(drained) then told + [exit] + [done] else told + [exit]
    {
      hide WellBehavedAt, SeenBefore, ExitedBefore, DrainedBefore, CompletedBefore, Reports, Percents;
      StopPolling(reading);
      RecordExit(error, code);
      Finish();
    }

    method StopPolling(reading: Reading)
      requires Tracked() && !exited && poller.lastProgress == LastProgress(trace)
      modifies this`trace, poller
      ensures Tracked() && poller.lastProgress == LastProgress(trace)
      ensures trace == if Tells(old(Polls()), reading) then old(trace) + [Progress(reading)] else old(trace)
      ensures Polls() == Told(old(Polls()).(over := true), reading)
      ensures forall o: Observation ::
        !o.Progress? ==> SeenBefore(trace, |trace|, o) == SeenBefore(old(trace), |old(trace)|, o)
    {
      hide WellBehavedAt, SeenBefore, ExitedBefore, DrainedBefore, CompletedBefore, Reports, Percents;
      var report := poller.Stop(reading);
      ReportProgress(report);
    }

    method RecordExit(error: bool, code: int)
      requires Tracked() && !exited
      modifies this`alive, this`exitCode, this`exited, this`exitQueued, this`drainQueued, this`trace
      ensures Tracked() && exited && trace == old(trace) + [Exit(error, code)]
      ensures exitCode == if timedOut then -2 else if error then -1 else code
      ensures Percents(trace) == Percents(old(trace))
      ensures forall o: Observation ::
        !o.Exit? ==> SeenBefore(trace, |trace|, o) == SeenBefore(old(trace), |old(trace)|, o)
    {
      exitQueued := false;
      alive := false;
      if timedOut {
        exitCode := EXIT_SW_TIMEOUT;
      } else if error {
        exitCode := -1;
      } else {
        exitCode := code;
      }
      exited := true;
      drainQueued := true;
      Observe(Exit(error, code));
    }

    method RecordDrain(gaveUp: bool)
      requires Tracked() && (gaveUp ==> drainQueued)
      modifies this`drained, this`drainQueued, this`trace
      ensures
        var o := if gaveUp then DrainExpired else Drained;
        && Tracked() && drained && trace == old(trace) + [o]
        && SeenBefore(trace, |trace|, o)
        && forall p :: p != o ==> SeenBefore(trace, |trace|, p) == SeenBefore(old(trace), |old(trace)|, p)
      ensures Percents(trace) == Percents(old(trace))
    {
      drained := true;
      if gaveUp {
        drainQueued := false;
      }
      Observe(if gaveUp then DrainExpired else Drained);
    }

    method OnDrainTimeout()
      requires Valid() && drainQueued
      modifies this, tee.log`isOpen
      ensures Valid() && drained && Steady() && Polls() == old(Polls())
      ensures
        var done := Completed(ItmDone(exitCode));
        trace == if old(finished) then old(trace) + [DrainExpired] else old(trace) + [DrainExpired] + [done]
    {
      hide WellBehavedAt, SeenBefore, ExitedBefore, DrainedBefore, CompletedBefore, Reports, Percents;
      RecordDrain(true);
      Finish();
    }

    /** The pump's read ended. */
    method OnOutputEnd()
      requires Valid()
      modifies this, tee, tee.log`isOpen
      ensures Valid() && drained && !tee.reading && Steady() && Polls() == old(Polls())
      ensures
        var done := Completed(ItmDone(exitCode));
        trace == if !old(tee.reading) then old(trace)
                 else if old(exited) && !old(finished) then old(trace) + [Drained] + [done]
                 else old(trace) + [Drained]
    {
      hide WellBehavedAt, SeenBefore, ExitedBefore, CompletedBefore, Reports, Percents;
      var fire := tee.OnEof();
      if fire {
        RecordDrain(false);
        Finish();
      }
    }

    /** Reading goes on when the log is closed already. */
    method OnChunk(data: string, kernel: seq<WriteResult>)
      requires Valid() && tee.reading
      modifies tee.log`content
      ensures Valid() && Polls() == old(Polls())
      ensures tee.log.content
        == if tee.log.isOpen then old(tee.log.content) + RunLog.Taken(data, kernel) else old(tee.log.content)
    {
      hide WellBehavedAt, SeenBefore, ExitedBefore, CompletedBefore, Reports, Percents;
      tee.OnChunk(data, kernel);
    }

    lemma OpenWhileReading()
      requires Valid()
      ensures tee.reading ==> tee.log.isOpen == !SeenBefore(trace, |trace|, DrainExpired)
    {
      hide WellBehavedAt, SeenBefore, ExitedBefore, CompletedBefore, Reports, Percents;
    }

    lemma Amounts()
      requires Valid()
      ensures WellBehaved(trace) && tee.log.isOpen == !CompletedBefore(trace, |trace|)
      ensures CompletedBefore(trace, |trace|) <==> ExitedBefore(trace, |trace|) && DrainedBefore(trace, |trace|)
    {
      hide WellBehavedAt, SeenBefore, ExitedBefore, DrainedBefore, CompletedBefore, Reports, Percents;
    }

    method Finish()
      requires Consistent()
      modifies this`finished, this`trace, tee.log`isOpen
      ensures Valid()
      ensures finished == (exited && drained)
      ensures trace == if finished && !old(finished) then old(trace) + [Completed(ItmDone(exitCode))] else old(trace)
      ensures Percents(trace) == Percents(old(trace))
    {
      if finished || !exited || !drained {
        return;
      }
      finished := true;
      tee.log.Close();
      Observe(Completed(ItmDone(exitCode)));
    }
  }

  class Runner {
    const log: LogFile
    var active: ItmProcess?

    constructor ()
      ensures !log.isOpen && fresh(log)
    {
      log := new LogFile();
      active := null;
    }

    /** Starts the binary, or reports -1 at once with the log closed again. */
    method AsyncRun(resultPathSet: bool, canOpen: bool, pipeOk: bool, spawnOk: bool, pollPipeOk: bool)
      returns (failedNow: bool, code: int)
      requires !log.isOpen
      modifies this, log
      ensures failedNow == !(resultPathSet && canOpen && pipeOk && spawnOk)
      ensures failedNow ==> code == -1 && !log.isOpen && active == old(active)
      ensures !failedNow ==> active != null && fresh(active.Repr() - {log}) && active.tee.log == log
      ensures !failedNow ==> active.Valid() && active.trace == [] && !active.exited && !active.timedOut
      ensures !failedNow ==> active.deadlineQueued && active.tee.reading && log.content == ""
      ensures !failedNow ==> active.Polls() == Polled([], pollPipeOk)
    {
      if !resultPathSet {
        return true, -1;
      }
      var logOk := log.Open(canOpen);
      if !logOk {
        return true, -1;
      }
      if !pipeOk || !spawnOk {
        log.Close();
        return true, -1;
      }
      active := new ItmProcess.Start(log, pollPipeOk);
      return false, 0;
    }
  }

  // ----- All runs -----

  ghost predicate ExitsWith(event: ItmEvent, error: bool, code: int) {
    event.Exits? && event.error == error && event.code == code
  }

  /** Event i is the first exit. */
  ghost predicate ExitsFirst(events: seq<ItmEvent>, i: nat, error: bool, code: int)
    requires i < |events|
  {
    ExitsWith(events[i], error, code) && forall h :: 0 <= h < i ==> !events[h].Exits?
  }

  /** Event i is a deadline that finds the child running. */
  ghost predicate TimesOut(events: seq<ItmEvent>, i: nat)
    requires i < |events|
  {
    events[i].DeadlineFires? && forall h :: 0 <= h < i ==> !events[h].Exits? && !events[h].DeadlineFires?
  }

  /** Event i is a drain timer after the exit. */
  ghost predicate GivesUpOutput(events: seq<ItmEvent>, i: nat)
    requires i < |events|
  {
    events[i].DrainFires? && exists h :: 0 <= h < i && events[h].Exits?
  }

  ghost predicate GivenUp(events: seq<ItmEvent>) {
    exists i :: 0 <= i < |events| && GivesUpOutput(events, i)
  }

  /** What the child wrote, up to the end of its output. */
  ghost function Output(events: seq<ItmEvent>): string {
    if events == [] then ""
    else
      var before, last := events[..|events| - 1], events[|events| - 1];
      Output(before) + if last.Chunk? && OutputEnds !in before then last.data else ""
  }

  /** What is logged of it: what the kernel takes of each chunk, until the drain timer gives up on the output. */
  ghost function LogText(events: seq<ItmEvent>): string {
    if events == [] then ""
    else
      var before, last := events[..|events| - 1], events[|events| - 1];
      LogText(before) + if last.Chunk? && OutputEnds !in before && !GivenUp(before)
                        then RunLog.Taken(last.data, last.kernel) else ""
  }

  lemma LogTextNext(events: seq<ItmEvent>, k: nat)
    requires k < |events|
    ensures
      var before, event := events[..k], events[k];
      LogText(events[..k + 1])
        == LogText(before) + if event.Chunk? && OutputEnds !in before && !GivenUp(before)
                             then RunLog.Taken(event.data, event.kernel) else ""
    ensures OutputEnds in events[..k + 1] <==> OutputEnds in events[..k] || events[k] == OutputEnds
    ensures GivenUp(events[..k]) <==> exists i :: 0 <= i < k && GivesUpOutput(events, i)
  {
    hide GivenUp;
    assert events[..k + 1][..k] == events[..k] && events[..k + 1] == events[..k] + [events[k]];
    GivenUpBefore(events, k);
  }

  lemma GivenUpBefore(events: seq<ItmEvent>, k: nat)
    requires k <= |events|
    ensures GivenUp(events[..k]) <==> exists i :: 0 <= i < k && GivesUpOutput(events, i)
  {
    assert forall i :: 0 <= i < k ==> GivesUpOutput(events[..k], i) == GivesUpOutput(events, i);
  }

  ghost predicate EveryWriteTaken(events: seq<ItmEvent>) {
    forall i :: 0 <= i < |events| && events[i].Chunk? ==> RunLog.Steady(events[i].kernel)
  }

  /** Output that comes after the drain timer gave up on it. */
  ghost predicate Late(events: seq<ItmEvent>, i: nat)
    requires i < |events|
  {
    events[i].Chunk? && events[i].data != "" && OutputEnds !in events[..i] && GivenUp(events[..i])
  }

  /** If every write is taken, the log is whole exactly if no output comes late. */
  lemma {:induction false} LogIsWhole(events: seq<ItmEvent>)
    requires EveryWriteTaken(events)
    ensures LogText(events) == Output(events) <==> forall i :: 0 <= i < |events| ==> !Late(events, i)
    ensures |LogText(events)| <= |Output(events)|
  {
    if events != [] {
      var n := |events| - 1;
      var before, last := events[..n], events[n];
      LogIsWhole(before);
      assert forall i :: 0 <= i < n ==> before[..i] == events[..i];
      hide GivenUp;
      assert forall i :: 0 <= i < n ==> Late(before, i) == Late(events, i);
      assert last.Chunk? ==> RunLog.Taken(last.data, last.kernel) == last.data;
      hide RunLog.Taken, RunLog.Steady;
      Joined(LogText(before), Output(before), LogText(events), Output(events),
             if last.Chunk? && OutputEnds !in before then last.data else "", Late(events, n));
    }
  }

  lemma Joined(a: string, b: string, c: string, d: string, more: string, late: bool)
    requires |a| <= |b| && d == b + more && c == (if late || more == "" then a else a + more)
    requires late ==> more != ""
    ensures c == d <==> a == b && !late
    ensures |c| <= |d|
  {
    if c == d && !late {
      assert a == c[..|a|] && |a| == |b|;
    }
  }

  /** What is seen is what the first k events lead to. */
  ghost predicate Reflects(t: seq<Observation>, events: seq<ItmEvent>, k: nat)
    requires k <= |events|
  {
    && ExitedBefore(t, |t|) == (exists i :: 0 <= i < k && events[i].Exits?)
    && SeenBefore(t, |t|, SigKill) == (exists i :: 0 <= i < k && TimesOut(events, i))
    && SeenBefore(t, |t|, DrainExpired) == (exists i :: 0 <= i < k && GivesUpOutput(events, i))
    && SeenBefore(t, |t|, Drained) == (exists i :: 0 <= i < k && events[i].OutputEnds?)
    && (forall e, c :: SeenBefore(t, |t|, Exit(e, c)) == exists i :: 0 <= i < k && ExitsFirst(events, i, e, c))
  }

  /** What one event adds, with the deadline timer still set or not. */
  ghost predicate Adds(t: seq<Observation>, event: ItmEvent, deadlineQueued: bool, u: seq<Observation>) {
    var exited := ExitedBefore(t, |t|);
    && ExitedBefore(u, |u|) == (exited || event.Exits?)
    && SeenBefore(u, |u|, SigKill)
         == (SeenBefore(t, |t|, SigKill) || (event.DeadlineFires? && deadlineQueued && !exited))
    && SeenBefore(u, |u|, DrainExpired) == (SeenBefore(t, |t|, DrainExpired) || (event.DrainFires? && exited))
    && SeenBefore(u, |u|, Drained) == (SeenBefore(t, |t|, Drained) || event.OutputEnds?)
    && (forall e, c :: SeenBefore(u, |u|, Exit(e, c))
                       == (SeenBefore(t, |t|, Exit(e, c)) || (ExitsWith(event, e, c) && !exited)))
  }

  lemma ReflectsNext(t: seq<Observation>, events: seq<ItmEvent>, k: nat, deadlineQueued: bool, u: seq<Observation>)
    requires k < |events| && Reflects(t, events, k) && Adds(t, events[k], deadlineQueued, u)
    requires deadlineQueued == forall i :: 0 <= i < k ==> !events[i].DeadlineFires?
    ensures Reflects(u, events, k + 1)
  {
    hide SeenBefore, ExitedBefore;
    var exited := ExitedBefore(t, |t|);
    assert TimesOut(events, k) == (events[k].DeadlineFires? && deadlineQueued && !exited);
    assert GivesUpOutput(events, k) == (events[k].DrainFires? && exited);
    assert forall e, c :: ExitsFirst(events, k, e, c) == (ExitsWith(events[k], e, c) && !exited);
  }

  /** What one event adds to the trace. */
  ghost predicate Trails(t: seq<Observation>, event: ItmEvent, deadlineQueued: bool, u: seq<Observation>) {
    var exited := ExitedBefore(t, |t|);
    match event
    case DeadlineFires => if deadlineQueued && !exited then Grew(t, SigKill, u) else u == t
    case Exits(error, code, reading) =>
      if exited then u == t
      else Grew(t, Exit(error, code), u) || Grew(t + [Progress(reading)], Exit(error, code), u)
    case Chunk(_, _) => u == t
    case OutputEnds => if SeenBefore(t, |t|, Drained) then u == t else Grew(t, Drained, u)
    case DrainFires => if exited && !SeenBefore(t, |t|, DrainExpired) then Grew(t, DrainExpired, u) else u == t
    case PollReply(_, reading) => u == t || Grew(t, Progress(reading), u)
    case PollTimer(_) => u == t
  }

  lemma TrailsAdds(t: seq<Observation>, event: ItmEvent, deadlineQueued: bool, u: seq<Observation>)
    requires Trails(t, event, deadlineQueued, u)
    ensures Adds(t, event, deadlineQueued, u)
  {
    hide SeenBefore, ExitedBefore;
    if event.Exits? {
      GrewBy(t, Progress(event.reading), t + [Progress(event.reading)]);
    }
    if event.Exits? && Grew(t + [Progress(event.reading)], Exit(event.error, event.code), u) {
      GrewBy(t + [Progress(event.reading)], Exit(event.error, event.code), u);
    } else if u != t {
      GrewBy(t, match event
             case DeadlineFires => SigKill
             case Exits(error, code, _) => Exit(error, code)
             case OutputEnds => Drained
             case DrainFires => DrainExpired
             case PollReply(_, reading) => Progress(reading)
             case _ => SigTerm, u);
    }
  }

  lemma ReflectsNothing(events: seq<ItmEvent>)
    ensures Reflects([], events, 0) && LogText([]) == ""
  {
  }

  lemma GivenUpSeen(t: seq<Observation>, events: seq<ItmEvent>, k: nat)
    requires k <= |events| && Reflects(t, events, k)
    ensures SeenBefore(t, |t|, DrainExpired) <==> exists i :: 0 <= i < k && GivesUpOutput(events, i)
  {
    hide SeenBefore, ExitedBefore;
  }

  /** Runs the handler of `event` if it is queued; a timer handler may run after it was cancelled. */
  method Dispatch(itm: ItmProcess, event: ItmEvent)
    requires itm.Valid()
    modifies itm.Repr()
    ensures itm.Valid() && itm.deadlineQueued == (old(itm.deadlineQueued) && !event.DeadlineFires?)
    ensures Trails(old(itm.trace), event, old(itm.deadlineQueued), itm.trace)
    ensures itm.Polls() == PollStep(old(itm.Polls()), event)
    ensures itm.tee.reading == (old(itm.tee.reading) && event != OutputEnds)
    ensures itm.tee.log.content
      == if event.Chunk? && old(itm.tee.reading) && old(itm.tee.log.isOpen)
         then old(itm.tee.log.content) + RunLog.Taken(event.data, event.kernel) else old(itm.tee.log.content)
  {
    hide WellBehavedAt, SeenBefore, ExitedBefore, CompletedBefore, Reports, Percents;
    match event
    case DeadlineFires => if itm.deadlineQueued { itm.OnDeadlineExpired(); }
    case Exits(error, code, reading) => if itm.exitQueued { itm.OnProcessExit(error, code, reading); }
    case Chunk(data, kernel) => if itm.tee.reading { itm.OnChunk(data, kernel); }
    case OutputEnds => itm.OnOutputEnd();
    case DrainFires => if itm.drainQueued { itm.OnDrainTimeout(); }
    case PollReply(failed, reading) => if itm.poller.replyPending { itm.OnReply(failed, reading); }
    case PollTimer(pipeOk) => if itm.poller.timerQueued { itm.OnPollTimer(pipeOk); }
  }

  /** Every interleaving of the handlers. What is seen is well behaved; the child is killed exactly if a
      deadline finds it running; its output is given up exactly if the drain timer fires after its exit;
      it reports exactly if it has exited and its output has ended or been given up; the progress
      reported is what polling leads to; the log is open until completion, and holds exactly what the kernel
      took of the output until it ended or was given up. */
  method RunItm(runner: Runner, events: seq<ItmEvent>, pollPipeOk: bool) returns (trace: seq<Observation>)
    requires !runner.log.isOpen
    modifies runner, runner.log
    ensures WellBehaved(trace) && Reflects(trace, events, |events|)
    ensures CompletedBefore(trace, |trace|) <==> ExitedBefore(trace, |trace|) && DrainedBefore(trace, |trace|)
    ensures Percents(trace) == Polled(events, pollPipeOk).reported
    ensures runner.log.isOpen == !CompletedBefore(trace, |trace|)
    ensures runner.log.content == LogText(events)
  {
    hide WellBehavedAt, SeenBefore, ExitedBefore, DrainedBefore, CompletedBefore, Reports, Percents, Reflects, Adds,
      Trails, PollStep, Polled, LogText, GivenUp, ItmProcess.Valid;
    var failedNow, code := runner.AsyncRun(true, true, true, true, pollPipeOk);
    var itm := runner.active;
    ReflectsNothing(events);
    assert events[..0] == [];
    for k := 0 to |events|
      invariant itm.Valid() && fresh(itm.Repr() - {runner.log}) && itm.tee.log == runner.log
      invariant itm.deadlineQueued == (forall i :: 0 <= i < k ==> !events[i].DeadlineFires?)
      invariant Reflects(itm.trace, events, k)
      invariant itm.Polls() == Polled(events[..k], pollPipeOk)
      invariant itm.tee.reading == (OutputEnds !in events[..k])
      invariant itm.tee.log.content == LogText(events[..k])
    {
      ghost var before, deadlineQueued := itm.trace, itm.deadlineQueued;
      PolledNext(events, k, pollPipeOk);
      LogTextNext(events, k);
      itm.OpenWhileReading();
      GivenUpSeen(before, events, k);
      Dispatch(itm, events[k]);
      TrailsAdds(before, events[k], deadlineQueued, itm.trace);
      ReflectsNext(before, events, k, deadlineQueued, itm.trace);
    }
    assert events[..|events|] == events;
    itm.Amounts();
    trace := itm.trace;
  }
}

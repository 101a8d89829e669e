/** One run from its acceptance to its end, with all that it launches. */
module WholeRun {
  import opened Wrappers
  import opened MachineWord
  import opened RunChain
  import opened IstService
  import ChildTrace
  import CpuDiscovery
  import HookRunner
  import ItmRunner
  import PowerMonitor
  import Results
  import SignatureVerify
  import UpdateSessions
  import VectorManager

  /** How the async session reads files. */
  const CHUNK := 65536

  // ----- What happens to what a run launches -----

  /** A hook cannot be started, or is and has these events. */
  datatype HookLife = NotStarted | Hook(events: seq<HookRunner.HookEvent>)

  /** One of the calls that start ITM fails, or it is started and has these events. */
  datatype ItmLife =
    | ItmNotStarted(resultPathSet: bool, canOpen: bool, pipeOk: bool)
    | ItmStarted(events: seq<ItmRunner.ItmEvent>, pollPipeOk: bool)

  datatype Fortune = Fortune(
    disk: SignatureVerify.Disk, answers: seq<bool>, paths: seq<string>, bootAssert: HookLife,
    power: seq<PowerMonitor.Event>, cakPresent: bool, cakWithin: bool, cakBypass: HookLife, itm: ItmLife,
    deassert: HookLife, listing: Listing, nodes: map<string, Results.Node>, script: Results.Script, reset: HookLife)

  // ----- Hooks -----

  ghost predicate HookReports(h: HookLife) {
    h.Hook? ==>
      && (exists i :: 0 <= i < |h.events| && h.events[i].Exits?)
      && ((exists i :: 0 <= i < |h.events| && h.events[i].OutputEnds?)
          || exists i :: 0 <= i < |h.events| && HookRunner.GivesUpOutput(h.events, i))
  }

  /** It exits with 0, and no deadline finds it running. */
  ghost predicate HookWorks(h: HookLife) {
    && h.Hook?
    && (exists i :: 0 <= i < |h.events| && HookRunner.ExitsFirst(h.events, i)
                    && h.events[i] == HookRunner.Exits(false, 0))
    && !exists i :: 0 <= i < |h.events| && HookRunner.TimesOut(h.events, i)
  }

  /** A hook reports what is true at the end: nothing it depends on comes after its exit. */
  lemma HookReportIsFinal(t: seq<ChildTrace.Observation>, j: nat)
    requires HookRunner.WellBehaved(t) && j < |t| && t[j].Completed?
    ensures t[j].report == ChildTrace.HookDone(HookRunner.SucceededBefore(t, |t|))
  {
    assert HookRunner.WellBehavedAt(t, j);
    var e :| 0 <= e < j && t[e].Exit?;
    forall i | j <= i < |t|
      ensures !t[i].Exit? && t[i] != ChildTrace.SigTerm
    {
      assert HookRunner.WellBehavedAt(t, i);
    }
  }

  method RunTheHook(h: HookLife) returns (event: Option<ServiceEvent>)
    ensures event == if HookReports(h) then Some(HookDone(HookWorks(h))) else None
  {
    if h.NotStarted? {
      return Some(HookDone(false));
    }
    var trace := HookRunner.RunHook(h.events);
    HookSeen(trace, h);
    event := ReportIn(trace);
  }

  /** What the trace of a hook says that it reported. */
  method ReportIn(trace: seq<ChildTrace.Observation>) returns (event: Option<ServiceEvent>)
    requires HookRunner.WellBehaved(trace)
    ensures event == if ChildTrace.CompletedBefore(trace, |trace|)
                     then Some(HookDone(HookRunner.SucceededBefore(trace, |trace|))) else None
  {
    hide HookRunner.WellBehaved, HookRunner.SucceededBefore;
    for j := 0 to |trace|
      invariant forall i :: 0 <= i < j ==> !trace[i].Completed?
    {
      if trace[j].Completed? {
        HookReportIsFinal(trace, j);
        return Some(HookDone(trace[j].report.ok));
      }
    }
    return None;
  }

  lemma HookSeen(t: seq<ChildTrace.Observation>, h: HookLife)
    requires h.Hook? && HookRunner.Reflects(t, h.events, |h.events|)
    requires ChildTrace.CompletedBefore(t, |t|) <==> ChildTrace.ExitedBefore(t, |t|) && ChildTrace.DrainedBefore(t, |t|)
    ensures HookRunner.SucceededBefore(t, |t|) == HookWorks(h)
    ensures ChildTrace.CompletedBefore(t, |t|) == HookReports(h)
  {
  }

  // ----- ITM -----

  ghost predicate ItmReports(m: ItmLife) {
    m.ItmStarted? ==>
      && (exists i :: 0 <= i < |m.events| && m.events[i].Exits?)
      && ((exists i :: 0 <= i < |m.events| && m.events[i].OutputEnds?)
          || exists i :: 0 <= i < |m.events| && ItmRunner.GivesUpOutput(m.events, i))
  }

  ghost predicate ItmTimesOut(events: seq<ItmRunner.ItmEvent>) {
    exists k :: 0 <= k < |events| && ItmRunner.TimesOut(events, k)
  }

  /** A deadline finds it running: one fires before event i. */
  ghost predicate DeadlineBefore(events: seq<ItmRunner.ItmEvent>, i: nat)
    requires i <= |events|
  {
    exists k :: 0 <= k < i && events[k].DeadlineFires?
  }

  /** The code it reports: -1 if it could not be started, -2 if a deadline found it running, and otherwise that
      of its first exit, or -1 if that was an error. */
  ghost predicate ItmEndsWith(m: ItmLife, code: int) {
    match m
    case ItmNotStarted(_, _, _) => code == -1
    case ItmStarted(events, _) =>
      exists i, e, c :: 0 <= i < |events| && ItmRunner.ExitsFirst(events, i, e, c)
        && code == if DeadlineBefore(events, i) then -2 else if e then -1 else c
  }

  lemma ItmReportIsFinal(t: seq<ChildTrace.Observation>, j: nat, error: bool, code: int)
    requires ItmRunner.WellBehaved(t) && j < |t| && t[j].Completed?
    requires ChildTrace.SeenBefore(t, |t|, ChildTrace.Exit(error, code))
    ensures t[j].report.ItmDone?
    ensures t[j].report.code
      == if ChildTrace.SeenBefore(t, |t|, ChildTrace.SigKill) then -2 else if error then -1 else code
  {
    assert ItmRunner.WellBehavedAt(t, j);
    forall i | j <= i < |t|
      ensures !t[i].Exit? && t[i] != ChildTrace.SigKill
    {
      assert ItmRunner.WellBehavedAt(t, i);
    }
  }

  lemma ItmSeen(t: seq<ChildTrace.Observation>, m: ItmLife)
    requires m.ItmStarted? && ItmRunner.Reflects(t, m.events, |m.events|)
    requires ChildTrace.CompletedBefore(t, |t|) <==> ChildTrace.ExitedBefore(t, |t|) && ChildTrace.DrainedBefore(t, |t|)
    ensures ChildTrace.CompletedBefore(t, |t|) == ItmReports(m)
  {
  }

  lemma ItmCodeSeen(t: seq<ChildTrace.Observation>, j: nat, m: ItmLife)
    requires m.ItmStarted? && ItmRunner.Reflects(t, m.events, |m.events|) && ItmRunner.WellBehaved(t)
    requires j < |t| && t[j].Completed?
    ensures t[j].report.ItmDone? && ItmEndsWith(m, t[j].report.code)
  {
    assert ItmRunner.WellBehavedAt(t, j);
    hide ItmRunner.WellBehaved;
    var x :| 0 <= x < j && t[x].Exit?;
    var e, c := t[x].error, t[x].code;
    assert ChildTrace.SeenBefore(t, |t|, ChildTrace.Exit(e, c));
    ItmReportIsFinal(t, j, e, c);
    var i :| 0 <= i < |m.events| && ItmRunner.ExitsFirst(m.events, i, e, c);
    TimesOutBefore(m.events, i);
  }

  /** The first deadline before the first exit is the one that finds the child running. */
  lemma TimesOutBefore(events: seq<ItmRunner.ItmEvent>, i: nat)
    requires i < |events| && events[i].Exits? && forall h :: 0 <= h < i ==> !events[h].Exits?
    ensures DeadlineBefore(events, i) <==> ItmTimesOut(events)
  {
    if DeadlineBefore(events, i) {
      var k :| 0 <= k < i && events[k].DeadlineFires?;
      FirstDeadline(events, k);
    }
  }

  lemma {:induction false} FirstDeadline(events: seq<ItmRunner.ItmEvent>, k: nat)
    requires k < |events| && events[k].DeadlineFires? && forall h :: 0 <= h < k ==> !events[h].Exits?
    ensures ItmTimesOut(events)
  {
    if h :| 0 <= h < k && events[h].DeadlineFires? {
      FirstDeadline(events, h);
    } else {
      assert ItmRunner.TimesOut(events, k);
    }
  }

  /** What the log of ITM holds, if ITM was started. */
  ghost predicate LogHolds(m: ItmLife, content: string) {
    m.ItmStarted? ==> content == ItmRunner.LogText(m.events)
  }

  /** Runs the binary. Its log is closed when it reports, and holds what was logged of its output. */
  method RunTheItm(m: ItmLife, runner: ItmRunner.Runner) returns (event: Option<ServiceEvent>)
    requires !runner.log.isOpen
    modifies runner, runner.log
    ensures event.Some? <==> ItmReports(m)
    ensures event.Some? ==> event.value.ItmDone? && ItmEndsWith(m, event.value.itmExit) && !runner.log.isOpen
    ensures LogHolds(m, runner.log.content)
  {
    if m.ItmNotStarted? {
      var failedNow, code := runner.AsyncRun(m.resultPathSet, m.canOpen, m.pipeOk, false, false);
      return Some(ItmDone(code));
    }
    var trace := ItmRunner.RunItm(runner, m.events, m.pollPipeOk);
    ItmSeen(trace, m);
    event := ItmReportIn(trace, m);
  }

  /** What the trace of ITM says that it reported. */
  method ItmReportIn(trace: seq<ChildTrace.Observation>, m: ItmLife) returns (event: Option<ServiceEvent>)
    requires m.ItmStarted? && ItmRunner.Reflects(trace, m.events, |m.events|) && ItmRunner.WellBehaved(trace)
    ensures event.Some? <==> ChildTrace.CompletedBefore(trace, |trace|)
    ensures event.Some? ==> event.value.ItmDone? && ItmEndsWith(m, event.value.itmExit)
  {
    hide ItmRunner.WellBehaved, ItmRunner.Reflects, ItmEndsWith;
    for j := 0 to |trace|
      invariant forall i :: 0 <= i < j ==> !trace[i].Completed?
    {
      if trace[j].Completed? {
        ItmCodeSeen(trace, j, m);
        return Some(ItmDone(trace[j].report.code));
      }
    }
    return None;
  }

  // ----- The host -----

  ghost predicate HostReports(events: seq<PowerMonitor.Event>) {
    exists j :: 0 <= j < |events| && PowerMonitor.Decides(events, j)
  }

  ghost predicate HostCycles(events: seq<PowerMonitor.Event>) {
    exists i: nat, j: nat :: PowerMonitor.Cycle(events, i, j)
  }

  method WaitForHost(events: seq<PowerMonitor.Event>) returns (ok: Option<bool>)
    ensures ok == if HostReports(events) then Some(HostCycles(events)) else None
  {
    var reports := PowerMonitor.WaitForPowerCycle(events);
    PowerMonitor.OutcomeMeaning(events, reports);
    if reports == [] {
      return None;
    }
    assert reports == [reports[0]];
    assert HostReports(events) by {
      var j: nat :| PowerMonitor.DecidedBy(events, j, reports);
      assert PowerMonitor.Decides(events, j);
    }
    return Some(reports[0]);
  }

  // ----- Any job -----

  /** The job comes to an end, with a report. */
  ghost predicate Reports(f: Fortune, job: Job) {
    match job
    case BootAssert => HookReports(f.bootAssert)
    case PowerCycle => HostReports(f.power)
    case CakBypass => HookReports(f.cakBypass)
    case Itm => ItmReports(f.itm)
    case Deassert => HookReports(f.deassert)
    case Reset => HookReports(f.reset)
    case _ => true
  }

  /** And it goes well. */
  ghost predicate Works(f: Fortune, job: Job) {
    match job
    case Verify => SignatureVerify.Verdict(f.disk, CHUNK, f.answers)
    case Discover => CpuDiscovery.Discover(f.paths).Sockets?
    case BootAssert => HookWorks(f.bootAssert)
    case PowerCycle => HostCycles(f.power)
    case CakBypass => HookWorks(f.cakBypass)
    case Itm => ItmEndsWith(f.itm, 0)
    case Deassert => HookWorks(f.deassert)
    case Archive => Results.ArchiveOutcome(f.listing, f.nodes, Results.NoArchive, f.script).ok
    case Reset => HookWorks(f.reset)
  }

  /** The event is what the job reports. */
  ghost predicate Fits(f: Fortune, job: Job, event: ServiceEvent) {
    && Ends(job, event) && Says(event) == Works(f, job)
    && (event.PowerDone? ==> event.cakPresent == f.cakPresent && event.cakWithin == f.cakWithin)
  }

  lemma ItmCodeIsOne(m: ItmLife, a: int, b: int)
    requires ItmEndsWith(m, a) && ItmEndsWith(m, b)
    ensures a == b
  {
    hide DeadlineBefore;
    if m.ItmStarted? {
      var events := m.events;
      var i, e, c :| 0 <= i < |events| && ItmRunner.ExitsFirst(events, i, e, c)
                     && a == if DeadlineBefore(events, i) then -2 else if e then -1 else c;
      var j, d, x :| 0 <= j < |events| && ItmRunner.ExitsFirst(events, j, d, x)
                     && b == if DeadlineBefore(events, j) then -2 else if d then -1 else x;
      assert i == j;
    }
  }

  /** The job runs, for as long as anything happens to it; the log of ITM is for ITM alone. */
  method Perform(f: Fortune, job: Job, runner: ItmRunner.Runner) returns (event: Option<ServiceEvent>)
    requires !runner.log.isOpen
    modifies runner, runner.log
    ensures event.Some? <==> Reports(f, job)
    ensures event.Some? ==> Fits(f, job, event.value) && !runner.log.isOpen
    ensures if job == Itm then LogHolds(f.itm, runner.log.content) else unchanged(runner.log)
  {
    hide HookReports, HookWorks, ItmReports, ItmEndsWith, HostReports, HostCycles, SignatureVerify.Verdict, LogHolds,
      CpuDiscovery.Discover, Results.ArchiveOutcome;
    match job
    case Verify =>
      var ok, turns := SignatureVerify.RunSession(f.disk, CHUNK, f.answers);
      event := Some(SignatureDone(ok));
    case Discover => event := Some(DiscoveryDone(f.paths));
    case BootAssert => event := RunTheHook(f.bootAssert);
    case PowerCycle =>
      var ok := WaitForHost(f.power);
      event := if ok.Some? then Some(PowerDone(ok.value, f.cakPresent, f.cakWithin)) else None;
    case CakBypass => event := RunTheHook(f.cakBypass);
    case Itm =>
      event := RunTheItm(f.itm, runner);
      if event.Some? && ItmEndsWith(f.itm, 0) {
        ItmCodeIsOne(f.itm, event.value.itmExit, 0);
      }
    case Deassert => event := RunTheHook(f.deassert);
    case Archive => event := Some(ArchiveDone(f.listing, f.nodes, f.script));
    case Reset => event := RunTheHook(f.reset);
  }

  // ----- The whole run -----

  /** All that a run needs goes well. */
  ghost predicate AllWorks(f: Fortune, basis: Basis) {
    && Works(f, Verify) && (Discovers(basis) ==> Works(f, Discover)) && Works(f, BootAssert) && Works(f, PowerCycle)
    && (f.cakPresent ==> f.cakWithin && Works(f, CakBypass)) && Works(f, Itm) && Works(f, Deassert)
    && (basis.reboot ==> basis.config.resetSet && Works(f, Reset))
  }

  /** What the run heard is what became of the jobs it launched. */
  ghost predicate Played(f: Fortune, events: seq<ServiceEvent>, jobs: seq<Job>) {
    |events| == |jobs| + 1 && forall i :: 0 < i < |events| ==> Fits(f, jobs[i - 1], events[i])
  }

  lemma PlayedNext(f: Fortune, events: seq<ServiceEvent>, jobs: seq<Job>, event: ServiceEvent, job: Job)
    requires Played(f, events, jobs) && Fits(f, job, event)
    ensures Played(f, events + [event], jobs + [job])
  {
    hide Fits;
  }

  /** Each job that was launched stands as it went. */
  lemma StandsAsPlayed(f: Fortune, r: RunRecord, job: Job)
    requires Good(r) && Played(f, r.run.events, r.run.launches)
    ensures StateOf(r.run, job) == Unlaunched || StateOf(r.run, job) == Result(Works(f, job))
    ensures StateOf(r.run, PowerCycle) == Ok ==>
      r.run.cakPresent == f.cakPresent && r.run.cakEscaped == (f.cakPresent && !f.cakWithin)
  {
    if StateOf(r.run, job) != Unlaunched {
      StandsAsAnswered(r, job);
      hide Works, StateOf;
      var i :| 0 < i < |r.run.events| && r.run.launches[i - 1] == job && Ends(job, r.run.events[i])
               && StateOf(r.run, job) == Result(Says(r.run.events[i]));
      assert Fits(f, job, r.run.events[i]);
    }
    if StateOf(r.run, PowerCycle) == Ok {
      StandsAsAnswered(r, PowerCycle);
      hide Works, StateOf;
      var i :| 0 < i < |r.run.events| && r.run.launches[i - 1] == PowerCycle && Ends(PowerCycle, r.run.events[i])
               && StateOf(r.run, PowerCycle) == Result(Says(r.run.events[i]));
      assert Fits(f, PowerCycle, r.run.events[i]) && CakTold(r.run, r.run.events[i]);
    }
  }

  /** A run completes exactly if all it needs goes well. */
  lemma CompletesIfAllWorks(f: Fortune, r: RunRecord)
    requires Good(r) && Played(f, r.run.events, r.run.launches)
    ensures r.status == Completed <==> AllWorks(f, r.run.basis)
  {
    CompletedStates(r);
    DueJobs(r);
    hide Good, Played, Works;
    forall j
      ensures StateOf(r.run, j) == Unlaunched || StateOf(r.run, j) == Result(Works(f, j))
      ensures StateOf(r.run, PowerCycle) == Ok ==>
        r.run.cakPresent == f.cakPresent && r.run.cakEscaped == (f.cakPresent && !f.cakWithin)
    {
      StandsAsPlayed(f, r, j);
    }
    StatesOf(r.run);
    hide StateOf;
  }

  /** ITM goes well exactly if it is started, its first exit is without error and with 0, and no deadline finds
      it running. */
  lemma ItmWorksExactly(f: Fortune)
    ensures Works(f, Itm) <==>
      && f.itm.ItmStarted?
      && exists i :: 0 <= i < |f.itm.events| && ItmRunner.ExitsFirst(f.itm.events, i, false, 0)
                     && !DeadlineBefore(f.itm.events, i)
  {
    hide DeadlineBefore;
    if f.itm.ItmStarted? && ItmEndsWith(f.itm, 0) {
      var events := f.itm.events;
      var i, e, c :| 0 <= i < |events| && ItmRunner.ExitsFirst(events, i, e, c)
                     && 0 == if DeadlineBefore(events, i) then -2 else if e then -1 else c;
      assert ItmRunner.ExitsFirst(events, i, false, 0);
    }
  }

  /** So a run in which it was killed, or could not be started, or exited otherwise, does not complete. */
  lemma CompletedWithItm(f: Fortune, r: RunRecord)
    requires Good(r) && Played(f, r.run.events, r.run.launches) && r.status == Completed
    ensures f.itm.ItmStarted?
    ensures forall i :: 0 <= i < |f.itm.events| && f.itm.events[i].Exits?
                        && (forall h :: 0 <= h < i ==> !f.itm.events[h].Exits?) ==>
      && !f.itm.events[i].error && f.itm.events[i].code == 0
      && forall k :: 0 <= k < i ==> !f.itm.events[k].DeadlineFires?
  {
    hide Good, Played, Works;
    CompletesIfAllWorks(f, r);
    ItmWorksExactly(f);
    assert Works(f, Itm);
    var at :| 0 <= at < |f.itm.events| && ItmRunner.ExitsFirst(f.itm.events, at, false, 0)
              && !DeadlineBefore(f.itm.events, at);
  }

  /** The job that is waited for is the one launched after those that were played. */
  lemma ThisJob(f: Fortune, run: Run, performed: seq<Job>, job: Job)
    requires Latest(run, job) && Played(f, run.events, performed) && performed <= run.launches
    ensures performed + [job] == run.launches
  {
  }

  lemma NothingPlayed(f: Fortune, start: ServiceEvent, outstanding: seq<Continuation>)
    ensures Played(f, [start], []) && Behind([], outstanding)
  {
  }

  lemma OnlyRun(records: seq<RunRecord>)
    requires |records| == 1
    ensures AllEvents(records) == records[0].run.events
  {
    assert records[..0] == [];
  }

  lemma SoFar(run: Run)
    ensures AllEvents([]) + run.events == run.events
  {
  }

  /** What the record of the run that was played says. */
  lemma PlayedOut(f: Fortune, r: RunRecord, performed: seq<Job>, params: Params, env: StartEnv)
    requires Good(r) && Played(f, r.run.events, performed) && performed <= r.run.launches
    requires r.run.events[0] == StartRun(params, env)
    ensures Params(r.run.basis.socketList, r.run.basis.reboot) == params
    ensures r.status == Completed <==> AllWorks(f, r.run.basis)
    ensures performed == r.run.launches
  {
    assert performed == r.run.launches;
    assert Reported(r.run);
    CompletesIfAllWorks(f, r);
  }

  /** How the run stands once these jobs were performed. */
  ghost predicate Stands(service: IstService, f: Fortune, performed: seq<Job>, start: ServiceEvent)
    reads service
  {
    && service.heard != [] && service.heard[0] == start
    && Played(f, service.heard, performed) && performed <= service.run.launches
    && if service.outstanding != [] then service.records == []
       else |service.records| == 1 && service.records[0].run == service.run
            && service.records[0].status == service.status
  }

  /** Plays the job that is waited for; `waitsFor` it if it never reports. */
  method PlayJob(service: IstService, runner: ItmRunner.Runner, f: Fortune, ghost performed: seq<Job>,
                 ghost start: ServiceEvent)
    returns (waitsFor: Option<Job>, ghost played: seq<Job>)
    requires service.Valid() && service.outstanding != [] && Stands(service, f, performed, start)
    requires !runner.log.isOpen
    modifies service, runner, runner.log
    ensures service.Valid() && (waitsFor.Some? ==> !Reports(f, waitsFor.value))
    ensures waitsFor == None ==> Rank(service.outstanding) < Rank(old(service.outstanding)) && !runner.log.isOpen
    ensures waitsFor == None ==> Stands(service, f, played, start)
    ensures played == performed + [JobOf(old(service.outstanding[0]))] || waitsFor.Some?
    ensures if JobOf(old(service.outstanding[0])) == Itm then LogHolds(f.itm, runner.log.content)
            else unchanged(runner.log)
  {
    hide AllGood, AllEvents, Fits, Reports, Rank, Ends, Latest, Happens, LogHolds, Played;
    hide IstService.RunValid, VectorManager.VectorManager.Valid, VectorManager.VectorManager.Seen;
    service.Recorded();
    SoFar(service.run);
    var job := JobOf(service.outstanding[0]);
    waitsFor, played := None, performed;
    ghost var repr := service.vm.Repr();
    var event;
    event := Perform(f, job, runner);
    assert service.vm.Repr() == repr;
    if event == None {
      waitsFor := Some(job);
      return;
    }
    ThisJob(f, service.run, performed, job);
    FitsEnds(f, job, event.value);
    PlayedNext(f, service.heard, performed, event.value, job);
    played := performed + [job];
    ghost var site, before := service.Place(), service.Remembered();
    service.OnJobEnd(event.value);
    HappensAnswered(site, before, event.value, service.Remembered());
  }

  lemma FitsEnds(f: Fortune, job: Job, event: ServiceEvent)
    requires Fits(f, job, event)
    ensures Ends(job, event) && !event.StartRun? && !event.StartUpdate? && !event.UpdateStep?
  {
  }

  /** The jobs performed so far are earlier ones than that of the callback that is outstanding. */
  ghost predicate Behind(performed: seq<Job>, outstanding: seq<Continuation>) {
    outstanding != [] ==> forall j :: j in performed ==> Phase(j) < Phase(JobOf(outstanding[0]))
  }

  lemma BehindNext(performed: seq<Job>, outstanding: seq<Continuation>, next: seq<Continuation>)
    requires outstanding != [] && Behind(performed, outstanding) && Rank(next) < Rank(outstanding)
    ensures Behind(performed + [JobOf(outstanding[0])], next)
  {
    hide JobOf;
  }

  lemma ItmBeforeArchive(performed: seq<Job>, outstanding: seq<Continuation>)
    requires outstanding != [] && Behind(performed, outstanding)
    ensures Archive in performed ==> JobOf(outstanding[0]) == Reset
  {
    assert Archive in performed ==> Phase(Archive) < Phase(JobOf(outstanding[0]));
  }

  /** What the log of ITM held when the archive was made, if both were. */
  ghost predicate LogArchived(m: ItmLife, jobs: seq<Job>, logged: string) {
    Itm in jobs && Archive in jobs ==> LogHolds(m, logged)
  }

  /** Plays the jobs one after the other, until the run ends or one never reports. */
  method PlayJobs(service: IstService, runner: ItmRunner.Runner, f: Fortune, ghost start: ServiceEvent)
    returns (waitsFor: Option<Job>, archivedOpen: bool, archivedLog: string, ghost performed: seq<Job>)
    requires service.Valid() && service.heard == [start] && service.records == [] && service.outstanding != []
    requires !runner.log.isOpen
    modifies service, runner, runner.log
    ensures service.Valid() && !archivedOpen
    ensures waitsFor.Some? ==> !Reports(f, waitsFor.value)
    ensures waitsFor == None ==> service.outstanding == [] && Stands(service, f, performed, start)
    ensures waitsFor == None ==> LogArchived(f.itm, performed, archivedLog)
  {
    hide Played, Reports, Rank, LogHolds, Behind, IstService.Valid;
    waitsFor, archivedOpen, archivedLog, performed := None, false, "", [];
    NothingPlayed(f, start, service.outstanding);
    while service.outstanding != []
      invariant service.Valid() && !runner.log.isOpen && !archivedOpen && waitsFor == None
      invariant Stands(service, f, performed, start) && Behind(performed, service.outstanding)
      invariant Itm in performed ==> LogHolds(f.itm, runner.log.content)
      invariant Archive in performed ==> archivedLog == runner.log.content
      decreases Rank(service.outstanding)
    {
      ghost var outstanding := service.outstanding;
      ItmBeforeArchive(performed, outstanding);
      if JobOf(service.outstanding[0]) == Archive {
        archivedOpen, archivedLog := runner.log.isOpen, runner.log.content;
      }
      ghost var played;
      waitsFor, played := PlayJob(service, runner, f, performed, start);
      if waitsFor.Some? {
        return;
      }
      BehindNext(performed, outstanding, service.outstanding);
      performed := played;
    }
  }

  /** A service is set up and asked for a run. */
  method TryRun(config: Config, initialized: bool, image: Option<seq<byte>>, storage: bool, mount: bool,
                left: Results.ArchiveFile, params: Params, env: StartEnv)
    returns (service: IstService, error: Option<StartError>)
    ensures service.Valid() && fresh(service) && service.config == config
    ensures error == None <==>
      && params.Params? && (initialized ==> env.keyPresent) && env.collateralOk && env.storageOk
      && config.assertSet && config.deassertSet
    ensures error == None ==>
      service.heard == [StartRun(params, env)] && service.records == [] && service.outstanding != []
  {
    hide AllEvents, IstService.Valid;
    var store := new UpdateSessions.ImageStore(image);
    var vm := new VectorManager.VectorManager(store, storage, mount);
    service := new IstService(config, vm, initialized, left);
    error := service.StartIst(params, env);
  }

  /** One run with all that it launches: unless it is turned down it ends, or waits for a job that never
      reports; it completes exactly if all it needs goes well; and when the archive is made the log of ITM is
      closed and holds what was logged of its output. */
  method PlayRun(config: Config, initialized: bool, image: Option<seq<byte>>, storage: bool, mount: bool,
                 left: Results.ArchiveFile, params: Params, env: StartEnv, f: Fortune)
    returns (error: Option<StartError>, waitsFor: Option<Job>, status: Status, archivedOpen: bool,
             archivedLog: string, ghost record: Option<RunRecord>)
    ensures !archivedOpen
    ensures error == None <==>
      && params.Params? && (initialized ==> env.keyPresent) && env.collateralOk && env.storageOk
      && config.assertSet && config.deassertSet
    ensures error == None && waitsFor.Some? ==> !Reports(f, waitsFor.value)
    ensures error == None && waitsFor == None ==>
      && record.Some? && Good(record.value) && record.value.status == status
      && record.value.run.basis.config == config
      && Params(record.value.run.basis.socketList, record.value.run.basis.reboot) == params
      && (status == Completed <==> AllWorks(f, record.value.run.basis))
      && LogArchived(f.itm, record.value.run.launches, archivedLog)
  {
    hide AllEvents, Played, Reports, AllWorks, Good, LogArchived, IstService.Valid;
    waitsFor, archivedOpen, archivedLog, record := None, false, "", None;
    var runner := new ItmRunner.Runner();
    var service;
    service, error := TryRun(config, initialized, image, storage, mount, left, params, env);
    status := service.status;
    if error != None {
      return;
    }
    ghost var performed;
    waitsFor, archivedOpen, archivedLog, performed := PlayJobs(service, runner, f, StartRun(params, env));
    if waitsFor.Some? {
      return;
    }
    service.Recorded();
    OnlyRun(service.records);
    PlayedOut(f, service.records[0], performed, params, env);
    status, record := service.status, Some(service.records[0]);
  }
}

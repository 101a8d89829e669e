/** The chain of jobs of a run, as values: which job each answer leads to, and what that comes to over
    a whole run. */
module RunChain {
  import opened Wrappers
  import opened MachineWord
  import CpuDiscovery
  import ItmRunner
  import Results
  import UpdateReference

  datatype Stage = Idle | CollateralVerification | PendingIstBoot | PendingPowerCycle | RunningIst | Cleanup

  datatype Status = InProgress | Completed | Failed | Aborted

  datatype Reason =
    | InvalidTestParams | VerificationKeyMissing | CollateralFailed | ResultStorageUnavailable
    | BootAssertNotFound | BootDeassertNotFound
    | SignatureVerificationFailed | NoCpusFound | PackageParseFailed | NonContiguousPackages | BootAssertFailed
    | PowerCycleNotDetected | CakBypassPathEscape | CakBypassFailed
    | ItmExitCode(code: int) | ItmSwTimeout | ItmProcessError
    | BootDeassertFailed | ResetSystemNotFound | ResetSystemFailed

  /** What a run launches, in the order it can. */
  datatype Job = Verify | Discover | BootAssert | PowerCycle | CakBypass | Itm | Deassert | Archive | Reset

  function Phase(job: Job): nat {
    match job
    case Verify => 0 case Discover => 1 case BootAssert => 2 case PowerCycle => 3 case CakBypass => 4
    case Itm => 5 case Deassert => 6 case Archive => 7 case Reset => 8
  }

  /** A callback handed out: the job it waits for, and what it captured. */
  datatype Continuation =
    | OnSignature | OnDiscovery | OnBootAssert | OnPowerCycle | OnCak | OnItm
    | OnDeassert(itmExit: int)
    | OnArchive(itmExit: int, okDeassert: bool)
    | OnFailArchive
    | OnReset(itmExit: int)

  function JobOf(c: Continuation): Job {
    match c
    case OnSignature => Verify case OnDiscovery => Discover case OnBootAssert => BootAssert
    case OnPowerCycle => PowerCycle case OnCak => CakBypass case OnItm => Itm
    case OnDeassert(_) => Deassert case OnArchive(_, _) => Archive case OnFailArchive => Archive
    case OnReset(_) => Reset
  }

  /** An upper bound on the callbacks still to be called before the service is idle. */
  function Rank(outstanding: seq<Continuation>): nat {
    if outstanding == [] then 0 else 9 - Phase(JobOf(outstanding[0]))
  }

  /** The stage published while a callback is outstanding. */
  function StageOf(c: Continuation): Stage {
    match c
    case OnSignature => CollateralVerification case OnDiscovery => CollateralVerification
    case OnBootAssert => PendingIstBoot case OnPowerCycle => PendingPowerCycle
    case OnCak => RunningIst case OnItm => RunningIst
    case _ => Cleanup
  }

  /** Whether all went well so far, as the captured values tell. */
  predicate GoingWell(c: Continuation) {
    match c
    case OnDeassert(itmExit) => itmExit == 0
    case OnArchive(itmExit, okDeassert) => itmExit == 0 && okDeassert
    case OnReset(itmExit) => itmExit == 0
    case OnFailArchive => false
    case _ => true
  }

  // ----- Events -----

  datatype Config = Config(assertSet: bool, deassertSet: bool, resetSet: bool, resultPathSet: bool, discoverer: bool)

  datatype Params = Invalid | Params(socketList: Option<string>, autoReboot: bool)

  /** What the file system answers while a run is started; and whether emptying the results directory, entry
      by entry, removes the archive that is there. */
  datatype StartEnv = StartEnv(
    populated: bool, mounts: UpdateReference.Env, keyPresent: bool, collateralOk: bool, storageOk: bool,
    archiveRemoved: bool, logOpens: bool)

  /** What listing a directory gives. */
  type Listing = names: seq<string> | Results.Distinct(names) witness []

  datatype ServiceEvent =
    | StartRun(params: Params, env: StartEnv)
    | StartUpdate(fdOk: bool, applyTimeAllowed: bool)
    | UpdateStep(step: UpdateReference.UpdateEvent)
    | FetchResults(canOpen: bool, statOk: bool, size: nat)
    | SignatureDone(ok: bool)
    | DiscoveryDone(paths: seq<string>)
    | HookDone(ok: bool)
    | PowerDone(ok: bool, cakPresent: bool, cakWithin: bool)
    | ItmProgress(percent: nat)
    | ItmDone(itmExit: int)
    | ArchiveDone(listing: Listing, nodes: map<string, Results.Node>, script: Results.Script)

  /** Whether the job that ended with that event went well. */
  ghost predicate Says(event: ServiceEvent) {
    match event
    case SignatureDone(ok) => ok
    case DiscoveryDone(paths) => CpuDiscovery.Discover(paths).Sockets?
    case HookDone(ok) => ok
    case PowerDone(ok, _, _) => ok
    case ItmDone(itmExit) => itmExit == 0
    case ArchiveDone(listing, nodes, script) => Results.ArchiveOutcome(listing, nodes, Results.NoArchive, script).ok
    case _ => false
  }

  /** An event that ends that job. */
  predicate Ends(job: Job, event: ServiceEvent) {
    match job
    case Verify => event.SignatureDone?
    case Discover => event.DiscoveryDone?
    case PowerCycle => event.PowerDone?
    case Itm => event.ItmDone?
    case Archive => event.ArchiveDone?
    case _ => event.HookDone?
  }

  /** The event is the one that calls c. */
  predicate Answers(c: Continuation, event: ServiceEvent) {
    Ends(JobOf(c), event)
  }

  // ----- Runs -----

  datatype JobState = Unlaunched | Running | Ok | Bad

  /** What is settled when a run is accepted: the configuration and the parameters; the number of
      IST_ERRORs emitted before, of mounts and unmounts made before, and what was mounted. */
  datatype Basis = Basis(
    config: Config, socketList: Option<string>, reboot: bool, emitted: nat, mounts: nat,
    mounted: UpdateReference.Mounts)

  predicate Discovers(basis: Basis) {
    basis.socketList == None && basis.config.discoverer
  }

  /** A run: the state of each job, the jobs in the order they were launched, what was mounted when ITM
      was launched, its basis, whether there is a CAK script and it is outside the hook directory, and
      the events it is made of: the one that started it, and then the one that answered each job. */
  datatype Run = Run(
    verify: JobState, discover: JobState, bootAssert: JobState, powerCycle: JobState, cakBypass: JobState,
    itm: JobState, deassert: JobState, archive: JobState, reset: JobState,
    launches: seq<Job>, itmMounts: seq<UpdateReference.Mounts>, basis: Basis, cakPresent: bool, cakEscaped: bool,
    events: seq<ServiceEvent>)

  /** A finished run: how many IST_ERRORs it emitted, and the mounts and unmounts made by its end. */
  datatype RunRecord = RunRecord(run: Run, status: Status, errors: nat, mounts: nat)

  /** A run that was just accepted, before its first job. */
  function NewRun(basis: Basis, start: ServiceEvent): Run {
    Run(Unlaunched, Unlaunched, Unlaunched, Unlaunched, Unlaunched, Unlaunched, Unlaunched, Unlaunched, Unlaunched,
        [], [], basis, false, false, [start])
  }

  function StateOf(run: Run, job: Job): JobState {
    match job
    case Verify => run.verify case Discover => run.discover case BootAssert => run.bootAssert
    case PowerCycle => run.powerCycle case CakBypass => run.cakBypass case Itm => run.itm
    case Deassert => run.deassert case Archive => run.archive case Reset => run.reset
  }

  function With(run: Run, job: Job, state: JobState): Run {
    match job
    case Verify => run.(verify := state) case Discover => run.(discover := state)
    case BootAssert => run.(bootAssert := state) case PowerCycle => run.(powerCycle := state)
    case CakBypass => run.(cakBypass := state) case Itm => run.(itm := state)
    case Deassert => run.(deassert := state) case Archive => run.(archive := state) case Reset => run.(reset := state)
  }

  function Launched(run: Run, job: Job, mounted: UpdateReference.Mounts): Run {
    With(run, job, Running).(launches := run.launches + [job],
                             itmMounts := run.itmMounts + if job == Itm then [mounted] else [])
  }

  function Result(ok: bool): JobState {
    if ok then Ok else Bad
  }

  /** Nothing went wrong, but perhaps the archive. */
  predicate NoneFailed(run: Run) {
    && !run.cakEscaped
    && run.verify != Bad && run.discover != Bad && run.bootAssert != Bad && run.powerCycle != Bad
    && run.cakBypass != Bad && run.itm != Bad && run.deassert != Bad && run.reset != Bad
  }

  /** What has to go well for a job to be launched. */
  predicate Due(run: Run, job: Job) {
    match job
    case Verify => true
    case Discover => run.verify == Ok && Discovers(run.basis)
    case BootAssert => run.verify == Ok && (Discovers(run.basis) ==> run.discover == Ok)
    case PowerCycle => run.bootAssert == Ok
    case CakBypass => run.powerCycle == Ok && run.cakPresent && !run.cakEscaped
    case Itm => run.powerCycle == Ok && !run.cakEscaped && (run.cakPresent ==> run.cakBypass == Ok)
    case Deassert => run.bootAssert == Ok
    case Archive => true
    case Reset => run.deassert == Ok && run.basis.reboot && run.basis.config.resetSet
  }

  /** Launched exactly if it was due, and not running any more. */
  predicate Ended(run: Run, job: Job) {
    StateOf(run, job) != Running && (StateOf(run, job) != Unlaunched <==> Due(run, job))
  }

  /** The run got as far as `last`: the jobs before it have ended, none after it has been launched. */
  ghost predicate Reached(run: Run, last: Job, state: JobState) {
    && StateOf(run, last) == state != Unlaunched && Due(run, last)
    && forall j :: if Phase(j) < Phase(last) then Ended(run, j) else j == last || StateOf(run, j) == Unlaunched
  }

  ghost predicate Increasing(jobs: seq<Job>) {
    forall i, j :: 0 <= i < j < |jobs| ==> Phase(jobs[i]) < Phase(jobs[j])
  }

  /** The jobs were launched in order, once each; and ITM on what was mounted when the run's collateral
      was checked. */
  ghost predicate Traced(run: Run) {
    && Increasing(run.launches)
    && (forall j :: j in run.launches <==> StateOf(run, j) != Unlaunched)
    && (run.itm != Unlaunched <==> run.itmMounts == [run.basis.mounted])
    && (run.itm == Unlaunched <==> run.itmMounts == [])
  }

  /** What is known of the CAK script is what the end of the power cycle told of it. */
  predicate CakTold(run: Run, event: ServiceEvent) {
    event.PowerDone? ==>
      run.cakPresent == (event.ok && event.cakPresent) && run.cakEscaped == (run.cakPresent && !event.cakWithin)
  }

  /** The run was started with these parameters, and each job that has ended stands as its event said. */
  ghost predicate Reported(run: Run) {
    && 0 < |run.events| <= |run.launches| + 1
    && run.events[0].StartRun? && run.events[0].params == Params(run.basis.socketList, run.basis.reboot)
    && (forall i :: 0 < i < |run.events| ==>
          && Ends(run.launches[i - 1], run.events[i])
          && StateOf(run, run.launches[i - 1]) == Result(Says(run.events[i]))
          && CakTold(run, run.events[i]))
  }

  /** What must be said of a finished run. Jobs are launched in order, once each, exactly if they are
      due, and all are answered; they stand as the answers said. The run completes exactly if nothing but
      perhaps the archive failed and a reset was made if one was asked for; it emits an IST_ERROR exactly
      if it does not complete. Nothing was mounted or unmounted between its collateral check and its end. */
  ghost predicate Good(r: RunRecord) {
    && Traced(r.run) && Reported(r.run) && |r.run.events| == |r.run.launches| + 1
    && (forall j :: Ended(r.run, j))
    && (r.status == Completed || r.status == Failed)
    && (r.status == Completed <==> NoneFailed(r.run) && (r.run.basis.reboot ==> r.run.reset == Ok))
    && (r.errors > 0 <==> r.status != Completed)
    && r.mounts == r.run.basis.mounts
  }

  // ----- The chain of jobs -----

  /** The job that comes after `last`, up to the archive. */
  function After(run: Run, last: Job, ok: bool): Job {
    NextJob(last, ok, Discovers(run.basis), run.cakPresent, run.cakEscaped)
  }

  function NextJob(last: Job, ok: bool, discovers: bool, cakPresent: bool, cakEscaped: bool): Job {
    match last
    case Verify => if !ok then Archive else if discovers then Discover else BootAssert
    case Discover => if ok then BootAssert else Archive
    case BootAssert => if ok then PowerCycle else Archive
    case PowerCycle => if !ok || cakEscaped then Deassert else if cakPresent then CakBypass else Itm
    case CakBypass => if ok then Itm else Deassert
    case Itm => Deassert
    case _ => Archive
  }

  lemma OthersWith(run: Run, job: Job, state: JobState, j: Job)
    ensures StateOf(With(run, job, state), j) == if j == job then state else StateOf(run, j)
  {
  }

  lemma Others(run: Run, job: Job, state: JobState, mounted: UpdateReference.Mounts, j: Job)
    ensures StateOf(Launched(run, job, mounted), j) == if j == job then Running else StateOf(run, j)
    ensures StateOf(With(run, job, state), j) == if j == job then state else StateOf(run, j)
  {
    OthersWith(run, job, state, j);
    OthersWith(run, job, Running, j);
    hide With;
  }

  /** Whether a job is due depends on the earlier ones alone. */
  lemma DueDepends(a: Run, b: Run, j: Job)
    requires a.basis == b.basis && a.cakPresent == b.cakPresent && a.cakEscaped == b.cakEscaped
    requires forall i :: Phase(i) < Phase(j) ==> StateOf(a, i) == StateOf(b, i)
    ensures Due(a, j) == Due(b, j)
  {
    assert Phase(j) > 0 ==> StateOf(a, Verify) == StateOf(b, Verify);
    assert Phase(j) > 1 ==> StateOf(a, Discover) == StateOf(b, Discover);
    assert Phase(j) > 2 ==> StateOf(a, BootAssert) == StateOf(b, BootAssert);
    assert Phase(j) > 3 ==> StateOf(a, PowerCycle) == StateOf(b, PowerCycle);
    assert Phase(j) > 4 ==> StateOf(a, CakBypass) == StateOf(b, CakBypass);
    assert Phase(j) > 6 ==> StateOf(a, Deassert) == StateOf(b, Deassert);
  }

  lemma Earlier(run: Run, job: Job, state: JobState, mounted: UpdateReference.Mounts, j: Job)
    requires Phase(j) <= Phase(job)
    ensures Due(Launched(run, job, mounted), j) == Due(run, j)
    ensures Due(With(run, job, state), j) == Due(run, j)
  {
    OnlyItsState(run, job, state, mounted);
    hide With, Launched, Due, StateOf;
    forall i | Phase(i) < Phase(j)
      ensures StateOf(Launched(run, job, mounted), i) == StateOf(run, i) == StateOf(With(run, job, state), i)
    {
      Others(run, job, state, mounted, i);
    }
    DueDepends(Launched(run, job, mounted), run, j);
    DueDepends(With(run, job, state), run, j);
  }

  lemma OnlyItsState(run: Run, job: Job, state: JobState, mounted: UpdateReference.Mounts)
    ensures
      var next := Launched(run, job, mounted);
      next.basis == run.basis && next.cakPresent == run.cakPresent && next.cakEscaped == run.cakEscaped
    ensures
      var next := With(run, job, state);
      next.basis == run.basis && next.cakPresent == run.cakPresent && next.cakEscaped == run.cakEscaped
  {
  }

  lemma PhasesDiffer(i: Job, j: Job)
    requires Phase(i) == Phase(j)
    ensures i == j
  {
  }

  lemma Append(jobs: seq<Job>, job: Job)
    requires Increasing(jobs) && forall j :: j in jobs ==> Phase(j) < Phase(job)
    ensures Increasing(jobs + [job])
    ensures forall j :: j in jobs + [job] <==> j in jobs || j == job
  {
    hide Phase;
    assert forall i :: 0 <= i < |jobs| ==> jobs[i] in jobs;
  }

  /** What a run that got to `last` knows of every job. */
  lemma Known(run: Run, last: Job, state: JobState)
    requires Reached(run, last, state)
    ensures Phase(last) > 0 ==> Ended(run, Verify)
    ensures if Phase(last) > 1 then Ended(run, Discover) else last == Discover || run.discover == Unlaunched
    ensures if Phase(last) > 2 then Ended(run, BootAssert) else last == BootAssert || run.bootAssert == Unlaunched
    ensures if Phase(last) > 3 then Ended(run, PowerCycle) else last == PowerCycle || run.powerCycle == Unlaunched
    ensures if Phase(last) > 4 then Ended(run, CakBypass) else last == CakBypass || run.cakBypass == Unlaunched
    ensures if Phase(last) > 5 then Ended(run, Itm) else last == Itm || run.itm == Unlaunched
    ensures if Phase(last) > 6 then Ended(run, Deassert) else last == Deassert || run.deassert == Unlaunched
    ensures if Phase(last) > 7 then Ended(run, Archive) else last == Archive || run.archive == Unlaunched
    ensures last == Reset || run.reset == Unlaunched
  {
    hide Ended, Due;
    assert Phase(last) > 0 ==> Ended(run, Verify);
    assert Phase(last) > 1 ==> Ended(run, Discover);
    assert Phase(last) > 2 ==> Ended(run, BootAssert);
    assert Phase(last) > 3 ==> Ended(run, PowerCycle);
    assert Phase(last) > 4 ==> Ended(run, CakBypass);
    assert Phase(last) > 5 ==> Ended(run, Itm);
    assert Phase(last) > 6 ==> Ended(run, Deassert);
    assert Phase(last) > 7 ==> Ended(run, Archive);
    assert StateOf(run, Discover) == run.discover && StateOf(run, BootAssert) == run.bootAssert;
    assert StateOf(run, PowerCycle) == run.powerCycle && StateOf(run, CakBypass) == run.cakBypass;
    assert StateOf(run, Itm) == run.itm && StateOf(run, Deassert) == run.deassert;
    assert StateOf(run, Archive) == run.archive && StateOf(run, Reset) == run.reset;
  }

  /** The chain goes to the next job that is due: what it passes over is not due. */
  lemma AfterIsNextDue(run: Run, last: Job, ok: bool)
    requires Reached(run, last, Result(ok)) && Phase(last) < Phase(Archive)
    ensures
      var job := After(run, last, ok);
      && Phase(last) < Phase(job) && Due(run, job)
      && forall j :: Phase(last) < Phase(j) < Phase(job) ==> !Due(run, j)
  {
    Known(run, last, Result(ok));
  }

  /** Seen from the launch of the next job, each earlier one has ended. */
  lemma EndedBefore(run: Run, last: Job, state: JobState, job: Job, mounted: UpdateReference.Mounts, j: Job)
    requires Reached(run, last, state) && state != Running && Phase(last) < Phase(job)
    requires Phase(last) < Phase(j) < Phase(job) ==> !Due(run, j)
    ensures Phase(j) < Phase(job) ==> Ended(Launched(run, job, mounted), j)
    ensures Phase(j) > Phase(job) ==> StateOf(Launched(run, job, mounted), j) == Unlaunched
  {
    Others(run, job, state, mounted, j);
    hide StateOf, Due, With, Launched;
    if Phase(j) < Phase(job) {
      Earlier(run, job, state, mounted, j);
      if Phase(j) == Phase(last) {
        PhasesDiffer(j, last);
      }
    }
  }

  lemma LaunchNext(run: Run, last: Job, state: JobState, job: Job, mounted: UpdateReference.Mounts)
    requires Traced(run) && Reached(run, last, state) && state != Running
    requires Phase(last) < Phase(job) && Due(run, job)
    requires forall j :: Phase(last) < Phase(j) < Phase(job) ==> !Due(run, j)
    requires mounted == run.basis.mounted
    ensures Traced(Launched(run, job, mounted)) && Reached(Launched(run, job, mounted), job, Running)
  {
    LaunchTraced(run, last, state, job, mounted);
    Others(run, job, state, mounted, job);
    Earlier(run, job, state, mounted, job);
    hide StateOf, Due, With, Launched, Phase, Increasing, Ended, Traced;
    var next := Launched(run, job, mounted);
    forall j
      ensures if Phase(j) < Phase(job) then Ended(next, j) else j == job || StateOf(next, j) == Unlaunched
    {
      EndedBefore(run, last, state, job, mounted, j);
      if Phase(j) == Phase(job) {
        PhasesDiffer(j, job);
      }
    }
  }

  lemma LaunchTraced(run: Run, last: Job, state: JobState, job: Job, mounted: UpdateReference.Mounts)
    requires Traced(run) && Reached(run, last, state) && Phase(last) < Phase(job) && mounted == run.basis.mounted
    ensures Traced(Launched(run, job, mounted))
  {
    var next := Launched(run, job, mounted);
    LaunchedFields(run, job, mounted);
    hide StateOf, Due, With, Launched, Phase, Increasing, Ended;
    forall j
      ensures StateOf(next, j) == if j == job then Running else StateOf(run, j)
    {
      Others(run, job, state, mounted, j);
    }
    forall j | j in run.launches
      ensures Phase(j) < Phase(job)
    {
      assert StateOf(run, j) != Unlaunched;
    }
    Append(run.launches, job);
    assert StateOf(run, job) == Unlaunched;
  }

  lemma LaunchedFields(run: Run, job: Job, mounted: UpdateReference.Mounts)
    ensures
      var next := Launched(run, job, mounted);
      && next.launches == run.launches + [job] && next.basis.mounted == run.basis.mounted
      && next.itmMounts == run.itmMounts + (if job == Itm then [mounted] else [])
      && next.itm == (if job == Itm then Running else run.itm)
      && StateOf(run, Itm) == run.itm
  {
  }

  lemma WithFields(run: Run, job: Job, state: JobState)
    ensures
      var next := With(run, job, state);
      && next.launches == run.launches && next.itmMounts == run.itmMounts && next.basis == run.basis
      && next.itm == (if job == Itm then state else run.itm) && StateOf(run, Itm) == run.itm
  {
  }

  lemma ReportLast(run: Run, job: Job, ok: bool)
    requires Traced(run) && Reached(run, job, Running)
    ensures Traced(With(run, job, Result(ok))) && Reached(With(run, job, Result(ok)), job, Result(ok))
  {
    hide StateOf, Due, With, Phase, Increasing, Ended;
    var next := With(run, job, Result(ok));
    WithFields(run, job, Result(ok));
    Earlier(run, job, Result(ok), run.basis.mounted, job);
    forall j
      ensures StateOf(next, j) == if j == job then Result(ok) else StateOf(run, j)
    {
      Others(run, job, Result(ok), run.basis.mounted, j);
    }
    forall j
      ensures if Phase(j) < Phase(job) then Ended(next, j) else j == job || StateOf(next, j) == Unlaunched
    {
      if Phase(j) < Phase(job) {
        EndedStill(run, job, ok, j);
      }
    }
  }

  lemma EndedStill(run: Run, job: Job, ok: bool, j: Job)
    requires Phase(j) < Phase(job) && Ended(run, j)
    ensures Ended(With(run, job, Result(ok)), j)
  {
    Others(run, job, Result(ok), run.basis.mounted, j);
    Earlier(run, job, Result(ok), run.basis.mounted, j);
  }

  /** What launching a job and its report change, beyond its own state. */
  lemma LaunchChanges(run: Run, job: Job, mounted: UpdateReference.Mounts)
    ensures
      var next := Launched(run, job, mounted);
      && next.basis == run.basis && next.cakPresent == run.cakPresent && next.cakEscaped == run.cakEscaped
      && (forall j :: j != job ==> StateOf(next, j) == StateOf(run, j))
      && (StateOf(run, job) == Unlaunched ==> NoneFailed(next) == NoneFailed(run))
      && (Phase(job) >= Phase(Archive) ==> Due(next, Reset) == Due(run, Reset))
  {
  }

  lemma ReportChanges(run: Run, job: Job, ok: bool)
    requires Reached(run, job, Running)
    ensures
      var next := With(run, job, Result(ok));
      && next.basis == run.basis && next.cakPresent == run.cakPresent && next.cakEscaped == run.cakEscaped
      && NoneFailed(next) == (NoneFailed(run) && (ok || job == Archive))
      && (job == Deassert ==> Due(next, Reset) == (ok && run.basis.reboot && run.basis.config.resetSet))
      && (Phase(job) >= Phase(Archive) ==> Due(next, Reset) == Due(run, Reset))
      && (job == Archive ==> next.reset == Unlaunched)
      && (job == Reset ==> next.reset == Result(ok))
  {
    Known(run, job, Running);
  }

  /** The facts about the CAK script come into play only after the power cycle. */
  lemma CakNoted(run: Run, state: JobState, present: bool, escaped: bool)
    requires Traced(run) && Reached(run, PowerCycle, state)
    ensures
      var next := run.(cakPresent := present, cakEscaped := escaped);
      Traced(next) && Reached(next, PowerCycle, state) && (NoneFailed(run) ==> NoneFailed(next) == !escaped)
  {
    var next := run.(cakPresent := present, cakEscaped := escaped);
    forall j
      ensures StateOf(next, j) == StateOf(run, j)
      ensures Phase(j) <= Phase(PowerCycle) ==> Due(next, j) == Due(run, j)
    {
    }
  }

  /** Once nothing more is due, every job has ended. */
  lemma AllEnded(run: Run, last: Job, state: JobState)
    requires Reached(run, last, state) && state != Running
    requires last == Reset || (last == Archive && !Due(run, Reset))
    ensures forall j :: Ended(run, j)
  {
    forall j
      ensures Ended(run, j)
    {
      if Phase(j) >= Phase(last) && j != last {
        assert j == Reset;
      }
    }
  }

  lemma FirstLaunch(basis: Basis, start: ServiceEvent)
    ensures
      var run := Launched(NewRun(basis, start), Verify, basis.mounted);
      && run.basis == basis && Traced(run) && Reached(run, Verify, Running) && NoneFailed(run)
  {
    var run := Launched(NewRun(basis, start), Verify, basis.mounted);
    assert run.launches == [Verify];
  }

  lemma NoReset(run: Run, last: Job, state: JobState)
    requires Reached(run, last, state) && Phase(last) < Phase(Deassert)
    ensures !Due(run, Reset)
  {
    Known(run, last, state);
  }

  // ----- What an answer leads to -----

  /** The IST_ERRORs emitted, the callback handed out next, and the status when there is none. */
  datatype Move = Move(reasons: seq<Reason>, next: Option<Continuation>, status: Status)

  function To(c: Continuation): Move {
    Move([], Some(c), InProgress)
  }

  function Fails(reason: Reason): Move {
    Move([reason], Some(OnFailArchive), InProgress)
  }

  function CleansUp(reasons: seq<Reason>, itmExit: int): Move {
    Move(reasons, Some(OnDeassert(itmExit)), InProgress)
  }

  function Finishes(reasons: seq<Reason>, ok: bool): Move {
    Move(reasons, None, if ok then Completed else Failed)
  }

  function ItmReasons(itmExit: int): (reasons: seq<Reason>)
    ensures reasons == [] <==> itmExit == 0
  {
    if itmExit == 0 then []
    else if itmExit > 0 then [ItmExitCode(itmExit)]
    else if itmExit == ItmRunner.EXIT_SW_TIMEOUT then [ItmSwTimeout]
    else [ItmProcessError]
  }

  function DiscoveryMove(result: CpuDiscovery.Discovery): Move {
    match result
    case Sockets(_) => To(OnBootAssert)
    case NoCpus => Fails(NoCpusFound)
    case ParseFailed => Fails(PackageParseFailed)
    case NonContiguous => Fails(NonContiguousPackages)
  }

  /** What a run needs besides: a discovery of the CPUs, and a reset, for which there is a hook or not. */
  datatype Needs = Needs(discovers: bool, reboot: bool, resetSet: bool)

  function NeedsOf(basis: Basis): Needs {
    Needs(Discovers(basis), basis.reboot, basis.config.resetSet)
  }

  ghost function MoveOf(c: Continuation, event: ServiceEvent, needs: Needs): Move
    requires Answers(c, event)
  {
    match c
    case OnSignature =>
      if !event.ok then Fails(SignatureVerificationFailed)
      else To(if needs.discovers then OnDiscovery else OnBootAssert)
    case OnDiscovery => DiscoveryMove(CpuDiscovery.Discover(event.paths))
    case OnBootAssert => if event.ok then To(OnPowerCycle) else Fails(BootAssertFailed)
    case OnPowerCycle =>
      if !event.ok then CleansUp([PowerCycleNotDetected], -1)
      else if !event.cakPresent then To(OnItm)
      else if event.cakWithin then To(OnCak)
      else CleansUp([CakBypassPathEscape], -1)
    case OnCak => if event.ok then To(OnItm) else CleansUp([CakBypassFailed], -1)
    case OnItm => CleansUp(ItmReasons(event.itmExit), event.itmExit)
    case OnDeassert(itmExit) =>
      Move(if event.ok then [] else [BootDeassertFailed], Some(OnArchive(itmExit, event.ok)), InProgress)
    case OnFailArchive => Finishes([], false)
    case OnArchive(itmExit, okDeassert) =>
      if !okDeassert then Finishes([], false)
      else if !needs.reboot then Finishes([], itmExit == 0)
      else if !needs.resetSet then Finishes([ResetSystemNotFound], false)
      else To(OnReset(itmExit))
    case OnReset(itmExit) => if event.ok then Finishes([], itmExit == 0) else Finishes([ResetSystemFailed], false)
  }

  /** The run once its job has ended with that event. */
  ghost function Noted(run: Run, job: Job, event: ServiceEvent): Run {
    var told := With(run, job, Result(Says(event))).(events := run.events + [event]);
    if event.PowerDone? then
      told.(cakPresent := event.ok && event.cakPresent, cakEscaped := event.ok && event.cakPresent && !event.cakWithin)
    else
      told
  }

  // ----- What holds while a run waits -----

  /** What is known of the reset when the archive is made. */
  ghost predicate ResetKnown(run: Run, c: Continuation) {
    && (c == OnFailArchive ==> !Due(run, Reset))
    && (c.OnArchive? ==> Due(run, Reset) == (c.okDeassert && run.basis.reboot && run.basis.config.resetSet))
    && (c.OnReset? ==> run.basis.reboot)
  }

  /** The run waits for c, and has emitted that many IST_ERRORs: some exactly if something went wrong. */
  ghost predicate InRun(run: Run, c: Continuation, errors: nat) {
    && Traced(run) && Reached(run, JobOf(c), Running) && Reported(run) && Latest(run, JobOf(c))
    && NoneFailed(run) == GoingWell(c) == (errors == 0)
    && ResetKnown(run, c)
  }

  /** The job was launched last, and is the only one not answered. */
  ghost predicate Latest(run: Run, job: Job) {
    |run.launches| == |run.events| && run.launches != [] && run.launches[|run.launches| - 1] == job
  }

  /** A run that is accepted waits for the signatures to be checked. */
  lemma RunBegins(basis: Basis, start: ServiceEvent)
    requires start.StartRun? && start.params == Params(basis.socketList, basis.reboot)
    ensures InRun(Launched(NewRun(basis, start), Verify, basis.mounted), OnSignature, 0)
  {
    FirstLaunch(basis, start);
    hide Traced, Reached, NoneFailed;
  }

  // ----- A job ends -----

  /** The events are beside the states of the jobs. */
  lemma EventsAside(run: Run, events: seq<ServiceEvent>, last: Job, state: JobState)
    ensures
      var next := run.(events := events);
      && Traced(next) == Traced(run) && Reached(next, last, state) == Reached(run, last, state)
      && NoneFailed(next) == NoneFailed(run) && (forall j :: StateOf(next, j) == StateOf(run, j))
      && Due(next, Reset) == Due(run, Reset)
  {
    var next := run.(events := events);
    forall j
      ensures StateOf(next, j) == StateOf(run, j) && Due(next, j) == Due(run, j)
    {
    }
    hide StateOf, Due, NoneFailed;
  }

  lemma NotedReached(run: Run, job: Job, event: ServiceEvent)
    requires Ends(job, event) && Traced(run) && Reached(run, job, Running)
    ensures Traced(Noted(run, job, event)) && Reached(Noted(run, job, event), job, Result(Says(event)))
  {
    var ok := Says(event);
    var told := With(run, job, Result(ok));
    ReportLast(run, job, ok);
    EventsAside(told, run.events + [event], job, Result(ok));
    var with := told.(events := run.events + [event]);
    if event.PowerDone? {
      CakNoted(with, Result(ok), event.ok && event.cakPresent, event.ok && event.cakPresent && !event.cakWithin);
    }
    hide Traced, Reached, Says, With;
  }

  /** What else the end of a job changes. */
  lemma NotedChanges(run: Run, job: Job, event: ServiceEvent)
    requires Ends(job, event) && Traced(run) && Reached(run, job, Running)
    ensures
      var next, ok := Noted(run, job, event), Says(event);
      && next.basis == run.basis && next.launches == run.launches && next.events == run.events + [event]
      && (NoneFailed(run) || job != PowerCycle ==>
            NoneFailed(next) == (NoneFailed(run) && (ok || job == Archive) && (job == PowerCycle ==> !next.cakEscaped)))
      && (job == Deassert ==> Due(next, Reset) == (ok && run.basis.reboot && run.basis.config.resetSet))
      && (Phase(job) >= Phase(Archive) ==> Due(next, Reset) == Due(run, Reset))
      && (job == Archive ==> next.reset == Unlaunched)
      && (job == Reset ==> next.reset == Result(ok))
  {
    var ok := Says(event);
    var told := With(run, job, Result(ok));
    ReportLast(run, job, ok);
    ReportChanges(run, job, ok);
    EventsAside(told, run.events + [event], job, Result(ok));
    var with := told.(events := run.events + [event]);
    if event.PowerDone? {
      CakNoted(with, Result(ok), event.ok && event.cakPresent, event.ok && event.cakPresent && !event.cakWithin);
    }
    hide Traced, Reached, Says;
  }

  lemma NotedStates(run: Run, job: Job, event: ServiceEvent, j: Job)
    ensures StateOf(Noted(run, job, event), j) == if j == job then Result(Says(event)) else StateOf(run, j)
  {
    OthersWith(run, job, Result(Says(event)), j);
    hide Says;
  }

  /** What the end of a job tells beside its own state. */
  lemma NotedBeside(run: Run, job: Job, event: ServiceEvent)
    requires Ends(job, event)
    ensures
      var noted := Noted(run, job, event);
      && noted.basis == run.basis
      && (job == PowerCycle ==>
            && noted.cakPresent == (event.ok && event.cakPresent)
            && noted.cakEscaped == (event.ok && event.cakPresent && !event.cakWithin))
      && (job != PowerCycle ==> noted.cakPresent == run.cakPresent && noted.cakEscaped == run.cakEscaped)
  {
    hide Says;
  }

  /** The jobs that were answered before stand as they did. */
  lemma NotedStill(run: Run, job: Job, event: ServiceEvent, i: nat)
    requires Ends(job, event) && Increasing(run.launches) && Reported(run) && Latest(run, job)
    requires 0 < i < |run.events|
    ensures
      var next := Noted(run, job, event);
      && Ends(run.launches[i - 1], run.events[i])
      && StateOf(next, run.launches[i - 1]) == Result(Says(run.events[i])) && CakTold(next, run.events[i])
  {
    assert Phase(run.launches[i - 1]) < Phase(run.launches[|run.launches| - 1]);
    NotedStates(run, job, event, run.launches[i - 1]);
    NotedBeside(run, job, event);
    hide StateOf, Noted, Says, Increasing;
  }

  lemma NotedReported(run: Run, job: Job, event: ServiceEvent)
    requires Ends(job, event) && Increasing(run.launches) && Reported(run) && Latest(run, job)
    ensures Reported(Noted(run, job, event))
    ensures |Noted(run, job, event).events| == |Noted(run, job, event).launches| + 1
  {
    var next := Noted(run, job, event);
    assert next.launches == run.launches && next.events == run.events + [event] && next.basis == run.basis;
    assert CakTold(next, event);
    hide StateOf, Noted, Says, Increasing, CakTold, Ends;
    NotedStates(run, job, event, job);
    forall i | 0 < i < |run.events|
      ensures Ends(run.launches[i - 1], run.events[i])
      ensures StateOf(next, run.launches[i - 1]) == Result(Says(run.events[i])) && CakTold(next, run.events[i])
    {
      NotedStill(run, job, event, i);
    }
  }

  // ----- The next job is launched -----

  lemma LaunchReported(run: Run, job: Job, mounted: UpdateReference.Mounts)
    requires Reported(run) && |run.events| == |run.launches| + 1 && StateOf(run, job) == Unlaunched
    ensures Reported(Launched(run, job, mounted)) && Latest(Launched(run, job, mounted), job)
  {
    var next := Launched(run, job, mounted);
    assert next.launches == run.launches + [job] && next.events == run.events && next.basis == run.basis;
    forall i | 0 < i < |run.events|
      ensures StateOf(next, run.launches[i - 1]) == StateOf(run, run.launches[i - 1])
      ensures CakTold(next, run.events[i])
    {
      assert StateOf(run, run.launches[i - 1]) == Result(Says(run.events[i]));
      Others(run, job, Running, mounted, run.launches[i - 1]);
    }
    hide StateOf, Launched, Says, CakTold;
  }

  /** The callback handed out next is that for the job that comes next in the chain; after the archive comes
      the reset. */
  lemma NextInChain(c: Continuation, event: ServiceEvent, needs: Needs, next: Continuation)
    requires Answers(c, event) && MoveOf(c, event, needs).next == Some(next)
    ensures
      var job, present := JobOf(c), event.PowerDone? && event.ok && event.cakPresent;
      if Phase(job) < Phase(Archive) then
        JobOf(next) == NextJob(job, Says(event), needs.discovers, present, present && !event.cakWithin)
      else
        job == Archive && next.OnReset?
  {
    hide CpuDiscovery.Discover, Results.ArchiveOutcome;
  }

  lemma NextJobFits(run: Run, c: Continuation, event: ServiceEvent, next: Continuation)
    requires Answers(c, event) && MoveOf(c, event, NeedsOf(run.basis)).next == Some(next)
    ensures
      var noted, job := Noted(run, JobOf(c), event), JobOf(c);
      if Phase(job) < Phase(Archive) then JobOf(next) == After(noted, job, Says(event))
      else job == Archive && next.OnReset?
  {
    NextInChain(c, event, NeedsOf(run.basis), next);
    NotedBeside(run, JobOf(c), event);
    hide Noted, MoveOf, Says;
  }

  /** The answer says that its job went well, or it is the archive, which does not matter. */
  ghost predicate FineWith(c: Continuation, event: ServiceEvent) {
    && (Says(event) || JobOf(c) == Archive)
    && (event.PowerDone? ==> !(event.ok && event.cakPresent && !event.cakWithin))
  }

  /** What the callback handed out next captures tells exactly whether all went well so far. */
  lemma NextGoesWell(c: Continuation, event: ServiceEvent, needs: Needs, next: Continuation)
    requires Answers(c, event) && MoveOf(c, event, needs).next == Some(next)
    ensures GoingWell(next) <==> GoingWell(c) && FineWith(c, event)
  {
    hide CpuDiscovery.Discover, Results.ArchiveOutcome;
  }

  /** Something is told exactly when something goes wrong. */
  lemma NextTells(c: Continuation, event: ServiceEvent, needs: Needs, next: Continuation)
    requires Answers(c, event) && MoveOf(c, event, needs).next == Some(next)
    ensures MoveOf(c, event, needs).reasons == [] <==> FineWith(c, event)
  {
    hide CpuDiscovery.Discover, Results.ArchiveOutcome;
  }

  lemma FineMeans(run: Run, c: Continuation, event: ServiceEvent)
    requires Answers(c, event)
    ensures
      var noted := Noted(run, JobOf(c), event);
      FineWith(c, event)
      == ((Says(event) || JobOf(c) == Archive) && (JobOf(c) == PowerCycle ==> !noted.cakEscaped))
  {
    NotedBeside(run, JobOf(c), event);
    hide Noted, Says;
  }

  // ----- Every answer keeps the run in order -----

  /** The run got to `last`, which was answered, and nothing is outstanding. */
  ghost predicate Between(run: Run, last: Job, ok: bool) {
    && Traced(run) && Reached(run, last, Result(ok)) && Reported(run)
    && |run.events| == |run.launches| + 1
  }

  /** What is told of the reset when `c` is handed out. */
  lemma ResetFits(run: Run, noted: Run, c: Continuation, event: ServiceEvent, next: Continuation)
    requires Answers(c, event) && MoveOf(c, event, NeedsOf(run.basis)).next == Some(next) && ResetKnown(run, c)
    requires noted.basis == run.basis && Reached(noted, JobOf(c), Result(Says(event)))
    requires c.OnDeassert? ==>
               Due(noted, Reset) == (Says(event) && run.basis.reboot && run.basis.config.resetSet)
    requires c.OnArchive? ==> Due(noted, Reset) == Due(run, Reset)
    ensures ResetKnown(noted, next) && (next.OnReset? ==> Due(noted, Reset))
  {
    hide Due, Reached, CpuDiscovery.Discover;
    if next == OnFailArchive {
      NoReset(noted, JobOf(c), Result(Says(event)));
    }
  }

  /** What comes next is due, and what is passed over is not. */
  lemma LaunchFits(run: Run, last: Job, ok: bool, job: Job)
    requires Reached(run, last, Result(ok))
    requires if Phase(last) < Phase(Archive) then job == After(run, last, ok)
             else last == Archive && job == Reset && Due(run, Reset)
    ensures Phase(last) < Phase(job) && Due(run, job) && StateOf(run, job) == Unlaunched
    ensures forall j :: Phase(last) < Phase(j) < Phase(job) ==> !Due(run, j)
  {
    if Phase(last) < Phase(Archive) {
      AfterIsNextDue(run, last, ok);
    }
  }

  lemma LaunchesNext(run: Run, last: Job, ok: bool, next: Continuation, errors: nat)
    requires Between(run, last, ok) && NoneFailed(run) == GoingWell(next) == (errors == 0)
    requires if Phase(last) < Phase(Archive) then JobOf(next) == After(run, last, ok)
             else last == Archive && next.OnReset? && Due(run, Reset)
    requires ResetKnown(run, next)
    ensures InRun(Launched(run, JobOf(next), run.basis.mounted), next, errors) && Phase(last) < Phase(JobOf(next))
    ensures Launched(run, JobOf(next), run.basis.mounted).basis == run.basis
  {
    LaunchFits(run, last, ok, JobOf(next));
    hide Due, StateOf, Traced, Reached, Reported, NoneFailed, Launched, After;
    LaunchNext(run, last, Result(ok), JobOf(next), run.basis.mounted);
    LaunchChanges(run, JobOf(next), run.basis.mounted);
    LaunchReported(run, JobOf(next), run.basis.mounted);
  }

  /** A run that is answered and goes on waits for the next callback. */
  lemma Proceeds(run: Run, c: Continuation, event: ServiceEvent, errors: nat, next: Continuation)
    requires InRun(run, c, errors) && Answers(c, event) && MoveOf(c, event, NeedsOf(run.basis)).next == Some(next)
    ensures Phase(JobOf(c)) < Phase(JobOf(next))
    ensures
      var launched := Launched(Noted(run, JobOf(c), event), JobOf(next), run.basis.mounted);
      InRun(launched, next, errors + |MoveOf(c, event, NeedsOf(run.basis)).reasons|) && launched.basis == run.basis
  {
    var job, noted := JobOf(c), Noted(run, JobOf(c), event);
    NextJobFits(run, c, event, next);
    NextGoesWell(c, event, NeedsOf(run.basis), next);
    NextTells(c, event, NeedsOf(run.basis), next);
    FineMeans(run, c, event);
    hide Says, Noted, MoveOf, Due, StateOf, Traced, Reached, Reported, NoneFailed, After, Launched, ResetKnown;
    hide Increasing;
    NotedReached(run, job, event);
    NotedChanges(run, job, event);
    IncreasingOf(run);
    NotedReported(run, job, event);
    ResetFits(run, noted, c, event, next);
    LaunchesNext(noted, job, Says(event), next, errors + |MoveOf(c, event, NeedsOf(run.basis)).reasons|);
  }

  lemma RankFalls(c: Continuation, next: Continuation)
    requires Phase(JobOf(c)) < Phase(JobOf(next))
    ensures Rank([next]) < Rank([c]) && next != OnSignature
  {
  }

  lemma IncreasingOf(run: Run)
    requires Traced(run)
    ensures Increasing(run.launches)
  {
  }

  /** When nothing is handed out, the status and the errors fit what became of the run. */
  lemma EndFits(run: Run, noted: Run, c: Continuation, event: ServiceEvent, errors: nat)
    requires Answers(c, event) && MoveOf(c, event, NeedsOf(run.basis)).next == None && ResetKnown(run, c)
    requires noted.basis == run.basis && GoingWell(c) == (errors == 0)
    requires NoneFailed(noted) == (GoingWell(c) && (Says(event) || JobOf(c) == Archive))
    requires Phase(JobOf(c)) >= Phase(Archive) ==> Due(noted, Reset) == Due(run, Reset)
    requires JobOf(c) == Archive ==> noted.reset == Unlaunched
    requires JobOf(c) == Reset ==> noted.reset == Result(Says(event))
    ensures
      var m := MoveOf(c, event, NeedsOf(run.basis));
      && (m.status == Completed || m.status == Failed)
      && (m.status == Completed <==> NoneFailed(noted) && (noted.basis.reboot ==> noted.reset == Ok))
      && (errors + |m.reasons| > 0 <==> m.status != Completed)
      && (JobOf(c) == Reset || (JobOf(c) == Archive && !Due(noted, Reset)))
  {
    hide Due, NoneFailed, CpuDiscovery.Discover;
  }

  /** A run that is answered and has nothing to wait for is good. */
  lemma Concludes(run: Run, c: Continuation, event: ServiceEvent, errors: nat)
    requires InRun(run, c, errors) && Answers(c, event) && MoveOf(c, event, NeedsOf(run.basis)).next == None
    ensures
      var m, noted := MoveOf(c, event, NeedsOf(run.basis)), Noted(run, JobOf(c), event);
      Good(RunRecord(noted, m.status, errors + |m.reasons|, run.basis.mounts))
  {
    var job, noted := JobOf(c), Noted(run, JobOf(c), event);
    IncreasingOf(run);
    OnlyTheLastTwoEnd(c, event, NeedsOf(run.basis));
    hide Says, Noted, MoveOf, Due, StateOf, Traced, Reached, Reported, NoneFailed, ResetKnown, Increasing, Ended;
    NotedReached(run, job, event);
    NotedChanges(run, job, event);
    NotedReported(run, job, event);
    EndFits(run, noted, c, event, errors);
    AllEnded(noted, job, Result(Says(event)));
  }

  /** What a change of state leaves alone. */
  lemma WithKeeps(run: Run, job: Job, state: JobState)
    ensures
      var next := With(run, job, state);
      next.events == run.events && next.launches == run.launches && next.basis == run.basis
  {
  }

  lemma EndEvents(run: Run, c: Continuation, event: ServiceEvent)
    ensures
      var noted := Noted(run, JobOf(c), event);
      noted.events == run.events + [event] && noted.launches == run.launches && noted.basis == run.basis
  {
    hide With, Says;
    WithKeeps(run, JobOf(c), Result(Says(event)));
  }

  /** The answer is what the events of the run gain, and the next job is what its launches do. */
  lemma NextEvents(run: Run, c: Continuation, event: ServiceEvent, next: Continuation)
    ensures
      var launched := Launched(Noted(run, JobOf(c), event), JobOf(next), run.basis.mounted);
      launched.events == run.events + [event] && launched.launches == run.launches + [JobOf(next)]
  {
    EndEvents(run, c, event);
    hide With, Noted, JobOf;
    WithKeeps(Noted(run, JobOf(c), event), JobOf(next), Running);
  }

  lemma OnlyTheLastTwoEnd(c: Continuation, event: ServiceEvent, needs: Needs)
    requires Answers(c, event) && MoveOf(c, event, needs).next == None
    ensures JobOf(c) == Archive || JobOf(c) == Reset
  {
    hide CpuDiscovery.Discover;
  }

  // ----- What a good record says -----

  /** The job was answered by an event that says it went well. */
  ghost predicate Went(run: Run, job: Job) {
    exists i :: 0 < i < |run.events| && i <= |run.launches| && run.launches[i - 1] == job && Says(run.events[i])
  }

  lemma StandsAsAnswered(r: RunRecord, job: Job)
    requires Good(r)
    ensures StateOf(r.run, job) == Ok <==> Went(r.run, job)
    ensures StateOf(r.run, job) != Unlaunched ==>
      exists i :: 0 < i < |r.run.events| && r.run.launches[i - 1] == job && Ends(job, r.run.events[i])
                  && StateOf(r.run, job) == Result(Says(r.run.events[i]))
  {
    var run := r.run;
    hide StateOf, Says, Ended, Due, NoneFailed, Increasing;
    if StateOf(run, job) != Unlaunched {
      assert job in run.launches;
      var k :| 0 <= k < |run.launches| && run.launches[k] == job;
      assert run.launches[k + 1 - 1] == job && Ends(job, run.events[k + 1]);
    }
  }

  /** A run completes exactly if the answers to all it needs say that it went well: signatures, discovery
      if it needs one, boot assert, power cycle, the CAK script if there is one and only inside the hook
      directory, ITM, deassert, and a reset if one was asked for; whatever became of the archive. */
  lemma CompletedMeaning(r: RunRecord)
    requires Good(r)
    ensures r.status == Completed <==>
      && Went(r.run, Verify) && Went(r.run, BootAssert)
      && (r.run.basis.socketList == None && r.run.basis.config.discoverer ==> Went(r.run, Discover))
      && Went(r.run, PowerCycle) && !r.run.cakEscaped && (r.run.cakPresent ==> Went(r.run, CakBypass))
      && Went(r.run, Itm) && Went(r.run, Deassert) && (r.run.basis.reboot ==> Went(r.run, Reset))
    ensures forall i :: 0 < i < |r.run.events| ==> CakTold(r.run, r.run.events[i])
  {
    hide Went, Good, Reported, CakTold, StateOf;
    CompletedStates(r);
    AllTold(r);
    StatesOf(r.run);
    forall j
      ensures StateOf(r.run, j) == Ok <==> Went(r.run, j)
    {
      StandsAsAnswered(r, j);
    }
  }

  lemma AllTold(r: RunRecord)
    requires Good(r)
    ensures forall i :: 0 < i < |r.run.events| ==> CakTold(r.run, r.run.events[i])
  {
    hide Traced, Ended, NoneFailed, CakTold;
    assert Reported(r.run);
  }

  lemma StatesOf(run: Run)
    ensures StateOf(run, Verify) == run.verify && StateOf(run, Discover) == run.discover
    ensures StateOf(run, BootAssert) == run.bootAssert && StateOf(run, PowerCycle) == run.powerCycle
    ensures StateOf(run, CakBypass) == run.cakBypass && StateOf(run, Itm) == run.itm
    ensures StateOf(run, Deassert) == run.deassert && StateOf(run, Reset) == run.reset
  {
  }

  lemma CompletedStates(r: RunRecord)
    requires Good(r)
    ensures r.status == Completed <==>
      && r.run.verify == Ok && (Discovers(r.run.basis) ==> r.run.discover == Ok) && r.run.bootAssert == Ok
      && r.run.powerCycle == Ok && !r.run.cakEscaped && (r.run.cakPresent ==> r.run.cakBypass == Ok)
      && r.run.itm == Ok && r.run.deassert == Ok && (r.run.basis.reboot ==> r.run.reset == Ok)
  {
    assert Ended(r.run, Verify) && Ended(r.run, Discover) && Ended(r.run, BootAssert) && Ended(r.run, PowerCycle);
    assert Ended(r.run, CakBypass) && Ended(r.run, Itm) && Ended(r.run, Deassert) && Ended(r.run, Reset);
    hide Traced, Reported;
  }

  /** Which jobs a finished run launched. */
  lemma DueJobs(r: RunRecord)
    requires Good(r)
    ensures r.run.verify != Unlaunched
    ensures r.run.discover != Unlaunched <==> r.run.verify == Ok && Discovers(r.run.basis)
    ensures r.run.bootAssert != Unlaunched
       <==> r.run.verify == Ok && (Discovers(r.run.basis) ==> r.run.discover == Ok)
    ensures r.run.powerCycle != Unlaunched <==> r.run.bootAssert == Ok
    ensures r.run.cakBypass != Unlaunched <==> r.run.powerCycle == Ok && r.run.cakPresent && !r.run.cakEscaped
    ensures r.run.itm != Unlaunched
       <==> r.run.powerCycle == Ok && !r.run.cakEscaped && (r.run.cakPresent ==> r.run.cakBypass == Ok)
    ensures r.run.deassert != Unlaunched <==> r.run.bootAssert == Ok
    ensures r.run.reset != Unlaunched
       <==> r.run.deassert == Ok && r.run.basis.reboot && r.run.basis.config.resetSet
  {
    assert Ended(r.run, Verify) && Ended(r.run, Discover) && Ended(r.run, BootAssert) && Ended(r.run, PowerCycle);
    assert Ended(r.run, CakBypass) && Ended(r.run, Itm) && Ended(r.run, Deassert) && Ended(r.run, Reset);
    hide Traced, Reported, NoneFailed;
  }

  /** The same in terms of what was launched and of the answers: a job is launched exactly if those it builds on
      went well. */
  lemma LaunchedExactly(r: RunRecord)
    requires Good(r)
    ensures
      var run := r.run;
      var discovers := run.basis.socketList == None && run.basis.config.discoverer;
      && Verify in run.launches && Archive in run.launches
      && (Discover in run.launches <==> Went(run, Verify) && discovers)
      && (BootAssert in run.launches <==> Went(run, Verify) && (discovers ==> Went(run, Discover)))
      && (PowerCycle in run.launches <==> Went(run, BootAssert))
      && (CakBypass in run.launches <==> Went(run, PowerCycle) && run.cakPresent && !run.cakEscaped)
      && (Itm in run.launches <==>
            Went(run, PowerCycle) && !run.cakEscaped && (run.cakPresent ==> Went(run, CakBypass)))
      && (Deassert in run.launches <==> Went(run, BootAssert))
      && (Reset in run.launches <==> Went(run, Deassert) && run.basis.reboot && run.basis.config.resetSet)
  {
    hide Went, Good, Traced, StateOf;
    DueJobs(r);
    StatesOf(r.run);
    DeassertedOnce(r);
    forall j
      ensures StateOf(r.run, j) == Ok <==> Went(r.run, j)
      ensures j in r.run.launches <==> StateOf(r.run, j) != Unlaunched
    {
      StandsAsAnswered(r, j);
      LaunchedMeans(r, j);
    }
  }

  lemma LaunchedMeans(r: RunRecord, j: Job)
    requires Good(r)
    ensures j in r.run.launches <==> StateOf(r.run, j) != Unlaunched
  {
    hide Reported, NoneFailed, Ended, Increasing;
  }

  /** Cleanup launches the deassert hook exactly once if the boot was asserted and never otherwise, and
      before the archive, which every run makes. */
  lemma DeassertedOnce(r: RunRecord)
    requires Good(r)
    ensures r.run.bootAssert == Ok <==> Deassert in r.run.launches
    ensures forall i, j :: 0 <= i < j < |r.run.launches| ==> r.run.launches[i] != r.run.launches[j]
    ensures Archive in r.run.launches
    ensures forall i, j ::
      0 <= i < |r.run.launches| && 0 <= j < |r.run.launches| ==>
        r.run.launches[i] == Deassert && r.run.launches[j] == Archive ==> i < j
  {
    assert Ended(r.run, Deassert) && Ended(r.run, Archive);
  }

  /** A run launches, and so waits for, at most nine jobs. */
  lemma {:induction false} AtMostNine(launches: seq<Job>)
    requires Increasing(launches)
    ensures |launches| <= 9
    ensures launches != [] ==> |launches| <= Phase(launches[|launches| - 1]) + 1
  {
    if launches != [] {
      var front := launches[..|launches| - 1];
      AtMostNine(front);
      assert front != [] ==> Phase(front[|front| - 1]) < Phase(launches[|launches| - 1]);
    }
  }

  // ----- The archive -----

  /** What an event of a run leaves on file. */
  ghost function FileAfter(file: Results.ArchiveFile, event: ServiceEvent): Results.ArchiveFile {
    match event
    case StartRun(_, env) => if env.archiveRemoved then Results.NoArchive else file
    case ArchiveDone(listing, nodes, script) => Results.ArchiveOutcome(listing, nodes, file, script).archive
    case _ => file
  }

  /** What is on file after these events, if `file` was before. */
  ghost function FileThen(file: Results.ArchiveFile, events: seq<ServiceEvent>): Results.ArchiveFile {
    if events == [] then file
    else FileAfter(FileThen(file, events[..|events| - 1]), events[|events| - 1])
  }

  lemma FileThenNext(file: Results.ArchiveFile, events: seq<ServiceEvent>, event: ServiceEvent)
    ensures FileThen(file, events + [event]) == FileAfter(FileThen(file, events), event)
  {
    assert (events + [event])[..|events|] == events;
    hide FileAfter;
  }

  /** What is on file after some events and then some more. */
  lemma {:induction false} FileThenMore(file: Results.ArchiveFile, events: seq<ServiceEvent>, more: seq<ServiceEvent>)
    ensures FileThen(file, events + more) == FileThen(FileThen(file, events), more)
  {
    hide FileAfter;
    if more == [] {
      assert events + more == events;
    } else {
      var n := |more| - 1;
      FileThenMore(file, events, more[..n]);
      assert (events + more)[..|events + more| - 1] == events + more[..n];
    }
  }

  /** The first of these events starts a run, and the i-th is the only archive. */
  lemma {:induction false} FiledOnce(file: Results.ArchiveFile, events: seq<ServiceEvent>, i: nat)
    requires 0 < i < |events| && events[0].StartRun? && events[i].ArchiveDone?
    requires forall k :: 0 < k < |events| && k != i ==> !events[k].ArchiveDone? && !events[k].StartRun?
    ensures FileThen(file, events) == FileAfter(FileAfter(file, events[0]), events[i])
  {
    hide FileAfter;
    if i < |events| - 1 {
      FiledOnce(file, events[..|events| - 1], i);
      FileKept(FileThen(file, events[..|events| - 1]), events[|events| - 1]);
    } else {
      FiledFirst(file, events[..i]);
    }
  }

  lemma FileKept(file: Results.ArchiveFile, event: ServiceEvent)
    requires !event.ArchiveDone? && !event.StartRun?
    ensures FileAfter(file, event) == file
  {
  }

  lemma {:induction false} FiledFirst(file: Results.ArchiveFile, events: seq<ServiceEvent>)
    requires events != [] && forall k :: 0 < k < |events| ==> !events[k].ArchiveDone? && !events[k].StartRun?
    ensures FileThen(file, events) == FileAfter(file, events[0])
  {
    hide FileAfter;
    if |events| > 1 {
      FiledFirst(file, events[..|events| - 1]);
      FileKept(FileThen(file, events[..|events| - 1]), events[|events| - 1]);
    } else {
      assert events[..0] == [];
    }
  }

  /** The archive of a finished run is made once. */
  lemma ArchivedOnce(r: RunRecord) returns (i: nat)
    requires Good(r)
    ensures 0 < i < |r.run.events| && r.run.events[i].ArchiveDone?
    ensures StateOf(r.run, Archive) == Result(Says(r.run.events[i]))
    ensures forall k :: 0 < k < |r.run.events| && k != i ==>
      !r.run.events[k].ArchiveDone? && !r.run.events[k].StartRun?
  {
    var run := r.run;
    assert StateOf(run, Archive) != Unlaunched by { assert Ended(run, Archive); }
    StandsAsAnswered(r, Archive);
    hide StateOf, Says, Ended, Due, NoneFailed, CakTold;
    i :| 0 < i < |run.events| && run.launches[i - 1] == Archive && Ends(Archive, run.events[i])
         && StateOf(run, Archive) == Result(Says(run.events[i]));
    forall k | 0 < k < |run.events| && k != i
      ensures !run.events[k].ArchiveDone? && !run.events[k].StartRun?
    {
      DifferentJobs(run.launches, k - 1, i - 1);
      assert Ends(run.launches[k - 1], run.events[k]);
    }
  }

  /** The archive session of a run gets so far that it opens the archive. */
  predicate Opens(event: ServiceEvent) {
    event.ArchiveDone? && Results.Collected(event.listing, event.nodes) != [] && event.script.openOk
  }

  /** What a session that opened the archive and failed leaves. */
  function FailureLeaves(event: ServiceEvent): Results.ArchiveFile
    requires Opens(event)
  {
    var entries := Results.Whole(Results.Collected(event.listing, event.nodes), event.nodes);
    Results.LeftBehind(entries[..Results.Taken(entries, event.script.plans, 0)], event.script.remains)
  }

  /** A finished run leaves on file the whole of what was in the results directory when its archive was
      made; or, if that failed, what a failed archive leaves if it was opened; and else nothing if the
      directory lost its archive when the run began, and what it held then if not. */
  lemma FiledMeaning(r: RunRecord, file: Results.ArchiveFile) returns (i: nat)
    requires Good(r)
    ensures 0 < i < |r.run.events| && r.run.events[i].ArchiveDone? && Result(Says(r.run.events[i])) == r.run.archive
    ensures r.run.events[0].StartRun? && (r.run.archive == Ok ==> Opens(r.run.events[i]))
    ensures forall k :: 0 < k < |r.run.events| && k != i ==>
      !r.run.events[k].ArchiveDone? && !r.run.events[k].StartRun?
    ensures
      var e := r.run.events[i];
      FileThen(file, r.run.events)
        == if r.run.archive == Ok then Results.Complete(Results.Whole(Results.Collected(e.listing, e.nodes), e.nodes))
           else if Opens(e) then FailureLeaves(e)
           else if r.run.events[0].env.archiveRemoved then Results.NoArchive else file
  {
    assert Reported(r.run);
    hide Good, Results.ArchiveOutcome, FileThen, Opens, FailureLeaves, Says;
    i := ArchivedOnce(r);
    var e := r.run.events[i];
    FiledOnce(file, r.run.events, i);
    FiledBy(FileAfter(file, r.run.events[0]), e);
  }

  /** The results directory lost its archive when the run began, or the run opened one of its own. */
  ghost predicate Renews(events: seq<ServiceEvent>) {
    exists i :: 0 <= i < |events| && ((events[i].StartRun? && events[i].env.archiveRemoved) || Opens(events[i]))
  }

  /** Then, and only then, it does not matter what was on file before. */
  lemma RenewalDecides(r: RunRecord, a: Results.ArchiveFile, b: Results.ArchiveFile)
    requires Good(r)
    ensures Renews(r.run.events) ==> FileThen(a, r.run.events) == FileThen(b, r.run.events)
    ensures !Renews(r.run.events) ==> FileThen(a, r.run.events) == a
  {
    hide Good, FileThen, FailureLeaves, Says, Results.Collected;
    var i := FiledMeaning(r, a);
    var k := FiledMeaning(r, b);
    assert i == k;
  }

  lemma FiledBy(file: Results.ArchiveFile, e: ServiceEvent)
    requires e.ArchiveDone?
    ensures FileAfter(file, e)
         == if Says(e) then Results.Complete(Results.Whole(Results.Collected(e.listing, e.nodes), e.nodes))
            else if Opens(e) then FailureLeaves(e) else file
    ensures Says(e) ==> Opens(e)
  {
    hide Results.Collected, Results.Whole, Results.Taken, Results.Remaining, Results.LeftBehind;
  }

  lemma DifferentJobs(launches: seq<Job>, i: nat, j: nat)
    requires Increasing(launches) && i < |launches| && j < |launches| && i != j
    ensures launches[i] != launches[j]
  {
    if i < j {
      assert Phase(launches[i]) < Phase(launches[j]);
    } else {
      assert Phase(launches[j]) < Phase(launches[i]);
    }
  }
}

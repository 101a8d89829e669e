/** The run orchestrator: a chain of completions from signature check to archive and reset, and its
    interlock with the vector update. When the jobs end, and how, is given by events. */
module IstService {
  import opened Wrappers
  import opened MachineWord
  import opened RunChain
  import CpuDiscovery
  import ItmRunner
  import Results
  import UpdateReference
  import UpdateSessions
  import VectorManager

  datatype StartError = Busy | InvalidArgument | InternalFailure | ResourceNotFound

  /** What the file descriptor that is given out reads. */
  datatype Fetch = Fetched(file: Results.ArchiveFile) | FetchBusy | FetchInternalFailure | FetchNotFound

  // ----- What the service remembers -----

  /** The events the runs are made of, one run after the other. */
  ghost function AllEvents(records: seq<RunRecord>): seq<ServiceEvent> {
    if records == [] then [] else AllEvents(records[..|records| - 1]) + records[|records| - 1].run.events
  }

  lemma AllEventsNext(records: seq<RunRecord>, r: RunRecord)
    ensures AllEvents(records + [r]) == AllEvents(records) + r.run.events
  {
    assert (records + [r])[..|records|] == records;
  }

  /** The finished runs were good, with this configuration. */
  ghost predicate AllGood(records: seq<RunRecord>, config: Config) {
    forall i :: 0 <= i < |records| ==> Good(records[i]) && records[i].run.basis.config == config
  }

  /** The run in progress and the finished ones, the events they are made of, how many runs were accepted,
      and what the run in progress is based on. */
  datatype Books = Books(
    run: Run, records: seq<RunRecord>, heard: seq<ServiceEvent>, accepted: nat,
    config: Config, reboot: bool, mounts: nat, mounted: UpdateReference.Mounts)

  /** The run in progress waits for c; so many IST_ERRORs have been emitted. */
  ghost predicate InProgressFor(b: Books, c: Continuation, emitted: nat) {
    && b.run.basis.emitted <= emitted && InRun(b.run, c, emitted - b.run.basis.emitted)
    && b.accepted == |b.records| + 1 && b.heard == AllEvents(b.records) + b.run.events
    && b.run.basis.config == b.config && b.run.basis.reboot == b.reboot
    && b.run.basis.mounts == b.mounts && b.run.basis.mounted == b.mounted
  }

  /** What the next steps depend on is settled with the run, but for the discovery once it is behind. */
  lemma NeedsFit(b: Books, c: Continuation, event: ServiceEvent, emitted: nat, needs: Needs)
    requires InProgressFor(b, c, emitted) && Answers(c, event)
    requires needs.reboot == b.reboot && needs.resetSet == b.config.resetSet
    requires c == OnSignature ==> needs.discovers == (b.run.basis.socketList == None && b.config.discoverer)
    ensures MoveOf(c, event, needs) == MoveOf(c, event, NeedsOf(b.run.basis))
  {
    hide InRun, AllEvents, CpuDiscovery.Discover;
  }

  lemma StartedBefore(b: Books, c: Continuation, emitted: nat)
    requires InProgressFor(b, c, emitted)
    ensures b.run.basis.emitted <= emitted
  {
  }

  lemma OnlyItm(run: Run, c: Continuation, a: UpdateReference.Mounts, b: UpdateReference.Mounts)
    requires c == OnItm ==> a == b
    ensures Launched(run, JobOf(c), a) == Launched(run, JobOf(c), b)
  {
    hide With;
  }

  /** While a run waits, what is mounted is what was when its collateral was checked. */
  lemma MountsStay(b: Books, c: Continuation, emitted: nat)
    requires InProgressFor(b, c, emitted)
    ensures b.run.basis.mounted == b.mounted
  {
    hide InRun, AllEvents;
  }

  /** The books after the answer `event` to c, if the run goes on. */
  lemma BooksNext(b: Books, c: Continuation, event: ServiceEvent, emitted: nat, next: Continuation)
    requires InProgressFor(b, c, emitted) && Answers(c, event)
    requires MoveOf(c, event, NeedsOf(b.run.basis)).next == Some(next)
    ensures Rank([next]) < Rank([c]) && next != OnSignature
    ensures
      var launched := Launched(Noted(b.run, JobOf(c), event), JobOf(next), b.run.basis.mounted);
      && InProgressFor(b.(run := launched, heard := b.heard + [event]), next,
                       emitted + |MoveOf(c, event, NeedsOf(b.run.basis)).reasons|)
      && launched.events == b.run.events + [event] && b.run.launches <= launched.launches
  {
    hide InRun, AllEvents, MoveOf, NeedsOf, Answers, Launched, Noted;
    Proceeds(b.run, c, event, emitted - b.run.basis.emitted, next);
    NextEvents(b.run, c, event, next);
    RankFalls(c, next);
    assert AllEvents(b.records) + (b.run.events + [event]) == (AllEvents(b.records) + b.run.events) + [event];
  }

  /** And if it ends. */
  lemma BooksEnd(b: Books, c: Continuation, event: ServiceEvent, emitted: nat, r: RunRecord)
    requires InProgressFor(b, c, emitted) && Answers(c, event)
    requires MoveOf(c, event, NeedsOf(b.run.basis)).next == None
    requires r.run == Noted(b.run, JobOf(c), event) && r.status == MoveOf(c, event, NeedsOf(b.run.basis)).status
    requires r.errors == emitted + |MoveOf(c, event, NeedsOf(b.run.basis)).reasons| - b.run.basis.emitted
    requires r.mounts == b.mounts && AllGood(b.records, b.config)
    ensures AllGood(b.records + [r], b.config) && AllEvents(b.records + [r]) == b.heard + [event]
    ensures b.accepted == |b.records + [r]| && r.run.events == b.run.events + [event]
    ensures (r.status == Completed || r.status == Failed) && b.run.launches <= r.run.launches
  {
    hide InRun, Good, AllEvents, MoveOf, NeedsOf, Answers, Noted, AllGood;
    Concludes(b.run, c, event, emitted - b.run.basis.emitted);
    EndEvents(b.run, c, event);
    AllEventsNext(b.records, r);
    AllGoodNext(b.records, r, b.config);
    GoodStatus(r);
    assert AllEvents(b.records) + (b.run.events + [event]) == (AllEvents(b.records) + b.run.events) + [event];
  }

  lemma GoodStatus(r: RunRecord)
    requires Good(r)
    ensures r.status == Completed || r.status == Failed
  {
  }

  lemma AllGoodNext(records: seq<RunRecord>, r: RunRecord, config: Config)
    requires AllGood(records, config) && Good(r) && r.run.basis.config == config
    ensures AllGood(records + [r], config)
  {
    hide Good;
  }

  /** A run that was just accepted. */
  ghost function FirstRun(basis: Basis, start: ServiceEvent): Run {
    Launched(NewRun(basis, start), Verify, basis.mounted)
  }

  /** The books once a run is accepted. */
  lemma BooksBegin(b: Books, basis: Basis, start: ServiceEvent)
    requires start.StartRun? && start.params == Params(basis.socketList, basis.reboot)
    requires b.run == FirstRun(basis, start)
    requires b.accepted == |b.records| + 1 && b.heard == AllEvents(b.records) + [start]
    requires basis.config == b.config && basis.reboot == b.reboot
    requires basis.mounts == b.mounts && basis.mounted == b.mounted
    ensures InProgressFor(b, OnSignature, basis.emitted) && b.run.basis == basis
  {
    RunBegins(basis, start);
    assert b.run.events == [start] && b.run.basis == basis;
    hide InRun, AllEvents, Launched, NewRun;
  }

  // ----- What one event does -----

  /** Why an attempt to start a run is turned down: the error returned, the status and the IST_ERROR. */
  function Rejected(config: Config, initialized: bool, params: Params, env: StartEnv)
    : (r: Option<(StartError, Status, Reason)>)
    ensures r.Some? ==> (r.value.1 == Aborted || r.value.1 == Failed) && r.value.0 != Busy
    ensures r == None ==> params.Params?
  {
    if params.Invalid? then Some((InvalidArgument, Aborted, InvalidTestParams))
    else if initialized && !env.keyPresent then Some((InternalFailure, Failed, VerificationKeyMissing))
    else if !env.collateralOk then Some((ResourceNotFound, Aborted, CollateralFailed))
    else if !env.storageOk then Some((InternalFailure, Aborted, ResultStorageUnavailable))
    else if !config.assertSet then Some((InternalFailure, Failed, BootAssertNotFound))
    else if !config.deassertSet then Some((InternalFailure, Failed, BootDeassertNotFound))
    else None
  }

  /** The run is accepted exactly if nothing stands against it. */
  lemma AcceptedExactly(config: Config, initialized: bool, params: Params, env: StartEnv)
    ensures Rejected(config, initialized, params, env) == None <==>
      && params.Params? && (initialized ==> env.keyPresent) && env.collateralOk && env.storageOk
      && config.assertSet && config.deassertSet
  {
  }

  /** And if not, it is turned down for the first reason there is. */
  lemma TurnedDownFor(config: Config, initialized: bool, params: Params, env: StartEnv)
    ensures
      var r := Rejected(config, initialized, params, env);
      r == None || r.value
        == if params.Invalid? then (InvalidArgument, Aborted, InvalidTestParams)
           else if initialized && !env.keyPresent then (InternalFailure, Failed, VerificationKeyMissing)
           else if !env.collateralOk then (ResourceNotFound, Aborted, CollateralFailed)
           else if !env.storageOk then (InternalFailure, Aborted, ResultStorageUnavailable)
           else if !config.assertSet then (InternalFailure, Failed, BootAssertNotFound)
           else (InternalFailure, Failed, BootDeassertNotFound)
  {
  }

  /** What asking for the results gives, with that file as the archive. */
  function FetchOf(config: Config, idle: bool, file: Results.ArchiveFile, event: ServiceEvent): Fetch
    requires event.FetchResults?
  {
    if !idle then FetchBusy
    else if !config.resultPathSet then FetchInternalFailure
    else if file == Results.NoArchive || !event.canOpen then FetchNotFound
    else if !event.statOk || event.size > Results.MAX_RESULT_SIZE then FetchInternalFailure
    else Fetched(file)
  }

  /** What a request for the results gives at a boundary, if the event is one. */
  function FetchAt(config: Config, b: Boundary, event: ServiceEvent): Option<Fetch> {
    if event.FetchResults? then Some(FetchOf(config, b.outstanding == [], b.archive, event)) else None
  }

  /** How the service is set up. */
  datatype Site = RunSite(config: Config, initialized: bool, paths: UpdateReference.Setup)

  /** What is seen between two events. */
  datatype Boundary = Boundary(
    stage: Stage, status: Status, progress: nat, outstanding: seq<Continuation>, updating: bool, serviceLogOpen: bool,
    archive: Results.ArchiveFile)

  /** Between events a run is in progress exactly if its status says so, and then it waits for exactly one
      callback, in the stage that goes with it; a run and an update are never in progress together; and the
      log that is archived is closed while it is. */
  ghost predicate Proper(b: Boundary) {
    && (b.stage == Idle <==> b.status != InProgress)
    && |b.outstanding| == (if b.stage == Idle then 0 else 1)
    && (b.stage != Idle ==> b.stage == StageOf(b.outstanding[0]) && !b.updating)
    && (b.serviceLogOpen ==> b.outstanding != [] && JobOf(b.outstanding[0]) != Archive)
  }

  /** The event calls the callback that is outstanding. */
  predicate Answered(outstanding: seq<Continuation>, event: ServiceEvent) {
    |outstanding| == 1 && Answers(outstanding[0], event)
  }

  /** An event that calls the outstanding callback brings the run strictly nearer to its end. A request for a
      run when there is no run and no update starts one, or is turned down. Any other event leaves what is
      outstanding alone; the progress of ITM shows while it runs. */
  ghost predicate Stepped(site: Site, before: Boundary, event: ServiceEvent, after: Boundary) {
    if Answered(before.outstanding, event) then
      && Rank(after.outstanding) < Rank(before.outstanding)
      && after.progress == ProgressAfter(before.outstanding[0], event, before.progress)
    else if event.StartRun? && before.outstanding == [] && !before.updating then
      match Rejected(site.config, site.initialized, event.params, event.env)
      case None => after.outstanding == [OnSignature] && after.progress == 0
      case Some((_, status, _)) => after.outstanding == [] && after.status == status
    else
      var shows := event.ItmProgress? && before.outstanding == [OnItm];
      && after.outstanding == before.outstanding && after.status == before.status
      && after.progress == if shows then event.percent else before.progress
  }

  function ProgressAfter(c: Continuation, event: ServiceEvent, progress: nat): nat {
    if c == OnBootAssert && event == HookDone(false) then 0 else progress
  }

  /** What is seen, what was done to the vector store, the events heard and the finished runs. */
  datatype Memory = Memory(
    b: Boundary, world: UpdateReference.World, heard: seq<ServiceEvent>, records: seq<RunRecord>)

  /** The events heard are those that change what is outstanding, and a run is filed when it ends. */
  ghost predicate Kept(before: Memory, event: ServiceEvent, after: Memory) {
    && after.heard == (if after.b.outstanding == before.b.outstanding then before.heard else before.heard + [event])
    && if before.b.outstanding != [] && after.b.outstanding == [] then
         && after.records != [] && after.records == before.records + [after.records[|after.records| - 1]]
         && after.records[|after.records| - 1].status == after.b.status
       else after.records == before.records
  }

  /** What the event does to the vector store, if it gets that far. */
  ghost function StoreAfter(site: Site, b: Boundary, w: UpdateReference.World, event: ServiceEvent)
    : UpdateReference.World
  {
    match event
    case StartRun(_, env) =>
      if b.outstanding == [] && !b.updating then
        UpdateReference.Follow(w, UpdateReference.EnsureMount(env.populated, env.mounts), site.paths)
      else w
    case StartUpdate(fdOk, allowed) =>
      if site.initialized && b.outstanding == [] then
        UpdateReference.Follow(w, UpdateReference.Request(fdOk, allowed), site.paths)
      else w
    case UpdateStep(step) => if OfUpdate(step) then UpdateReference.Follow(w, step, site.paths) else w
    case _ => w
  }

  /** The steps of an update; requests come by StartUpdate, and images are mounted before a run. */
  predicate OfUpdate(step: UpdateReference.UpdateEvent) {
    !step.Request? && !step.Startup? && !step.EnsureMount?
  }

  ghost predicate Happens(site: Site, before: Memory, event: ServiceEvent, after: Memory) {
    && Stepped(site, before.b, event, after.b) && Kept(before, event, after)
    && after.world == StoreAfter(site, before.b, before.world, event)
  }

  /** An event that is beside the run. */
  lemma RunWaits(site: Site, m: Memory, event: ServiceEvent, after: Memory)
    requires !Answered(m.b.outstanding, event) && after.world == StoreAfter(site, m.b, m.world, event)
    requires event.StartRun? ==> m.b.outstanding != [] || m.b.updating
    requires after.b.outstanding == m.b.outstanding && after.b.status == m.b.status
    requires after.b.progress
          == if event.ItmProgress? && m.b.outstanding == [OnItm] then event.percent else m.b.progress
    requires after.heard == m.heard && after.records == m.records
    ensures Happens(site, m, event, after)
  {
    hide StoreAfter, Answers;
  }

  /** What an event that answers the run comes to. */
  lemma HappensAnswered(site: Site, m: Memory, event: ServiceEvent, after: Memory)
    requires Happens(site, m, event, after) && Answered(m.b.outstanding, event)
    ensures Rank(after.b.outstanding) < Rank(m.b.outstanding) && after.heard == m.heard + [event]
    ensures if after.b.outstanding != [] then after.records == m.records
            else after.records != [] && after.records == m.records + [after.records[|after.records| - 1]]
                 && after.records[|after.records| - 1].status == after.b.status
  {
    hide StoreAfter, Answers, ProgressAfter;
  }

  /** What requests and steps of an update do to the store. */
  lemma StoreOnUpdate(site: Site, b: Boundary, w: UpdateReference.World, event: ServiceEvent)
    ensures event.StartUpdate? ==>
      StoreAfter(site, b, w, event)
        == if site.initialized && b.outstanding == [] then
             UpdateReference.Follow(w, UpdateReference.Request(event.fdOk, event.applyTimeAllowed), site.paths)
           else w
    ensures event.UpdateStep? ==>
      StoreAfter(site, b, w, event)
        == if OfUpdate(event.step) then UpdateReference.Follow(w, event.step, site.paths) else w
  {
    hide UpdateReference.Follow;
  }

  lemma RunIsTried(site: Site, m: Memory, event: ServiceEvent, after: Memory)
    requires event.StartRun? && m.b.outstanding == [] && !m.b.updating
    requires after.world == StoreAfter(site, m.b, m.world, event) && after.records == m.records
    requires match Rejected(site.config, site.initialized, event.params, event.env)
             case None =>
               && after.b.outstanding == [OnSignature] && after.b.progress == 0
               && after.heard == m.heard + [event]
             case Some((_, status, _)) =>
               after.b.outstanding == [] && after.b.status == status && after.heard == m.heard
    ensures Happens(site, m, event, after)
  {
    hide StoreAfter, Rejected;
  }

  lemma RunSteps(site: Site, m: Memory, event: ServiceEvent, after: Memory)
    requires Answered(m.b.outstanding, event) && after.world == m.world
    requires |after.b.outstanding| <= 1 && Rank(after.b.outstanding) < Rank(m.b.outstanding)
    requires after.b.progress == ProgressAfter(m.b.outstanding[0], event, m.b.progress)
    requires after.heard == m.heard + [event]
    requires if after.b.outstanding == [] then
               && after.records != [] && after.records == m.records + [after.records[|after.records| - 1]]
               && after.records[|after.records| - 1].status == after.b.status
             else after.records == m.records
    ensures Happens(site, m, event, after)
  {
    assert event.SignatureDone? || event.DiscoveryDone? || event.HookDone? || event.PowerDone? || event.ItmDone?
           || event.ArchiveDone?;
    hide ProgressAfter;
  }

  class IstService {
    const config: Config
    const vm: VectorManager.VectorManager
    const initialized: bool
    var stage: Stage
    var status: Status
    var progress: nat
    var socketList: Option<string>
    var autoReboot: bool
    var failureInfo: seq<Reason>
    var runCounter: nat
    var outstanding: seq<Continuation>      // handed out and not called yet
    var serviceLogOpen: bool
    var archive: Results.ArchiveFile        // ist_results.tar.gz
    var emitted: seq<Reason>                // every IST_ERROR
    var itmMounts: seq<UpdateReference.Mounts>  // what was mounted whenever ITM was launched
    ghost const left: Results.ArchiveFile   // the archive found at the start
    ghost var run: Run                      // the run in progress
    ghost var records: seq<RunRecord>       // the finished runs
    ghost var heard: seq<ServiceEvent>      // the events that started a run or called a callback

    /** The lock of the update pipeline is free while a run is in progress. */
    ghost predicate Valid()
      reads this, vm, vm.Repr()
    {
      vm.Valid() && (stage != Idle ==> !vm.updateInProgress) && RunValid()
    }

    ghost predicate RunValid()
      reads this, vm
    {
      && AllGood(records, config) && archive == FileThen(left, heard)
      && if outstanding == [] then AtRest() else |outstanding| == 1 && Waiting(outstanding[0])
    }

    ghost predicate AtRest()
      reads this
    {
      && stage == Idle && status != InProgress && failureInfo == [] && !serviceLogOpen
      && runCounter == |records| && heard == AllEvents(records)
    }

    /** What holds while the run waits for the callback c. */
    ghost predicate Waiting(c: Continuation)
      reads this, vm
    {
      && stage == StageOf(c) && status == InProgress && failureInfo == []
      && (serviceLogOpen ==> JobOf(c) != Archive && JobOf(c) != Reset)
      && (c == OnSignature ==> socketList == run.basis.socketList)
      && InProgressFor(Told(), c, |emitted|)
    }

    ghost function Told(): Books
      reads this, vm
    {
      Books(run, records, heard, runCounter, config, autoReboot, vm.mountOps, vm.mounted)
    }

    constructor (config: Config, vm: VectorManager.VectorManager, initialized: bool, archive: Results.ArchiveFile)
      requires vm.Valid() && !vm.updateInProgress
      ensures Valid() && fresh(this) && this.vm == vm && this.config == config && this.left == archive
      ensures stage == Idle && records == [] && runCounter == 0 && outstanding == [] && heard == []
      ensures this.initialized == initialized && this.archive == archive
    {
      this.config, this.vm, this.initialized, this.archive, this.left := config, vm, initialized, archive, archive;
      stage, status, progress, socketList, autoReboot := Idle, Completed, 0, None, false;
      failureInfo, runCounter, outstanding, serviceLogOpen := [], 0, [], false;
      emitted, itmMounts, records, heard := [], [], [], [];
      run := NewRun(Basis(config, None, false, 0, 0, UpdateReference.NOTHING), StartRun(Invalid, SomeEnv()));
    }

    static ghost function SomeEnv(): StartEnv {
      StartEnv(false, VectorManager.NO_CALLS, false, false, false, false, false)
    }

    // ----- Publishing -----

    method TransitionToWith(newStage: Stage, newStatus: Status, error: Option<Reason>)
      requires newStage == Idle <==> newStatus != InProgress
      modifies this`stage, this`status, this`emitted, this`serviceLogOpen
      ensures stage == newStage && status == newStatus
      ensures serviceLogOpen == (old(serviceLogOpen) && newStage != Idle)
      ensures emitted == if newStage == Idle && newStatus != Completed && error.Some? then old(emitted) + [error.value]
                         else old(emitted)
    {
      stage := newStage;
      status := newStatus;
      if newStage == Idle {
        if newStatus != Completed && error.Some? {
          emitted := emitted + [error.value];
        }
        serviceLogOpen := false;
      }
    }

    // ----- Starting a run -----

    /** A run was accepted. */
    twostate predicate Accepted(params: Params, env: StartEnv)
      reads this
    {
      && old(outstanding) == [] && outstanding == [OnSignature] && records == old(records)
      && runCounter == old(runCounter) + 1 && heard == old(heard) + [StartRun(params, env)]
      && archive == FileAfter(old(archive), StartRun(params, env)) && progress == 0
      && serviceLogOpen == env.logOpens
    }

    /** No run was. */
    twostate predicate Declined()
      reads this
    {
      && outstanding == old(outstanding) && records == old(records) && runCounter == old(runCounter)
      && heard == old(heard) && archive == old(archive) && progress == old(progress)
    }

    method StartIst(params: Params, env: StartEnv) returns (error: Option<StartError>)
      requires Valid()
      modifies this, vm
      ensures Valid() && vm.Repr() == old(vm.Repr()) && vm.records == old(vm.records)
      ensures error == Some(Busy) <==> old(stage) != Idle || old(vm.updateInProgress)
      ensures if error == None then Accepted(params, env) else Declined()
      ensures error == Some(Busy) ==>
        stage == old(stage) && status == old(status) && emitted == old(emitted) && vm.Seen() == old(vm.Seen())
      ensures error != Some(Busy) ==> Tried(params, env, error, old(emitted)) && Prepared(env)
      ensures error == None <==>
        && old(stage) == Idle && !old(vm.updateInProgress)
        && params.Params? && (initialized ==> env.keyPresent) && env.collateralOk && env.storageOk
        && config.assertSet && config.deassertSet
      ensures error != None && error != Some(Busy) ==>
        (error.value, status, emitted)
        == if params.Invalid? then (InvalidArgument, Aborted, old(emitted) + [InvalidTestParams])
           else if initialized && !env.keyPresent then
             (InternalFailure, Failed, old(emitted) + [VerificationKeyMissing])
           else if !env.collateralOk then (ResourceNotFound, Aborted, old(emitted) + [CollateralFailed])
           else if !env.storageOk then (InternalFailure, Aborted, old(emitted) + [ResultStorageUnavailable])
           else if !config.assertSet then (InternalFailure, Failed, old(emitted) + [BootAssertNotFound])
           else (InternalFailure, Failed, old(emitted) + [BootDeassertNotFound])
    {
      hide Valid, RunValid, Rejected;
      AcceptedExactly(config, initialized, params, env);
      TurnedDownFor(config, initialized, params, env);
      if stage != Idle || vm.updateInProgress {
        return Some(Busy);
      }
      error := TryStart(params, env);
    }

    /** The image was mounted before the run, unless it was already. */
    twostate predicate Prepared(env: StartEnv)
      reads vm, vm.store
    {
      vm.Seen()
        == UpdateReference.Follow(old(vm.Seen()), UpdateReference.EnsureMount(env.populated, env.mounts), vm.Paths())
    }

    /** What trying to start a run gives, and tells. */
    ghost predicate Tried(params: Params, env: StartEnv, error: Option<StartError>, before: seq<Reason>)
      reads this`stage, this`status, this`emitted
    {
      match Rejected(config, initialized, params, env)
      case None => error == None && emitted == before
      case Some((e, newStatus, reason)) =>
        error == Some(e) && stage == Idle && status == newStatus && emitted == before + [reason]
    }

    method TryStart(params: Params, env: StartEnv) returns (error: Option<StartError>)
      requires Valid() && stage == Idle && !vm.updateInProgress
      modifies this, vm
      ensures Valid() && vm.Repr() == old(vm.Repr()) && vm.records == old(vm.records) && error != Some(Busy)
      ensures if error == None then Accepted(params, env) else Declined()
      ensures Tried(params, env, error, old(emitted)) && Prepared(env)
    {
      hide AllGood, AtRest, Tried, RunValid;
      hide VectorManager.VectorManager.Valid, VectorManager.VectorManager.Seen;
      hide UpdateReference.Follow, UpdateReference.MountAll;
      AtRestMeans();
      vm.EnsureMounted(env.populated, env.mounts);
      assert this !in vm.Repr();
      error := StartWhenMounted(params, env);
    }

    method StartWhenMounted(params: Params, env: StartEnv) returns (error: Option<StartError>)
      requires AllGood(records, config) && outstanding == [] && AtRest() && archive == FileThen(left, heard)
      modifies this
      ensures RunValid() && error != Some(Busy)
      ensures if error == None then Accepted(params, env) else Declined()
      ensures Tried(params, env, error, old(emitted))
    {
      hide AllGood, AllEvents, InProgressFor, StageOf, Tried, FileThen, FileAfter, RunValid;
      error := PrepareRun(params, env);
      if error == None {
        FileThenNext(left, heard, StartRun(params, env));
        AcceptRun(params, env);
        Awaits();
      } else {
        Rests();
      }
    }

    lemma Rests()
      requires AllGood(records, config) && outstanding == [] && AtRest() && archive == FileThen(left, heard)
      ensures RunValid()
    {
      hide AllGood, FileThen;
    }

    lemma AtRestMeans()
      requires RunValid()
      ensures stage == Idle <==> outstanding == []
      ensures outstanding == [] ==> AtRest()
      ensures AllGood(records, config) && archive == FileThen(left, heard)
    {
      hide AllGood, AllEvents, FileThen, InProgressFor;
    }

    /** The checks before a run is accepted, in order; a failed one ends the attempt at once. */
    method PrepareRun(params: Params, env: StartEnv) returns (error: Option<StartError>)
      requires stage == Idle && status != InProgress && !serviceLogOpen
      modifies this`stage, this`status, this`emitted, this`serviceLogOpen, this`socketList, this`autoReboot
      ensures Tried(params, env, error, old(emitted)) && error != Some(Busy)
      ensures error == None <==>
        && params.Params? && (initialized ==> env.keyPresent) && env.collateralOk && env.storageOk
        && config.assertSet && config.deassertSet
      ensures error != None ==>
        (error.value, status, emitted)
        == if params.Invalid? then (InvalidArgument, Aborted, old(emitted) + [InvalidTestParams])
           else if initialized && !env.keyPresent then
             (InternalFailure, Failed, old(emitted) + [VerificationKeyMissing])
           else if !env.collateralOk then (ResourceNotFound, Aborted, old(emitted) + [CollateralFailed])
           else if !env.storageOk then (InternalFailure, Aborted, old(emitted) + [ResultStorageUnavailable])
           else if !config.assertSet then (InternalFailure, Failed, old(emitted) + [BootAssertNotFound])
           else (InternalFailure, Failed, old(emitted) + [BootDeassertNotFound])
      ensures if error == None then stage == CollateralVerification && status == InProgress
              else stage == Idle && status != InProgress
      ensures error == None ==> params == Params(socketList, autoReboot)
      ensures !serviceLogOpen
    {
      TransitionToWith(CollateralVerification, InProgress, None);
      socketList, autoReboot := None, false;
      if params.Invalid? {
        TransitionToWith(Idle, Aborted, Some(InvalidTestParams));
        return Some(InvalidArgument);
      }
      socketList, autoReboot := params.socketList, params.autoReboot;
      if initialized && !env.keyPresent {
        TransitionToWith(Idle, Failed, Some(VerificationKeyMissing));
        return Some(InternalFailure);
      }
      if !env.collateralOk {
        TransitionToWith(Idle, Aborted, Some(CollateralFailed));
        return Some(ResourceNotFound);
      }
      if !env.storageOk {
        TransitionToWith(Idle, Aborted, Some(ResultStorageUnavailable));
        return Some(InternalFailure);
      }
      if !config.assertSet {
        TransitionToWith(Idle, Failed, Some(BootAssertNotFound));
        return Some(InternalFailure);
      }
      if !config.deassertSet {
        TransitionToWith(Idle, Failed, Some(BootDeassertNotFound));
        return Some(InternalFailure);
      }
      return None;
    }

    ghost function BasisNow(): Basis
      reads this, vm
    {
      Basis(config, socketList, autoReboot, |emitted|, vm.mountOps, vm.mounted)
    }

    /** A run that is accepted goes down in the books. */
    ghost method Enter(start: ServiceEvent)
      requires start.StartRun? && start.params == Params(socketList, autoReboot)
      requires runCounter == |records| + 1 && heard == AllEvents(records)
      modifies this`run, this`heard
      ensures InProgressFor(Told(), OnSignature, |emitted|)
      ensures heard == old(heard) + [start] && run.basis.socketList == socketList
    {
      hide AllEvents, InProgressFor, FirstRun;
      var basis := BasisNow();
      run := FirstRun(basis, start);
      heard := heard + [start];
      BooksBegin(Told(), basis, start);
    }

    /** The results directory is emptied, entry by entry; the archive may stay. */
    method EmptyResults(archiveRemoved: bool)
      modifies this`archive
      ensures archive == if archiveRemoved then Results.NoArchive else old(archive)
    {
      if archiveRemoved {
        archive := Results.NoArchive;
      }
    }

    method AcceptRun(params: Params, env: StartEnv)
      requires outstanding == [] && params == Params(socketList, autoReboot)
      requires runCounter == |records| && heard == AllEvents(records)
      modifies this`runCounter, this`progress, this`archive, this`serviceLogOpen, this`run, this`outstanding,
        this`heard
      ensures Accepted(params, env) && InProgressFor(Told(), OnSignature, |emitted|)
      ensures run.basis.socketList == socketList
    {
      hide AllGood, AllEvents, InProgressFor;
      runCounter := runCounter + 1;
      progress := 0;
      EmptyResults(env.archiveRemoved);
      serviceLogOpen := env.logOpens;
      outstanding := [OnSignature];
      Enter(StartRun(params, env));
    }

    lemma Awaits()
      requires AllGood(records, config) && outstanding == [OnSignature]
      requires stage == CollateralVerification && status == InProgress && failureInfo == []
      requires InProgressFor(Told(), OnSignature, |emitted|) && archive == FileThen(left, heard)
      requires run.basis.socketList == socketList
      ensures RunValid()
    {
      hide AllGood, InProgressFor, FileThen;
    }

    // ----- The steps of a run -----

    /** What the next steps depend on. */
    function NeedsNow(): Needs
      reads this`socketList, this`autoReboot
    {
      Needs(socketList == None && config.discoverer, autoReboot, config.resetSet)
    }

    /** The state fits a move made when so many IST_ERRORs had been emitted. */
    ghost predicate Made(m: Move, before: nat)
      reads this
    {
      && |emitted| == before + |m.reasons| && failureInfo == []
      && match m.next
         case Some(next) =>
           && outstanding == [next] && stage == StageOf(next) && status == InProgress
           && (serviceLogOpen ==> JobOf(next) != Archive && JobOf(next) != Reset)
         case None => outstanding == [] && stage == Idle && status == m.status && !serviceLogOpen
    }

    /** ITM was launched on what is mounted, if it was launched. */
    ghost predicate OnMounted(before: seq<UpdateReference.Mounts>)
      reads this`itmMounts, this`outstanding, vm`mounted
    {
      itmMounts == if outstanding != [] && outstanding[0] == OnItm then before + [vm.mounted] else before
    }

    /** What ITM was launched on last. */
    ghost function LatestMounts(): UpdateReference.Mounts
      reads this`itmMounts
    {
      if itmMounts == [] then UpdateReference.NOTHING else itmMounts[|itmMounts| - 1]
    }

    lemma NextOnMounted(next: Continuation, before: seq<UpdateReference.Mounts>)
      requires OnMounted(before) && outstanding == [next]
      ensures next == OnItm ==> LatestMounts() == vm.mounted
    {
    }

    /** The outstanding callback is being called. */
    ghost predicate Called()
      reads this
    {
      outstanding == [] && failureInfo == [] && status == InProgress
    }

    method OnSignatureVerifyDone(ok: bool)
      requires Called()
      modifies this`emitted, this`stage, this`serviceLogOpen, this`outstanding
      ensures stage == if !ok then Cleanup
                       else if socketList == None && config.discoverer then CollateralVerification else PendingIstBoot
      ensures Made(MoveOf(OnSignature, SignatureDone(ok), NeedsNow()), |old(emitted)|)
      ensures emitted == if ok then old(emitted) else old(emitted) + [SignatureVerificationFailed]
      ensures outstanding == [if !ok then OnFailArchive
                              else if socketList == None && config.discoverer then OnDiscovery else OnBootAssert]
    {
      if !ok {
        FailRunWithArchive(SignatureVerificationFailed);
      } else if socketList.Some? {
        LaunchBootAssert();
      } else if !config.discoverer {
        LaunchBootAssert();
      } else {
        outstanding := outstanding + [OnDiscovery];
        stage := CollateralVerification;
      }
    }

    method OnCpuDiscoveryDone(paths: seq<string>)
      requires Called()
      modifies this`socketList, this`emitted, this`stage, this`serviceLogOpen, this`outstanding
      ensures stage == if CpuDiscovery.Discover(paths).Sockets? then PendingIstBoot else Cleanup
      ensures Made(MoveOf(OnDiscovery, DiscoveryDone(paths), old(NeedsNow())), |old(emitted)|)
      ensures match CpuDiscovery.Discover(paths)
              case Sockets(list) => socketList == Some(list) && emitted == old(emitted)
              case NoCpus => emitted == old(emitted) + [NoCpusFound]
              case ParseFailed => emitted == old(emitted) + [PackageParseFailed]
              case NonContiguous => emitted == old(emitted) + [NonContiguousPackages]
      ensures outstanding == [if CpuDiscovery.Discover(paths).Sockets? then OnBootAssert else OnFailArchive]
    {
      hide CpuDiscovery.Discover;
      var found := CpuDiscovery.OnCpuDiscoveryDone(paths);
      match found
      case NoCpus => FailRunWithArchive(NoCpusFound);
      case ParseFailed => FailRunWithArchive(PackageParseFailed);
      case NonContiguous => FailRunWithArchive(NonContiguousPackages);
      case Sockets(list) =>
        socketList := Some(list);
        LaunchBootAssert();
    }

    method LaunchBootAssert()
      requires outstanding == []
      modifies this`stage, this`outstanding
      ensures stage == PendingIstBoot && outstanding == [OnBootAssert]
    {
      stage := PendingIstBoot;
      outstanding := outstanding + [OnBootAssert];
    }

    method OnIstBootAssertDone(ok: bool)
      requires Called()
      modifies this`progress, this`emitted, this`stage, this`serviceLogOpen, this`outstanding
      ensures stage == if ok then PendingPowerCycle else Cleanup
      ensures Made(MoveOf(OnBootAssert, HookDone(ok), NeedsNow()), |old(emitted)|)
      ensures progress == if ok then old(progress) else 0
      ensures emitted == if ok then old(emitted) else old(emitted) + [BootAssertFailed]
      ensures outstanding == [if ok then OnPowerCycle else OnFailArchive]
    {
      if !ok {
        progress := 0;
        FailRunWithArchive(BootAssertFailed);
        return;
      }
      stage := PendingPowerCycle;
      outstanding := outstanding + [OnPowerCycle];
    }

    method OnPowerCycleDone(ok: bool, cakPresent: bool, cakWithin: bool)
      requires Called()
      modifies this`failureInfo, this`emitted, this`stage, this`outstanding, this`itmMounts
      ensures stage == if ok && (cakPresent ==> cakWithin) then RunningIst else Cleanup
      ensures OnMounted(old(itmMounts))
      ensures Made(MoveOf(OnPowerCycle, PowerDone(ok, cakPresent, cakWithin), NeedsNow()), |old(emitted)|)
      ensures emitted == if !ok then old(emitted) + [PowerCycleNotDetected]
                         else if cakPresent && !cakWithin then old(emitted) + [CakBypassPathEscape]
                         else old(emitted)
      ensures outstanding == [if ok && !cakPresent then OnItm else if ok && cakWithin then OnCak else OnDeassert(-1)]
    {
      if !ok {
        failureInfo := failureInfo + [PowerCycleNotDetected];
        RunIstCleanup(-1);
        return;
      }
      stage := RunningIst;
      if !cakPresent {
        StartItmRun();
      } else if !cakWithin {
        failureInfo := failureInfo + [CakBypassPathEscape];
        RunIstCleanup(-1);
      } else {
        outstanding := outstanding + [OnCak];
      }
    }

    method OnCakDone(ok: bool)
      requires Called()
      modifies this`failureInfo, this`emitted, this`stage, this`outstanding, this`itmMounts
      ensures stage == if ok then RunningIst else Cleanup
      ensures OnMounted(old(itmMounts))
      ensures Made(MoveOf(OnCak, HookDone(ok), NeedsNow()), |old(emitted)|)
      ensures emitted == if ok then old(emitted) else old(emitted) + [CakBypassFailed]
      ensures outstanding == [if ok then OnItm else OnDeassert(-1)]
    {
      if !ok {
        failureInfo := failureInfo + [CakBypassFailed];
        RunIstCleanup(-1);
        return;
      }
      StartItmRun();
    }

    /** ITM is launched on the vectors as they are mounted now. */
    method StartItmRun()
      requires outstanding == []
      modifies this`stage, this`outstanding, this`itmMounts
      ensures stage == RunningIst && outstanding == [OnItm] && itmMounts == old(itmMounts) + [vm.mounted]
    {
      stage := RunningIst;
      itmMounts := itmMounts + [vm.mounted];
      outstanding := outstanding + [OnItm];
    }

    method OnItmDone(itmExit: int)
      requires Called()
      modifies this`failureInfo, this`emitted, this`stage, this`outstanding
      ensures stage == Cleanup
      ensures Made(MoveOf(OnItm, ItmDone(itmExit), NeedsNow()), |old(emitted)|)
      ensures emitted == if itmExit == 0 then old(emitted)
                         else if itmExit > 0 then old(emitted) + [ItmExitCode(itmExit)]
                         else if itmExit == -2 then old(emitted) + [ItmSwTimeout]
                         else old(emitted) + [ItmProcessError]
      ensures outstanding == [OnDeassert(itmExit)]
    {
      if itmExit > 0 {
        failureInfo := failureInfo + [ItmExitCode(itmExit)];
      } else if itmExit == ItmRunner.EXIT_SW_TIMEOUT {
        failureInfo := failureInfo + [ItmSwTimeout];
      } else if itmExit < 0 {
        failureInfo := failureInfo + [ItmProcessError];
      }
      RunIstCleanup(itmExit);
    }

    /** Tells all failures collected, and goes on to the deassert hook. */
    method RunIstCleanup(itmExit: int)
      requires outstanding == []
      modifies this`emitted, this`failureInfo, this`stage, this`outstanding
      ensures stage == Cleanup && outstanding == [OnDeassert(itmExit)] && failureInfo == []
      ensures emitted == old(emitted) + old(failureInfo)
    {
      var i := 0;
      while i < |failureInfo|
        invariant 0 <= i <= |failureInfo| && emitted == old(emitted) + failureInfo[..i]
        modifies this`emitted
      {
        emitted := emitted + [failureInfo[i]];
        i := i + 1;
      }
      failureInfo := [];
      stage := Cleanup;
      outstanding := outstanding + [OnDeassert(itmExit)];
    }

    method OnDeassertDone(itmExit: int, ok: bool)
      requires Called() && stage == Cleanup
      modifies this`emitted, this`serviceLogOpen, this`outstanding
      ensures Made(MoveOf(OnDeassert(itmExit), HookDone(ok), NeedsNow()), |old(emitted)|) && !serviceLogOpen
      ensures emitted == if ok then old(emitted) else old(emitted) + [BootDeassertFailed]
      ensures outstanding == [OnArchive(itmExit, ok)]
    {
      if !ok {
        emitted := emitted + [BootDeassertFailed];
      }
      serviceLogOpen := false;
      outstanding := outstanding + [OnArchive(itmExit, ok)];
    }

    method FailRunWithArchive(reason: Reason)
      requires outstanding == []
      modifies this`emitted, this`stage, this`serviceLogOpen, this`outstanding
      ensures stage == Cleanup && outstanding == [OnFailArchive] && !serviceLogOpen
      ensures emitted == old(emitted) + [reason]
    {
      emitted := emitted + [reason];
      stage := Cleanup;
      serviceLogOpen := false;
      outstanding := outstanding + [OnFailArchive];
    }

    // ----- The end of a run -----

    /** The results directory is archived, one block per turn; nothing else touches the archive meanwhile. */
    method ArchiveResults(listing: Listing, nodes: map<string, Results.Node>, script: Results.Script) returns (ok: bool)
      modifies this`archive
      ensures ok == Says(ArchiveDone(listing, nodes, script))
      ensures archive == Results.ArchiveOutcome(listing, nodes, old(archive), script).archive
    {
      hide Results.Collected, Results.Whole;
      var outcome, snapshots := Results.RunArchiveSession(nodes, archive, listing, script);
      ok, archive := outcome.ok, outcome.archive;
    }

    /** Whatever became of the archive, the run has failed. */
    method OnFailArchiveDone(ok: bool)
      requires Called()
      modifies this`stage, this`status, this`emitted, this`serviceLogOpen
      ensures outstanding == [] && stage == Idle && status == Failed && emitted == old(emitted) && !serviceLogOpen
    {
      TransitionToWith(Idle, Failed, None);
    }

    method OnArchiveDone(itmExit: int, okDeassert: bool)
      requires Called() && stage == Cleanup && !serviceLogOpen
      modifies this`stage, this`status, this`emitted, this`serviceLogOpen, this`outstanding
      ensures emitted == if okDeassert && autoReboot && !config.resetSet then old(emitted) + [ResetSystemNotFound]
                         else old(emitted)
      ensures
        if okDeassert && autoReboot && config.resetSet then
          outstanding == [OnReset(itmExit)] && stage == Cleanup && status == InProgress
        else
          && outstanding == [] && stage == Idle
          && status == if okDeassert && !autoReboot && itmExit == 0 then Completed else Failed
      ensures !serviceLogOpen
    {
      if !okDeassert {
        TransitionToWith(Idle, Failed, None);
      } else if !autoReboot {
        TransitionToWith(Idle, if itmExit == 0 then Completed else Failed, None);
      } else if !config.resetSet {
        TransitionToWith(Idle, Failed, Some(ResetSystemNotFound));
      } else {
        outstanding := outstanding + [OnReset(itmExit)];
      }
    }

    /** The archive session of a failed run, and of one that got to its deassert hook. */
    method FailArchived(listing: Listing, nodes: map<string, Results.Node>, script: Results.Script)
      requires Called()
      modifies this`stage, this`status, this`emitted, this`serviceLogOpen, this`archive
      ensures Made(MoveOf(OnFailArchive, ArchiveDone(listing, nodes, script), NeedsNow()), |old(emitted)|)
      ensures outstanding == []
      ensures archive == Results.ArchiveOutcome(listing, nodes, old(archive), script).archive
    {
      hide Results.ArchiveOutcome, Says;
      var ok := ArchiveResults(listing, nodes, script);
      OnFailArchiveDone(ok);
    }

    method Archived(itmExit: int, okDeassert: bool, listing: Listing, nodes: map<string, Results.Node>,
                    script: Results.Script)
      requires Called() && stage == Cleanup && !serviceLogOpen
      modifies this`stage, this`status, this`emitted, this`serviceLogOpen, this`outstanding, this`archive
      ensures
        var event := ArchiveDone(listing, nodes, script);
        Made(MoveOf(OnArchive(itmExit, okDeassert), event, NeedsNow()), |old(emitted)|)
      ensures outstanding != [] ==> outstanding[0].OnReset?
      ensures archive == Results.ArchiveOutcome(listing, nodes, old(archive), script).archive
    {
      hide Results.ArchiveOutcome, Says;
      var ok := ArchiveResults(listing, nodes, script);
      OnArchiveDone(itmExit, okDeassert);
    }

    method OnResetDone(itmExit: int, ok: bool)
      requires Called()
      modifies this`stage, this`status, this`emitted, this`serviceLogOpen
      ensures Made(MoveOf(OnReset(itmExit), HookDone(ok), NeedsNow()), |old(emitted)|)
      ensures emitted == if ok then old(emitted) else old(emitted) + [ResetSystemFailed]
      ensures outstanding == [] && status == if ok && itmExit == 0 then Completed else Failed
    {
      if !ok {
        TransitionToWith(Idle, Failed, Some(ResetSystemFailed));
        return;
      }
      TransitionToWith(Idle, if itmExit == 0 then Completed else Failed, None);
    }

    // ----- Callbacks are called -----

    /** The callback c is called with what `event` says. */
    method Call(c: Continuation, event: ServiceEvent)
      requires Called() && Answers(c, event) && stage == StageOf(c)
      requires serviceLogOpen ==> JobOf(c) != Archive && JobOf(c) != Reset
      modifies this`stage, this`status, this`progress, this`socketList, this`failureInfo, this`outstanding,
        this`serviceLogOpen, this`archive, this`emitted, this`itmMounts
      ensures Made(MoveOf(c, event, old(NeedsNow())), |old(emitted)|) && OnMounted(old(itmMounts))
      ensures archive == FileAfter(old(archive), event) && progress == ProgressAfter(c, event, old(progress))
    {
      hide CpuDiscovery.Discover, Results.ArchiveOutcome, Says, MoveOf, Made;
      match c
      case OnSignature | OnDiscovery | OnBootAssert => CallAtStart(c, event);
      case OnPowerCycle => OnPowerCycleDone(event.ok, event.cakPresent, event.cakWithin);
      case OnCak => OnCakDone(event.ok);
      case OnItm => OnItmDone(event.itmExit);
      case _ => CallAtEnd(c, event);
    }

    /** One of the callbacks up to the boot assert. */
    method CallAtStart(c: Continuation, event: ServiceEvent)
      requires Called() && Answers(c, event) && stage == StageOf(c) && Phase(JobOf(c)) <= Phase(BootAssert)
      modifies this`stage, this`progress, this`socketList, this`outstanding, this`serviceLogOpen, this`emitted
      ensures Made(MoveOf(c, event, old(NeedsNow())), |old(emitted)|)
      ensures outstanding != [] ==> outstanding[0] != OnItm
      ensures progress == ProgressAfter(c, event, old(progress)) && !event.ArchiveDone? && !event.StartRun?
    {
      hide CpuDiscovery.Discover, Results.ArchiveOutcome, Says, MoveOf, Made;
      match c
      case OnSignature => OnSignatureVerifyDone(event.ok);
      case OnDiscovery => OnCpuDiscoveryDone(event.paths);
      case OnBootAssert => OnIstBootAssertDone(event.ok);
    }

    /** One of the callbacks after the cleanup. */
    method CallAtEnd(c: Continuation, event: ServiceEvent)
      requires Called() && Answers(c, event) && stage == StageOf(c) && Phase(JobOf(c)) >= Phase(Deassert)
      requires serviceLogOpen ==> JobOf(c) != Archive && JobOf(c) != Reset
      modifies this`stage, this`status, this`outstanding, this`serviceLogOpen, this`archive, this`emitted
      ensures Made(MoveOf(c, event, NeedsNow()), |old(emitted)|) && (outstanding != [] ==> outstanding[0] != OnItm)
      ensures archive == FileAfter(old(archive), event)
    {
      hide CpuDiscovery.Discover, Results.ArchiveOutcome, Says, MoveOf, Made;
      match c
      case OnDeassert(itmExit) => OnDeassertDone(itmExit, event.ok);
      case OnFailArchive => FailArchived(event.listing, event.nodes, event.script);
      case OnArchive(itmExit, okDeassert) =>
        Archived(itmExit, okDeassert, event.listing, event.nodes, event.script);
      case OnReset(itmExit) => OnResetDone(itmExit, event.ok);
    }

    /** The step of a run that `event` makes: it brings the run nearer to its end, or ends it; what was
        finished stays. */
    twostate predicate Advances(event: ServiceEvent)
      reads this
    {
      && |outstanding| <= 1 && Rank(outstanding) < Rank(old(outstanding))
      && runCounter == old(runCounter) && heard == old(heard) + [event]
      && old(run.launches) <= run.launches && Filing(old(records))
      && (|old(outstanding)| == 1 ==> progress == ProgressAfter(old(outstanding[0]), event, old(progress)))
    }

    /** A finished run is added to the records when nothing is outstanding any more. */
    ghost predicate Filing(before: seq<RunRecord>)
      reads this
    {
      if outstanding == [] then
        && records != [] && records == before + [records[|records| - 1]]
        && records[|records| - 1].run == run && records[|records| - 1].status == status
      else records == before
    }

    /** Nothing but perhaps the progress changes. */
    twostate predicate Waits(event: ServiceEvent)
      reads this
    {
      && progress == (if event.ItmProgress? && old(outstanding) == [OnItm] then event.percent else old(progress))
      && outstanding == old(outstanding) && runCounter == old(runCounter)
      && heard == old(heard) && records == old(records) && stage == old(stage) && status == old(status)
    }

    lemma AtMostOne()
      requires RunValid()
      ensures |outstanding| <= 1
    {
      hide AllGood, Waiting, AtRest;
    }

    /** What was said when c was called goes down in the books. */
    ghost method Settle(c: Continuation, event: ServiceEvent, before: nat, earlier: seq<UpdateReference.Mounts>)
      requires Answers(c, event) && InProgressFor(Told(), c, before) && AllGood(records, config)
      requires Made(MoveOf(c, event, NeedsOf(run.basis)), before) && OnMounted(earlier)
      requires archive == FileThen(left, heard + [event])
      modifies this`run, this`records, this`heard
      ensures RunValid() && |outstanding| <= 1 && Rank(outstanding) < Rank([c]) && heard == old(heard) + [event]
      ensures Filing(old(records)) && old(run.launches) <= run.launches
    {
      hide MoveOf, FileThen, AllEvents, AllGood, InProgressFor, NeedsOf, Answers, RunValid;
      if MoveOf(c, event, NeedsOf(run.basis)).next.Some? {
        GoOn(c, event, before, earlier);
      } else {
        File(c, event, before);
      }
    }

    ghost method GoOn(c: Continuation, event: ServiceEvent, before: nat, earlier: seq<UpdateReference.Mounts>)
      requires Answers(c, event) && InProgressFor(Told(), c, before) && AllGood(records, config)
      requires Made(MoveOf(c, event, NeedsOf(run.basis)), before) && MoveOf(c, event, NeedsOf(run.basis)).next.Some?
      requires archive == FileThen(left, heard + [event]) && OnMounted(earlier)
      modifies this`run, this`heard
      ensures RunValid() && |outstanding| == 1 && Rank(outstanding) < Rank([c]) && heard == old(heard) + [event]
      ensures old(run.launches) <= run.launches
    {
      hide MoveOf, FileThen, AllEvents, AllGood, InProgressFor, Noted, Launched, NeedsOf, OnMounted, LatestMounts;
      ghost var next := MoveOf(c, event, NeedsOf(run.basis)).next.value;
      MountsStay(Told(), c, before);
      BooksNext(Told(), c, event, before, next);
      heard := heard + [event];
      NextOnMounted(next, earlier);
      OnlyItm(Noted(run, JobOf(c), event), next, LatestMounts(), vm.mounted);
      run := Launched(Noted(run, JobOf(c), event), JobOf(next), LatestMounts());
    }

    ghost method File(c: Continuation, event: ServiceEvent, before: nat)
      requires Answers(c, event) && InProgressFor(Told(), c, before) && AllGood(records, config)
      requires Made(MoveOf(c, event, NeedsOf(run.basis)), before) && MoveOf(c, event, NeedsOf(run.basis)).next == None
      requires archive == FileThen(left, heard + [event])
      modifies this`run, this`records, this`heard
      ensures RunValid() && outstanding == [] && Filing(old(records)) && heard == old(heard) + [event]
      ensures old(run.launches) <= run.launches
    {
      hide MoveOf, FileThen, AllEvents, AllGood, InProgressFor, Noted, NeedsOf;
      ghost var b := Told();
      StartedBefore(b, c, before);
      ghost var r := RunRecord(Noted(run, JobOf(c), event), status, |emitted| - run.basis.emitted, vm.mountOps);
      BooksEnd(b, c, event, before, r);
      heard := heard + [event];
      records := records + [r];
      run := r.run;
    }

    ghost function Place(): Site
      reads vm
    {
      RunSite(config, initialized, vm.Paths())
    }

    function Seen(): Boundary
      reads this, vm
    {
      Boundary(stage, status, progress, outstanding, vm.updateInProgress, serviceLogOpen, archive)
    }

    ghost function Remembered(): Memory
      reads this, vm, vm.store
    {
      Memory(Seen(), vm.Seen(), heard, records)
    }

    method OnItmProgress(percent: nat)
      requires RunValid() && outstanding == [OnItm]
      modifies this`progress
      ensures RunValid() && progress == percent
    {
      hide AllGood, AllEvents, InProgressFor, FileThen, StageOf;
      progress := percent;
    }

    /** The callback that is waited for is handed back and called. */
    method Invoke(c: Continuation, event: ServiceEvent)
      requires outstanding == [c] && Waiting(c) && Answers(c, event) && archive == FileThen(left, heard)
      modifies this`stage, this`status, this`progress, this`socketList, this`failureInfo, this`outstanding,
        this`serviceLogOpen, this`archive, this`emitted, this`itmMounts
      ensures OnMounted(old(itmMounts))
      ensures InProgressFor(Told(), c, |old(emitted)|) && archive == FileThen(left, heard + [event])
      ensures Made(MoveOf(c, event, NeedsOf(run.basis)), |old(emitted)|)
      ensures progress == ProgressAfter(c, event, old(progress))
    {
      hide InProgressFor, MoveOf, FileThen, Made, NeedsOf, StageOf, Answers, FileAfter, JobOf, Discovers, ProgressAfter;
      FileThenNext(left, heard, event);
      NeedsFit(Told(), c, event, |emitted|, NeedsNow());
      outstanding := [];
      Call(c, event);
    }

    /** The outstanding callback is called. */
    method CallBack(event: ServiceEvent)
      requires RunValid() && |outstanding| == 1 && Answers(outstanding[0], event)
      modifies this
      ensures RunValid() && Advances(event)
    {
      hide AllGood, InProgressFor, MoveOf, FileThen, Made, NeedsOf, Answers, Rank, Filing, Waiting, ProgressAfter;
      var c := outstanding[0];
      assert outstanding == [c];
      Invoke(c, event);
      hide RunValid;
      Settle(c, event, |old(emitted)|, old(itmMounts));
    }

    /** Delivers what ended, if that is what the service waits for. */
    method OnCompletion(event: ServiceEvent)
      requires RunValid()
      modifies this
      ensures RunValid()
      ensures if |old(outstanding)| == 1 && Answers(old(outstanding[0]), event) then Advances(event) else Waits(event)
    {
      hide RunValid, Advances, Answers;
      AtMostOne();
      if outstanding == [] {
        return;
      }
      var c := outstanding[0];
      if Answers(c, event) {
        CallBack(event);
      } else if event.ItmProgress? && c == OnItm {
        OnItmProgress(event.percent);
      }
    }

    // ----- Beside a run -----

    method StartUpdate(fdOk: bool, applyTimeAllowed: bool) returns (error: Option<VectorManager.UpdateError>)
      requires Valid()
      modifies vm
      ensures Valid() && fresh(vm.Repr() - old(vm.Repr()))
      ensures error == if !initialized || stage != Idle || old(vm.updateInProgress) then Some(VectorManager.Unavailable)
                       else if !vm.storageConfigured || !fdOk then Some(VectorManager.InternalFailure)
                       else if !applyTimeAllowed then Some(VectorManager.InvalidArgument)
                       else None
      ensures !initialized || stage != Idle ==> unchanged(vm)
      ensures error == None ==> vm.updateInProgress && !old(vm.updateInProgress) && stage == Idle
      ensures vm.Seen()
           == if !initialized || stage != Idle then old(vm.Seen())
              else UpdateReference.Follow(old(vm.Seen()), UpdateReference.Request(fdOk, applyTimeAllowed), vm.Paths())
    {
      hide AllGood, InProgressFor, AllEvents, FileThen, UpdateReference.Follow;
      if !initialized {
        return Some(VectorManager.Unavailable);
      }
      if stage != Idle {
        return Some(VectorManager.Unavailable);
      }
      error := vm.StartUpdate(fdOk, applyTimeAllowed);
    }

    /** The archive can be fetched only between runs. */
    method GetResultsFd(canOpen: bool, statOk: bool, size: nat) returns (fetch: Fetch)
      requires Valid()
      ensures fetch.Fetched? <==>
        && stage == Idle && config.resultPathSet && archive != Results.NoArchive && canOpen && statOk
        && size <= 50 * 1024 * 1024
      ensures fetch.Fetched? ==> fetch.file == archive
      ensures fetch == FetchBusy <==> stage != Idle
      ensures fetch == FetchNotFound <==>
        stage == Idle && config.resultPathSet && (archive == Results.NoArchive || !canOpen)
      ensures fetch == FetchOf(config, stage == Idle, archive, FetchResults(canOpen, statOk, size))
    {
      if stage != Idle {
        return FetchBusy;
      }
      if !config.resultPathSet {
        return FetchInternalFailure;
      }
      if archive == Results.NoArchive || !canOpen {
        return FetchNotFound;
      }
      if !statOk || size > Results.MAX_RESULT_SIZE {
        return FetchInternalFailure;
      }
      return Fetched(archive);
    }

    lemma FiledAtRest()
      requires Valid()
      ensures stage == Idle <==> outstanding == []
      ensures archive == FileThen(left, heard) && (outstanding == [] ==> heard == AllEvents(records))
    {
      hide AllGood, InProgressFor, AllEvents, FileThen, VectorManager.VectorManager.Valid;
    }

    /** What a run in progress and a service at rest have to show. */
    lemma IdleMeans()
      requires RunValid()
      ensures stage == Idle <==> outstanding == []
      ensures |outstanding| <= 1 && (stage == Idle <==> status != InProgress)
      ensures stage != Idle ==> stage == StageOf(outstanding[0])
      ensures serviceLogOpen ==> outstanding != [] && JobOf(outstanding[0]) != Archive
    {
      hide AllGood, InProgressFor, AllEvents, FileThen;
    }

    lemma SeenIsProper()
      requires Valid()
      ensures Proper(Seen()) && Seen().updating == !vm.Seen().life.Resting?
    {
      LockMeans();
      hide RunValid, StageOf, VectorManager.VectorManager.Valid, VectorManager.VectorManager.Seen;
      IdleMeans();
    }

    lemma LockMeans()
      requires vm.Valid()
      ensures vm.updateInProgress == !vm.Seen().life.Resting?
    {
    }

    /** What the records come to. */
    lemma Recorded()
      requires Valid()
      ensures outstanding != [] ==> Latest(run, JobOf(outstanding[0]))
      ensures AllGood(records, config) && runCounter == |records| + |outstanding| && |outstanding| <= 1
      ensures heard == if outstanding == [] then AllEvents(records) else AllEvents(records) + run.events
    {
      hide AllGood, Traced, Reached, Reported, NoneFailed, ResetKnown, AllEvents, FileThen, StageOf;
      hide VectorManager.VectorManager.Valid;
    }

    /** A callback is called, if it is waited for; the update pipeline does not notice. */
    method OnJobEnd(event: ServiceEvent)
      requires Valid() && !event.StartRun? && !event.StartUpdate? && !event.UpdateStep?
      modifies this
      ensures Valid()
      ensures Happens(old(Place()), old(Remembered()), event, Remembered())
      ensures Answered(old(outstanding), event) ==>
        old(run.launches) <= run.launches && (outstanding == [] ==> records[|records| - 1].run == run)
    {
      hide RunValid, Answers, Rank, Happens, StageOf, ProgressAfter;
      hide VectorManager.VectorManager.Valid, VectorManager.VectorManager.Seen;
      assert this !in vm.Repr();
      IdleMeans();
      OnCompletion(event);
      IdleMeans();
      if Answered(old(outstanding), event) {
        RunSteps(old(Place()), old(Remembered()), event, Remembered());
      } else {
        RunWaits(old(Place()), old(Remembered()), event, Remembered());
      }
    }

    /** A step of an update; none is in progress during a run. */
    method OnUpdateStep(step: UpdateReference.UpdateEvent)
      requires Valid() && OfUpdate(step)
      modifies vm.Repr()
      ensures Valid() && fresh(vm.Repr() - old(vm.Repr()))
      ensures vm.Seen() == UpdateReference.Follow(old(vm.Seen()), step, vm.Paths())
    {
      hide AllGood, InProgressFor, AllEvents, FileThen, UpdateReference.Follow;
      VectorManager.Dispatch(vm, step);
    }
  }

  // ----- All runs -----

  lemma NoAnswer(outstanding: seq<Continuation>, event: ServiceEvent)
    requires event.StartRun? || event.StartUpdate? || event.UpdateStep?
    ensures !Answered(outstanding, event)
  {
  }

  method DeliverStart(service: IstService, params: Params, env: StartEnv)
    requires service.Valid()
    modifies service, service.vm
    ensures service.Valid() && service.vm.Repr() == old(service.vm.Repr())
    ensures Happens(old(service.Place()), old(service.Remembered()), StartRun(params, env), service.Remembered())
  {
    hide Happens, Rejected, UpdateReference.Follow, VectorManager.VectorManager.Seen, IstService.Valid;
    ghost var site, before := service.Place(), service.Remembered();
    service.FiledAtRest();
    var error := service.StartIst(params, env);
    if error == Some(Busy) {
      RunWaits(site, before, StartRun(params, env), service.Remembered());
    } else {
      RunIsTried(site, before, StartRun(params, env), service.Remembered());
    }
  }

  method DeliverUpdate(service: IstService, event: ServiceEvent)
    requires service.Valid() && (event.StartUpdate? || event.UpdateStep?)
    modifies service.vm.Repr()
    ensures service.Valid() && fresh(service.vm.Repr() - old(service.vm.Repr()))
    ensures Happens(old(service.Place()), old(service.Remembered()), event, service.Remembered())
  {
    hide Happens, UpdateReference.Follow, VectorManager.VectorManager.Seen, IstService.Valid, StoreAfter, Answers;
    ghost var site, before := service.Place(), service.Remembered();
    service.FiledAtRest();
    StoreOnUpdate(site, before.b, before.world, event);
    NoAnswer(before.b.outstanding, event);
    if event.StartUpdate? {
      var error := service.StartUpdate(event.fdOk, event.applyTimeAllowed);
    } else if OfUpdate(event.step) {
      service.OnUpdateStep(event.step);
    }
    RunWaits(site, before, event, service.Remembered());
  }

  method Deliver(service: IstService, event: ServiceEvent) returns (fetch: Option<Fetch>)
    requires service.Valid()
    modifies service, service.vm.Repr()
    ensures service.Valid() && fresh(service.vm.Repr() - old(service.vm.Repr()))
    ensures Happens(old(service.Place()), old(service.Remembered()), event, service.Remembered())
    ensures fetch == FetchAt(service.config, old(service.Seen()), event)
  {
    hide Happens, FetchOf, UpdateReference.Follow, VectorManager.VectorManager.Seen, IstService.Valid;
    fetch := None;
    ghost var site, before := service.Place(), service.Remembered();
    service.FiledAtRest();
    match event
    case StartRun(params, env) => DeliverStart(service, params, env);
    case StartUpdate(_, _) => DeliverUpdate(service, event);
    case UpdateStep(_) => DeliverUpdate(service, event);
    case FetchResults(canOpen, statOk, size) =>
      var result := service.GetResultsFd(canOpen, statOk, size);
      fetch := Some(result);
      RunWaits(site, before, event, service.Remembered());
    case _ => service.OnJobEnd(event);
  }

  // ----- What is heard and filed, from outside -----

  /** The events that changed what was outstanding. */
  ghost function Heard(boundaries: seq<Boundary>, events: seq<ServiceEvent>): seq<ServiceEvent>
    requires |boundaries| == |events| + 1
    decreases |events|
  {
    if events == [] then []
    else
      var n := |events|;
      var before := Heard(boundaries[..n], events[..n - 1]);
      if boundaries[n].outstanding == boundaries[n - 1].outstanding then before else before + [events[n - 1]]
  }

  /** The statuses with which the service became idle again. */
  ghost function Endings(boundaries: seq<Boundary>): seq<Status> {
    if |boundaries| <= 1 then []
    else
      var n := |boundaries| - 1;
      var before := Endings(boundaries[..n]);
      if boundaries[n - 1].outstanding != [] && boundaries[n].outstanding == [] then before + [boundaries[n].status]
      else before
  }

  ghost function Statuses(records: seq<RunRecord>): (s: seq<Status>)
    ensures |s| == |records|
  {
    if records == [] then []
    else Statuses(records[..|records| - 1]) + [records[|records| - 1].status]
  }

  /** What becomes of the vector store. */
  ghost function StoreThen(site: Site, w: UpdateReference.World, boundaries: seq<Boundary>, events: seq<ServiceEvent>)
    : UpdateReference.World
    requires |boundaries| == |events| + 1
    decreases |events|
  {
    if events == [] then w
    else
      var n := |events|;
      StoreAfter(site, boundaries[n - 1], StoreThen(site, w, boundaries[..n], events[..n - 1]), events[n - 1])
  }

  /** Each boundary is proper, each event steps from one to the next, and an update is in progress exactly if
      what was done to the vector store says so. */
  ghost predicate Orderly(site: Site, w: UpdateReference.World, boundaries: seq<Boundary>, events: seq<ServiceEvent>)
    requires |boundaries| == |events| + 1
  {
    && (forall i :: 0 <= i < |boundaries| ==> Proper(boundaries[i]))
    && (forall i :: 0 <= i < |events| ==> Stepped(site, boundaries[i], events[i], boundaries[i + 1]))
    && (forall i :: 0 <= i < |boundaries| ==>
          boundaries[i].updating == !StoreThen(site, w, boundaries[..i + 1], events[..i]).life.Resting?)
  }

  /** What the service remembers is what the boundaries show. */
  ghost predicate Shown(site: Site, w: UpdateReference.World, boundaries: seq<Boundary>, events: seq<ServiceEvent>,
                        m: Memory)
    requires |boundaries| == |events| + 1
  {
    && boundaries[|events|] == m.b && m.world == StoreThen(site, w, boundaries, events)
    && m.heard == Heard(boundaries, events) && Statuses(m.records) == Endings(boundaries)
  }

  lemma StillOrderly(site: Site, w: UpdateReference.World, boundaries: seq<Boundary>, events: seq<ServiceEvent>,
                     event: ServiceEvent, b: Boundary)
    requires |boundaries| == |events| + 1 && Orderly(site, w, boundaries, events)
    requires Proper(b) && Stepped(site, boundaries[|events|], event, b)
    requires b.updating == !StoreThen(site, w, boundaries + [b], events + [event]).life.Resting?
    ensures Orderly(site, w, boundaries + [b], events + [event])
  {
    hide Proper, Stepped, StoreThen;
    var all, heard, n := boundaries + [b], events + [event], |events| + 1;
    forall i | 0 <= i < |all|
      ensures all[i].updating == !StoreThen(site, w, all[..i + 1], heard[..i]).life.Resting?
    {
      if i < n {
        assert all[..i + 1] == boundaries[..i + 1] && heard[..i] == events[..i];
      } else {
        assert all[..i + 1] == all && heard[..i] == heard;
      }
    }
  }

  /** The events heard, the endings and the store, one event later. */
  lemma HeardNext(boundaries: seq<Boundary>, events: seq<ServiceEvent>, event: ServiceEvent, b: Boundary)
    requires |boundaries| == |events| + 1
    ensures
      var heard := Heard(boundaries, events);
      Heard(boundaries + [b], events + [event])
        == if b.outstanding == boundaries[|events|].outstanding then heard else heard + [event]
  {
    assert (boundaries + [b])[..|boundaries|] == boundaries && (events + [event])[..|events|] == events;
  }

  lemma EndingsNext(boundaries: seq<Boundary>, b: Boundary)
    requires boundaries != []
    ensures
      var ends := boundaries[|boundaries| - 1].outstanding != [] && b.outstanding == [];
      Endings(boundaries + [b]) == if ends then Endings(boundaries) + [b.status] else Endings(boundaries)
  {
    assert (boundaries + [b])[..|boundaries|] == boundaries;
  }

  lemma StatusesNext(records: seq<RunRecord>, r: RunRecord)
    ensures Statuses(records + [r]) == Statuses(records) + [r.status]
  {
    assert (records + [r])[..|records|] == records;
  }

  lemma StoreThenLast(site: Site, w: UpdateReference.World, boundaries: seq<Boundary>, events: seq<ServiceEvent>,
                      event: ServiceEvent, b: Boundary)
    requires |boundaries| == |events| + 1
    ensures StoreThen(site, w, boundaries + [b], events + [event])
         == StoreAfter(site, boundaries[|events|], StoreThen(site, w, boundaries, events), event)
  {
    hide StoreAfter;
    assert (boundaries + [b])[..|boundaries|] == boundaries && (events + [event])[..|events|] == events;
  }

  lemma StillShown(site: Site, w: UpdateReference.World, boundaries: seq<Boundary>, events: seq<ServiceEvent>,
                   m: Memory, event: ServiceEvent, after: Memory)
    requires |boundaries| == |events| + 1 && Shown(site, w, boundaries, events, m)
    requires Happens(site, m, event, after)
    ensures Shown(site, w, boundaries + [after.b], events + [event], after)
  {
    hide Stepped, StoreAfter, StoreThen, Heard, Endings, Statuses;
    StoreThenLast(site, w, boundaries, events, event, after.b);
    HeardNext(boundaries, events, event, after.b);
    EndingsNext(boundaries, after.b);
    if after.records != m.records {
      StatusesNext(m.records, after.records[|after.records| - 1]);
    }
  }

  lemma NoEvents(site: Site, m: Memory)
    requires Proper(m.b) && m.heard == [] && m.records == [] && m.b.updating == !m.world.life.Resting?
    ensures Orderly(site, m.world, [m.b], []) && Shown(site, m.world, [m.b], [], m)
  {
    hide Proper;
    assert [m.b][..1] == [m.b];
  }

  // ----- What starts, and what reaches the store -----

  /** When there is no run and no update, a request starts a run exactly if nothing stands against it. */
  ghost predicate StartsExactly(site: Site, before: Boundary, event: ServiceEvent, after: Boundary) {
    event.StartRun? && before.outstanding == [] && !before.updating ==>
      (after.outstanding != [] <==>
         && event.params.Params? && (site.initialized ==> event.env.keyPresent)
         && event.env.collateralOk && event.env.storageOk && site.config.assertSet && site.config.deassertSet)
  }

  lemma EachStartsExactly(site: Site, w: UpdateReference.World, boundaries: seq<Boundary>, events: seq<ServiceEvent>)
    requires |boundaries| == |events| + 1 && Orderly(site, w, boundaries, events)
    ensures forall i :: 0 <= i < |events| ==> StartsExactly(site, boundaries[i], events[i], boundaries[i + 1])
  {
    hide Proper, StoreThen, Rejected, Answered, ProgressAfter;
    forall i | 0 <= i < |events|
      ensures StartsExactly(site, boundaries[i], events[i], boundaries[i + 1])
    {
      assert Stepped(site, boundaries[i], events[i], boundaries[i + 1]);
      if events[i].StartRun? {
        NoAnswer(boundaries[i].outstanding, events[i]);
        AcceptedExactly(site.config, site.initialized, events[i].params, events[i].env);
      }
    }
  }

  /** Each step of an update in progress reaches the store, and a request for one does if it is taken. */
  lemma StepsReachStore(site: Site, w: UpdateReference.World, boundaries: seq<Boundary>, events: seq<ServiceEvent>,
                        i: nat)
    requires |boundaries| == |events| + 1 && i < |events|
    ensures
      var before := StoreThen(site, w, boundaries[..i + 1], events[..i]);
      var after := StoreThen(site, w, boundaries[..i + 2], events[..i + 1]);
      && (events[i].UpdateStep? ==>
            var step := events[i].step;
            step.PeekRead? || step.PeekAbort? || step.TransferRead? || step.TransferEnd? || step.TransferTimeout?
            || step.ProgressTick? ==>
              after == UpdateReference.Follow(before, step, site.paths))
      && (events[i].StartUpdate? && site.initialized && boundaries[i].outstanding == [] ==>
            after == UpdateReference.Follow(
                       before, UpdateReference.Request(events[i].fdOk, events[i].applyTimeAllowed), site.paths))
      && (events[i].StartRun? && boundaries[i].outstanding == [] && !boundaries[i].updating ==>
            after == UpdateReference.Follow(
                       before, UpdateReference.EnsureMount(events[i].env.populated, events[i].env.mounts), site.paths))
  {
    hide UpdateReference.Follow, StoreThen;
    StoreThenNext(site, w, boundaries, events, i + 1);
  }

  // ----- The store during a run -----

  /** In a run no event reaches the store while no update is in progress. */
  lemma StoreRests(site: Site, b: Boundary, w: UpdateReference.World, event: ServiceEvent)
    requires b.outstanding != [] && w.life.Resting?
    ensures StoreAfter(site, b, w, event) == w
  {
    hide UpdateReference.HandOver, UpdateReference.MountAll;
  }

  lemma StoreThenNext(site: Site, w: UpdateReference.World, boundaries: seq<Boundary>, events: seq<ServiceEvent>,
                      j: nat)
    requires |boundaries| == |events| + 1 && 0 < j <= |events|
    ensures StoreThen(site, w, boundaries[..j + 1], events[..j])
         == StoreAfter(site, boundaries[j - 1], StoreThen(site, w, boundaries[..j], events[..j - 1]), events[j - 1])
  {
    hide StoreAfter;
    assert boundaries[..j + 1][..j] == boundaries[..j] && events[..j][..j - 1] == events[..j - 1];
  }

  lemma RestingInRun(site: Site, w: UpdateReference.World, boundaries: seq<Boundary>, events: seq<ServiceEvent>,
                     k: nat)
    requires |boundaries| == |events| + 1 && k <= |events| && Orderly(site, w, boundaries, events)
    requires boundaries[k].outstanding != []
    ensures StoreThen(site, w, boundaries[..k + 1], events[..k]).life.Resting?
  {
    hide StoreThen, Stepped;
    assert Proper(boundaries[k]);
  }

  /** From the acceptance of a run to its end the image, what is mounted and the updates stay as they are,
      whatever happens. */
  lemma {:induction false} StoreRestsInRun(site: Site, w: UpdateReference.World, boundaries: seq<Boundary>,
                                           events: seq<ServiceEvent>, i: nat, j: nat)
    requires |boundaries| == |events| + 1 && i <= j <= |events| && Orderly(site, w, boundaries, events)
    requires forall k :: i <= k <= j ==> boundaries[k].outstanding != []
    ensures StoreThen(site, w, boundaries[..j + 1], events[..j]) == StoreThen(site, w, boundaries[..i + 1], events[..i])
    decreases j
  {
    hide Orderly, StoreThen, StoreAfter;
    if i < j {
      StoreRestsInRun(site, w, boundaries, events, i, j - 1);
      StoreThenNext(site, w, boundaries, events, j);
      RestingInRun(site, w, boundaries, events, j - 1);
      var before := StoreThen(site, w, boundaries[..j], events[..j - 1]);
      StoreRests(site, boundaries[j - 1], before, events[j - 1]);
    }
  }

  // ----- What is fetched -----

  /** The archive at each boundary is what the events heard so far left on file, whatever was there first;
      and between runs those are the events of the runs that have ended. */
  ghost predicate Archives(boundaries: seq<Boundary>, events: seq<ServiceEvent>, records: seq<RunRecord>,
                           left: Results.ArchiveFile)
    requires |boundaries| == |events| + 1
  {
    forall i :: 0 <= i < |boundaries| ==> ArchiveAt(boundaries[..i + 1], events[..i], records, left)
  }

  /** This for the last of the boundaries. */
  ghost predicate ArchiveAt(boundaries: seq<Boundary>, events: seq<ServiceEvent>, records: seq<RunRecord>,
                            left: Results.ArchiveFile)
    requires |boundaries| == |events| + 1
  {
    && boundaries[|events|].archive == FileThen(left, Heard(boundaries, events))
    && |Endings(boundaries)| <= |records|
    && (boundaries[|events|].outstanding == [] ==>
          Heard(boundaries, events) == AllEvents(records[..|Endings(boundaries)|]))
  }

  lemma StillArchives(boundaries: seq<Boundary>, events: seq<ServiceEvent>, records: seq<RunRecord>,
                      left: Results.ArchiveFile, event: ServiceEvent, b: Boundary, after: seq<RunRecord>)
    requires |boundaries| == |events| + 1 && Archives(boundaries, events, records, left) && records <= after
    requires Statuses(after) == Endings(boundaries + [b])
    requires b.archive == FileThen(left, Heard(boundaries + [b], events + [event]))
    requires b.outstanding == [] ==> Heard(boundaries + [b], events + [event]) == AllEvents(after)
    ensures Archives(boundaries + [b], events + [event], after, left)
  {
    hide Endings, Heard, FileThen, AllEvents, Statuses;
    var all, heard, n := boundaries + [b], events + [event], |events| + 1;
    forall i | 0 <= i < |all|
      ensures ArchiveAt(all[..i + 1], heard[..i], after, left)
    {
      if i < n {
        assert all[..i + 1] == boundaries[..i + 1] && heard[..i] == events[..i];
        assert ArchiveAt(boundaries[..i + 1], events[..i], records, left);
        assert after[..|Endings(all[..i + 1])|] == records[..|Endings(all[..i + 1])|];
      } else {
        assert all[..i + 1] == all && heard[..i] == heard;
        assert |Statuses(after)| == |after| && after[..|after|] == after;
      }
    }
  }

  lemma FirstArchive(b: Boundary, left: Results.ArchiveFile)
    requires b.archive == left
    ensures Archives([b], [], [], left)
  {
    assert [b][..1] == [b];
  }

  /** Between runs the archive is that of the latest run that has ended; and if the results directory lost its
      archive for that run, or its session opened one, the earlier runs do not matter. */
  lemma LatestRunOnFile(boundaries: seq<Boundary>, events: seq<ServiceEvent>, records: seq<RunRecord>,
                        left: Results.ArchiveFile, config: Config, i: nat)
    requires |boundaries| == |events| + 1 && Archives(boundaries, events, records, left) && AllGood(records, config)
    requires i <= |events| && boundaries[i].outstanding == [] && Endings(boundaries[..i + 1]) != []
    ensures 0 < |Endings(boundaries[..i + 1])| <= |records|
    ensures
      var r := records[|Endings(boundaries[..i + 1])| - 1];
      var earlier := FileThen(left, AllEvents(records[..|Endings(boundaries[..i + 1])| - 1]));
      && boundaries[i].archive == FileThen(earlier, r.run.events)
      && (Renews(r.run.events) ==> boundaries[i].archive == FileThen(Results.NoArchive, r.run.events))
  {
    hide Good, FileThen, AllEvents, Endings, Heard, Renews;
    assert ArchiveAt(boundaries[..i + 1], events[..i], records, left);
    var n := |Endings(boundaries[..i + 1])|;
    var r := records[n - 1];
    assert records[..n] == records[..n - 1] + [r];
    AllEventsNext(records[..n - 1], r);
    FileThenMore(left, AllEvents(records[..n - 1]), r.run.events);
    if Renews(r.run.events) {
      RenewalDecides(r, FileThen(left, AllEvents(records[..n - 1])), Results.NoArchive);
    }
  }

  lemma RecordsGrow(site: Site, m: Memory, event: ServiceEvent, after: Memory)
    requires Happens(site, m, event, after)
    ensures m.records <= after.records
  {
    hide Stepped;
  }

  // ----- The theorem -----

  /** One event, and what is seen after it. */
  method Advance(service: IstService, ghost w: UpdateReference.World, ghost events: seq<ServiceEvent>,
                 event: ServiceEvent, boundaries: seq<Boundary>)
    returns (after: seq<Boundary>, fetch: Option<Fetch>)
    requires service.Valid() && |boundaries| == |events| + 1
    requires Orderly(service.Place(), w, boundaries, events)
    requires Shown(service.Place(), w, boundaries, events, service.Remembered())
    requires Archives(boundaries, events, service.records, service.left)
    modifies service, service.vm.Repr()
    ensures service.Valid() && fresh(service.vm.Repr() - old(service.vm.Repr()))
    ensures |after| == |boundaries| + 1 && after[..|boundaries|] == boundaries
    ensures Orderly(service.Place(), w, after, events + [event])
    ensures Shown(service.Place(), w, after, events + [event], service.Remembered())
    ensures Archives(after, events + [event], service.records, service.left)
    ensures fetch == FetchAt(service.config, boundaries[|events|], event)
  {
    hide Proper, Stepped, Orderly, Happens, FileThen, Archives, AllEvents, Heard, Endings, Statuses, StoreThen;
    hide FetchAt, IstService.Valid, VectorManager.VectorManager.Seen;
    ghost var site, before := service.Place(), service.Remembered();
    fetch := Deliver(service, event);
    service.SeenIsProper();
    service.FiledAtRest();
    after := boundaries + [service.Seen()];
    StillShown(site, w, boundaries, events, before, event, service.Remembered());
    HappensSteps(site, before, event, service.Remembered());
    StillOrderly(site, w, boundaries, events, event, service.Seen());
    RecordsGrow(site, before, event, service.Remembered());
    StillArchives(boundaries, events, before.records, service.left, event, service.Seen(), service.records);
  }

  lemma HappensSteps(site: Site, m: Memory, event: ServiceEvent, after: Memory)
    requires Happens(site, m, event, after)
    ensures Stepped(site, m.b, event, after.b)
  {
    hide Stepped;
  }

  /** The service at its start. */
  method Boot(config: Config, initialized: bool, image: Option<seq<byte>>, storage: bool, mount: bool,
              left: Results.ArchiveFile)
    returns (service: IstService)
    ensures service.Valid() && fresh(service) && fresh(service.vm.Repr())
    ensures service.config == config && service.left == left && service.records == []
    ensures service.Place() == RunSite(config, initialized, UpdateReference.Setup(storage, mount))
    ensures Orderly(service.Place(), AtFirst(image), [service.Seen()], [])
    ensures Shown(service.Place(), AtFirst(image), [service.Seen()], [], service.Remembered())
    ensures Archives([service.Seen()], [], [], left)
  {
    hide Proper, Orderly, Shown, Archives, IstService.RunValid;
    var store := new UpdateSessions.ImageStore(image);
    var vm := new VectorManager.VectorManager(store, storage, mount);
    service := new IstService(config, vm, initialized, left);
    service.SeenIsProper();
    NoEvents(service.Place(), service.Remembered());
    FirstArchive(service.Seen(), left);
  }

  /** Over every series of events, whatever the children, the host and the file system do: the service is
      proper between events, and each event does what it should; an event that calls the outstanding callback
      brings the run strictly nearer to its end. The finished runs are good; they are made of exactly the
      events that started a run or called its callback, in that order, and ended with the status shown. What
      is fetched is what the events of the runs so far left on file. */
  method RunService(events: seq<ServiceEvent>, config: Config, initialized: bool, image: Option<seq<byte>>,
                    storage: bool, mount: bool, left: Results.ArchiveFile)
    returns (boundaries: seq<Boundary>, fetches: seq<Option<Fetch>>, accepted: nat,
             ghost records: seq<RunRecord>, ghost current: seq<ServiceEvent>)
    ensures |boundaries| == |events| + 1 && |fetches| == |events|
    ensures
      Orderly(RunSite(config, initialized, UpdateReference.Setup(storage, mount)), AtFirst(image), boundaries, events)
    ensures AllGood(records, config) && Statuses(records) == Endings(boundaries)
    ensures AllEvents(records) + current == Heard(boundaries, events)
    ensures boundaries[|events|].outstanding == [] ==> current == []
    ensures accepted == |records| + |boundaries[|events|].outstanding|
    ensures forall i :: 0 <= i < |events| ==> fetches[i] == FetchAt(config, boundaries[i], events[i])
    ensures Archives(boundaries, events, records, left)
    ensures
      var site := RunSite(config, initialized, UpdateReference.Setup(storage, mount));
      forall i :: 0 <= i < |events| ==> StartsExactly(site, boundaries[i], events[i], boundaries[i + 1])
  {
    hide Proper, Stepped, Orderly, Shown, Happens, AllGood, Archives, FetchAt, StartsExactly;
    hide Heard, Endings, Statuses, AllEvents, StoreThen, IstService.Valid, VectorManager.VectorManager.Seen;
    var service := Boot(config, initialized, image, storage, mount, left);
    boundaries, fetches := [service.Seen()], [];
    assert events[..0] == [];
    for k := 0 to |events|
      invariant service.Valid() && fresh(service) && fresh(service.vm.Repr())
      invariant service.config == config && service.left == left
      invariant service.Place() == RunSite(config, initialized, UpdateReference.Setup(storage, mount))
      invariant |boundaries| == k + 1 && |fetches| == k
      invariant Orderly(service.Place(), AtFirst(image), boundaries, events[..k])
      invariant Shown(service.Place(), AtFirst(image), boundaries, events[..k], service.Remembered())
      invariant Archives(boundaries, events[..k], service.records, left)
      invariant forall i :: 0 <= i < k ==> fetches[i] == FetchAt(config, boundaries[i], events[i])
    {
      assert events[..k + 1] == events[..k] + [events[k]];
      var fetch;
      ghost var earlier := boundaries;
      boundaries, fetch := Advance(service, AtFirst(image), events[..k], events[k], boundaries);
      assert forall i :: 0 <= i <= k ==> boundaries[i] == earlier[i];
      fetches := fetches + [fetch];
    }
    assert events[..|events|] == events;
    service.Recorded();
    EachStartsExactly(service.Place(), AtFirst(image), boundaries, events);
    ShownMeans(service.Place(), AtFirst(image), boundaries, events, service.Remembered());
    accepted, records := service.runCounter, service.records;
    current := if service.outstanding == [] then [] else service.run.events;
  }

  ghost function AtFirst(image: Option<seq<byte>>): UpdateReference.World {
    UpdateReference.World(UpdateReference.Resting, image, UpdateReference.NOTHING, [])
  }

  /** What the boundaries show, spelled out. */
  lemma ShownMeans(site: Site, w: UpdateReference.World, boundaries: seq<Boundary>, events: seq<ServiceEvent>,
                   m: Memory)
    requires |boundaries| == |events| + 1 && Shown(site, w, boundaries, events, m)
    ensures boundaries[|events|] == m.b
    ensures m.heard == Heard(boundaries, events) && Statuses(m.records) == Endings(boundaries)
  {
  }

  // ----- Every run ends -----

  /** How many of the events from i on and before j call the outstanding callback. */
  ghost function AnswersBetween(boundaries: seq<Boundary>, events: seq<ServiceEvent>, i: nat, j: nat): nat
    requires |boundaries| == |events| + 1 && i <= j <= |events|
    decreases j
  {
    if i == j then 0
    else
      var before := AnswersBetween(boundaries, events, i, j - 1);
      if Answered(boundaries[j - 1].outstanding, events[j - 1]) then before + 1 else before
  }

  lemma {:induction false} EachAnswerLowers(site: Site, w: UpdateReference.World, boundaries: seq<Boundary>,
                                            events: seq<ServiceEvent>, i: nat, j: nat)
    requires |boundaries| == |events| + 1 && i <= j <= |events| && Orderly(site, w, boundaries, events)
    requires forall k :: i <= k <= j ==> boundaries[k].outstanding != []
    ensures 1 <= Rank(boundaries[j].outstanding)
    ensures
      Rank(boundaries[j].outstanding) + AnswersBetween(boundaries, events, i, j) <= Rank(boundaries[i].outstanding)
    decreases j
  {
    hide Proper, Answered, StoreThen, Rejected, ProgressAfter;
    if i < j {
      EachAnswerLowers(site, w, boundaries, events, i, j - 1);
      assert Stepped(site, boundaries[j - 1], events[j - 1], boundaries[j - 1 + 1]);
    }
  }

  /** A run does not outlast as many callbacks as it may have left, which are nine at the most. */
  lemma RunEnds(site: Site, w: UpdateReference.World, boundaries: seq<Boundary>, events: seq<ServiceEvent>,
                i: nat, j: nat)
    requires |boundaries| == |events| + 1 && i <= j <= |events| && Orderly(site, w, boundaries, events)
    requires AnswersBetween(boundaries, events, i, j) >= Rank(boundaries[i].outstanding)
    ensures exists k :: i <= k <= j && boundaries[k].outstanding == []
    ensures Rank(boundaries[i].outstanding) <= 9
  {
    if forall k :: i <= k <= j ==> boundaries[k].outstanding != [] {
      EachAnswerLowers(site, w, boundaries, events, i, j);
      assert false;
    }
  }
}

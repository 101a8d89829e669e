/** The vector store: the life of an update from acceptance to its last publication, and the
    mounting of the image. What the system calls answer is a parameter. */
module VectorManager {
  import opened Wrappers
  import opened MachineWord
  import opened Crc32
  import opened PldmHeader
  import opened UpdateSessions
  import opened UpdateReference

  datatype Activation = Activating | Active | Failed

  datatype Publication =
    | PublishActivation(state: Activation)
    | PublishVersion
    | CreateProgress
    | PublishProgress(percent: nat)
    | RemoveProgress

  /** Answers for the calls made while handling an event that makes none. */
  const NO_CALLS := Env(NotMounted, NotMounted, true, true, CLEAN, VectorsFail, false)

  datatype UpdateError = Unavailable | InternalFailure | InvalidArgument

  // ----- What one update publishes -----

  /** A finished update: what became of it and all it published. */
  datatype UpdateRecord = UpdateRecord(fate: Fate, published: seq<Publication>)

  function Progress(reports: seq<nat>): (s: seq<Publication>)
    ensures |s| == |reports| && forall i :: 0 <= i < |s| ==> s[i] == PublishProgress(reports[i])
  {
    seq(|reports|, i requires 0 <= i < |reports| => PublishProgress(reports[i]))
  }

  const OPENING: seq<Publication> := [PublishActivation(Activating), CreateProgress, PublishProgress(0)]
  const COMMITTED: seq<Publication> := [PublishProgress(100), RemoveProgress]
  const FAILURE: seq<Publication> := [PublishActivation(Failed), RemoveProgress]
  const SUCCESS: seq<Publication> := [PublishActivation(Active), RemoveProgress]

  /** What a transfer has published so far. */
  function Announced(reports: seq<nat>): seq<Publication> {
    OPENING + Progress(reports)
  }

  lemma AnnouncedNext(reports: seq<nat>, percent: nat)
    ensures Announced([]) == [PublishActivation(Activating)] + [CreateProgress] + [PublishProgress(0)]
    ensures Announced(reports + [percent]) == Announced(reports) + [PublishProgress(percent)]
  {
    assert Progress(reports + [percent]) == Progress(reports) + [PublishProgress(percent)];
    assert Progress([]) == [];
  }

  ghost predicate Published(r: UpdateRecord) {
    var announced := Announced(r.fate.ticks.reports);
    match r.fate.ending
    case Rejected => r.published == FAILURE
    case TransferFailed => r.published == announced + FAILURE
    case MountFailed => r.published == announced + COMMITTED + FAILURE
    case Mounted =>
      || r.published == announced + COMMITTED + SUCCESS
      || r.published == announced + COMMITTED + [PublishVersion] + SUCCESS
  }

  /** An update that was fair, and published what fits how it went. */
  ghost predicate Good(r: UpdateRecord) {
    Published(r) && Fair(r.fate)
  }

  /** The finished updates published what fits how they went. */
  ghost predicate AllPublished(fates: seq<Fate>, records: seq<UpdateRecord>) {
    && |records| == |fates|
    && forall i :: 0 <= i < |records| ==> Published(records[i]) && records[i].fate == fates[i]
  }

  /** A transfer session has seen the payload of all that was received. */
  ghost predicate PayloadSeen(all: seq<byte>, payload: seq<byte>, crc: bv32, total: nat) {
    && VerdictOn(all).Accept? && crc == VerdictOn(all).comp.payloadCrc && payload == PayloadOf(all)
    && total == TotalOf(all)
  }

  class VectorManager {
    const store: ImageStore
    const storageConfigured: bool
    const mountConfigured: bool
    var updateInProgress: bool
    var peek: PeekSession?
    var transfer: TransferSession?
    var mounted: Mounts
    var mountOps: nat                       // how often a mount or an unmount was attempted
    var published: seq<Publication>         // since the last update was accepted
    ghost var before: Option<seq<byte>>     // the image when the last update was accepted
    ghost var received: seq<byte>           // what the update in progress received
    ghost var ticks: Ticks                  // and what its ticks reported
    ghost var fates: seq<Fate>              // what became of the finished updates
    ghost var records: seq<UpdateRecord>    // the finished updates

    ghost function Repr(): set<object>
      reads this
    {
      {this, store} + (if peek == null then {} else {peek})
      + (if transfer == null then {} else {transfer, transfer.store})
    }

    ghost function Paths(): Setup {
      Setup(storageConfigured, mountConfigured)
    }

    /** What the sessions and the mounts come to. */
    ghost function Seen(): World
      reads this, store
    {
      World(if peek != null then Peeking(before, received)
            else if transfer != null then Transferring(before, received, ticks)
            else Resting,
            store.image, mounted, fates)
    }

    ghost predicate Valid()
      reads this, Repr()
    {
      && updateInProgress == (peek != null || transfer != null)
      && (peek == null || transfer == null)
      && (peek != null ==> peek.Valid() && !peek.finished && peek.prefix == received && Untouched())
      && (transfer != null ==> transfer.Valid() && !transfer.finished && Streaming(transfer, received))
      && Settled()
    }

    /** The finished updates published what fits; a mount needs a mount point. */
    ghost predicate Settled()
      reads this
    {
      (!mountConfigured ==> mounted == NOTHING) && AllPublished(fates, records)
    }

    ghost predicate Untouched()
      reads this, store
    {
      published == [] && store.image == before
    }

    ghost predicate Streaming(t: TransferSession, all: seq<byte>)
      reads this, t
    {
      && t.store == store && published == Announced(t.reports) && ticks == Ticks(t.reportedBytes, t.reports)
      && PayloadSeen(all, t.payload, t.expectedCrc, t.payloadTotal)
    }

    constructor (store: ImageStore, storageConfigured: bool, mountConfigured: bool)
      ensures Valid() && !updateInProgress && fresh(Repr() - {store})
      ensures this.store == store && Paths() == Setup(storageConfigured, mountConfigured)
      ensures Seen() == World(Resting, store.image, NOTHING, [])
    {
      this.store, this.storageConfigured, this.mountConfigured := store, storageConfigured, mountConfigured;
      updateInProgress, peek, transfer := false, null, null;
      mounted, mountOps, published := NOTHING, 0, [];
      before, received, ticks, fates, records := None, [], NO_TICKS, [], [];
    }

    lemma AllSettled()
      requires Valid()
      ensures AllPublished(fates, records)
    {
      hide TransferSession.Valid, PeekSession.Valid, Published;
    }

    // ----- Mounting -----

    method TeardownMounts(env: Env) returns (ok: bool)
      modifies this`mounted, this`mountOps
      ensures mountOps == if mountConfigured then old(mountOps) + 2 else old(mountOps)
      ensures (ok, mounted) == Teardown(Paths(), old(mounted), env)
    {
      if !mountConfigured {
        return true;
      }
      ok := true;
      mountOps := mountOps + 1;
      if !Stays(env.golden) {
        mounted := mounted.(golden := false);
      } else if env.golden != NotPermitted {
        ok := false;
      }
      mountOps := mountOps + 1;
      if !Stays(env.vectors) {
        mounted := mounted.(vectors := None);
      } else if env.vectors != NotPermitted {
        ok := false;
      }
    }

    method MountImages(env: Env) returns (ok: bool)
      modifies this`mounted, this`mountOps
      ensures storageConfigured && mountConfigured <==> mountOps > old(mountOps)
      ensures old(mountOps) <= mountOps && (ok ==> mountOps == old(mountOps) + 4)
      ensures (ok, mounted) == MountAll(Paths(), store.image, old(mounted), env)
    {
      if !storageConfigured || !mountConfigured {
        return false;
      }
      var down := TeardownMounts(env);
      if !down || store.image == None {
        return false;
      }
      var before := mounted;
      mountOps := mountOps + 1;
      if env.mount == VectorsFail {
        return false;
      }
      mounted := Mounts(store.image, false);
      mountOps := mountOps + 1;
      if env.mount.GoldenFails? {
        if env.mount.undone {
          mounted := before;
        }
        return false;
      }
      mounted := mounted.(golden := true);
      return true;
    }

    /** Before a run: mounts unless the golden results are there already. */
    method EnsureMounted(populated: bool, env: Env)
      requires Valid() && !updateInProgress
      modifies this`mounted, this`mountOps, this`published
      ensures Valid() && Seen() == Follow(old(Seen()), EnsureMount(populated, env), Paths())
      ensures !mountConfigured || populated ==> mountOps == old(mountOps) && published == old(published)
      ensures mountConfigured && !populated ==>
        var worked := MountAll(Paths(), store.image, old(mounted), env).0;
        published == old(published) + if worked && env.hasVersion then [PublishVersion] else []
    {
      if !mountConfigured || populated {
        return;
      }
      var ok := MountImages(env);
      if ok && env.hasVersion {
        published := published + [PublishVersion];
      }
    }

    method MountVectorsOnStartup(env: Env)
      requires Valid() && !updateInProgress
      modifies this`mounted, this`mountOps, this`published
      ensures Valid() && Seen() == Follow(old(Seen()), Startup(env), Paths())
      ensures
        var worked := MountAll(Paths(), store.image, old(mounted), env).0;
        published == old(published) + (if mountConfigured && env.hasVersion then [PublishVersion] else [])
                                    + [PublishActivation(if worked then Active else Failed)]
    {
      var ok := MountImages(env);
      if mountConfigured && env.hasVersion {
        published := published + [PublishVersion];
      }
      published := published + [PublishActivation(if ok then Active else Failed)];
    }

    // ----- The life of an update -----

    /** What the reference says of the events of a transfer, and of a peek. */
    lemma DuringTransfer(w: World, chunk: seq<byte>, env: Env)
      requires w.life.Transferring?
      ensures
        var received := w.life.received + chunk;
        Follow(w, TransferRead(chunk, env), Paths())
          == if env.writeOk then
               World(Transferring(w.life.before, received, w.life.ticks), Some(PayloadOf(received)), w.mounted, w.fates)
             else End(w, Fate(received, w.life.before, w.life.ticks, CallFailed, env.close, TransferFailed,
                              Discarded(PayloadOf(received), env.close), w.mounted))
      ensures Follow(w, TransferTimeout(env), Paths())
        == End(w, Fate(w.life.received, w.life.before, w.life.ticks, TimedOut, env.close, TransferFailed,
                       Discarded(PayloadOf(w.life.received), env.close), w.mounted))
    {
      hide PayloadOf;
    }

    lemma DuringPeek(w: World, chunk: seq<byte>, env: Env)
      requires w.life.Peeking?
      ensures
        var received := w.life.received + chunk;
        Follow(w, PeekRead(chunk, env), Paths())
          == match VerdictOn(received)
             case NeedMore => World(Peeking(w.life.before, received), w.image, w.mounted, w.fates)
             case Reject =>
               End(w, Fate(received, w.life.before, NO_TICKS, StreamEnded, CLEAN, Rejected, w.image, w.mounted))
             case Accept(_) => HandOver(w, w.life.before, received, env, Paths())
    {
      hide VerdictOn, HandOver;
    }

    /** How far the stream has come does not matter when an update is handed over or ends. */
    lemma OnlyTheStore(w: World, v: World, all: seq<byte>, env: Env)
      requires v == w.(life := v.life) && !w.life.Resting?
      ensures HandOver(w, w.life.before, all, env, Paths()) == HandOver(v, w.life.before, all, env, Paths())
    {
      hide PayloadOf;
    }

    lemma OnlyTheFates(w: World, v: World)
      requires v.fates == w.fates
      ensures forall fate :: End(w, fate) == End(v, fate)
    {
    }

    lemma OnlyAtRest(w: World, populated: bool, env: Env)
      ensures !w.life.Resting? ==>
        w == Follow(w, Startup(env), Paths()) == Follow(w, EnsureMount(populated, env), Paths())
    {
    }

    lemma DuringTick(w: World)
      ensures Follow(w, ProgressTick, Paths())
        == if w.life.Transferring? then
             w.(life := Transferring(w.life.before, w.life.received, Tick(w.life.received, w.life.ticks)))
           else w
    {
      hide Tick;
    }

    lemma NotItsTurn(w: World, chunk: seq<byte>, env: Env)
      ensures !w.life.Transferring? ==>
        w == Follow(w, TransferRead(chunk, env), Paths()) == Follow(w, TransferEnd(env), Paths())
          == Follow(w, TransferTimeout(env), Paths())
      ensures !w.life.Peeking? ==> w == Follow(w, PeekRead(chunk, env), Paths()) == Follow(w, PeekAbort, Paths())
    {
      hide PayloadOf, VerdictOn;
    }

    method StartUpdate(fdOk: bool, applyTimeAllowed: bool) returns (error: Option<UpdateError>)
      requires Valid()
      modifies this
      ensures Valid() && fresh(Repr() - old(Repr()))
      ensures mounted == old(mounted) && mountOps == old(mountOps)
      ensures error == if old(updateInProgress) then Some(Unavailable)
                       else if !storageConfigured || !fdOk then Some(InternalFailure)
                       else if !applyTimeAllowed then Some(InvalidArgument)
                       else None
      ensures error == None ==> updateInProgress
      ensures error != None ==> peek == old(peek) && transfer == old(transfer)
      ensures Seen() == Follow(old(Seen()), Request(fdOk, applyTimeAllowed), Paths())
    {
      hide VerdictOn;
      if updateInProgress {
        return Some(Unavailable);
      }
      if !storageConfigured || !fdOk {
        return Some(InternalFailure);
      }
      if !applyTimeAllowed {
        return Some(InvalidArgument);
      }
      updateInProgress := true;
      published := [];
      before, received, ticks := store.image, [], NO_TICKS;
      peek := new PeekSession();
      return None;
    }

    method OnPeekRead(chunk: seq<byte>, env: Env)
      requires Valid()
      modifies Repr()
      ensures Valid() && fresh(Repr() - old(Repr()))
      ensures Seen() == Follow(old(Seen()), PeekRead(chunk, env), Paths())
      ensures old(peek) == null ==> unchanged(this)
    {
      hide VerdictOn, HandOver, Follow, AllPublished, PeekSession.Valid, End;
      NotItsTurn(Seen(), chunk, env);
      if peek == null {
        return;
      }
      DuringPeek(Seen(), chunk, env);
      var done := peek.OnRead(chunk);
      received := received + chunk;
      if done.Some? {
        OnlyTheStore(old(Seen()), Seen(), received, env);
        OnlyTheFates(old(Seen()), Seen());
        OnHeaderPeekComplete(done.value, env);
      }
    }

    /** End of stream, a read error or the deadline before the header could be judged. */
    method OnPeekAbort()
      requires Valid()
      modifies Repr()
      ensures Valid() && fresh(Repr() - old(Repr()))
      ensures Seen() == Follow(old(Seen()), PeekAbort, Paths())
      ensures old(peek) == null ==> unchanged(this)
    {
      if peek == null {
        return;
      }
      hide VerdictOn;
      var done := peek.OnAbort();
      OnHeaderPeekComplete(done.value, NO_CALLS);
    }

    method OnTransferRead(chunk: seq<byte>, env: Env)
      requires Valid()
      modifies Repr()
      ensures Valid() && fresh(Repr() - old(Repr()))
      ensures Seen() == Follow(old(Seen()), TransferRead(chunk, env), Paths())
      ensures old(transfer) == null ==> unchanged(this)
    {
      hide VerdictOn, PayloadOf, AllPublished, TransferSession.Valid, Follow, Announced, Discarded, End, Promised;
      hide Checksum, MountAll;
      NotItsTurn(Seen(), chunk, env);
      if transfer == null {
        return;
      }
      DuringTransfer(Seen(), chunk, env);
      MoreReceived(received, chunk);
      received := received + chunk;
      var done := transfer.OnRead(chunk, env.writeOk, env.close);
      if done.Some? {
        OnlyTheFates(old(Seen()), Seen());
        OnTransferComplete(done.value, env, CallFailed);
      }
    }

    method OnTransferEnd(env: Env)
      requires Valid()
      modifies Repr()
      ensures Valid() && fresh(Repr() - old(Repr()))
      ensures Seen() == Follow(old(Seen()), TransferEnd(env), Paths())
      ensures old(transfer) == null ==> unchanged(this)
    {
      hide VerdictOn, PayloadOf, Checksum, AllPublished, TransferSession.Valid, Announced, Discarded;
      NotItsTurn(Seen(), [], env);
      if transfer == null {
        return;
      }
      var done := transfer.OnEnd(env.close);
      OnTransferComplete(done.value, env, StreamEnded);
    }

    method OnTransferTimeout(env: Env)
      requires Valid()
      modifies Repr()
      ensures Valid() && fresh(Repr() - old(Repr()))
      ensures Seen() == Follow(old(Seen()), TransferTimeout(env), Paths())
      ensures old(transfer) == null ==> unchanged(this)
    {
      hide VerdictOn, PayloadOf, Checksum, AllPublished, TransferSession.Valid, Follow, Announced, Discarded, End;
      hide Promised, MountAll;
      NotItsTurn(Seen(), [], env);
      if transfer == null {
        return;
      }
      DuringTransfer(Seen(), [], env);
      var done := transfer.OnTimeout(env.close);
      OnlyTheFates(old(Seen()), Seen());
      OnTransferComplete(done.value, env, TimedOut);
    }

    /** Publishes the report of the session, if it makes one; the transfer goes on. */
    method OnProgressTick() returns (report: Option<nat>)
      requires Valid()
      modifies Repr()
      ensures Valid() && Repr() == old(Repr())
      ensures Seen() == Follow(old(Seen()), ProgressTick, Paths())
      ensures published == if report.Some? then old(published) + [PublishProgress(report.value)] else old(published)
      ensures ticks.reports == if report.Some? then old(ticks.reports) + [report.value] else old(ticks.reports)
      ensures old(transfer) == null ==> unchanged(this)
    {
      hide TransferSession.Valid, PeekSession.Valid, AllPublished, Announced, Follow, Tick, PayloadSeen;
      DuringTick(Seen());
      if transfer == null {
        return None;
      }
      report := ReportTick();
    }

    method ReportTick() returns (report: Option<nat>)
      requires transfer != null && transfer.Valid() && !transfer.finished && Streaming(transfer, received)
      modifies this`ticks, this`published, transfer
      ensures transfer.Valid() && !transfer.finished && Streaming(transfer, received)
      ensures ticks == Tick(received, old(ticks))
      ensures ticks.reports == if report.Some? then old(ticks.reports) + [report.value] else old(ticks.reports)
      ensures published == if report.Some? then old(published) + [PublishProgress(report.value)] else old(published)
    {
      CountsFit();
      hide VerdictOn, PayloadOf, TotalOf, TransferSession.Valid, Announced, NextReport, Tick;
      report := transfer.OnProgressTick();
      TickMeans(received, ticks, report);
      ticks := Tick(received, ticks);
      if report.Some? {
        PublishReport(report.value, old(transfer.reports));
      }
    }

    lemma TickMeans(all: seq<byte>, t: Ticks, report: Option<nat>)
      requires report == NextReport(|PayloadOf(all)|, TotalOf(all), t.counted, LastReport(t.reports))
      ensures Tick(all, t)
        == Ticks(|PayloadOf(all)|, if report.Some? then t.reports + [report.value] else t.reports)
    {
      hide PayloadOf, TotalOf, NextReport;
    }

    /** What the session counts is what the reference does. */
    lemma CountsFit()
      requires transfer != null && transfer.Valid() && Streaming(transfer, received)
      ensures transfer.payloadBytes == |PayloadOf(received)| && transfer.payloadTotal == TotalOf(received)
      ensures ticks.counted == transfer.reportedBytes && ticks.reports == transfer.reports
      ensures LastReport(ticks.reports) == transfer.lastProgress
    {
      hide VerdictOn, PayloadOf, TotalOf, Update, Share;
    }

    method PublishReport(percent: nat, ghost earlier: seq<nat>)
      requires published == Announced(earlier)
      modifies this`published
      ensures published == Announced(earlier + [percent]) == old(published) + [PublishProgress(percent)]
    {
      AnnouncedNext(earlier, percent);
      published := published + [PublishProgress(percent)];
    }

    /** A rejected header leaves image and mounts alone. */
    method OnHeaderPeekComplete(outcome: PeekOutcome, env: Env)
      requires peek != null && transfer == null && updateInProgress && Untouched() && Settled()
      requires outcome.ok ==> outcome.prefix == received
                              && outcome.comp.Some? && VerdictOn(received) == Accept(outcome.comp.value)
      modifies this, store
      ensures Valid() && fresh(Repr() - old(Repr()))
      ensures Seen() == if outcome.ok then HandOver(old(Seen()), old(before), old(received), env, Paths())
                        else End(old(Seen()), Fate(old(received), old(before), NO_TICKS, StreamEnded, CLEAN, Rejected,
                                                   old(store.image), old(mounted)))
    {
      hide VerdictOn, PayloadOf;
      peek := null;
      if !outcome.ok {
        FinishUpdate(false, Fate(received, before, NO_TICKS, StreamEnded, CLEAN, Rejected, store.image, mounted));
        return;
      }
      var down := TeardownMounts(env);
      OnTeardownComplete(down, outcome.prefix, outcome.comp.value, env);
    }

    method OnTeardownComplete(ok: bool, prefix: seq<byte>, comp: ComponentInfo, env: Env)
      requires peek == null && transfer == null && updateInProgress && Untouched() && Settled()
      requires prefix == received && VerdictOn(received) == Accept(comp)
      modifies this, store
      ensures Valid() && fresh(Repr() - old(Repr()))
      ensures
        var payload := PayloadOf(old(received));
        Seen()
          == if !ok || !env.openOk then
               End(old(Seen()), Fate(old(received), old(before), NO_TICKS, CallFailed, env.close, Rejected,
                                     old(store.image), old(mounted)))
             else if payload != [] && !env.writeOk then
               End(old(Seen()), Fate(old(received), old(before), NO_TICKS, CallFailed, env.close, TransferFailed,
                                     Discarded(payload, env.close), old(mounted)))
             else
               World(Transferring(old(before), old(received), NO_TICKS), Some(payload), old(mounted), old(fates))
    {
      hide VerdictOn, PayloadOf;
      if !ok || !env.openOk {
        FinishUpdate(false, Fate(received, before, NO_TICKS, CallFailed, env.close, Rejected, store.image, mounted));
      } else {
        StartTransfer(prefix, comp, env);
      }
    }

    method StartTransfer(prefix: seq<byte>, comp: ComponentInfo, env: Env)
      requires peek == null && transfer == null && updateInProgress && Untouched() && Settled()
      requires prefix == received && VerdictOn(received) == Accept(comp)
      modifies this, store
      ensures Valid() && fresh(Repr() - old(Repr()))
      ensures
        var payload := PayloadOf(old(received));
        Seen()
          == if payload != [] && !env.writeOk then
               End(old(Seen()), Fate(old(received), old(before), NO_TICKS, CallFailed, env.close, TransferFailed,
                                     Discarded(payload, env.close), old(mounted)))
             else
               World(Transferring(old(before), old(received), NO_TICKS), Some(payload), old(mounted), old(fates))
    {
      hide VerdictOn, PayloadOf, TotalOf, AllPublished, TransferSession.Valid, Announced, End, Discarded;
      AcceptedParts(received, comp);
      OpenTransfer(prefix, comp);
      var done := transfer.Start(env.writeOk, env.close);
      if done.Some? {
        OnlyTheFates(old(Seen()), Seen());
        OnTransferComplete(done.value, env, CallFailed);
      }
    }

    lemma AcceptedParts(all: seq<byte>, comp: ComponentInfo)
      requires VerdictOn(all) == Accept(comp)
      ensures comp.offset <= |all| && PayloadOf(all) == all[comp.offset..] && TotalOf(all) == comp.payloadSize
    {
      AcceptedHeaderIsComplete(all);
    }

    method OpenTransfer(prefix: seq<byte>, comp: ComponentInfo)
      requires published == []
      modifies this`published, this`transfer, this`ticks, store
      ensures transfer != null && fresh(transfer) && transfer.store == store && transfer.Valid() && !transfer.finished
      ensures transfer.prefix == prefix && transfer.payloadOffset == comp.offset
      ensures transfer.expectedCrc == comp.payloadCrc && transfer.payloadTotal == comp.payloadSize
      ensures transfer.payload == [] && transfer.reports == [] && published == Announced([])
      ensures ticks == NO_TICKS && transfer.reportedBytes == 0
    {
      AnnouncedNext([], 0);
      hide Announced, TransferSession.Valid;
      var session := new TransferSession(store, prefix, comp);
      published := published + [PublishActivation(Activating)];
      published := published + [CreateProgress];
      published := published + [PublishProgress(0)];
      transfer, ticks := session, NO_TICKS;
    }

    /** The session has closed the image file; `how` is what ended it. */
    method OnTransferComplete(ok: bool, env: Env, ghost how: How)
      requires peek == null && transfer != null && updateInProgress && Settled()
      requires published == Announced(ticks.reports)
      requires if ok then
                 && how == StreamEnded && Promised(received)
                 && store.image == Some(OnDisk(PayloadOf(received), env.close))
               else store.image == Discarded(PayloadOf(received), env.close)
      modifies this
      ensures Valid() && Repr() == {this, store}
      ensures published
        == if !ok then old(published) + FAILURE
           else if !MountAll(Paths(), store.image, old(mounted), env).0 then old(published) + COMMITTED + FAILURE
           else if env.hasVersion then old(published) + COMMITTED + [PublishVersion] + SUCCESS
           else old(published) + COMMITTED + SUCCESS
      ensures
        if ok then
          var (mountOk, now) := MountAll(Paths(), store.image, old(mounted), env);
          Seen() == End(old(Seen()), Fate(old(received), old(before), old(ticks), how, env.close,
                                          if mountOk then Mounted else MountFailed, store.image, now))
        else
          Seen() == End(old(Seen()), Fate(old(received), old(before), old(ticks), how, env.close, TransferFailed,
                                          store.image, old(mounted)))
    {
      hide Promised, PayloadOf, VerdictOn, Announced;
      transfer := null;
      if !ok {
        FinishUpdate(false, Fate(received, before, ticks, how, env.close, TransferFailed, store.image, mounted));
        return;
      }
      published := published + [PublishProgress(100)];
      published := published + [RemoveProgress];
      var mountOk := MountImages(env);
      if !mountOk {
        FinishUpdate(false, Fate(received, before, ticks, how, env.close, MountFailed, store.image, mounted));
        return;
      }
      if env.hasVersion {
        published := published + [PublishVersion];
      }
      FinishUpdate(true, Fate(received, before, ticks, how, env.close, Mounted, store.image, mounted));
    }

    method FinishUpdate(ok: bool, ghost fate: Fate)
      requires peek == null && transfer == null && updateInProgress && Settled()
      requires fate.image == store.image && fate.mounted == mounted
      requires Published(UpdateRecord(fate, published + if ok then SUCCESS else FAILURE))
      modifies this`published, this`updateInProgress, this`fates, this`records
      ensures Valid() && Repr() == {this, store} && Seen() == End(old(Seen()), fate)
      ensures published == if ok then old(published) + SUCCESS else old(published) + FAILURE
    {
      published := published + [PublishActivation(if ok then Active else Failed)];
      published := published + [RemoveProgress];
      updateInProgress := false;
      fates := fates + [fate];
      records := records + [UpdateRecord(fate, published)];
    }
  }

  // ----- What a good record says -----

  function Percents(s: seq<Publication>): seq<nat> {
    if s == [] then []
    else if s[0].PublishProgress? then [s[0].percent] + Percents(s[1..])
    else Percents(s[1..])
  }

  /** The activations that end an update. */
  function Terminals(s: seq<Publication>): seq<Activation> {
    if s == [] then []
    else if s[0].PublishActivation? && s[0].state != Activating then [s[0].state] + Terminals(s[1..])
    else Terminals(s[1..])
  }

  lemma {:induction false} PercentsConcat(a: seq<Publication>, b: seq<Publication>)
    ensures Percents(a + b) == Percents(a) + Percents(b)
  {
    if a == [] {
      assert a + b == b;
    } else {
      assert (a + b)[1..] == a[1..] + b;
      PercentsConcat(a[1..], b);
    }
  }

  lemma {:induction false} TerminalsConcat(a: seq<Publication>, b: seq<Publication>)
    ensures Terminals(a + b) == Terminals(a) + Terminals(b)
  {
    if a == [] {
      assert a + b == b;
    } else {
      assert (a + b)[1..] == a[1..] + b;
      TerminalsConcat(a[1..], b);
    }
  }

  lemma ProjectConcat(a: seq<Publication>, b: seq<Publication>)
    ensures Percents(a + b) == Percents(a) + Percents(b)
    ensures Terminals(a + b) == Terminals(a) + Terminals(b)
  {
    PercentsConcat(a, b);
    TerminalsConcat(a, b);
  }

  lemma {:induction false} ProjectProgress(reports: seq<nat>)
    ensures Percents(Progress(reports)) == reports && Terminals(Progress(reports)) == []
  {
    if reports != [] {
      assert Progress(reports)[1..] == Progress(reports[1..]);
      ProjectProgress(reports[1..]);
    }
  }

  /** A finished update published exactly one terminal activation, Active exactly if its image is mounted; and
      as progress nothing, or 0, then what its ticks reported, and then 100 exactly if the stream ended with the
      payload its header promises. */
  lemma PublishedOnce(r: UpdateRecord)
    requires Good(r)
    ensures Terminals(r.published) == [if r.fate.ending == Mounted then Active else Failed]
    ensures Percents(r.published)
         == if r.fate.ending == Rejected then []
            else [0] + r.fate.ticks.reports
                 + (if r.fate.how == StreamEnded && Promised(r.fate.received) then [100] else [])
    ensures Truthful(r.fate.received, r.fate.ticks)
  {
    hide Fair, Truthful, Promised, Percents, Terminals;
    CommittedMeans(r.fate);
    var reports := r.fate.ticks.reports;
    var progress := Progress(reports);
    ProjectProgress(reports);
    ProjectConcat(OPENING, progress);
    ProjectConcat(OPENING + progress, FAILURE);
    ProjectConcat(OPENING + progress, COMMITTED);
    ProjectConcat(OPENING + progress + COMMITTED, FAILURE);
    ProjectConcat(OPENING + progress + COMMITTED, SUCCESS);
    ProjectConcat(OPENING + progress + COMMITTED, [PublishVersion]);
    ProjectConcat(OPENING + progress + COMMITTED + [PublishVersion], SUCCESS);
    ProjectParts();
  }

  lemma CommittedMeans(f: Fate)
    requires Fair(f)
    ensures f.ending == MountFailed || f.ending == Mounted <==> f.how == StreamEnded && Promised(f.received)
    ensures Truthful(f.received, f.ticks)
  {
    hide Truthful, Promised;
  }

  lemma ProjectParts()
    ensures Percents(OPENING) == [0] && Terminals(OPENING) == []
    ensures Percents(COMMITTED) == [100] && Terminals(COMMITTED) == []
    ensures Percents(FAILURE) == [] && Terminals(FAILURE) == [Failed]
    ensures Percents(SUCCESS) == [] && Terminals(SUCCESS) == [Active]
    ensures Percents([PublishVersion]) == [] && Terminals([PublishVersion]) == []
  {
    assert OPENING[1..] == [CreateProgress, PublishProgress(0)] && OPENING[1..][1..] == [PublishProgress(0)];
    assert COMMITTED[1..] == [RemoveProgress];
    assert FAILURE[1..] == [RemoveProgress] && SUCCESS[1..] == [RemoveProgress];
  }

  // ----- All runs -----

  /** What is seen between two events. */
  datatype Boundary = Boundary(locked: bool, peeking: bool, transferring: bool)

  /** Delivers an event to its handler. Images are mounted only while no update is in progress. */
  method Dispatch(vm: VectorManager, event: UpdateEvent)
    requires vm.Valid()
    modifies vm.Repr()
    ensures vm.Valid() && fresh(vm.Repr() - old(vm.Repr()))
    ensures vm.Seen() == Follow(old(vm.Seen()), event, vm.Paths())
    ensures !old(vm.updateInProgress) && !event.Request? && !event.Startup? && !event.EnsureMount? ==> unchanged(vm)
  {
    assert vm.updateInProgress == !vm.Seen().life.Resting?;
    assert !vm.updateInProgress ==> vm.peek == null && vm.transfer == null;
    hide Follow, VectorManager.Valid;
    match event
    case Startup(env) =>
      vm.OnlyAtRest(vm.Seen(), false, env);
      if !vm.updateInProgress {
        vm.MountVectorsOnStartup(env);
      }
    case EnsureMount(populated, env) =>
      vm.OnlyAtRest(vm.Seen(), populated, env);
      if !vm.updateInProgress {
        vm.EnsureMounted(populated, env);
      }
    case Request(fdOk, applyTimeAllowed) => var error := vm.StartUpdate(fdOk, applyTimeAllowed);
    case PeekRead(chunk, env) => vm.OnPeekRead(chunk, env);
    case PeekAbort => vm.OnPeekAbort();
    case TransferRead(chunk, env) => vm.OnTransferRead(chunk, env);
    case TransferEnd(env) => vm.OnTransferEnd(env);
    case TransferTimeout(env) => vm.OnTransferTimeout(env);
    case ProgressTick => var report := vm.OnProgressTick();
  }

  /** Over every series of events, whatever the system calls answer: between events the lock is held
      exactly while one session is active; image, mounts, ticks and finished updates are those of the
      reference, which sees each upload as one stream; and each finished update was fair, and published what
      fits how it went. */
  method RunUpdates(events: seq<UpdateEvent>, image: Option<seq<byte>>, storage: bool, mount: bool)
    returns (boundaries: seq<Boundary>, ghost records: seq<UpdateRecord>)
    ensures |boundaries| == |events| + 1
    ensures forall i :: 0 <= i <= |events| ==> Shows(boundaries[i], After(events[..i], image, storage, mount))
    ensures
      var fates := After(events, image, storage, mount).fates;
      |records| == |fates| && forall i :: 0 <= i < |records| ==> Good(records[i]) && records[i].fate == fates[i]
  {
    hide After, Follow, Published, Fair, Shows, VectorManager.Valid;
    AfterNone(image, storage, mount);
    assert events[..0] == [];
    var store := new ImageStore(image);
    var vm := new VectorManager(store, storage, mount);
    boundaries := [];
    for k := 0 to |events|
      invariant vm.Valid() && fresh(vm.Repr()) && vm.Paths() == Setup(storage, mount)
      invariant vm.Seen() == After(events[..k], image, storage, mount)
      invariant |boundaries| == k
      invariant forall i :: 0 <= i < k ==> Shows(boundaries[i], After(events[..i], image, storage, mount))
    {
      var b := Look(vm);
      AfterNext(events, k, image, storage, mount);
      Dispatch(vm, events[k]);
      boundaries := boundaries + [b];
    }
    assert events[..|events|] == events;
    var b := Look(vm);
    boundaries := boundaries + [b];
    vm.AllSettled();
    AllFair(events, image, storage, mount);
    records := vm.records;
  }

  /** The reference after some events. */
  ghost function After(events: seq<UpdateEvent>, image: Option<seq<byte>>, storage: bool, mount: bool): World {
    FollowAll(World(Resting, image, NOTHING, []), events, Setup(storage, mount))
  }

  lemma AllFair(events: seq<UpdateEvent>, image: Option<seq<byte>>, storage: bool, mount: bool)
    ensures
      var fates := After(events, image, storage, mount).fates;
      forall i :: 0 <= i < |fates| ==> Fair(fates[i])
  {
    hide FollowAll, Fair;
    EveryUpdateIsFair(events, image, Setup(storage, mount));
  }

  lemma AfterNext(events: seq<UpdateEvent>, k: nat, image: Option<seq<byte>>, storage: bool, mount: bool)
    requires k < |events|
    ensures After(events[..k + 1], image, storage, mount)
         == Follow(After(events[..k], image, storage, mount), events[k], Setup(storage, mount))
  {
    assert events[..k + 1][..k] == events[..k];
    hide Follow;
  }

  lemma AfterNone(image: Option<seq<byte>>, storage: bool, mount: bool)
    ensures After([], image, storage, mount) == World(Resting, image, NOTHING, [])
  {
  }

  method Look(vm: VectorManager) returns (b: Boundary)
    requires vm.Valid()
    ensures Shows(b, vm.Seen())
  {
    hide TransferSession.Valid, PeekSession.Valid, VerdictOn, PayloadOf;
    b := Boundary(vm.updateInProgress, vm.peek != null, vm.transfer != null);
  }

  ghost predicate Shows(b: Boundary, w: World) {
    && b.peeking == w.life.Peeking? && b.transferring == w.life.Transferring?
    && b.locked == (b.peeking || b.transferring)
  }
}

/** What a series of events does to the vector store, seen update by update and each upload as one
    stream of bytes. There are no sessions here, no buffers and no running checksum. */
module UpdateReference {
  import opened Wrappers
  import opened MachineWord
  import opened Crc32
  import opened PldmHeader
  import opened UpdateSessions

  // ----- Events and what the system answers -----

  /** An unmount may find nothing mounted, and the program takes being refused for that too. */
  datatype Unmount = Unmounted | NotMounted | NotPermitted | UnmountFailed

  /** The vectors may fail to mount; or the golden results inside them, and then the vectors are unmounted again,
      which may fail. */
  datatype Mount = MountWorks | VectorsFail | GoldenFails(undone: bool)

  /** What the system calls answer: unmounting the golden results and the vectors, opening, writing and closing
      the image file, and mounting; and whether there is a version to publish. */
  datatype Env = Env(
    golden: Unmount, vectors: Unmount, openOk: bool, writeOk: bool, close: CloseAnswer, mount: Mount, hasVersion: bool)

  datatype UpdateEvent =
    | Startup(env: Env)
    | EnsureMount(populated: bool, env: Env)
    | Request(fdOk: bool, applyTimeAllowed: bool)
    | PeekRead(chunk: seq<byte>, env: Env)
    | PeekAbort
    | TransferRead(chunk: seq<byte>, env: Env)
    | TransferEnd(env: Env)
    | TransferTimeout(env: Env)
    | ProgressTick

  /** Which paths are configured. */
  datatype Setup = Setup(storage: bool, mount: bool)

  /** What is mounted: the vectors, with what was on disk when they were, and the golden results inside. */
  datatype Mounts = Mounts(vectors: Option<seq<byte>>, golden: bool)

  const NOTHING := Mounts(None, false)

  // ----- The life of an update -----

  datatype Ending = Rejected | TransferFailed | MountFailed | Mounted

  datatype How = StreamEnded | TimedOut | CallFailed

  /** How many payload bytes had come at the last tick, and the progress reported so far. */
  datatype Ticks = Ticks(counted: nat, reports: seq<nat>)

  const NO_TICKS := Ticks(0, [])

  /** A finished update: all bytes it received, the image on disk when it was accepted, its ticks, what ended
      it, the answers when the image file was closed, how it ended, and the image on disk and what was
      mounted then. */
  datatype Fate = Fate(
    received: seq<byte>, before: Option<seq<byte>>, ticks: Ticks, how: How, close: CloseAnswer,
    ending: Ending, image: Option<seq<byte>>, mounted: Mounts)

  datatype Life =
    | Resting
    | Peeking(before: Option<seq<byte>>, received: seq<byte>)
    | Transferring(before: Option<seq<byte>>, received: seq<byte>, ticks: Ticks)

  /** `image` is what was written to the image file. */
  datatype World = World(life: Life, image: Option<seq<byte>>, mounted: Mounts, fates: seq<Fate>)

  function PayloadOf(received: seq<byte>): seq<byte> {
    match VerdictOn(received)
    case Accept(comp) => AcceptedHeaderIsComplete(received); received[comp.offset..]
    case _ => []
  }

  /** The payload size the header declares. */
  function TotalOf(received: seq<byte>): nat {
    match VerdictOn(received)
    case Accept(comp) => comp.payloadSize
    case _ => 0
  }

  /** The timer for the progress fires. */
  function Tick(received: seq<byte>, t: Ticks): Ticks {
    var now := |PayloadOf(received)|;
    match NextReport(now, TotalOf(received), t.counted, LastReport(t.reports))
    case None => Ticks(now, t.reports)
    case Some(percent) => Ticks(now, t.reports + [percent])
  }

  /** All of the stream came and it is the payload its header promises. */
  predicate Promised(received: seq<byte>) {
    VerdictOn(received).Accept? && Checksum(PayloadOf(received)) == VerdictOn(received).comp.payloadCrc
  }

  /** Whether something that was mounted still is. */
  predicate Stays(answer: Unmount) {
    answer == NotPermitted || answer == UnmountFailed
  }

  /** Both are unmounted, the golden results first; if one of them fails, the other is still tried. */
  function Teardown(c: Setup, m: Mounts, env: Env): (bool, Mounts) {
    if !c.mount then (true, m)
    else
      (env.golden != UnmountFailed && env.vectors != UnmountFailed,
       Mounts(if Stays(env.vectors) then m.vectors else None, Stays(env.golden) && m.golden))
  }

  function MountAll(c: Setup, image: Option<seq<byte>>, m: Mounts, env: Env): (bool, Mounts) {
    if !c.storage || !c.mount then (false, m)
    else
      var (down, left) := Teardown(c, m, env);
      if !down || image == None then (false, left)
      else match env.mount
        case MountWorks => (true, Mounts(image, true))
        case VectorsFail => (false, left)
        case GoldenFails(undone) => (false, if undone then left else Mounts(image, false))
  }

  function End(w: World, fate: Fate): World {
    World(Resting, fate.image, fate.mounted, w.fates + [fate])
  }

  /** What a stream that has been accepted leads to. */
  function HandOver(w: World, before: Option<seq<byte>>, received: seq<byte>, env: Env, c: Setup): World {
    var payload := PayloadOf(received);
    var (down, left) := Teardown(c, w.mounted, env);
    if !down || !env.openOk then
      End(w, Fate(received, before, NO_TICKS, CallFailed, env.close, Rejected, w.image, left))
    else if payload != [] && !env.writeOk then
      End(w, Fate(received, before, NO_TICKS, CallFailed, env.close, TransferFailed,
                  Discarded(payload, env.close), left))
    else
      World(Transferring(before, received, NO_TICKS), Some(payload), left, w.fates)
  }

  function Follow(w: World, event: UpdateEvent, c: Setup): World {
    match w.life
    case Resting =>
      (match event
       case Startup(env) => w.(mounted := MountAll(c, w.image, w.mounted, env).1)
       case EnsureMount(populated, env) =>
         if !c.mount || populated then w else w.(mounted := MountAll(c, w.image, w.mounted, env).1)
       case Request(fdOk, allowed) => if c.storage && fdOk && allowed then w.(life := Peeking(w.image, [])) else w
       case _ => w)
    case Peeking(before, earlier) =>
      (match event
       case PeekRead(chunk, env) =>
         var received := earlier + chunk;
         (match VerdictOn(received)
          case NeedMore => w.(life := Peeking(before, received))
          case Reject => End(w, Fate(received, before, NO_TICKS, StreamEnded, CLEAN, Rejected, w.image, w.mounted))
          case Accept(_) => HandOver(w, before, received, env, c))
       case PeekAbort => End(w, Fate(earlier, before, NO_TICKS, StreamEnded, CLEAN, Rejected, w.image, w.mounted))
       case _ => w)
    case Transferring(before, earlier, ticks) =>
      (match event
       case TransferRead(chunk, env) =>
         var received := earlier + chunk;
         if env.writeOk then
           w.(life := Transferring(before, received, ticks), image := Some(PayloadOf(received)))
         else
           End(w, Fate(received, before, ticks, CallFailed, env.close, TransferFailed,
                       Discarded(PayloadOf(received), env.close), w.mounted))
       case TransferEnd(env) =>
         var payload := PayloadOf(earlier);
         if Promised(earlier) then
           var image := Some(OnDisk(payload, env.close));
           var (ok, mounted) := MountAll(c, image, w.mounted, env);
           var ending := if ok then Mounted else MountFailed;
           End(w, Fate(earlier, before, ticks, StreamEnded, env.close, ending, image, mounted))
         else
           End(w, Fate(earlier, before, ticks, StreamEnded, env.close, TransferFailed,
                       Discarded(payload, env.close), w.mounted))
       case TransferTimeout(env) =>
         End(w, Fate(earlier, before, ticks, TimedOut, env.close, TransferFailed,
                     Discarded(PayloadOf(earlier), env.close), w.mounted))
       case ProgressTick => w.(life := Transferring(before, earlier, Tick(earlier, ticks)))
       case _ => w)
  }

  function FollowAll(w: World, events: seq<UpdateEvent>, c: Setup): World {
    if events == [] then w
    else Follow(FollowAll(w, events[..|events| - 1], c), events[|events| - 1], c)
  }

  // ----- What it comes to -----

  /** The answers under which a finished update leaves what its stream asks for: a committed image was
      flushed, and a payload that failed was removed. */
  predicate LeftAsAsked(f: Fate) {
    match f.ending
    case Rejected => true
    case TransferFailed => f.close.removeOk
    case _ => Flushed(PayloadOf(f.received), f.close)
  }

  /** The reports rise from 1 to 99. If the header declares a payload size, the last is the share of it that had
      come at the last tick; and otherwise they are 1, 2, 3 and so on. */
  ghost predicate Truthful(received: seq<byte>, t: Ticks) {
    && t.counted <= |PayloadOf(received)| && Rising(t.reports)
    && LastReport(t.reports)
       == if TotalOf(received) == 0 then |t.reports|
          else if t.counted * 99 / TotalOf(received) < 99 then t.counted * 99 / TotalOf(received) else 99
  }

  /** What must be said of a finished update. Its image is the one its whole stream asks for exactly if the
      flush and the removal that were needed worked; it was committed exactly if the stream ended with the
      payload its header promises; and it is mounted, with its golden results, if it ended so. */
  ghost predicate Fair(f: Fate) {
    && (f.how == StreamEnded ==> (f.image == ImageAfter(f.received, f.before) <==> LeftAsAsked(f)))
    && (f.ending == MountFailed || f.ending == Mounted <==> f.how == StreamEnded && Promised(f.received))
    && (f.ending == MountFailed || f.ending == Mounted ==> f.image == Some(OnDisk(PayloadOf(f.received), f.close)))
    && (f.ending == Rejected ==> f.image == f.before)
    && (f.ending == TransferFailed ==> VerdictOn(f.received).Accept? && (f.image == None <==> f.close.removeOk))
    && (f.ending == Mounted ==> f.mounted == Mounts(f.image, true))
    && Truthful(f.received, f.ticks)
  }

  ghost predicate Sound(w: World) {
    && (w.life.Peeking? ==> VerdictOn(w.life.received) == NeedMore && w.image == w.life.before)
    && (w.life.Transferring? ==> VerdictOn(w.life.received).Accept? && w.image == Some(PayloadOf(w.life.received)))
    && (w.life.Transferring? ==> Truthful(w.life.received, w.life.ticks))
    && forall i :: 0 <= i < |w.fates| ==> Fair(w.fates[i])
  }

  lemma NothingReceived()
    ensures VerdictOn([]) == NeedMore
  {
  }

  lemma MoreReceived(received: seq<byte>, chunk: seq<byte>)
    requires VerdictOn(received).Accept?
    ensures VerdictOn(received + chunk) == VerdictOn(received)
    ensures PayloadOf(received + chunk) == PayloadOf(received) + chunk
  {
    VerdictIsStable(received, chunk);
    AcceptedHeaderIsComplete(received);
    hide VerdictOn;
    DropOfConcat(received, chunk, VerdictOn(received).comp.offset);
  }

  lemma WholeStream(received: seq<byte>, before: Option<seq<byte>>)
    ensures ImageAfter(received, before)
         == if !VerdictOn(received).Accept? then before
            else if Promised(received) then Some(PayloadOf(received)) else None
  {
    hide Checksum;
  }

  lemma NoTicksYet(received: seq<byte>)
    ensures Truthful(received, NO_TICKS)
  {
    hide VerdictOn, PayloadOf;
  }

  /** The share that has come only grows, and the next report is that share, cut at 99. */
  lemma SharesGrow(counted: nat, now: nat, total: nat, last: nat)
    requires total > 0 && counted <= now
    ensures
      var a, b := counted * 99 / total, now * 99 / total;
      a <= b && NextProgress(now, total, last) == if b < 99 then b else 99
  {
    ShareGrows(counted, now, total);
  }

  lemma MoreReports(reports: seq<nat>, percent: nat)
    requires Rising(reports) && LastReport(reports) < percent <= 99
    ensures Rising(reports + [percent]) && LastReport(reports + [percent]) == percent
  {
  }

  lemma TickIsTruthful(received: seq<byte>, t: Ticks)
    requires Truthful(received, t)
    ensures Truthful(received, Tick(received, t))
  {
    hide TotalOf, PayloadOf, Share, Rising, NextProgress;
    var now, total, last := |PayloadOf(received)|, TotalOf(received), LastReport(t.reports);
    if total > 0 {
      SharesGrow(t.counted, now, total, last);
    } else {
      Heartbeat(now, t.reports);
    }
    if NextReport(now, total, t.counted, last).Some? {
      MoreReports(t.reports, NextProgress(now, total, last));
    }
  }

  lemma Heartbeat(now: nat, reports: seq<nat>)
    requires Rising(reports)
    ensures
      var last := LastReport(reports);
      last <= 99 && NextProgress(now, 0, last) == if last < 99 then last + 1 else 99
  {
  }

  lemma StillTruthful(received: seq<byte>, chunk: seq<byte>, t: Ticks)
    requires VerdictOn(received).Accept? && Truthful(received, t)
    ensures Truthful(received + chunk, t)
  {
    MoreReceived(received, chunk);
    hide VerdictOn, PayloadOf;
  }

  lemma FollowIsSound(w: World, event: UpdateEvent, c: Setup)
    requires Sound(w)
    ensures Sound(Follow(w, event, c))
  {
    hide VerdictOn, Checksum, ImageAfter, Truthful, Tick;
    NothingReceived();
    if w.life.Peeking? && event.PeekRead? {
      WholeStream(w.life.received + event.chunk, w.life.before);
      NoTicksYet(w.life.received + event.chunk);
    }
    if !w.life.Resting? {
      WholeStream(w.life.received, w.life.before);
      NoTicksYet(w.life.received);
    }
    if w.life.Transferring? && event.TransferRead? {
      MoreReceived(w.life.received, event.chunk);
      StillTruthful(w.life.received, event.chunk, w.life.ticks);
    }
    if w.life.Transferring? && event.ProgressTick? {
      TickIsTruthful(w.life.received, w.life.ticks);
    }
  }

  /** Whatever the events, ticks and late ones included, every finished update was fair. */
  lemma {:induction false} EveryUpdateIsFair(events: seq<UpdateEvent>, image: Option<seq<byte>>, c: Setup)
    ensures Sound(FollowAll(World(Resting, image, NOTHING, []), events, c))
  {
    if events != [] {
      var before := events[..|events| - 1];
      EveryUpdateIsFair(before, image, c);
      FollowIsSound(FollowAll(World(Resting, image, NOTHING, []), before, c), events[|events| - 1], c);
    }
  }

  /** When a transfer starts the vectors are mounted exactly if they were and unmounting them was not permitted,
      and so for the golden results; and while it goes on nothing is mounted or unmounted. */
  lemma MountedWhileWriting(w: World, event: UpdateEvent, c: Setup)
    requires c.mount && Follow(w, event, c).life.Transferring?
    ensures
      var after := Follow(w, event, c);
      if w.life.Transferring? then
        after.mounted == w.mounted
      else
        && event.PeekRead?
        && after.mounted.vectors == (if event.env.vectors == NotPermitted then w.mounted.vectors else None)
        && after.mounted.golden == (w.mounted.golden && event.env.golden == NotPermitted)
  {
    hide VerdictOn, Checksum;
  }
}

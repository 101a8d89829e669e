/** What each event does to an update and to the mounts, in terms of the stream and of the answers alone. */
module UpdateLaws {
  import opened Wrappers
  import opened MachineWord
  import opened Crc32
  import opened PldmHeader
  import opened PackageFormat
  import opened UpdateSessions
  import opened UpdateReference

  // ----- Mounting -----

  /** Neither unmount fails for another reason than that nothing is mounted or it is not permitted. */
  predicate Unmounts(c: Setup, env: Env) {
    c.mount ==> env.golden != UnmountFailed && env.vectors != UnmountFailed
  }

  /** Mounting succeeds exactly if both paths are configured, there is an image, and unmounting and then mounting
      work; then the image and its golden results are mounted. If something is in the way of mounting at all,
      what was mounted and could be unmounted no longer is, and nothing else changes. */
  lemma MountsExactly(c: Setup, image: Option<seq<byte>>, m: Mounts, env: Env)
    ensures MountAll(c, image, m, env).0
       <==> c.storage && c.mount && image.Some? && Unmounts(c, env) && env.mount.MountWorks?
    ensures MountAll(c, image, m, env).0 ==> MountAll(c, image, m, env).1 == Mounts(image, true)
    ensures !c.storage || !c.mount ==> MountAll(c, image, m, env).1 == m
    ensures c.storage && c.mount && (image == None || !Unmounts(c, env) || env.mount.VectorsFail?) ==>
      var left := MountAll(c, image, m, env).1;
      && left.vectors == (if env.vectors == Unmounted || env.vectors == NotMounted then None else m.vectors)
      && left.golden == (m.golden && env.golden != Unmounted && env.golden != NotMounted)
  {
  }

  /** Before a run, and at the start of the service: the image and its golden results are mounted afterwards if
      the calls work, unless they are taken to be there already. Image, updates and lock stay. */
  lemma MountedBeforeRun(w: World, populated: bool, env: Env, c: Setup)
    requires w.life.Resting?
    ensures
      var run, start := Follow(w, EnsureMount(populated, env), c), Follow(w, Startup(env), c);
      && run == w.(mounted := run.mounted) && start == w.(mounted := start.mounted)
      && (!c.mount || populated ==> run == w)
      && (c.storage && c.mount && w.image.Some? && Unmounts(c, env) && env.mount.MountWorks? ==>
            && start.mounted == Mounts(w.image, true)
            && (!populated ==> run.mounted == Mounts(w.image, true)))
  {
    MountsExactly(c, w.image, w.mounted, env);
    hide MountAll;
  }

  // ----- The life of an update -----

  /** An update is accepted exactly if none is in progress, there is a place for the image, the descriptor can
      be had and it is to be applied at once; it changes nothing but that it has received nothing yet. */
  lemma RequestAccepted(w: World, fdOk: bool, allowed: bool, c: Setup)
    ensures
      var after := Follow(w, Request(fdOk, allowed), c);
      if w.life.Resting? && c.storage && fdOk && allowed then after == w.(life := Peeking(w.image, [])) else after == w
  {
  }

  /** Without an update, only mounting and requests do anything. */
  lemma NothingToDo(w: World, event: UpdateEvent, c: Setup)
    requires w.life.Resting? && !event.Startup? && !event.EnsureMount? && !event.Request?
    ensures Follow(w, event, c) == w
  {
  }

  /** Before the header is judged, the end of the stream, a read error or the deadline ends the update as rejected
      and nothing else changes; of the other events only a read does anything. */
  lemma PeekEndsExactly(w: World, event: UpdateEvent, c: Setup)
    requires w.life.Peeking? && !event.PeekRead?
    ensures
      var after := Follow(w, event, c);
      if event.PeekAbort? then
        && after.life.Resting? && after.image == w.image && after.mounted == w.mounted
        && |after.fates| == |w.fates| + 1 && after.fates[..|w.fates|] == w.fates
        && after.fates[|w.fates|].ending == Rejected && after.fates[|w.fates|].received == w.life.received
      else after == w
  {
  }

  /** While the header is not judged, a read leads to a transfer exactly if it is accepted with what came, the
      unmounts and the opening of the image file work, and so does the write of the payload that came with it,
      if there is any. The image file then holds that payload. */
  lemma TransferStartsExactly(w: World, chunk: seq<byte>, env: Env, c: Setup)
    requires w.life.Peeking?
    ensures
      var received, after := w.life.received + chunk, Follow(w, PeekRead(chunk, env), c);
      && (after.life.Transferring? <==>
            && VerdictOn(received).Accept? && Unmounts(c, env) && env.openOk
            && (env.writeOk || PayloadOf(received) == []))
      && (after.life.Transferring? ==>
            && after.life == Transferring(w.life.before, received, Ticks(0, []))
            && after.image == Some(PayloadOf(received)) && after.fates == w.fates)
      && (after.life.Peeking? <==> VerdictOn(received) == NeedMore)
      && (after.life.Peeking? ==> after == w.(life := Peeking(w.life.before, received)))
  {
    hide VerdictOn, PayloadOf;
  }

  /** And if not, the update ends: rejected with the image that was there, if its header was, or if unmounting
      or opening failed; otherwise with the image removed, unless that fails. */
  lemma TransferDoesNotStart(w: World, chunk: seq<byte>, env: Env, c: Setup)
    requires w.life.Peeking? && VerdictOn(w.life.received + chunk) != NeedMore
    requires !Follow(w, PeekRead(chunk, env), c).life.Transferring?
    ensures
      var received, after := w.life.received + chunk, Follow(w, PeekRead(chunk, env), c);
      && after.life.Resting? && |after.fates| == |w.fates| + 1 && after.fates[..|w.fates|] == w.fates
      && after.fates[|w.fates|].received == received
      && (if VerdictOn(received) == Reject || !Unmounts(c, env) || !env.openOk then
            after.fates[|w.fates|].ending == Rejected && after.image == w.image
          else
            after.fates[|w.fates|].ending == TransferFailed && (env.close.removeOk <==> after.image == None))
      && (VerdictOn(received) == Reject ==> after.mounted == w.mounted)
  {
    hide VerdictOn, PayloadOf;
  }

  /** The end of the stream, the deadline and a write that fails end a transfer, and nothing else does; a read
      that is written makes the image longer by what was read. */
  lemma TransferEndsExactly(w: World, event: UpdateEvent, c: Setup)
    requires w.life.Transferring? && Sound(w)
    ensures
      var after := Follow(w, event, c);
      var ends := event.TransferEnd? || event.TransferTimeout? || (event.TransferRead? && !event.env.writeOk);
      && (if ends then after.life.Resting? && |after.fates| == |w.fates| + 1 else after.life.Transferring?)
      && (!ends ==> after.mounted == w.mounted && after.fates == w.fates && after.image == Some(
            if event.TransferRead? then w.image.value + event.chunk else w.image.value))
      && (!ends && !event.TransferRead? && !event.ProgressTick? ==> after == w)
  {
    hide VerdictOn, PayloadOf, Checksum, Fair, Truthful, Tick, MountAll, Promised, Discarded;
    if event.TransferRead? {
      MoreReceived(w.life.received, event.chunk);
    }
  }

  /** A transfer ends with the image mounted exactly if the stream ended, the checksum of the payload is the one
      in the header, and mounting works; the mounts then show what reached the disk. */
  lemma MountedExactly(w: World, event: UpdateEvent, c: Setup)
    requires w.life.Transferring? && Follow(w, event, c).life.Resting?
    ensures
      var received, payload := w.life.received, PayloadOf(w.life.received);
      var fate := Follow(w, event, c).fates[|w.fates|];
      && (fate.ending == Mounted <==>
            && event.TransferEnd? && VerdictOn(received).Accept?
            && Checksum(payload) == VerdictOn(received).comp.payloadCrc
            && c.storage && c.mount && Unmounts(c, event.env) && event.env.mount.MountWorks?)
      && (fate.ending == Mounted && event.env.close.kept == None ==>
            Follow(w, event, c).mounted == Mounts(Some(payload), true))
      && (fate.how == StreamEnded <==> event.TransferEnd?) && (fate.how == TimedOut <==> event.TransferTimeout?)
  {
    if event.TransferEnd? {
      MountsExactly(c, Some(OnDisk(PayloadOf(w.life.received), event.env.close)), w.mounted, event.env);
    }
    hide VerdictOn, PayloadOf, Checksum, MountAll;
  }

  lemma RejectedStream(w: World, chunk: seq<byte>, env: Env, c: Setup)
    requires w.life.Peeking? && VerdictOn(w.life.received + chunk) == Reject
    ensures
      var after := Follow(w, PeekRead(chunk, env), c);
      after.life.Resting? && after.image == w.image && after.mounted == w.mounted
  {
    hide VerdictOn;
  }

  // ----- Progress -----

  /** A tick counts all payload bytes so far. It reports nothing if none came since the last one, and at most one
      value; without a declared size it reports if some came, up to 99 times. */
  lemma TickCounts(received: seq<byte>, t: Ticks)
    requires Truthful(received, t)
    ensures
      var now, after := |PayloadOf(received)|, Tick(received, t);
      && after.counted == now && t.reports <= after.reports && |after.reports| <= |t.reports| + 1
      && (now == t.counted ==> after.reports == t.reports)
      && (TotalOf(received) == 0 && now > t.counted && |t.reports| < 99 ==> |after.reports| == |t.reports| + 1)
  {
    hide PayloadOf, TotalOf, Share;
  }

  // ----- Uploads -----

  /** A written package whose header is good, uploaded whole or in parts with all calls working, leaves its
      payload as the image if its checksum is the one in the header, and no image if not. */
  lemma WrittenPackageUploads(p: Package, payload: seq<byte>, before: Option<seq<byte>>)
    requires PackageFormat.Valid(p) && HeaderLength(p) <= 4096 && U8(p.revision) >= 4 && HasDescriptor(HeaderBytes(p))
    ensures PayloadOf(HeaderBytes(p) + payload) == payload
    ensures ImageAfter(HeaderBytes(p) + payload, before)
         == if Checksum(payload) == p.payloadCrc then Some(payload) else None
  {
    ReaderAccepts(p, payload);
    hide VerdictOn, HeaderBytes, Checksum, PackageSize, HasDescriptor, ImageAfter;
    WholeStream(HeaderBytes(p) + payload, before);
  }

  /** The stream of a written package whose header was altered before its checksums inside 4 consecutive bytes, but
      not in its size field. */
  ghost predicate HeaderAltered(p: Package, stream: seq<byte>) {
    && PackageFormat.Valid(p) && HeaderLength(p) <= 4096
    && exists altered, k: nat, rest | AlteredInside(p, altered, k) ::
         stream == altered + WordBytes(Checksum(BodyBytes(p))) + WordBytes(p.payloadCrc) + rest
  }

  ghost predicate AlteredInside(p: Package, altered: seq<byte>, k: nat)
    requires PackageFormat.Valid(p) && HeaderLength(p) <= 4096
  {
    && |altered| == |BodyBytes(p)| && altered != BodyBytes(p) && altered[17..19] == BodyBytes(p)[17..19]
    && forall i :: 0 <= i < |altered| && !(k <= i < k + 4) ==> altered[i] == BodyBytes(p)[i]
  }

  lemma AlteredStreamIsRejected(p: Package, stream: seq<byte>)
    requires HeaderAltered(p, stream)
    ensures VerdictOn(stream) == Reject
  {
    hide VerdictOn, BodyBytes, Checksum, WordBytes, HeaderLength, PackageFormat.Valid;
    var altered, k: nat, rest :|
      && AlteredInside(p, altered, k)
      && stream == altered + WordBytes(Checksum(BodyBytes(p))) + WordBytes(p.payloadCrc) + rest;
    AlteredHeaderIsRejected(p, altered, k, rest);
  }

  /** Such a stream leaves the image that was there; and the update that receives it ends, with image and mounts as
      they were. */
  lemma AlteredHeaderKeepsImage(p: Package, stream: seq<byte>, before: Option<seq<byte>>)
    requires HeaderAltered(p, stream)
    ensures ImageAfter(stream, before) == before
  {
    hide VerdictOn, HeaderAltered, ImageAfter;
    AlteredStreamIsRejected(p, stream);
    WholeStream(stream, before);
  }

  lemma AlteredHeaderEndsUpdate(p: Package, stream: seq<byte>, w: World, env: Env, c: Setup)
    requires HeaderAltered(p, stream) && w.life.Peeking? && w.life.received <= stream
    ensures
      var after := Follow(w, PeekRead(stream[|w.life.received|..], env), c);
      after.life.Resting? && after.image == w.image && after.mounted == w.mounted
  {
    hide *;
    AlteredStreamIsRejected(p, stream);
    assert w.life.received + stream[|w.life.received|..] == stream;
    RejectedStream(w, stream[|w.life.received|..], env, c);
  }
}

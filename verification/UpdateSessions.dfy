/** The two sessions an image upload goes through: a peek session buffers until the package header
    can be judged, then a transfer session streams the payload to the image file. */
module UpdateSessions {
  import opened Wrappers
  import opened MachineWord
  import opened Crc32
  import opened PldmHeader

  /** The image file on disk. */
  class ImageStore {
    var image: Option<seq<byte>>

    constructor (image: Option<seq<byte>>)
      ensures this.image == image
    {
      this.image := image;
    }
  }

  // ----- Peek -----

  datatype PeekOutcome = PeekOutcome(ok: bool, prefix: seq<byte>, comp: Option<ComponentInfo>)

  /** Handlers return what they pass to the completion callback, if they call it. */
  class PeekSession {
    var prefix: seq<byte>
    var finished: bool

    ghost predicate Valid()
      reads this
    {
      !finished ==> VerdictOn(prefix) == NeedMore
    }

    constructor ()
      ensures Valid() && !finished && prefix == []
    {
      prefix, finished := [], false;
    }

    method OnRead(chunk: seq<byte>) returns (done: Option<PeekOutcome>)
      requires Valid()
      modifies this
      ensures Valid()
      ensures old(finished) ==> done == None && finished && prefix == old(prefix)
      ensures !old(finished) ==>
        && prefix == old(prefix) + chunk
        && finished == (VerdictOn(prefix) != NeedMore)
        && done == match VerdictOn(prefix)
                   case NeedMore => None
                   case Reject => Some(PeekOutcome(false, prefix, None))
                   case Accept(comp) => Some(PeekOutcome(true, prefix, Some(comp)))
    {
      hide HasDescriptor, Validated, ReadU16;
      if finished {
        return None;
      }
      prefix := prefix + chunk;
      var check := CheckIstComponentUuid(prefix);
      match check
      case NeedMoreData =>
        return None;
      case InvalidHeader =>
        done := Finish(false, None);
      case ComponentUuidMismatch =>
        done := Finish(false, None);
      case Matched =>
        var comp := ValidatePldmHeader(prefix);
        done := Finish(comp.Some?, comp);
    }

    /** End of stream, a read error or the inactivity deadline. */
    method OnAbort() returns (done: Option<PeekOutcome>)
      requires Valid()
      modifies this
      ensures Valid() && finished && prefix == old(prefix)
      ensures done == if old(finished) then None else Some(PeekOutcome(false, prefix, None))
    {
      if finished {
        return None;
      }
      done := Finish(false, None);
    }

    method Finish(ok: bool, comp: Option<ComponentInfo>) returns (done: Option<PeekOutcome>)
      modifies this
      ensures finished && prefix == old(prefix)
      ensures done == if old(finished) then None else Some(PeekOutcome(ok, prefix, comp))
    {
      if finished {
        return None;
      }
      finished := true;
      done := Some(PeekOutcome(ok, prefix, comp));
    }
  }

  // ----- Transfer -----

  /** What becomes of the image file when its stream is closed. The stream is buffered and nobody asks
      whether the last flush worked: all that was written reaches the disk, or just its first bytes. An
      image that is not committed is then removed, which may fail. */
  datatype CloseAnswer = CloseAnswer(kept: Option<nat>, removeOk: bool)

  const CLEAN := CloseAnswer(None, true)

  predicate Flushed(written: seq<byte>, close: CloseAnswer) {
    close.kept.Some? ==> |written| <= close.kept.value
  }

  function OnDisk(written: seq<byte>, close: CloseAnswer): (image: seq<byte>)
    ensures image <= written && (image == written <==> Flushed(written, close))
    ensures |image| == if close.kept.Some? && close.kept.value < |written| then close.kept.value else |written|
  {
    if Flushed(written, close) then written else written[..close.kept.value]
  }

  function Discarded(written: seq<byte>, close: CloseAnswer): Option<seq<byte>> {
    if close.removeOk then None else Some(OnDisk(written, close))
  }

  const PROGRESS_MAX := 99

  /** A report of progress on `received` of `total` payload bytes; total 0 means unknown, and the
      report is then a heartbeat. */
  function NextProgress(received: nat, total: nat, last: nat): nat {
    if total == 0 then
      Min(last + 1, PROGRESS_MAX)
    else
      Min(Share(received, total), PROGRESS_MAX)
  }

  /** A tick reports progress if there is some since the last tick, and it makes a difference. */
  function NextReport(received: nat, total: nat, reported: nat, last: nat): Option<nat> {
    if received == reported || NextProgress(received, total, last) == last then None
    else Some(NextProgress(received, total, last))
  }

  function Min(a: nat, b: nat): (m: nat)
    ensures m <= a && m <= b && (m == a || m == b)
  {
    if a < b then a else b
  }

  function Share(received: nat, total: nat): nat
    requires total > 0
  {
    received * PROGRESS_MAX / total
  }

  lemma ShareGrows(received: nat, more: nat, total: nat)
    requires total > 0 && received <= more
    ensures Share(received, total) <= Share(more, total)
  {
    var share := Share(received, total);
    assert share * total <= received * PROGRESS_MAX <= more * PROGRESS_MAX;
    QuotientAtLeast(more * PROGRESS_MAX, total, share);
  }

  lemma QuotientAtLeast(n: nat, d: nat, q: nat)
    requires d > 0 && q * d <= n
    ensures q <= n / d
  {
    var quotient, rest := n / d, n % d;
    assert n == quotient * d + rest;
    if q > quotient {
      MultiplesApart(quotient, q, d);
    }
  }

  lemma {:induction false} MultiplesApart(a: nat, b: nat, d: nat)
    requires a < b
    ensures a * d + d <= b * d
    decreases b
  {
    assert b * d == (b - 1) * d + d;
    if a < b - 1 {
      MultiplesApart(a, b - 1, d);
    }
  }

  /** The last report; a transfer starts from 0. */
  function LastReport(reports: seq<nat>): nat {
    if reports == [] then 0 else reports[|reports| - 1]
  }

  /** Progress reports between the 0 at the start and the 100 of a committed image. */
  ghost predicate Rising(reports: seq<nat>) {
    && (forall i :: 0 <= i < |reports| ==> 1 <= reports[i] <= PROGRESS_MAX)
    && (forall i, j :: 0 <= i < j < |reports| ==> reports[i] < reports[j])
  }

  class TransferSession {
    const store: ImageStore
    const payloadOffset: nat
    const expectedCrc: bv32
    const payloadTotal: nat
    var prefix: seq<byte>
    var crcState: bv32
    var payloadBytes: nat
    var reportedBytes: nat
    var lastProgress: nat
    var finished: bool
    var committed: bool

    ghost var payload: seq<byte>    // what has been written
    ghost var reports: seq<nat>     // what has been reported

    /** The image on disk is the payload so far, and the register has seen exactly that payload. */
    ghost predicate Valid()
      reads this, store
    {
      && (!finished ==> !committed && store.image == Some(payload))
      && crcState == Update(INIT, payload)
      && payloadBytes == |payload|
      && Rising(reports)
      && lastProgress == LastReport(reports)
      && (payloadTotal > 0 ==> lastProgress <= Share(payloadBytes, payloadTotal))
    }

    /** Opens the image file, which truncates it. */
    constructor (store: ImageStore, prefix: seq<byte>, comp: ComponentInfo)
      modifies store
      ensures Valid() && !finished && payload == [] && reports == [] && reportedBytes == 0
      ensures this.store == store && this.prefix == prefix
      ensures payloadOffset == comp.offset && expectedCrc == comp.payloadCrc && payloadTotal == comp.payloadSize
    {
      this.store := store;
      payloadOffset, expectedCrc, payloadTotal := comp.offset, comp.payloadCrc, comp.payloadSize;
      this.prefix := prefix;
      crcState, payloadBytes, reportedBytes, lastProgress := 0xFFFFFFFF, 0, 0, 0;
      finished, committed := false, false;
      payload, reports := [], [];
      new;
      store.image := Some([]);
    }

    /** The header is never written: only what is buffered behind it is. */
    method Start(writeOk: bool, close: CloseAnswer) returns (done: Option<bool>)
      requires Valid() && !finished && payload == []
      modifies this, store
      ensures Valid() && reports == old(reports) && reportedBytes == old(reportedBytes)
      ensures writeOk || |old(prefix)| <= payloadOffset ==>
        done == None && !finished
        && payload == if |old(prefix)| > payloadOffset then old(prefix)[payloadOffset..] else []
      ensures !writeOk && |old(prefix)| > payloadOffset ==>
        done == Some(false) && finished && !committed
        && store.image == Discarded(old(prefix)[payloadOffset..], close)
    {
      done := None;
      if |prefix| > payloadOffset {
        done := WritePayload(prefix[payloadOffset..], writeOk, close);
        assert [] + prefix[payloadOffset..] == prefix[payloadOffset..];
        if done.Some? {
          return;
        }
      }
      prefix := [];
    }

    method OnRead(chunk: seq<byte>, writeOk: bool, close: CloseAnswer) returns (done: Option<bool>)
      requires Valid()
      modifies this, store
      ensures Valid() && reports == old(reports) && reportedBytes == old(reportedBytes)
      ensures old(finished) ==> done == None && finished && committed == old(committed)
      ensures old(finished) ==> store.image == old(store.image)
      ensures !old(finished) && writeOk ==> done == None && !finished && payload == old(payload) + chunk
      ensures !old(finished) && !writeOk ==>
        done == Some(false) && finished && !committed && store.image == Discarded(old(payload) + chunk, close)
    {
      if finished {
        return None;
      }
      done := WritePayload(chunk, writeOk, close);
    }

    /** End of stream; a read error is treated alike. */
    method OnEnd(close: CloseAnswer) returns (done: Option<bool>)
      requires Valid()
      modifies this, store
      ensures Valid() && finished && payload == old(payload) && reports == old(reports)
      ensures old(finished) ==> done == None && committed == old(committed) && store.image == old(store.image)
      ensures !old(finished) ==>
        && done == Some(committed)
        && committed == (Checksum(payload) == expectedCrc)
        && store.image == if committed then Some(OnDisk(payload, close)) else Discarded(payload, close)
    {
      if finished {
        return None;
      }
      done := VerifyAndFinish(close);
    }

    method OnTimeout(close: CloseAnswer) returns (done: Option<bool>)
      requires Valid()
      modifies this, store
      ensures Valid() && finished && reports == old(reports)
      ensures old(finished) ==> done == None && committed == old(committed) && store.image == old(store.image)
      ensures !old(finished) ==> done == Some(false) && !committed && store.image == Discarded(old(payload), close)
    {
      if finished {
        return None;
      }
      done := Finish(false, close);
    }

    method OnProgressTick() returns (report: Option<nat>)
      requires Valid()
      modifies this
      ensures Valid() && finished == old(finished) && committed == old(committed) && payload == old(payload)
      ensures old(finished) ==> report == None
      ensures reports == if report.Some? then old(reports) + [report.value] else old(reports)
      ensures report.Some? ==> lastProgress == report.value
      ensures !old(finished) ==>
        && reportedBytes == payloadBytes
        && report == NextReport(payloadBytes, payloadTotal, old(reportedBytes), old(lastProgress))
    {
      if finished {
        return None;
      }
      hide Update, Share;
      report := None;
      if payloadBytes != reportedBytes {
        reportedBytes := payloadBytes;
        var progress := NextProgress(payloadBytes, payloadTotal, lastProgress);
        if progress != lastProgress {
          lastProgress := progress;
          report := Some(progress);
          reports := reports + [progress];
        }
      }
    }

    method WritePayload(data: seq<byte>, writeOk: bool, close: CloseAnswer) returns (done: Option<bool>)
      requires Valid() && !finished
      modifies this, store
      ensures Valid() && reports == old(reports) && prefix == old(prefix) && reportedBytes == old(reportedBytes)
      ensures writeOk ==> done == None && !finished && payload == old(payload) + data
      ensures !writeOk ==>
        done == Some(false) && finished && !committed && store.image == Discarded(old(payload) + data, close)
    {
      hide Update;
      store.image := Some(store.image.value + data);
      if !writeOk {
        done := Finish(false, close);
        return;
      }
      crcState := Crc32Update(crcState, data);
      payloadBytes := payloadBytes + |data|;
      done := None;
      payload := payload + data;
      UpdateConcat(INIT, old(payload), data);
      if payloadTotal > 0 {
        ShareGrows(old(payloadBytes), payloadBytes, payloadTotal);
      }
    }

    method VerifyAndFinish(close: CloseAnswer) returns (done: Option<bool>)
      requires Valid() && !finished
      modifies this, store
      ensures Valid() && finished && payload == old(payload) && reports == old(reports)
      ensures done == Some(committed)
      ensures committed == (Checksum(payload) == expectedCrc)
      ensures store.image == if committed then Some(OnDisk(payload, close)) else Discarded(payload, close)
    {
      var computed := !crcState;
      hide Update;
      if computed != expectedCrc {
        done := Finish(false, close);
        return;
      }
      committed := true;
      done := Finish(true, close);
    }

    /** Closes the image file, and removes it unless it is committed. */
    method DiscardIfUncommitted(close: CloseAnswer)
      requires store.image.Some?
      modifies store
      ensures
        var written := old(store.image.value);
        store.image == if committed then Some(OnDisk(written, close)) else Discarded(written, close)
    {
      store.image := Some(OnDisk(store.image.value, close));
      if !committed && close.removeOk {
        store.image := None;
      }
    }

    method Finish(ok: bool, close: CloseAnswer) returns (done: Option<bool>)
      requires !finished ==> store.image.Some?
      modifies this`finished, store
      ensures finished
      ensures old(finished) ==> done == None && store.image == old(store.image)
      ensures !old(finished) ==>
        var written := old(store.image.value);
        && done == Some(ok)
        && store.image == if committed then Some(OnDisk(written, close)) else Discarded(written, close)
    {
      if finished {
        return None;
      }
      finished := true;
      DiscardIfUncommitted(close);
      done := Some(ok);
    }
  }

  // ----- The pipeline -----

  function Concat(chunks: seq<seq<byte>>): seq<byte> {
    if chunks == [] then [] else chunks[0] + Concat(chunks[1..])
  }

  lemma {:induction false} ConcatAppend(chunks: seq<seq<byte>>, more: seq<seq<byte>>)
    ensures Concat(chunks + more) == Concat(chunks) + Concat(more)
  {
    if chunks == [] {
      assert chunks + more == more;
    } else {
      assert (chunks + more)[1..] == chunks[1..] + more;
      ConcatAppend(chunks[1..], more);
    }
  }

  /** What an upload of `stream` does to the image on disk, seen whole. */
  function ImageAfter(stream: seq<byte>, before: Option<seq<byte>>): Option<seq<byte>> {
    match VerdictOn(stream)
    case Accept(comp) =>
      AcceptedHeaderIsComplete(stream);
      var payload := stream[comp.offset..];
      if Checksum(payload) == comp.payloadCrc then Some(payload) else None
    case _ => before
  }

  /** The verdict on what has been read decides what the whole stream does. */
  lemma ImageAfterRejected(read: seq<byte>, rest: seq<byte>, before: Option<seq<byte>>)
    requires VerdictOn(read) == Reject || (VerdictOn(read) == NeedMore && rest == [])
    ensures ImageAfter(read + rest, before) == before
  {
    hide VerdictOn;
    if rest == [] {
      assert read + rest == read;
    } else {
      VerdictIsStable(read, rest);
    }
  }

  lemma ImageAfterAccepted(read: seq<byte>, rest: seq<byte>, before: Option<seq<byte>>)
    requires VerdictOn(read).Accept?
    ensures VerdictOn(read).comp.offset <= |read|
    ensures
      var comp := VerdictOn(read).comp;
      var payload := read[comp.offset..] + rest;
      ImageAfter(read + rest, before) == if Checksum(payload) == comp.payloadCrc then Some(payload) else None
  {
    AcceptedHeaderIsComplete(read);
    VerdictIsStable(read, rest);
    hide VerdictOn, Checksum, HeaderSize;
    DropOfConcat(read, rest, VerdictOn(read).comp.offset);
  }

  lemma DropOfConcat(a: seq<byte>, b: seq<byte>, i: nat)
    requires i <= |a|
    ensures (a + b)[i..] == a[i..] + b
  {
  }

  lemma ConcatPrefix(chunks: seq<seq<byte>>, i: nat)
    requires i <= |chunks|
    ensures Concat(chunks) == Concat(chunks[..i]) + Concat(chunks[i..])
    ensures i == 0 ==> Concat(chunks[..i]) == []
    ensures i < |chunks| ==> Concat(chunks[..i + 1]) == Concat(chunks[..i]) + chunks[i]
  {
    assert chunks == chunks[..i] + chunks[i..];
    ConcatAppend(chunks[..i], chunks[i..]);
    if i < |chunks| {
      hide Concat;
      assert chunks[..i + 1] == chunks[..i] + [chunks[i]];
      ConcatAppend(chunks[..i], [chunks[i]]);
      ConcatOne(chunks[i]);
    }
  }

  lemma ConcatOne(chunk: seq<byte>)
    ensures Concat([chunk]) == chunk
  {
    assert Concat([chunk]) == chunk + [];
  }

  /** The peek session fed with chunks until it is done: how many it took and what it said. */
  method Peek(chunks: seq<seq<byte>>) returns (i: nat, done: Option<PeekOutcome>)
    ensures i <= |chunks|
    ensures
      var read := Concat(chunks[..i]);
      match VerdictOn(read)
      case NeedMore => i == |chunks| && done == Some(PeekOutcome(false, read, None))
      case Reject => done == Some(PeekOutcome(false, read, None))
      case Accept(comp) => done == Some(PeekOutcome(true, read, Some(comp)))
  {
    ConcatPrefix(chunks, 0);
    hide VerdictOn, Concat;
    var peek := new PeekSession();
    i, done := 0, None;
    while i < |chunks| && done == None
      invariant i <= |chunks|
      invariant peek.Valid() && fresh(peek) && peek.prefix == Concat(chunks[..i])
      invariant peek.finished == (done != None)
      invariant done == match VerdictOn(peek.prefix)
                        case NeedMore => None
                        case Reject => Some(PeekOutcome(false, peek.prefix, None))
                        case Accept(comp) => Some(PeekOutcome(true, peek.prefix, Some(comp)))
    {
      ConcatPrefix(chunks, i);
      done := peek.OnRead(chunks[i]);
      i := i + 1;
    }
    if done == None {
      done := peek.OnAbort();
    }
  }

  lemma Reassociate(a: seq<byte>, b: seq<byte>, c: seq<byte>)
    ensures (a + b) + c == a + (b + c)
  {
  }

  /** The transfer session fed with the rest of the stream, with no timeout and no write error. */
  method Receive(store: ImageStore, prefix: seq<byte>, comp: ComponentInfo, chunks: seq<seq<byte>>)
    requires comp.offset <= |prefix|
    modifies store
    ensures
      var payload := prefix[comp.offset..] + Concat(chunks);
      store.image == if Checksum(payload) == comp.payloadCrc then Some(payload) else None
  {
    hide Checksum, Update, Concat, TransferSession.Valid;
    ConcatPrefix(chunks, 0);
    var transfer := new TransferSession(store, prefix, comp);
    var done := transfer.Start(true, CLEAN);
    ghost var first := prefix[comp.offset..];
    assert transfer.payload == first + [];
    var k := 0;
    while k < |chunks|
      invariant k <= |chunks|
      invariant transfer.Valid() && !transfer.finished && fresh(transfer) && transfer.store == store
      invariant transfer.expectedCrc == comp.payloadCrc
      invariant transfer.payload == first + Concat(chunks[..k])
    {
      ConcatPrefix(chunks, k);
      done := transfer.OnRead(chunks[k], true, CLEAN);
      k := k + 1;
      Reassociate(first, Concat(chunks[..k - 1]), chunks[k - 1]);
    }
    assert chunks[..k] == chunks;
    done := transfer.OnEnd(CLEAN);
  }

  /** The two sessions together do that for every way the stream is cut into reads. */
  method Upload(chunks: seq<seq<byte>>, before: Option<seq<byte>>) returns (after: Option<seq<byte>>)
    ensures after == ImageAfter(Concat(chunks), before)
  {
    var i, outcome := Peek(chunks);
    ghost var read, rest := Concat(chunks[..i]), Concat(chunks[i..]);
    ConcatPrefix(chunks, i);
    hide VerdictOn, Checksum, Concat, ImageAfter;
    if !outcome.value.ok {
      if i == |chunks| {
        ConcatPrefix(chunks[i..], 0);
      }
      ImageAfterRejected(read, rest, before);
      return before;
    }
    ImageAfterAccepted(read, rest, before);
    var store := new ImageStore(before);
    Receive(store, outcome.value.prefix, outcome.value.comp.value, chunks[i..]);
    after := store.image;
  }

  /** A payload altered inside 32 consecutive bits is never left on disk; the intended one is. */
  lemma AlteredPayloadNotCommitted(
      header: seq<byte>, intended: seq<byte>, received: seq<byte>, k: nat, before: Option<seq<byte>>)
    requires VerdictOn(header).Accept? && VerdictOn(header).comp.offset == |header|
    requires VerdictOn(header).comp.payloadCrc == Checksum(intended)
    requires DifferInBurst(BitsOf(intended), BitsOf(received), k)
    ensures ImageAfter(header + intended, before) == Some(intended)
    ensures ImageAfter(header + received, before) == None
  {
    ImageAfterAccepted(header, intended, before);
    ImageAfterAccepted(header, received, before);
    hide VerdictOn, Checksum, ImageAfter;
    BurstErrorDetected(intended, received, k);
    assert [] + intended == intended && [] + received == received;
  }
}

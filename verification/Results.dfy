/** Archiving the result files of a run: in one go, or one block per turn of the event loop. */
module Results {
  import opened Wrappers
  import opened MachineWord

  const ARCHIVE_NAME := "ist_results.tar.gz"
  const BUF_SIZE: nat := 65536
  const MAX_RESULT_SIZE: nat := 50 * 1024 * 1024

  // ----- The results directory -----

  datatype Node = File(data: seq<byte>) | Other

  datatype Entry = Entry(name: string, data: seq<byte>)

  /** The archive file: absent, being written (whole entries and one begun), closed, or left behind by a
      failure, with the entries that are whole in it. */
  datatype ArchiveFile =
    | NoArchive
    | Partial(whole: seq<Entry>, begun: Option<Entry>)
    | Complete(entries: seq<Entry>)
    | Torn(kept: seq<Entry>)

  /** The results directory; `archive` is the file named ARCHIVE_NAME, `nodes` is everything else. */
  class ResultsDir {
    var nodes: map<string, Node>
    var archive: ArchiveFile

    constructor (nodes: map<string, Node>, archive: ArchiveFile)
      ensures this.nodes == nodes && this.archive == archive
    {
      this.nodes, this.archive := nodes, archive;
    }
  }

  predicate Archivable(name: string, nodes: map<string, Node>) {
    name != ARCHIVE_NAME && name in nodes && nodes[name].File?
  }

  /** The files to archive, in the order the directory lists them. */
  function Collected(listing: seq<string>, nodes: map<string, Node>): (files: seq<string>)
    ensures forall i :: 0 <= i < |files| ==> files[i] in nodes && nodes[files[i]].File?
    ensures forall name :: name in files <==> name in listing && Archivable(name, nodes)
    ensures Distinct(listing) ==> Distinct(files)
  {
    if listing == [] then []
    else
      var before := listing[..|listing| - 1];
      var last := listing[|listing| - 1];
      Collected(before, nodes) + if Archivable(last, nodes) then [last] else []
  }

  ghost predicate Distinct(names: seq<string>) {
    forall i, j :: 0 <= i < j < |names| ==> names[i] != names[j]
  }

  method CollectResultFiles(listing: seq<string>, nodes: map<string, Node>) returns (files: seq<string>)
    ensures files == Collected(listing, nodes)
    ensures forall name :: name in files <==>
      name in listing && name != "ist_results.tar.gz" && name in nodes && nodes[name].File?
  {
    files := [];
    for i := 0 to |listing|
      invariant files == Collected(listing[..i], nodes)
    {
      assert listing[..i + 1][..i] == listing[..i];
      if listing[i] == ARCHIVE_NAME {
        continue;
      }
      if listing[i] !in nodes || !nodes[listing[i]].File? {
        continue;
      }
      files := files + [listing[i]];
    }
    assert listing[..|listing|] == listing;
  }

  // ----- What the system calls answer -----

  /** One read and the write of what it gave. A read gives at most what it is asked for. */
  datatype PumpAnswer = ReadFails | WriteFails | Block(n: nat)

  /** The answers to the calls made for one file. */
  datatype FilePlan = FilePlan(statOk: bool, headerOk: bool, openOk: bool, pumps: seq<PumpAnswer>, removeOk: bool)

  /** What becomes of an archive that failed. It is removed when it is finished, and again when the writer
      goes; nobody asks whether that worked. If neither does, so many of its entries are on disk whole. */
  datatype Remains = Remains(removeOk: bool, againOk: bool, flushed: nat)

  datatype Script = Script(openOk: bool, plans: seq<FilePlan>, closeOk: bool, remains: Remains)

  function PlanFor(plans: seq<FilePlan>, i: nat): FilePlan {
    if i < |plans| then plans[i] else FilePlan(true, true, true, [], true)
  }

  function NextPump(pumps: seq<PumpAnswer>): PumpAnswer {
    if pumps == [] then Block(BUF_SIZE) else pumps[0]
  }

  function LaterPumps(pumps: seq<PumpAnswer>): seq<PumpAnswer> {
    if pumps == [] then [] else pumps[1..]
  }

  /** How much a read gives when `left` bytes are left. */
  function ReadSize(n: nat, left: nat): (size: nat)
    requires left > 0
    ensures 0 < size <= left && size <= BUF_SIZE && (0 < n <= left && n <= 65536 ==> size == n)
  {
    var wanted := if n == 0 then 1 else if n > BUF_SIZE then BUF_SIZE else n;
    if wanted < left then wanted else left
  }

  // ----- Reference: what archiving comes to -----

  /** Whether the rest of a file, of `left` bytes, gets through. */
  predicate Transfers(pumps: seq<PumpAnswer>, left: nat)
    decreases left
  {
    match NextPump(pumps)
    case ReadFails => false
    case WriteFails => left == 0
    case Block(n) => left == 0 || Transfers(LaterPumps(pumps), left - ReadSize(n, left))
  }

  /** A file gets through if no call fails; and not if one fails after blocks that cannot have been all of it. */
  lemma {:induction false} TransfersUnlessFailing(pumps: seq<PumpAnswer>, left: nat, k: nat)
    requires k <= |pumps| && forall i :: 0 <= i < k ==> pumps[i].Block?
    ensures k == |pumps| ==> Transfers(pumps, left)
    ensures k < |pumps| && !pumps[k].Block? && 65536 * k < left ==> !Transfers(pumps, left)
    decreases left
  {
    if left > 0 {
      if pumps == [] {
        TransfersUnlessFailing([], left - ReadSize(BUF_SIZE, left), 0);
      } else if k > 0 {
        TransfersUnlessFailing(pumps[1..], left - ReadSize(pumps[0].n, left), k - 1);
      }
    }
  }

  predicate EntrySucceeds(plan: FilePlan, data: seq<byte>) {
    plan.statOk && plan.headerOk && plan.openOk && Transfers(plan.pumps, |data|)
  }

  /** How many files get into the archive, given that the first i do. */
  function Taken(entries: seq<Entry>, plans: seq<FilePlan>, i: nat): (n: nat)
    requires i <= |entries|
    ensures i <= n <= |entries|
    ensures forall k :: i <= k < n ==> EntrySucceeds(PlanFor(plans, k), entries[k].data)
    ensures n < |entries| ==> !EntrySucceeds(PlanFor(plans, n), entries[n].data)
    decreases |entries| - i
  {
    if i < |entries| && EntrySucceeds(PlanFor(plans, i), entries[i].data) then Taken(entries, plans, i + 1) else i
  }

  /** The files as archive entries. */
  function Whole(files: seq<string>, nodes: map<string, Node>): (entries: seq<Entry>)
    requires forall i :: 0 <= i < |files| ==> files[i] in nodes && nodes[files[i]].File?
    ensures |entries| == |files|
    ensures forall i :: 0 <= i < |files| ==> entries[i] == Entry(files[i], nodes[files[i]].data)
  {
    seq(|files|, i requires 0 <= i < |files| => Entry(files[i], nodes[files[i]].data))
  }

  /** The directory once the first k files are archived. */
  function Remaining(nodes: map<string, Node>, files: seq<string>, plans: seq<FilePlan>, k: nat): map<string, Node>
    requires k <= |files|
  {
    nodes - set i | 0 <= i < k && PlanFor(plans, i).removeOk :: files[i]
  }

  predicate Discarded(r: Remains) {
    r.removeOk || r.againOk
  }

  /** The first entries, as many as were flushed. */
  function Flushed(whole: seq<Entry>, r: Remains): seq<Entry> {
    whole[..if r.flushed < |whole| then r.flushed else |whole|]
  }

  /** What a failed archive with these whole entries leaves. */
  function LeftBehind(whole: seq<Entry>, r: Remains): ArchiveFile {
    if Discarded(r) then NoArchive else Torn(Flushed(whole, r))
  }

  datatype Outcome = Outcome(ok: bool, nodes: map<string, Node>, archive: ArchiveFile)

  function ArchiveOutcome(listing: seq<string>, nodes: map<string, Node>, archive: ArchiveFile,
                          script: Script): Outcome {
    var files := Collected(listing, nodes);
    if files == [] || !script.openOk then
      Outcome(false, nodes, archive)
    else
      var entries := Whole(files, nodes);
      var taken := Taken(entries, script.plans, 0);
      var ok := taken == |files| && script.closeOk;
      Outcome(ok, Remaining(nodes, files, script.plans, taken),
              if ok then Complete(entries) else LeftBehind(entries[..taken], script.remains))
  }

  /** Archiving succeeds exactly when there is something to archive and every call does; then the
      archive is of every collected file, in order. Failure before the archive was opened leaves what was
      there; failure after that leaves no archive exactly if one of the two removals works, and otherwise a
      torn one with no more than the files taken so far. No other file goes away, and none changes. */
  lemma OutcomeMeaning(listing: seq<string>, nodes: map<string, Node>, archive: ArchiveFile, script: Script)
    ensures
      var o := ArchiveOutcome(listing, nodes, archive, script);
      var files := Collected(listing, nodes);
      && (o.ok <==>
            && files != [] && script.openOk && script.closeOk
            && forall i :: 0 <= i < |files| ==> EntrySucceeds(PlanFor(script.plans, i), Whole(files, nodes)[i].data))
      && (o.ok ==> o.archive == Complete(Whole(files, nodes)))
      && (files == [] || !script.openOk ==> o.archive == archive)
      && (!o.ok && files != [] && script.openOk ==>
            && (o.archive == NoArchive <==> script.remains.removeOk || script.remains.againOk)
            && (o.archive != NoArchive ==>
                  && o.archive.Torn? && o.archive.kept <= Whole(files, nodes)
                  && |o.archive.kept| <= script.remains.flushed))
      && (forall name :: name in nodes && name !in files ==> name in o.nodes)
      && (forall name :: name in o.nodes ==> name in nodes && o.nodes[name] == nodes[name])
  {
  }

  /** No collected file is gone: each is in the directory or whole in an archive, closed or torn. */
  ghost predicate NothingLost(listing: seq<string>, nodes: map<string, Node>, o: Outcome) {
    forall name :: name in Collected(listing, nodes) ==>
      || (name in o.nodes && o.nodes[name] == nodes[name])
      || (o.archive.Complete? && Entry(name, nodes[name].data) in o.archive.entries)
      || (o.archive.Torn? && Entry(name, nodes[name].data) in o.archive.kept)
  }

  /** A file that was archived and removed is lost when archiving fails, unless it is among those flushed
      to an archive that could not be removed. */
  predicate LostAt(script: Script, i: nat) {
    PlanFor(script.plans, i).removeOk && (Discarded(script.remains) || i >= script.remains.flushed)
  }

  /** Files are lost exactly if archiving fails after one was archived and removed: the archive is
      deleted or torn, and the file was already gone. */
  lemma LostWhenFailingLate(listing: seq<string>, nodes: map<string, Node>, archive: ArchiveFile, script: Script)
    requires Distinct(listing) && Collected(listing, nodes) != [] && script.openOk
    ensures
      var o := ArchiveOutcome(listing, nodes, archive, script);
      var taken := Taken(Whole(Collected(listing, nodes), nodes), script.plans, 0);
      NothingLost(listing, nodes, o) <==> o.ok || forall i :: 0 <= i < taken ==> !LostAt(script, i)
  {
    hide Transfers, EntrySucceeds, Collected;
    var files := Collected(listing, nodes);
    var entries := Whole(files, nodes);
    var o := ArchiveOutcome(listing, nodes, archive, script);
    var taken := Taken(entries, script.plans, 0);
    if o.ok {
      forall name | name in files
        ensures Entry(name, nodes[name].data) in o.archive.entries
      {
        var i :| 0 <= i < |files| && files[i] == name;
        assert o.archive.entries[i] == Entry(name, nodes[name].data);
      }
    } else if i :| 0 <= i < taken && LostAt(script, i) {
      assert files[i] in files && files[i] !in o.nodes;
      if o.archive.Torn? {
        NotFlushed(files, nodes, entries[..taken], i, script.remains);
      }
    } else {
      forall name | name in files && !(name in o.nodes && o.nodes[name] == nodes[name])
        ensures o.archive.Torn? && Entry(name, nodes[name].data) in o.archive.kept
      {
        var i :| 0 <= i < taken && PlanFor(script.plans, i).removeOk && files[i] == name;
        assert !LostAt(script, i);
        assert o.archive.kept[i] == entries[i];
      }
    }
  }

  lemma NotFlushed(files: seq<string>, nodes: map<string, Node>, whole: seq<Entry>, i: nat, r: Remains)
    requires Distinct(files) && forall k :: 0 <= k < |files| ==> files[k] in nodes && nodes[files[k]].File?
    requires r.flushed <= i < |whole| <= |files|
    requires forall k :: 0 <= k < |whole| ==> whole[k].name == files[k]
    ensures Entry(files[i], nodes[files[i]].data) !in Flushed(whole, r)
  {
  }

  lemma TwoFiles(nodes: map<string, Node>)
    requires "a" in nodes && nodes["a"].File? && "b" in nodes && nodes["b"].File?
    ensures Collected(["a"], nodes) == ["a"] && Collected(["a", "b"], nodes) == ["a", "b"]
  {
    assert ["a"][..0] == [] && ["a", "b"][..1] == ["a"];
    assert Collected([], nodes) == [];
    assert Collected(["a"], nodes) == ["a"];
  }

  lemma {:induction false} FirstOnly(entries: seq<Entry>, first: FilePlan, second: FilePlan)
    requires |entries| == 2 && EntrySucceeds(first, entries[0].data) && !EntrySucceeds(second, entries[1].data)
    ensures Taken(entries, [first, second], 0) == 1
  {
    hide Transfers;
    var plans := [first, second];
    assert PlanFor(plans, 0) == first && PlanFor(plans, 1) == second;
    assert Taken(entries, plans, 1) == 1;
  }

  lemma EmptySucceeds(plan: FilePlan)
    requires plan.pumps == []
    ensures EntrySucceeds(plan, []) == (plan.statOk && plan.headerOk && plan.openOk)
  {
  }

  /** For example: the first of two files is archived and removed, the second cannot be opened. */
  lemma LosesFirstFile(archive: ArchiveFile)
    ensures
      var nodes := map["a" := File([]), "b" := File([])];
      var plans := [FilePlan(true, true, true, [], true), FilePlan(true, true, false, [], true)];
      var o := ArchiveOutcome(["a", "b"], nodes, archive, Script(true, plans, true, Remains(true, true, 0)));
      "a" !in o.nodes && o.archive == NoArchive
  {
    var nodes := map["a" := File([]), "b" := File([])];
    var first, second := FilePlan(true, true, true, [], true), FilePlan(true, true, false, [], true);
    hide Transfers, Collected, EntrySucceeds, Taken;
    TwoFiles(nodes);
    var files := Collected(["a", "b"], nodes);
    EmptySucceeds(first);
    EmptySucceeds(second);
    FirstOnly(Whole(files, nodes), first, second);
    assert files[0] == "a" && PlanFor([first, second], 0) == first;
  }

  /** And the one file is archived and removed, the archive cannot be closed, and not be removed either. */
  lemma LeavesTornArchive(archive: ArchiveFile)
    ensures
      var nodes := map["a" := File([])];
      var o := ArchiveOutcome(["a"], nodes, archive, Script(true, [], false, Remains(false, false, 0)));
      "a" !in o.nodes && o.archive == Torn([])
  {
    var nodes := map["a" := File([])];
    hide Transfers, Collected, EntrySucceeds, Taken;
    OneFile(nodes);
    EmptySucceeds(PlanFor([], 0));
    OnlyOne(Whole(Collected(["a"], nodes), nodes));
    assert Collected(["a"], nodes)[0] == "a" && PlanFor([], 0).removeOk;
  }

  lemma OneFile(nodes: map<string, Node>)
    requires "a" in nodes && nodes["a"].File?
    ensures Collected(["a"], nodes) == ["a"]
  {
    assert ["a"][..0] == [];
  }

  lemma OnlyOne(entries: seq<Entry>)
    requires |entries| == 1 && EntrySucceeds(PlanFor([], 0), entries[0].data)
    ensures Taken(entries, [], 0) == 1
  {
    hide EntrySucceeds;
    assert Taken(entries, [], 1) == 1;
  }

  /** Conservation: each collected file is still in the directory, or whole in the archive. */
  ghost predicate Conserved(listing: seq<string>, nodes: map<string, Node>, left: map<string, Node>,
                            archive: ArchiveFile) {
    forall name :: name in Collected(listing, nodes) ==>
      || (name in left && left[name] == nodes[name])
      || (archive.Partial? && Entry(name, nodes[name].data) in archive.whole)
  }

  /** The first k files are in the archive, and gone from the directory where removing them worked. */
  ghost predicate Archived(listing: seq<string>, nodes: map<string, Node>, plans: seq<FilePlan>, k: nat,
                           dir: ResultsDir)
    reads dir
  {
    var files := Collected(listing, nodes);
    && k <= |files|
    && Taken(Whole(files, nodes), plans, 0) == Taken(Whole(files, nodes), plans, k)
    && dir.nodes == Remaining(nodes, files, plans, k)
    && dir.archive.Partial? && dir.archive.whole == Whole(files, nodes)[..k]
  }

  lemma ArchivedConserves(listing: seq<string>, nodes: map<string, Node>, plans: seq<FilePlan>, k: nat, dir: ResultsDir)
    requires Archived(listing, nodes, plans, k, dir)
    ensures Conserved(listing, nodes, dir.nodes, dir.archive)
  {
    var files := Collected(listing, nodes);
    forall name | name in files && !(name in dir.nodes && dir.nodes[name] == nodes[name])
      ensures Entry(name, nodes[name].data) in dir.archive.whole
    {
      var i :| 0 <= i < k && files[i] == name;
      assert dir.archive.whole[i] == Entry(name, nodes[name].data);
    }
  }

  // ----- The archive writer -----

  datatype Pump = More | Done | Error

  /** The pump is inside `entry`: what it copied and what is left make up its data, and whether the
      rest gets through decides whether the entry does. */
  ghost predicate Copying(entry: Entry, plan: FilePlan, archive: ArchiveFile, fd: Option<seq<byte>>,
                          pumps: seq<PumpAnswer>) {
    && archive.Partial? && archive.begun.Some? && fd.Some?
    && archive.begun.value.name == entry.name && archive.begun.value.data + fd.value == entry.data
    && Transfers(pumps, |fd.value|) == EntrySucceeds(plan, entry.data)
  }

  class ArchiveWriter {
    const dir: ResultsDir
    var handle: bool                    // the libarchive handle is held
    var fd: Option<seq<byte>>           // the file being read: what is left of it
    var pumps: seq<PumpAnswer>          // the answers to come for that file
    var isOpen: bool
    var failed: bool
    var finishedOk: bool

    constructor (dir: ResultsDir)
      ensures this.dir == dir && !handle && !isOpen && !failed && !finishedOk && fd == None
    {
      this.dir := dir;
      handle, fd, pumps, isOpen, failed, finishedOk := false, None, [], false, false, false;
    }

    method Open(openOk: bool) returns (ok: bool)
      requires !isOpen && !handle
      modifies this, dir
      ensures ok == openOk == handle == isOpen && dir.nodes == old(dir.nodes)
      ensures failed == old(failed) && fd == old(fd)
      ensures dir.archive == if ok then Partial([], None) else old(dir.archive)
    {
      handle := true;
      if !openOk {
        handle := false;
        return false;
      }
      isOpen := true;
      dir.archive := Partial([], None);
      return true;
    }

    method BeginEntry(name: string, plan: FilePlan) returns (ok: bool)
      requires handle && dir.archive.Partial? && dir.archive.begun == None
      requires name in dir.nodes && dir.nodes[name].File?
      modifies this, dir`archive
      ensures ok == (plan.statOk && plan.headerOk && plan.openOk)
      ensures handle && isOpen == old(isOpen) && failed == (old(failed) || !ok)
      ensures dir.archive.Partial? && dir.archive.whole == old(dir.archive.whole)
      ensures ok ==> dir.archive.begun == Some(Entry(name, []))
      ensures ok ==> fd == Some(dir.nodes[name].data) && pumps == plan.pumps
    {
      if !plan.statOk || !plan.headerOk {
        failed := true;
        return false;
      }
      dir.archive := Partial(dir.archive.whole, Some(Entry(name, [])));
      if !plan.openOk {
        failed := true;
        return false;
      }
      fd, pumps := Some(dir.nodes[name].data), plan.pumps;
      return true;
    }

    /** Copies one block, or closes the file at its end. */
    method PumpBlock() returns (p: Pump)
      requires handle && fd.Some? && dir.archive.Partial? && dir.archive.begun.Some?
      modifies this, dir`archive
      ensures handle && isOpen == old(isOpen) && failed == (old(failed) || p == Error)
      ensures dir.archive.Partial?
      ensures
        var begun := old(dir.archive.begun.value);
        var left := old(fd.value);
        match p
        case Error => !Transfers(old(pumps), |left|) && dir.archive.whole == old(dir.archive.whole)
        case Done =>
          && Transfers(old(pumps), |left|)
          && left == [] && fd == None && dir.archive == Partial(old(dir.archive.whole) + [begun], None)
        case More =>
          && fd.Some? && |fd.value| < |left| && dir.archive.begun.Some?
          && dir.archive.whole == old(dir.archive.whole) && dir.archive.begun.value.name == begun.name
          && dir.archive.begun.value.data + fd.value == begun.data + left
          && Transfers(pumps, |fd.value|) == Transfers(old(pumps), |left|)
    {
      var answer := NextPump(pumps);
      if answer == ReadFails {
        failed := true;
        return Error;
      }
      var left := fd.value;
      var begun := dir.archive.begun.value;
      if left == [] {
        fd := None;
        dir.archive := Partial(dir.archive.whole + [begun], None);
        return Done;
      }
      if answer == WriteFails {
        failed := true;
        return Error;
      }
      var n := ReadSize(answer.n, |left|);
      pumps := LaterPumps(pumps);
      fd := Some(left[n..]);
      dir.archive := Partial(dir.archive.whole, Some(Entry(begun.name, begun.data + left[..n])));
      assert begun.data + left == begun.data + left[..n] + left[n..];
      return More;
    }

    /** Pumps until the file is copied or an error. */
    method PumpAll(ghost entry: Entry, ghost plan: FilePlan) returns (p: Pump)
      requires handle && !failed && Copying(entry, plan, dir.archive, fd, pumps)
      modifies this, dir`archive
      ensures handle && isOpen == old(isOpen) && failed == (p == Error) == !EntrySucceeds(plan, entry.data)
      ensures p == Done ==> dir.archive == Partial(old(dir.archive.whole) + [entry], None)
      ensures p == Error ==> dir.archive.Partial? && dir.archive.whole == old(dir.archive.whole)
      ensures p != More
    {
      hide Transfers, EntrySucceeds;
      p := More;
      while p == More
        invariant handle && isOpen == old(isOpen) && failed == (p == Error)
        invariant dir.archive.Partial?
        invariant p == More ==> Copying(entry, plan, dir.archive, fd, pumps)
        invariant p == More ==> dir.archive.whole == old(dir.archive.whole)
        invariant p == Done ==>
          EntrySucceeds(plan, entry.data) && dir.archive == Partial(old(dir.archive.whole) + [entry], None)
        invariant p == Error ==> !EntrySucceeds(plan, entry.data) && dir.archive.whole == old(dir.archive.whole)
        decreases if p == More then 1 + |fd.value| else 0
      {
        ghost var begun := dir.archive.begun.value;
        assert begun.data + [] == begun.data;
        p := PumpBlock();
      }
    }

    method Finish(closeOk: bool, remains: Remains) returns (ok: bool)
      requires handle == isOpen && (isOpen ==> dir.archive.Partial? && (failed || dir.archive.begun == None))
      modifies this, dir`archive
      ensures !handle && isOpen == old(isOpen) && ok == finishedOk
      ensures ok == ((!isOpen || closeOk) && !old(failed))
      ensures !isOpen ==> dir.archive == old(dir.archive)
      ensures isOpen ==>
        dir.archive == if ok then Complete(old(dir.archive.whole))
                       else if remains.removeOk then NoArchive
                       else Torn(Flushed(old(dir.archive.whole), remains))
    {
      var closed := true;
      if handle {
        closed := closeOk;
        handle := false;
      }
      ok := closed && !failed;
      if isOpen {
        dir.archive := if ok then Complete(dir.archive.whole) else Torn(Flushed(dir.archive.whole, remains));
        if !ok && remains.removeOk {
          dir.archive := NoArchive;
        }
      }
      finishedOk := ok;
    }

    /** The writer goes: an archive that was opened and not finished well is removed again. */
    method Drop(remains: Remains)
      modifies dir`archive
      ensures dir.archive == if isOpen && !finishedOk && remains.againOk then NoArchive else old(dir.archive)
    {
      if isOpen && !finishedOk && remains.againOk {
        dir.archive := NoArchive;
      }
    }
  }

  // ----- In one go -----

  /** File k is next: it is still in the directory, as it was. */
  lemma NextRemains(listing: seq<string>, nodes: map<string, Node>, plans: seq<FilePlan>, k: nat)
    requires Distinct(listing) && k < |Collected(listing, nodes)|
    ensures
      var files := Collected(listing, nodes);
      var left := Remaining(nodes, files, plans, k);
      && files[k] in left && left[files[k]] == nodes[files[k]]
      && Remaining(nodes, files, plans, k + 1) == if PlanFor(plans, k).removeOk then left - {files[k]} else left
  {
  }

  lemma ArchivedNone(listing: seq<string>, nodes: map<string, Node>, archive: ArchiveFile, script: Script,
                     dir: ResultsDir)
    requires dir.nodes == nodes
    ensures dir.archive == Partial([], None) ==> Archived(listing, nodes, script.plans, 0, dir)
    ensures Collected(listing, nodes) == [] || !script.openOk ==>
      ArchiveOutcome(listing, nodes, archive, script) == Outcome(false, nodes, archive)
  {
    hide Transfers, EntrySucceeds;
    var files := Collected(listing, nodes);
    assert Whole(files, nodes)[..0] == [] && nodes == Remaining(nodes, files, script.plans, 0);
  }

  /** Archiving one more file. */
  lemma ArchivedStep(listing: seq<string>, nodes: map<string, Node>, plans: seq<FilePlan>, k: nat, dir: ResultsDir)
    requires Archived(listing, nodes, plans, k, dir) && k < |Collected(listing, nodes)|
    ensures
      var entries := Whole(Collected(listing, nodes), nodes);
      && Taken(entries, plans, k)
         == (if EntrySucceeds(PlanFor(plans, k), entries[k].data) then Taken(entries, plans, k + 1) else k)
      && entries[..k] + [entries[k]] == entries[..k + 1]
  {
    hide Transfers, EntrySucceeds;
  }

  /** What archiving comes to when it stops with k files in the archive. */
  lemma StopsAt(listing: seq<string>, nodes: map<string, Node>, archive: ArchiveFile, script: Script, k: nat,
                dir: ResultsDir)
    requires Archived(listing, nodes, script.plans, k, dir) && script.openOk && Collected(listing, nodes) != []
    requires k < |Collected(listing, nodes)| ==> Taken(Whole(Collected(listing, nodes), nodes), script.plans, k) == k
    ensures
      var ok := k == |Collected(listing, nodes)| && script.closeOk;
      ArchiveOutcome(listing, nodes, archive, script)
        == Outcome(ok, dir.nodes,
                   if ok then Complete(dir.archive.whole) else LeftBehind(dir.archive.whole, script.remains))
  {
    hide Transfers, EntrySucceeds, Collected, Remaining;
    var entries := Whole(Collected(listing, nodes), nodes);
    assert entries[..|entries|] == entries;
  }

  method ArchiveResults(dir: ResultsDir, listing: seq<string>, script: Script) returns (ok: bool)
    requires Distinct(listing)
    modifies dir
    ensures Outcome(ok, dir.nodes, dir.archive) == ArchiveOutcome(listing, old(dir.nodes), old(dir.archive), script)
  {
    hide Transfers, Collected, Remaining, Taken, ArchiveOutcome, PlanFor;
    ghost var nodes := dir.nodes;
    ArchivedNone(listing, nodes, dir.archive, script, dir);
    var files := CollectResultFiles(listing, dir.nodes);
    if files == [] {
      return false;
    }
    var writer := new ArchiveWriter(dir);
    var openOk := writer.Open(script.openOk);
    if !openOk {
      return false;
    }
    var i := 0;
    ghost var entries := Whole(files, nodes);
    ArchivedNone(listing, nodes, old(dir.archive), script, dir);
    while i < |files|
      invariant 0 <= i <= |files| && writer.handle && writer.isOpen && !writer.failed
      invariant Archived(listing, nodes, script.plans, i, dir) && dir.archive.begun == None
    {
      NextRemains(listing, nodes, script.plans, i);
      ArchivedStep(listing, nodes, script.plans, i, dir);
      var plan := PlanFor(script.plans, i);
      var begun := writer.BeginEntry(files[i], plan);
      if !begun {
        break;
      }
      var p := writer.PumpAll(entries[i], plan);
      if p == Error {
        break;
      }
      if plan.removeOk {
        dir.nodes := dir.nodes - {files[i]};
      }
      i := i + 1;
    }
    StopsAt(listing, nodes, old(dir.archive), script, i, dir);
    ok := writer.Finish(script.closeOk, script.remains);
    writer.Drop(script.remains);
  }

  // ----- One block per turn -----

  /** An upper bound on the turns spent on the files from k on. */
  ghost function Work(entries: seq<Entry>, k: nat): nat
    requires k <= |entries|
    decreases |entries| - k
  {
    if k == |entries| then 0 else 2 + |entries[k].data| + Work(entries, k + 1)
  }

  class ArchiveSession {
    const dir: ResultsDir
    const listing: seq<string>      // what listing the directory will give
    const script: Script
    const writer: ArchiveWriter
    var files: seq<string>
    var index: nat
    var started: bool
    var entryOpen: bool
    var finished: bool
    var reports: seq<bool>          // what the completion callback was called with
    ghost const nodes: map<string, Node>
    ghost const archive: ArchiveFile

    ghost function Repr(): set<object> {
      {this, dir, writer}
    }

    ghost function Result(): Outcome {
      ArchiveOutcome(listing, nodes, archive, script)
    }

    ghost predicate Valid()
      reads Repr()
    {
      && Distinct(listing) && writer.dir == dir
      && if finished then reports == [Result().ok] && dir.nodes == Result().nodes && dir.archive == Result().archive
         else reports == [] && if started then Archiving() else Fresh()
    }

    ghost predicate Fresh()
      reads Repr()
    {
      && !entryOpen && index == 0 && dir.nodes == nodes && dir.archive == archive
      && !writer.isOpen && !writer.handle && !writer.failed
    }

    ghost predicate Archiving()
      reads Repr()
    {
      && files == Collected(listing, nodes) != [] && script.openOk
      && writer.isOpen && writer.handle && !writer.failed
      && Archived(listing, nodes, script.plans, index, dir)
      && if entryOpen then
           && index < |files|
           && Copying(Whole(files, nodes)[index], PlanFor(script.plans, index), dir.archive, writer.fd, writer.pumps)
         else
           dir.archive.begun == None
    }

    constructor (dir: ResultsDir, listing: seq<string>, script: Script)
      requires Distinct(listing)
      ensures Valid() && !finished && !started && this.dir == dir && this.listing == listing && this.script == script
      ensures nodes == dir.nodes && archive == dir.archive && fresh(this) && fresh(writer)
    {
      this.dir, this.listing, this.script := dir, listing, script;
      nodes, archive := dir.nodes, dir.archive;
      writer := new ArchiveWriter(dir);
      files, index, started, entryOpen, finished, reports := [], 0, false, false, false, [];
    }

    lemma Conserves()
      requires Valid() && !finished
      ensures Conserved(listing, nodes, dir.nodes, dir.archive)
    {
      if started {
        ArchivedConserves(listing, nodes, script.plans, index, dir);
      }
    }

    /** An upper bound on the turns left. */
    ghost function Rank(): nat
      requires Valid()
      reads Repr()
    {
      var entries := Whole(Collected(listing, nodes), nodes);
      if finished then 0
      else if !started then 2 + Work(entries, 0)
      else if !entryOpen then 1 + Work(entries, index)
      else 2 + |writer.fd.value| + Work(entries, index + 1)
    }

    /** One turn of the event loop: at most one block is copied. */
    method Step()
      requires Valid()
      modifies Repr()
      ensures Valid() && (old(finished) ==> finished && reports == old(reports))
      ensures !old(finished) ==> Rank() < old(Rank())
    {
      if finished {
        return;
      }
      if !started {
        StartArchive();
      } else if entryOpen {
        CopyBlock();
      } else if index >= |files| {
        StopsAt(listing, nodes, archive, script, index, dir);
        Finish(true);
      } else {
        OpenEntry();
      }
    }

    method StartArchive()
      requires Valid() && !finished && !started
      modifies Repr()
      ensures Valid() && Rank() < old(Rank())
    {
      files := CollectResultFiles(listing, dir.nodes);
      if files == [] {
        Finish(false);
        return;
      }
      var openOk := writer.Open(script.openOk);
      if !openOk {
        Finish(false);
        return;
      }
      started := true;
      ArchivedNone(listing, nodes, archive, script, dir);
    }

    method OpenEntry()
      requires Valid() && !finished && started && !entryOpen && index < |files|
      modifies Repr()
      ensures Valid() && Rank() < old(Rank())
    {
      hide Transfers, Collected, Remaining, Taken, ArchiveOutcome;
      NextRemains(listing, nodes, script.plans, index);
      ArchivedStep(listing, nodes, script.plans, index, dir);
      var begun := writer.BeginEntry(files[index], PlanFor(script.plans, index));
      if !begun {
        StopsAt(listing, nodes, archive, script, index, dir);
        Finish(false);
        return;
      }
      entryOpen := true;
    }

    method CopyBlock()
      requires Valid() && !finished && started && entryOpen
      modifies Repr()
      ensures Valid() && Rank() < old(Rank())
    {
      hide Transfers, EntrySucceeds, Collected, Remaining, Taken, ArchiveOutcome;
      NextRemains(listing, nodes, script.plans, index);
      ArchivedStep(listing, nodes, script.plans, index, dir);
      ghost var begun := dir.archive.begun.value;
      assert begun.data + [] == begun.data;
      var p := writer.PumpBlock();
      if p == Error {
        StopsAt(listing, nodes, archive, script, index, dir);
        Finish(false);
        return;
      }
      if p == More {
        return;
      }
      if PlanFor(script.plans, index).removeOk {
        dir.nodes := dir.nodes - {files[index]};
      }
      index := index + 1;
      entryOpen := false;
    }

    /** Reports once, and then the session goes and its writer with it; calling it again changes nothing. */
    method Finish(ok: bool)
      requires writer.dir == dir
      requires !finished ==> writer.handle == writer.isOpen
      requires !finished && writer.isOpen ==> dir.archive.Partial? && (writer.failed || dir.archive.begun == None)
      modifies this`finished, this`reports, writer, dir`archive
      ensures finished && dir.nodes == old(dir.nodes)
      ensures old(finished) ==> reports == old(reports) && dir.archive == old(dir.archive)
      ensures !old(finished) ==>
        var closed := (!writer.isOpen || script.closeOk) && !old(writer.failed);
        && writer.isOpen == old(writer.isOpen)
        && reports == old(reports) + [ok && closed]
        && dir.archive == if !writer.isOpen then old(dir.archive)
                          else if closed then Complete(old(dir.archive.whole))
                          else LeftBehind(old(dir.archive.whole), script.remains)
    {
      if finished {
        return;
      }
      finished := true;
      var writerOk := writer.Finish(script.closeOk, script.remains);
      reports := reports + [ok && writerOk];
      writer.Drop(script.remains);
    }
  }

  // ----- Both forms -----

  /** What can be seen between two turns. */
  datatype Snapshot = Snapshot(nodes: map<string, Node>, archive: ArchiveFile)

  /** The stepped session over a whole run: it ends after a bounded number of turns, with what archiving comes
      to, and between any two turns before the end no file is lost. */
  method RunArchiveSession(nodes: map<string, Node>, archive: ArchiveFile, listing: seq<string>, script: Script)
    returns (outcome: Outcome, snapshots: seq<Snapshot>)
    requires Distinct(listing)
    ensures outcome == ArchiveOutcome(listing, nodes, archive, script)
    ensures forall i :: 0 <= i < |snapshots| ==> Conserved(listing, nodes, snapshots[i].nodes, snapshots[i].archive)
    ensures |snapshots| <= 2 + Work(Whole(Collected(listing, nodes), nodes), 0)
  {
    hide Conserved, Collected, ArchiveOutcome, Archived;
    var dir := new ResultsDir(nodes, archive);
    var session := new ArchiveSession(dir, listing, script);
    snapshots := [];
    while !session.finished
      invariant session.Valid() && fresh(session.Repr())
      invariant session.dir == dir && session.listing == listing && session.script == script
      invariant session.nodes == nodes && session.archive == archive
      invariant |snapshots| + session.Rank() <= 2 + Work(Whole(Collected(listing, nodes), nodes), 0)
      invariant forall i :: 0 <= i < |snapshots| ==> Conserved(listing, nodes, snapshots[i].nodes, snapshots[i].archive)
      decreases session.Rank()
    {
      session.Conserves();
      snapshots := snapshots + [Snapshot(dir.nodes, dir.archive)];
      session.Step();
    }
    outcome := Outcome(session.reports[0], dir.nodes, dir.archive);
  }

  /** The blocking form and the stepped form agree. */
  method ArchiveBothWays(nodes: map<string, Node>, archive: ArchiveFile, listing: seq<string>, script: Script)
    returns (blocking: Outcome, stepped: Outcome)
    requires Distinct(listing)
    ensures blocking == stepped
  {
    var dir := new ResultsDir(nodes, archive);
    var ok := ArchiveResults(dir, listing, script);
    blocking := Outcome(ok, dir.nodes, dir.archive);
    var snapshots;
    stepped, snapshots := RunArchiveSession(nodes, archive, listing, script);
  }
}

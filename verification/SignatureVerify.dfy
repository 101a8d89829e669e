/** Checking the signatures of the ITM binary and its libraries, in one go or one block per turn. */
module SignatureVerify {
  import opened Wrappers
  import opened MachineWord

  // ----- What is on disk -----

  datatype Kind = Regular | Symlink | OtherKind | Unreadable

  datatype LibEntry = LibEntry(name: string, kind: Kind)

  datatype LibDir =
    | NotConfigured
    | Inaccessible
    | NotADirectory
    | Unlistable
    | Listing(path: string, entries: seq<LibEntry>)

  /** The files involved. `canonical` gives the canonical path of each path that has one, `content` what
      is at a canonical path, `signatures` each decoded signature file; `accepts` is the verdict of
      the crypto library on a message and a signature, for the configured key. */
  datatype Disk = Disk(
    keyPresent: bool, keyUsable: bool, binary: string, lib: LibDir, present: set<string>,
    canonical: map<string, string>, content: map<string, seq<byte>>, signatures: map<string, seq<byte>>,
    accepts: (seq<byte>, seq<byte>) -> bool)

  /** The extension of a file name: from its last dot on, unless that dot is its first character. */
  function Extension(name: string): string {
    if name == [] then ""
    else if name[|name| - 1] == '.' then if |name| == 1 then "" else "."
    else
      var front := Extension(name[..|name| - 1]);
      if front == "" then "" else front + [name[|name| - 1]]
  }

  predicate IsSignature(e: LibEntry) {
    Extension(e.name) == ".sig"
  }

  function PathOf(dir: string, e: LibEntry): string {
    dir + "/" + e.name
  }

  function SigOf(path: string): string {
    path + ".sig"
  }

  predicate IsLibrary(e: LibEntry) {
    !IsSignature(e) && e.kind == Regular
  }

  predicate IsLink(e: LibEntry) {
    !IsSignature(e) && e.kind == Symlink
  }

  predicate Readable(disk: Disk, path: string) {
    path in disk.canonical && disk.canonical[path] in disk.content
  }

  /** What opening `path` gives. */
  function Content(disk: Disk, path: string): seq<byte>
    requires Readable(disk, path)
  {
    disk.content[disk.canonical[path]]
  }

  // ----- Reference: which installations pass -----

  predicate CanStart(disk: Disk, path: string) {
    disk.keyUsable && SigOf(path) in disk.signatures && Readable(disk, path)
  }

  predicate Signed(disk: Disk, path: string) {
    CanStart(disk, path) && disk.accepts(Content(disk, path), disk.signatures[SigOf(path)])
  }

  function Entries(disk: Disk): seq<LibEntry> {
    if disk.lib.Listing? then disk.lib.entries else []
  }

  function LibPath(disk: Disk, e: LibEntry): string {
    PathOf(if disk.lib.Listing? then disk.lib.path else "", e)
  }

  /** Everything to be checked can be found. */
  predicate Complete(disk: Disk) {
    && disk.keyPresent && SigOf(disk.binary) in disk.present
    && !disk.lib.Inaccessible? && !disk.lib.Unlistable?
    && AllComplete(disk, Entries(disk))
  }

  predicate EntryComplete(disk: Disk, e: LibEntry) {
    && (!IsSignature(e) ==> e.kind != Unreadable)
    && (IsLibrary(e) ==> SigOf(LibPath(disk, e)) in disk.present && LibPath(disk, e) in disk.canonical)
  }

  /** A canonical path that is checked. */
  predicate Checked(disk: Disk, path: string) {
    CheckedAmong(disk, Entries(disk), path)
  }

  predicate CheckedAmong(disk: Disk, entries: seq<LibEntry>, path: string) {
    || (disk.binary in disk.canonical && path == disk.canonical[disk.binary])
    || exists e ::
         && e in entries && IsLibrary(e)
         && LibPath(disk, e) in disk.canonical && path == disk.canonical[LibPath(disk, e)]
  }

  predicate LinksContained(disk: Disk) {
    forall e :: e in Entries(disk) && IsLink(e) ==>
      LibPath(disk, e) in disk.canonical && Checked(disk, disk.canonical[LibPath(disk, e)])
  }

  predicate Passes(disk: Disk) {
    && Complete(disk)
    && LinksContained(disk)
    && Signed(disk, disk.binary)
    && forall e :: e in Entries(disk) && IsLibrary(e) ==> Signed(disk, LibPath(disk, e))
  }

  /** Some signature on disk was accepted for these bytes. */
  predicate Genuine(disk: Disk, data: seq<byte>) {
    exists s :: s in disk.signatures && disk.accepts(data, disk.signatures[s])
  }

  // ----- What passing means -----

  /** A name of at least one character and then ".sig". */
  predicate NamedSig(name: string) {
    |name| > 4 && name[|name| - 4..] == ".sig"
  }

  /** An extension is the end of the name from a dot on that is not its first character, and has no other dot. */
  lemma {:induction false} ExtensionIsSuffix(name: string)
    ensures
      var x := Extension(name);
      x != "" ==> |x| < |name| && name[|name| - |x|..] == x && x[0] == '.' && '.' !in x[1..]
  {
    if name != [] && name[|name| - 1] != '.' {
      ExtensionIsSuffix(name[..|name| - 1]);
    }
  }

  lemma {:induction false} DotAndMore(stem: string, tail: string)
    requires stem != "" && '.' !in tail
    ensures Extension(stem + "." + tail) == "." + tail
  {
    if tail == "" {
      assert stem + "." + tail == stem + ".";
    } else {
      var n := |tail| - 1;
      DotAndMore(stem, tail[..n]);
      var name := stem + "." + tail;
      assert name[..|name| - 1] == stem + "." + tail[..n] && name[|name| - 1] == tail[n];
      assert "." + tail[..n] + [tail[n]] == "." + tail;
    }
  }

  /** The entries that are skipped as signatures are those named so. */
  lemma SkippedExactly(e: LibEntry)
    ensures IsSignature(e) <==> NamedSig(e.name)
  {
    ExtensionIsSuffix(e.name);
    if NamedSig(e.name) {
      var stem := e.name[..|e.name| - 4];
      DotAndMore(stem, "sig");
      assert "." + "sig" == ".sig" && e.name == stem + ".sig" == stem + "." + "sig";
    }
  }

  /** The content of the file is accepted with the signature beside it, for a key that can be used. */
  predicate Vouched(disk: Disk, path: string) {
    && disk.keyUsable && path + ".sig" in disk.signatures
    && path in disk.canonical && disk.canonical[path] in disk.content
    && disk.accepts(disk.content[disk.canonical[path]], disk.signatures[path + ".sig"])
  }

  /** An entry of the library directory is as it must be: a file is vouched for, and a link leads to the binary
      or to a file there that is. Anything else can be told apart and is left alone. */
  ghost predicate InOrder(disk: Disk, dir: string, entries: seq<LibEntry>, e: LibEntry) {
    var path := dir + "/" + e.name;
    match e.kind
    case Regular => path + ".sig" in disk.present && Vouched(disk, path)
    case Symlink => path in disk.canonical && LeadsToChecked(disk, dir, entries, disk.canonical[path])
    case Unreadable => false
    case OtherKind => true
  }

  ghost predicate LeadsToChecked(disk: Disk, dir: string, entries: seq<LibEntry>, target: string) {
    || (disk.binary in disk.canonical && target == disk.canonical[disk.binary])
    || exists f ::
         && f in entries && !NamedSig(f.name) && f.kind == Regular
         && dir + "/" + f.name in disk.canonical && target == disk.canonical[dir + "/" + f.name]
  }

  /** An installation passes exactly if there is a key, the binary is vouched for, the library directory can be
      looked at if there is one, and every entry not named as a signature is in order. */
  lemma PassesExactly(disk: Disk)
    ensures Passes(disk) <==>
      && disk.keyPresent && disk.binary + ".sig" in disk.present && Vouched(disk, disk.binary)
      && !disk.lib.Inaccessible? && !disk.lib.Unlistable?
      && (disk.lib.Listing? ==> AllInOrder(disk, disk.lib.path, disk.lib.entries))
  {
    hide IsSignature, NamedSig, InOrder, EntryPasses;
    if disk.lib.Listing? {
      var dir, entries := disk.lib.path, disk.lib.entries;
      forall e: LibEntry
        ensures (!NamedSig(e.name) ==> InOrder(disk, dir, entries, e)) == EntryPasses(disk, e)
      {
        EntryPassesExactly(disk, e);
      }
      PassesByEntry(disk);
    }
  }

  ghost predicate AllInOrder(disk: Disk, dir: string, entries: seq<LibEntry>) {
    forall e :: e in entries && !NamedSig(e.name) ==> InOrder(disk, dir, entries, e)
  }

  /** What passing asks of one entry. */
  ghost predicate EntryPasses(disk: Disk, e: LibEntry) {
    && EntryComplete(disk, e)
    && (IsLink(e) ==> LibPath(disk, e) in disk.canonical && Checked(disk, disk.canonical[LibPath(disk, e)]))
    && (IsLibrary(e) ==> Signed(disk, LibPath(disk, e)))
  }

  lemma PassesByEntry(disk: Disk)
    requires disk.lib.Listing?
    ensures Passes(disk) <==>
      && disk.keyPresent && SigOf(disk.binary) in disk.present && Signed(disk, disk.binary)
      && forall e :: e in disk.lib.entries ==> EntryPasses(disk, e)
  {
    hide IsSignature, Signed, Checked;
  }

  lemma EntryPassesExactly(disk: Disk, e: LibEntry)
    requires disk.lib.Listing?
    ensures EntryPasses(disk, e)
         == (!NamedSig(e.name) ==> InOrder(disk, disk.lib.path, disk.lib.entries, e))
  {
    SkippedExactly(e);
    if LibPath(disk, e) in disk.canonical {
      CheckedMeaning(disk, disk.canonical[LibPath(disk, e)]);
    }
    hide IsSignature, NamedSig, Checked, LeadsToChecked;
  }

  lemma CheckedMeaning(disk: Disk, p: string)
    requires disk.lib.Listing?
    ensures Checked(disk, p) == LeadsToChecked(disk, disk.lib.path, disk.lib.entries, p)
  {
    forall e: LibEntry
      ensures IsLibrary(e) <==> !NamedSig(e.name) && e.kind == Regular
    {
      SkippedExactly(e);
    }
    hide IsLibrary, NamedSig;
  }

  /** Every file the binary may load from a checked installation, through a link or not, has content
      that a signature was accepted for. */
  lemma NothingUnsigned(disk: Disk, e: LibEntry)
    requires Passes(disk) && disk.lib.Listing? && e in disk.lib.entries && !NamedSig(e.name)
    requires e.kind == Regular || e.kind == Symlink
    ensures Readable(disk, disk.binary) && Genuine(disk, Content(disk, disk.binary))
    ensures
      var path := disk.lib.path + "/" + e.name;
      Readable(disk, path) && Genuine(disk, Content(disk, path))
  {
    PassesExactly(disk);
    hide Passes, NamedSig;
    assert InOrder(disk, disk.lib.path, disk.lib.entries, e);
    if e.kind == Symlink {
      var target := disk.canonical[disk.lib.path + "/" + e.name];
      if !(disk.binary in disk.canonical && target == disk.canonical[disk.binary]) {
        var f :| && f in disk.lib.entries && !NamedSig(f.name) && f.kind == Regular
                 && disk.lib.path + "/" + f.name in disk.canonical
                 && target == disk.canonical[disk.lib.path + "/" + f.name];
        assert InOrder(disk, disk.lib.path, disk.lib.entries, f);
      }
    }
  }

  /** A file named as a signature needs none of its own, whatever it is: with it an installation passes exactly
      if it does without. */
  lemma SignatureNeedsNone(disk: Disk, stem: string, kind: Kind)
    requires disk.lib.Listing? && stem != ""
    ensures
      var more := disk.lib.(entries := disk.lib.entries + [LibEntry(stem + ".sig", kind)]);
      Passes(disk.(lib := more)) == Passes(disk)
  {
    var e := LibEntry(stem + ".sig", kind);
    var entries, more := disk.lib.entries, disk.lib.entries + [e];
    var after := disk.(lib := disk.lib.(entries := more));
    assert NamedSig(e.name);
    PassesExactly(disk);
    PassesExactly(after);
    hide Passes, NamedSig;
    forall f | f in entries && !NamedSig(f.name)
      ensures InOrder(disk, disk.lib.path, entries, f) == InOrder(after, disk.lib.path, more, f)
    {
    }
  }

  // ----- Collecting the files -----

  datatype Collected = Collected(targets: seq<string>, verifiedReal: set<string>, symlinks: seq<string>)

  function Libraries(disk: Disk, entries: seq<LibEntry>): (paths: seq<string>)
    ensures forall p :: p in paths <==> exists e :: e in entries && IsLibrary(e) && LibPath(disk, e) == p
  {
    if entries == [] then []
    else
      var last := entries[|entries| - 1];
      Libraries(disk, entries[..|entries| - 1]) + if IsLibrary(last) then [LibPath(disk, last)] else []
  }

  function Links(disk: Disk, entries: seq<LibEntry>): (paths: seq<string>)
    ensures forall p :: p in paths <==> exists e :: e in entries && IsLink(e) && LibPath(disk, e) == p
  {
    if entries == [] then []
    else
      var last := entries[|entries| - 1];
      Links(disk, entries[..|entries| - 1]) + if IsLink(last) then [LibPath(disk, last)] else []
  }

  predicate AllComplete(disk: Disk, entries: seq<LibEntry>) {
    forall e :: e in entries ==> EntryComplete(disk, e)
  }

  lemma OneMoreEntry(disk: Disk, entries: seq<LibEntry>, i: nat)
    requires i < |entries|
    ensures
      var e, before, after := entries[i], entries[..i], entries[..i + 1];
      && AllComplete(disk, after) == (AllComplete(disk, before) && EntryComplete(disk, e))
      && (AllComplete(disk, entries) ==> EntryComplete(disk, e))
      && Libraries(disk, after) == Libraries(disk, before) + (if IsLibrary(e) then [LibPath(disk, e)] else [])
      && Links(disk, after) == Links(disk, before) + (if IsLink(e) then [LibPath(disk, e)] else [])
      && (!IsLibrary(e) ==> forall p :: CheckedAmong(disk, after, p) == CheckedAmong(disk, before, p))
      && (IsLibrary(e) && LibPath(disk, e) in disk.canonical ==> forall p ::
            CheckedAmong(disk, after, p) == (CheckedAmong(disk, before, p) || p == disk.canonical[LibPath(disk, e)]))
  {
    hide Extension, IsSignature;
    assert entries[..i + 1] == entries[..i] + [entries[i]];
  }

  lemma EmptyListing(disk: Disk)
    ensures AllComplete(disk, []) && Libraries(disk, []) == [] && Links(disk, []) == []
    ensures forall p :: CheckedAmong(disk, [], p) <==> disk.binary in disk.canonical && p == disk.canonical[disk.binary]
  {
  }

  function Targets(disk: Disk): seq<string> {
    [disk.binary] + Libraries(disk, Entries(disk))
  }

  method CollectFilesToVerify(disk: Disk) returns (files: Option<Collected>)
    ensures files.Some? <==> Complete(disk)
    ensures files.Some? ==> files.value.targets == Targets(disk)
    ensures files.Some? ==> files.value.symlinks == Links(disk, Entries(disk))
    ensures files.Some? ==> forall p :: p in files.value.verifiedReal <==> Checked(disk, p)
  {
    if !disk.keyPresent || SigOf(disk.binary) !in disk.present {
      return None;
    }
    hide Extension, AllComplete, CheckedAmong, Libraries, Links;
    var targets := [disk.binary];
    var verifiedReal := {};
    if disk.binary in disk.canonical {
      verifiedReal := {disk.canonical[disk.binary]};
    }
    var symlinks := [];
    if disk.lib.Inaccessible? || disk.lib.Unlistable? {
      return None;
    }
    EmptyListing(disk);
    if !disk.lib.Listing? {
      return Some(Collected(targets, verifiedReal, symlinks));
    }
    var entries := disk.lib.entries;
    assert entries[..0] == [];
    for i := 0 to |entries|
      invariant AllComplete(disk, entries[..i])
      invariant targets == [disk.binary] + Libraries(disk, entries[..i])
      invariant symlinks == Links(disk, entries[..i])
      invariant forall p :: p in verifiedReal <==> CheckedAmong(disk, entries[..i], p)
    {
      OneMoreEntry(disk, entries, i);
      var e := entries[i];
      var path := PathOf(disk.lib.path, e);
      if IsSignature(e) {
        continue;
      }
      if e.kind == Symlink {
        symlinks := symlinks + [path];
        continue;
      }
      if e.kind == Unreadable {
        return None;
      }
      if e.kind != Regular {
        continue;
      }
      if SigOf(path) !in disk.present || path !in disk.canonical {
        return None;
      }
      verifiedReal := verifiedReal + {disk.canonical[path]};
      targets := targets + [path];
    }
    assert entries[..|entries|] == entries;
    return Some(Collected(targets, verifiedReal, symlinks));
  }

  method SymlinksWithinVerifiedSet(disk: Disk, files: Collected) returns (ok: bool)
    ensures ok <==> forall l :: l in files.symlinks ==> l in disk.canonical && disk.canonical[l] in files.verifiedReal
  {
    for i := 0 to |files.symlinks|
      invariant forall l :: l in files.symlinks[..i] ==> l in disk.canonical && disk.canonical[l] in files.verifiedReal
    {
      var link := files.symlinks[i];
      assert files.symlinks[..i + 1] == files.symlinks[..i] + [link];
      if link !in disk.canonical {
        return false;
      }
      if disk.canonical[link] !in files.verifiedReal {
        return false;
      }
    }
    assert files.symlinks[..|files.symlinks|] == files.symlinks;
    return true;
  }

  /** Collecting and the link check together decide all but the signatures. */
  lemma CollectedMeaning(disk: Disk, files: Collected)
    requires Complete(disk)
    requires files.symlinks == Links(disk, Entries(disk))
    requires forall p :: p in files.verifiedReal <==> Checked(disk, p)
    ensures LinksContained(disk)
       <==> forall l :: l in files.symlinks ==> l in disk.canonical && disk.canonical[l] in files.verifiedReal
    ensures Passes(disk)
       <==> LinksContained(disk) && forall i :: 0 <= i < |Targets(disk)| ==> Signed(disk, Targets(disk)[i])
  {
    var targets := Targets(disk);
    assert targets[0] == disk.binary && targets[1..] == Libraries(disk, Entries(disk));
    assert forall i :: 0 < i < |targets| ==> targets[i] == targets[1..][i - 1];
    if LinksContained(disk) && forall i :: 0 <= i < |targets| ==> Signed(disk, targets[i]) {
      forall e | e in Entries(disk) && IsLibrary(e)
        ensures Signed(disk, LibPath(disk, e))
      {
        assert LibPath(disk, e) in Libraries(disk, Entries(disk));
        var i :| 0 <= i < |targets[1..]| && targets[1..][i] == LibPath(disk, e);
        assert Signed(disk, targets[i + 1]);
      }
    }
    if Passes(disk) {
      forall i | 0 < i < |targets|
        ensures Signed(disk, targets[i])
      {
        assert targets[1..][i - 1] in Libraries(disk, Entries(disk));
      }
    }
  }

  // ----- Blocks -----

  /** How many blocks of at most `size` bytes n bytes make. */
  function Blocks(n: nat, size: nat): nat
    requires size > 0
  {
    if n == 0 then 0 else 1 + Blocks(n - Least(n, size), size)
  }

  function Least(a: nat, b: nat): nat {
    if a < b then a else b
  }

  /** The crypto library takes the first n blocks. Its answers come in order, and are yes once they run out. */
  predicate Taken(answers: seq<bool>, n: nat) {
    forall i :: 0 <= i < n && i < |answers| ==> answers[i]
  }

  function Rest(answers: seq<bool>, n: nat): seq<bool> {
    answers[Least(n, |answers|)..]
  }

  lemma TakenInTurn(answers: seq<bool>, m: nat, n: nat)
    ensures Taken(answers, m + n) <==> Taken(answers, m) && Taken(Rest(answers, m), n)
    ensures Rest(Rest(answers, m), n) == Rest(answers, m + n)
  {
    var rest := Rest(answers, m);
    if m < |answers| {
      assert forall i :: 0 <= i < |rest| ==> rest[i] == answers[m + i];
      assert forall i :: m <= i < |answers| ==> answers[i] == rest[i - m];
    }
  }

  // ----- One file -----

  datatype State = More | Done | Error

  /** The verification of one file, a block at a time. */
  class FileVerifier {
    const disk: Disk
    var path: string
    var sig: seq<byte>
    var digest: seq<byte>     // what the digest was fed
    var left: seq<byte>       // what is left in the stream
    var good: bool            // no read has come up short
    var answers: seq<bool>    // what the crypto library will say to the next blocks

    ghost predicate Reading()
      reads this
    {
      && CanStart(disk, path) && sig == disk.signatures[SigOf(path)]
      && digest + left == Content(disk, path)
      && (!good ==> left == [])
    }

    constructor (disk: Disk, answers: seq<bool>)
      ensures this.disk == disk && this.answers == answers
    {
      this.disk := disk;
      path, sig, digest, left, good, this.answers := "", [], [], [], false, answers;
    }

    method Init(path: string) returns (ok: bool)
      modifies this
      ensures ok == CanStart(disk, path) && answers == old(answers)
      ensures ok ==> this.path == path && Reading() && |left| == Size(disk, path)
    {
      this.path := path;
      if !disk.keyUsable {
        return false;
      }
      if SigOf(path) !in disk.signatures {
        return false;
      }
      sig := disk.signatures[SigOf(path)];
      if path !in disk.canonical || disk.canonical[path] !in disk.content {
        return false;
      }
      digest, left, good := [], disk.content[disk.canonical[path]], true;
      return true;
    }

    /** Feeds one block of at most `size` bytes to the digest, or gives the verdict at the end of the
        file. */
    method PumpBlock(size: nat) returns (st: State)
      requires Reading() && size > 0
      modifies this
      ensures path == old(path)
      ensures
        if old(left) == [] then st == (if Signed(disk, path) then Done else Error) && answers == old(answers)
        else if !Taken(old(answers), 1) then st == Error
        else
          && st == More && Reading() && left == old(left)[Least(|old(left)|, size)..]
          && answers == Rest(old(answers), 1)
    {
      var n := 0;
      if good {
        n := Least(|left|, size);
        good := n == size;
      }
      if good || n > 0 {
        if n > 0 {
          var taken := answers == [] || answers[0];
          answers := if answers == [] then [] else answers[1..];
          if !taken {
            return Error;
          }
        }
        assert digest + left == digest + left[..n] + left[n..];
        digest, left := digest + left[..n], left[n..];
        return More;
      }
      assert digest + [] == digest;
      return if disk.accepts(digest, sig) then Done else Error;
    }
  }

  function Size(disk: Disk, path: string): nat {
    if Readable(disk, path) then |Content(disk, path)| else 0
  }

  // ----- In one go -----

  const BLOCK := 8192

  /** True exactly if the signature was accepted and the crypto library took every block. */
  method VerifyFileSignature(disk: Disk, path: string, answers: seq<bool>) returns (ok: bool, rest: seq<bool>)
    ensures ok == (Signed(disk, path) && Taken(answers, Blocks(Size(disk, path), BLOCK)))
    ensures ok ==> rest == Rest(answers, Blocks(Size(disk, path), BLOCK))
  {
    hide Signed, CanStart;
    Started(disk, path);
    var verifier := new FileVerifier(disk, answers);
    var started := verifier.Init(path);
    if !started {
      return false, answers;
    }
    var st := More;
    ghost var blocks := Blocks(Size(disk, path), BLOCK);
    while st == More
      invariant verifier.path == path && fresh(verifier) && verifier.disk == disk
      invariant st == More ==> verifier.Reading() && InStep(answers, blocks, verifier.left, verifier.answers, BLOCK)
      invariant st != More ==> (st == Done) == (Signed(disk, path) && Taken(answers, blocks))
      invariant st == Done ==> verifier.answers == Rest(answers, blocks)
      decreases if st == More then 1 + |verifier.left| else 0
    {
      ghost var left, before := verifier.left, verifier.answers;
      st := verifier.PumpBlock(BLOCK);
      InStepNext(answers, blocks, left, before, BLOCK);
    }
    return st == Done, verifier.answers;
  }

  /** Of the answers for that many blocks those for the bytes left are still to come, and the others were
      yes. */
  ghost predicate InStep(answers: seq<bool>, blocks: nat, left: seq<byte>, rest: seq<bool>, size: nat)
    requires size > 0
  {
    && Blocks(|left|, size) <= blocks && rest == Rest(answers, blocks - Blocks(|left|, size))
    && Taken(answers, blocks - Blocks(|left|, size))
  }

  lemma InStepNext(answers: seq<bool>, blocks: nat, left: seq<byte>, rest: seq<bool>, size: nat)
    requires size > 0 && InStep(answers, blocks, left, rest, size)
    ensures left == [] ==> Taken(answers, blocks) && rest == Rest(answers, blocks)
    ensures left != [] && !Taken(rest, 1) ==> !Taken(answers, blocks)
    ensures left != [] && Taken(rest, 1) ==> InStep(answers, blocks, left[Least(|left|, size)..], Rest(rest, 1), size)
  {
    hide Taken, Rest;
    if left != [] {
      var given, after := blocks - Blocks(|left|, size), Blocks(|left[Least(|left|, size)..]|, size);
      assert Blocks(|left|, size) == 1 + after;
      TakenInTurn(answers, given, 1);
      TakenInTurn(answers, given + 1, after);
    }
  }

  lemma Started(disk: Disk, path: string)
    ensures Signed(disk, path) ==> CanStart(disk, path)
    ensures CanStart(disk, path) ==> Readable(disk, path) && Size(disk, path) == |Content(disk, path)|
  {
  }

  /** How many blocks the targets from k on make. */
  ghost function TotalBlocks(disk: Disk, targets: seq<string>, k: nat, size: nat): nat
    requires k <= |targets| && size > 0
    decreases |targets| - k
  {
    if k == |targets| then 0 else Blocks(Size(disk, targets[k]), size) + TotalBlocks(disk, targets, k + 1, size)
  }

  /** The targets from k on are signed, and the crypto library takes all their blocks. */
  ghost predicate Verified(disk: Disk, targets: seq<string>, k: nat, size: nat, answers: seq<bool>)
    requires k <= |targets| && size > 0
  {
    (forall i :: k <= i < |targets| ==> Signed(disk, targets[i])) && Taken(answers, TotalBlocks(disk, targets, k, size))
  }

  lemma VerifiedNext(disk: Disk, targets: seq<string>, k: nat, size: nat, answers: seq<bool>)
    requires k < |targets| && size > 0
    ensures
      var blocks := Blocks(Size(disk, targets[k]), size);
      Verified(disk, targets, k, size, answers)
        == (Signed(disk, targets[k]) && Taken(answers, blocks)
            && Verified(disk, targets, k + 1, size, Rest(answers, blocks)))
  {
    hide Taken, Rest, Signed;
    var blocks := Blocks(Size(disk, targets[k]), size);
    TakenInTurn(answers, blocks, TotalBlocks(disk, targets, k + 1, size));
  }

  /** What a whole verification is to say. */
  ghost predicate Verdict(disk: Disk, size: nat, answers: seq<bool>)
    requires size > 0
  {
    Passes(disk) && Taken(answers, TotalBlocks(disk, Targets(disk), 0, size))
  }

  lemma VerdictOnTargets(disk: Disk, files: Collected, size: nat, answers: seq<bool>)
    requires size > 0 && Complete(disk)
    requires files.symlinks == Links(disk, Entries(disk))
    requires forall p :: p in files.verifiedReal <==> Checked(disk, p)
    ensures LinksContained(disk)
       <==> forall l :: l in files.symlinks ==> l in disk.canonical && disk.canonical[l] in files.verifiedReal
    ensures Verdict(disk, size, answers) <==> LinksContained(disk) && Verified(disk, Targets(disk), 0, size, answers)
  {
    CollectedMeaning(disk, files);
    hide Passes, LinksContained, Complete, Targets, Signed, Taken;
  }

  /** True exactly if the installation passes and the crypto library took every block. */
  method VerifyItmSignatures(disk: Disk, answers: seq<bool>) returns (ok: bool)
    ensures ok == Verdict(disk, BLOCK, answers)
  {
    hide LinksContained, Targets, Verdict, Verified, Taken, Rest, Signed;
    NeedsAll(disk, BLOCK, answers);
    var files := CollectFilesToVerify(disk);
    if files == None {
      return false;
    }
    VerdictOnTargets(disk, files.value, BLOCK, answers);
    var contained := SymlinksWithinVerifiedSet(disk, files.value);
    if !contained {
      return false;
    }
    var targets, rest := files.value.targets, answers;
    for i := 0 to |targets|
      invariant Verdict(disk, BLOCK, answers) == Verified(disk, targets, i, BLOCK, rest)
    {
      VerifiedNext(disk, targets, i, BLOCK, rest);
      ok, rest := VerifyFileSignature(disk, targets[i], rest);
      if !ok {
        return false;
      }
    }
    NothingLeft(disk, targets, BLOCK, rest);
    return true;
  }

  lemma NeedsAll(disk: Disk, size: nat, answers: seq<bool>)
    requires size > 0
    ensures Verdict(disk, size, answers) ==> Complete(disk)
  {
  }

  lemma NothingLeft(disk: Disk, targets: seq<string>, size: nat, answers: seq<bool>)
    requires size > 0
    ensures Verified(disk, targets, |targets|, size, answers)
  {
  }

  // ----- One block per turn -----

  /** An upper bound on the turns spent on the targets from k on. */
  ghost function Work(disk: Disk, targets: seq<string>, k: nat): nat
    requires k <= |targets|
    decreases |targets| - k
  {
    if k == |targets| then 0 else 2 + Size(disk, targets[k]) + Work(disk, targets, k + 1)
  }

  class SignatureVerifySession {
    const disk: Disk
    const blockSize: nat
    const verifier: FileVerifier
    var targets: seq<string>
    var index: nat
    var enumerated: bool
    var verifierActive: bool
    var finished: bool
    var reports: seq<bool>      // what the completion callback was called with
    ghost const verdict: bool   // what it is to be called with

    ghost predicate Valid()
      reads this, verifier
    {
      && blockSize > 0 && verifier.disk == disk
      && if finished then reports == [verdict]
         else
           && reports == []
           && if enumerated then Verifying()
              else index == 0 && !verifierActive && verdict == Verdict(disk, blockSize, verifier.answers)
    }

    ghost predicate Verifying()
      reads this, verifier
      requires blockSize > 0
    {
      && index <= |targets| && targets == Targets(disk)
      && if verifierActive then
           && index < |targets| && verifier.path == targets[index] && verifier.Reading()
           && exists answers :: Pumping(answers)
         else verdict == Verified(disk, targets, index, blockSize, verifier.answers)
    }

    /** `answers` were still to come when the current file was begun. */
    ghost predicate Pumping(answers: seq<bool>)
      reads this, verifier
      requires blockSize > 0 && index < |targets|
    {
      && verdict == Verified(disk, targets, index, blockSize, answers)
      && InStep(answers, Blocks(Size(disk, targets[index]), blockSize), verifier.left, verifier.answers, blockSize)
    }

    constructor (disk: Disk, blockSize: nat, answers: seq<bool>)
      requires blockSize > 0
      ensures Valid() && !finished && !enumerated
      ensures this.disk == disk && this.blockSize == blockSize && fresh(verifier)
      ensures verdict == Verdict(disk, blockSize, answers)
    {
      this.disk, this.blockSize := disk, blockSize;
      verifier := new FileVerifier(disk, answers);
      targets, index, enumerated, verifierActive, finished, reports := [], 0, false, false, false, [];
      verdict := Verdict(disk, blockSize, answers);
    }

    /** An upper bound on the turns left. */
    ghost function Rank(): nat
      requires Valid()
      reads this, verifier
    {
      if finished then 0
      else if !enumerated then 2 + Work(disk, Targets(disk), 0)
      else if !verifierActive then 1 + Work(disk, targets, index)
      else 2 + |verifier.left| + Work(disk, targets, index + 1)
    }

    /** One turn of the event loop: at most one block is digested. */
    method Step()
      requires Valid()
      modifies this, verifier
      ensures Valid() && (old(finished) ==> finished && reports == old(reports))
      ensures !old(finished) ==> Rank() < old(Rank())
    {
      hide Complete, LinksContained, Passes, Signed, CanStart, Targets, Verdict, Verified, InStep;
      if finished {
        return;
      }
      if !enumerated {
        Enumerate();
        return;
      }
      if verifierActive {
        DigestBlock();
      } else if index >= |targets| {
        NothingLeft(disk, targets, blockSize, verifier.answers);
        Finish(true);
      } else {
        StartNext();
      }
    }

    method StartNext()
      requires Valid() && !finished && enumerated && !verifierActive && index < |targets|
      modifies this, verifier
      ensures Valid() && Rank() < old(Rank())
    {
      hide Complete, LinksContained, Passes, Signed, Targets, Verdict, Verified, Taken, InStep;
      var path := targets[index];
      Started(disk, path);
      VerifiedNext(disk, targets, index, blockSize, verifier.answers);
      var started := verifier.Init(path);
      if !started {
        Finish(false);
        return;
      }
      verifierActive := true;
      Begun(verifier.answers, verifier.left, blockSize);
      assert Pumping(verifier.answers);
    }

    method DigestBlock()
      requires Valid() && !finished && verifierActive && enumerated
      modifies this, verifier
      ensures Valid() && Rank() < old(Rank())
    {
      hide Complete, LinksContained, Passes, Signed, CanStart, Targets, Verdict, Verified, Taken, InStep;
      ghost var answers :| Pumping(answers);
      VerifiedNext(disk, targets, index, blockSize, answers);
      InStepNext(answers, Blocks(Size(disk, targets[index]), blockSize), verifier.left, verifier.answers, blockSize);
      var st := verifier.PumpBlock(blockSize);
      if st == Error {
        Finish(false);
        return;
      }
      if st == More {
        assert Pumping(answers);
        return;
      }
      verifierActive := false;
      index := index + 1;
    }

    method Enumerate()
      requires Valid() && !finished && !enumerated
      modifies this
      ensures Valid() && Rank() < old(Rank())
    {
      hide LinksContained, Targets, Verdict, Verified;
      NeedsAll(disk, blockSize, verifier.answers);
      var files := CollectFilesToVerify(disk);
      if files == None {
        Finish(false);
        return;
      }
      VerdictOnTargets(disk, files.value, blockSize, verifier.answers);
      var contained := SymlinksWithinVerifiedSet(disk, files.value);
      if !contained {
        Finish(false);
        return;
      }
      targets := files.value.targets;
      enumerated := true;
    }

    /** Reports once; calling it again changes nothing. */
    method Finish(ok: bool)
      modifies this`finished, this`reports
      ensures finished
      ensures reports == if old(finished) then old(reports) else old(reports) + [ok]
    {
      if finished {
        return;
      }
      finished := true;
      reports := reports + [ok];
    }
  }

  lemma Begun(answers: seq<bool>, left: seq<byte>, size: nat)
    requires size > 0
    ensures InStep(answers, Blocks(|left|, size), left, answers, size)
  {
  }

  /** The stepped session over a whole run, for any block size and answers of the crypto library: it ends
      after a bounded number of turns, and says yes exactly if the installation passes and every block was
      taken. */
  method RunSession(disk: Disk, blockSize: nat, answers: seq<bool>) returns (ok: bool, turns: nat)
    requires blockSize > 0
    ensures ok == Verdict(disk, blockSize, answers)
    ensures turns <= 2 + Work(disk, Targets(disk), 0)
  {
    hide Verdict, Targets, SignatureVerifySession.Verifying;
    var session := new SignatureVerifySession(disk, blockSize, answers);
    turns := 0;
    while !session.finished
      invariant session.Valid() && fresh(session) && fresh(session.verifier) && session.disk == disk
      invariant turns + session.Rank() <= 2 + Work(disk, Targets(disk), 0)
      invariant session.verdict == Verdict(disk, blockSize, answers)
      decreases session.Rank()
    {
      session.Step();
      turns := turns + 1;
    }
    ok := session.reports[0];
  }

  /** The two forms, given the same answers: they agree if they read blocks of the same size or the crypto
      library takes every block; and neither says yes to an installation that does not pass. */
  method VerifyBothWays(disk: Disk, blockSize: nat, answers: seq<bool>) returns (blocking: bool, stepped: bool)
    requires blockSize > 0
    ensures blockSize == BLOCK || Taken(answers, |answers|) ==> blocking == stepped
    ensures blocking || stepped ==> Passes(disk)
    ensures blocking != stepped ==> Passes(disk) && !Taken(answers, |answers|)
  {
    hide Passes, Targets;
    blocking := VerifyItmSignatures(disk, answers);
    var turns;
    stepped, turns := RunSession(disk, blockSize, answers);
  }
}

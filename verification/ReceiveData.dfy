/**
  A download with hash verification: up to three attempts, counted by a static counter that must be
  back at zero whenever no download is in progress, on a workspace that the model lookup relies on.
 */
module ReceiveData {
  import opened Basics
  import opened Workspace

  const MAX_RETRY: nat := 2

  datatype Result = Success | Failure | Timeout | InvalidParam | DataTooLarge | Denied | Uninitialized

  /** A SHA-256 digest in hexadecimal digits. */
  const HASH_LENGTH: nat := 64

  function Lower(c: char): char {
    if 'A' <= c <= 'Z' then c - 'A' + 'a' else c
  }

  function Lowered(text: string): string {
    seq(|text|, i requires 0 <= i < |text| => Lower(text[i]))
  }

  /**
    What to download. `tail` is the last path segment of the URL, `hash` is what the file is to have,
    and `digest` stands for the computation of it.
   */
  datatype Info = Info(tail: Option<string>, filename: string, hash: Option<string>, digest: Content -> string) {
    /** The file that holds the download. */
    function Target(): string {
      filename + if tail.None? then "" else SuffixOf(tail.value)
    }

    /** The hash has the right length and is that of the content, up to the case of the digits. */
    predicate Accepts(content: Content) {
      hash.Some? && |hash.value| == HASH_LENGTH && Lowered(hash.value) == Lowered(digest(content))
    }
  }

  /** Contents accepted under one hash have the same digest, and the hash accepts the same in any case. */
  lemma HashDetermines(info: Info, other: Info, c: Content, d: Content)
    requires info.digest == other.digest && info.hash.Some? && other.hash.Some? && Lowered(info.hash.value) == Lowered(other.hash.value)
    ensures info.Accepts(c) <==> other.Accepts(c)
    ensures info.Accepts(c) && other.Accepts(d) ==> Lowered(info.digest(c)) == Lowered(info.digest(d))
  {
    assert |Lowered(info.hash.value)| == |info.hash.value| && |Lowered(other.hash.value)| == |other.hash.value|;
  }

  /**
    What the environment does during one attempt: whether the workspace is known and the target can be
    read, before and after, whether the directory opens and files are unlinked, whether there is a slot
    for the operation and it is accepted, how the wait ends, and what is then stored under the target.
   */
  datatype Attempt = Attempt(workspace: bool, readable: bool, opens: bool, unlinks: string -> bool, room: bool, issued: bool,
                             answer: Result, stored: Option<Content>, workspaceAfter: bool, readableAfter: bool)

  // ------------------------------------------------------------------ specification

  predicate Verified(files: Files, info: Info) {
    info.Target() in files && info.Accepts(files[info.Target()])
  }

  function Cleaned(files: Files, info: Info, t: Attempt): Files {
    if t.opens then Without(files, info.filename, t.unlinks) else files
  }

  /** The target is what the operation stored, or missing. */
  function Stored(files: Files, target: string, stored: Option<Content>): Files {
    if stored.Some? then files[target := stored.value] else files - {target}
  }

  /** One attempt: result, files afterwards, and whether an operation was requested. */
  function Download(files: Files, info: Info, t: Attempt): (Result, Files, bool) {
    if !t.workspace then (Uninitialized, files, false)
    else if t.readable && Verified(files, info) then (Success, files, false)
    else if !t.room then (DataTooLarge, Cleaned(files, info, t), false)
    else if !t.issued then (Failure, Cleaned(files, info, t), true)
    else (t.answer, Stored(Cleaned(files, info, t), info.Target(), t.stored), true)
  }

  /**
    At most `tries` attempts, the k-th of the environment first, until one is verified or fails
    otherwise: the result, the files afterwards, and the number of operations requested.
   */
  function Receive(files: Files, info: Info, env: nat -> Attempt, k: nat, tries: nat): (Result, Files, nat)
    requires 0 < tries
    decreases tries
  {
    var (r, f, requested) := Download(files, info, env(k));
    var n := if requested then 1 else 0;
    if r != Success then (r, f, n)
    else if env(k).workspaceAfter && env(k).readableAfter && Verified(f, info) then (Success, f, n)
    else if tries == 1 then (Failure, f, n)
    else
      var (result, after, more) := Receive(f, info, env, k + 1, tries - 1);
      (result, after, n + more)
  }

  /** Files of other names stay as they are, and of its name the target is the only one that can be new. */
  lemma AttemptKeepsOthers(files: Files, info: Info, t: Attempt, f: string)
    ensures var after := Download(files, info, t).1;
      && (!IsRealFilename(f, info.filename) ==> (f in after <==> f in files))
      && (f in after && f !in files ==> f == info.Target())
      && (f in after && f != info.Target() ==> f in files && after[f] == files[f])
  {
    TargetBelongs(info);
  }

  lemma TargetBelongs(info: Info)
    ensures IsRealFilename(info.Target(), info.filename)
  {
    var suffix := if info.tail.None? then "" else SuffixOf(info.tail.value);
    assert info.Target() == info.filename + suffix;
    assert suffix != "" ==> info.Target()[|info.filename|] == suffix[0];
  }

  /** The same for a whole download. */
  lemma {:induction false} ReceiveKeepsOthers(files: Files, info: Info, env: nat -> Attempt, k: nat, tries: nat, f: string)
    requires 0 < tries && !IsRealFilename(f, info.filename)
    ensures var after := Receive(files, info, env, k, tries).1;
      (f in after <==> f in files) && (f in files ==> after[f] == files[f])
    decreases tries
  {
    TargetBelongs(info);
    AttemptKeepsOthers(files, info, env(k), f);
    var (r, g, _) := Download(files, info, env(k));
    if r == Success && tries != 1 {
      ReceiveKeepsOthers(g, info, env, k + 1, tries - 1, f);
    }
  }

  /**
    A file that already passes the check is left alone and nothing is requested. Otherwise an operation
    is requested iff there is a workspace and a slot; if it is accepted its answer is that of the
    attempt, and the target holds what it stored, and nothing else.
   */
  lemma AttemptRequestsIff(files: Files, info: Info, t: Attempt)
    ensures var (r, after, requested) := Download(files, info, t);
      && (requested <==> t.workspace && t.room && !(t.readable && Verified(files, info)))
      && (t.workspace && t.readable && Verified(files, info) ==> r == Success && after == files)
      && (requested && t.issued ==> r == t.answer && (info.Target() in after <==> t.stored.Some?))
      && (requested && t.issued && t.stored.Some? ==> after[info.Target()] == t.stored.value)
      && (!(requested && t.issued) && r == Success ==> after == files)
      && (requested && !t.issued ==> r == Failure) && (!t.workspace ==> r == Uninitialized && after == files)
      && (t.workspace && !requested && r != Success ==> r == DataTooLarge)
  {
  }

  // ------------------------------------------------------------------ in terms of the attempts

  /** The files before the j-th attempt after the k-th, when all before it are made. */
  function FilesAt(files: Files, info: Info, env: nat -> Attempt, k: nat, j: nat): Files
    decreases j
  {
    if j == 0 then files else FilesAt(Download(files, info, env(k)).1, info, env, k + 1, j - 1)
  }

  /** What that attempt answers. */
  function Answered(files: Files, info: Info, env: nat -> Attempt, k: nat, j: nat): Result {
    Download(FilesAt(files, info, env, k, j), info, env(k + j)).0
  }

  /** The file passes the check after that attempt. */
  predicate Passes(files: Files, info: Info, env: nat -> Attempt, k: nat, j: nat) {
    env(k + j).workspaceAfter && env(k + j).readableAfter && Verified(FilesAt(files, info, env, k, j + 1), info)
  }

  /** The operations requested by the attempts before the j-th. */
  function Requested(files: Files, info: Info, env: nat -> Attempt, k: nat, j: nat): nat
    decreases j
  {
    if j == 0 then 0
    else (if Download(files, info, env(k)).2 then 1 else 0) + Requested(Download(files, info, env(k)).1, info, env, k + 1, j - 1)
  }

  /** The attempts before the j-th answer `Success` and fail the check, and the j-th is the last or does not. */
  ghost predicate EndsAt(files: Files, info: Info, env: nat -> Attempt, k: nat, tries: nat, j: nat) {
    && j < tries
    && (forall i: nat | i < j :: Answered(files, info, env, k, i) == Success && !Passes(files, info, env, k, i))
    && (Answered(files, info, env, k, j) == Success && !Passes(files, info, env, k, j) ==> j == tries - 1)
  }

  lemma AttemptShifted(files: Files, info: Info, env: nat -> Attempt, k: nat, j: nat)
    ensures var f := Download(files, info, env(k)).1;
      && FilesAt(f, info, env, k + 1, j) == FilesAt(files, info, env, k, j + 1)
      && Answered(f, info, env, k + 1, j) == Answered(files, info, env, k, j + 1)
      && Passes(f, info, env, k + 1, j) == Passes(files, info, env, k, j + 1)
  {
    assert k + 1 + j == k + (j + 1);
  }

  /** The outcome of the download is that of the j-th attempt. */
  ghost predicate OutcomeOf(files: Files, info: Info, env: nat -> Attempt, k: nat, tries: nat, j: nat)
    requires 0 < tries
  {
    var answer := Answered(files, info, env, k, j);
    Receive(files, info, env, k, tries) ==
      (if answer != Success then answer else if Passes(files, info, env, k, j) then Success else Failure,
       FilesAt(files, info, env, k, j + 1), Requested(files, info, env, k, j + 1))
  }

  predicate Repeats(files: Files, info: Info, env: nat -> Attempt, k: nat, j: nat) {
    Answered(files, info, env, k, j) == Success && !Passes(files, info, env, k, j)
  }

  lemma FirstAttempt(files: Files, info: Info, env: nat -> Attempt, k: nat)
    ensures var (r, f, requested) := Download(files, info, env(k));
      && Answered(files, info, env, k, 0) == r
      && FilesAt(files, info, env, k, 1) == f
      && Requested(files, info, env, k, 1) == (if requested then 1 else 0)
      && Passes(files, info, env, k, 0) == (env(k).workspaceAfter && env(k).readableAfter && Verified(f, info))
  {
    var f := Download(files, info, env(k)).1;
    assert env(k + 0) == env(k) && FilesAt(f, info, env, k + 1, 0) == f && Requested(f, info, env, k + 1, 0) == 0;
  }

  lemma EndsFirst(files: Files, info: Info, env: nat -> Attempt, k: nat, tries: nat)
    requires 0 < tries && (Repeats(files, info, env, k, 0) ==> tries == 1)
    ensures EndsAt(files, info, env, k, tries, 0) && OutcomeOf(files, info, env, k, tries, 0)
  {
    FirstAttempt(files, info, env, k);
  }

  lemma EndsLater(files: Files, info: Info, env: nat -> Attempt, k: nat, tries: nat, i: nat)
    requires 1 < tries && Repeats(files, info, env, k, 0)
    requires var f := Download(files, info, env(k)).1;
      EndsAt(f, info, env, k + 1, tries - 1, i) && OutcomeOf(f, info, env, k + 1, tries - 1, i)
    ensures EndsAt(files, info, env, k, tries, i + 1) && OutcomeOf(files, info, env, k, tries, i + 1)
  {
    FirstAttempt(files, info, env, k);
    AttemptShifted(files, info, env, k, i);
    AttemptShifted(files, info, env, k, i + 1);
    forall m: nat | m < i + 1 ensures Answered(files, info, env, k, m) == Success && !Passes(files, info, env, k, m) {
      if m > 0 {
        AttemptShifted(files, info, env, k, m - 1);
      }
    }
  }

  /** A download ends at one attempt, with its files, its answer or the outcome of the check, and the operations up to it. */
  lemma {:induction false} ReceiveEnds(files: Files, info: Info, env: nat -> Attempt, k: nat, tries: nat) returns (j: nat)
    requires 0 < tries
    ensures EndsAt(files, info, env, k, tries, j) && OutcomeOf(files, info, env, k, tries, j)
    decreases tries
  {
    if Repeats(files, info, env, k, 0) && tries != 1 {
      var i := ReceiveEnds(Download(files, info, env(k)).1, info, env, k + 1, tries - 1);
      EndsLater(files, info, env, k, tries, i);
      j := i + 1;
    } else {
      EndsFirst(files, info, env, k, tries);
      j := 0;
    }
  }

  lemma EndsAtOnce(files: Files, info: Info, env: nat -> Attempt, k: nat, tries: nat, i: nat, j: nat)
    requires EndsAt(files, info, env, k, tries, i) && EndsAt(files, info, env, k, tries, j)
    ensures i == j
  {
  }

  /** All attempts up to the j-th answer `Success`, and the j-th is the first after which the file passes the check. */
  ghost predicate SucceedsAt(files: Files, info: Info, env: nat -> Attempt, j: nat) {
    && (forall i: nat | i <= j :: Answered(files, info, env, 0, i) == Success)
    && (forall i: nat | i < j :: !Passes(files, info, env, 0, i))
    && Passes(files, info, env, 0, j)
  }

  /**
    A download is successful iff one of three attempts is: all up to it answer `Success` and it is the
    first to pass the check. Its files and the operations up to it are those of the download.
   */
  lemma SuccessIff(files: Files, info: Info, env: nat -> Attempt)
    ensures var received := Receive(files, info, env, 0, MAX_RETRY + 1);
      && (received.0 == Success <==> exists j: nat :: j < 3 && SucceedsAt(files, info, env, j))
      && (forall j: nat | j < 3 && SucceedsAt(files, info, env, j) ::
            received.1 == FilesAt(files, info, env, 0, j + 1) && received.2 == Requested(files, info, env, 0, j + 1) <= 3)
  {
    var j := ReceiveEnds(files, info, env, 0, 3);
    assert Receive(files, info, env, 0, 3).0 == Success ==> SucceedsAt(files, info, env, j);
    forall i: nat | i < 3 && SucceedsAt(files, info, env, i) ensures i == j && Requested(files, info, env, 0, i + 1) <= 3 {
      EndsAtOnce(files, info, env, 0, 3, i, j);
      RequestedAtMost(files, info, env, 0, i + 1);
    }
  }

  /** The last of three attempts that answer `Success` and fail the check makes the download fail. */
  lemma FailsAfterThree(files: Files, info: Info, env: nat -> Attempt)
    requires forall i: nat | i < 3 :: Answered(files, info, env, 0, i) == Success && !Passes(files, info, env, 0, i)
    ensures Receive(files, info, env, 0, MAX_RETRY + 1)
         == (Failure, FilesAt(files, info, env, 0, 3), Requested(files, info, env, 0, 3))
  {
    var j := ReceiveEnds(files, info, env, 0, 3);
    EndsAtOnce(files, info, env, 0, 3, 2, j);
  }

  /** An attempt that does not answer `Success`, after others that fail the check, ends the download with its answer. */
  lemma OtherAnswerEnds(files: Files, info: Info, env: nat -> Attempt, j: nat)
    requires j < 3 && Answered(files, info, env, 0, j) != Success
    requires forall i: nat | i < j :: Answered(files, info, env, 0, i) == Success && !Passes(files, info, env, 0, i)
    ensures Receive(files, info, env, 0, MAX_RETRY + 1)
         == (Answered(files, info, env, 0, j), FilesAt(files, info, env, 0, j + 1), Requested(files, info, env, 0, j + 1))
  {
    var i := ReceiveEnds(files, info, env, 0, 3);
    EndsAtOnce(files, info, env, 0, 3, i, j);
  }

  lemma {:induction false} RequestedAtMost(files: Files, info: Info, env: nat -> Attempt, k: nat, j: nat)
    ensures Requested(files, info, env, k, j) <= j
    decreases j
  {
    if j > 0 {
      RequestedAtMost(Download(files, info, env(k)).1, info, env, k + 1, j - 1);
    }
  }

  /** Success means that the file under the target name passed the hash check last. */
  lemma {:induction false} SuccessIsVerified(files: Files, info: Info, env: nat -> Attempt, k: nat, tries: nat)
    requires 0 < tries
    ensures Receive(files, info, env, k, tries).0 == Success ==> Verified(Receive(files, info, env, k, tries).1, info)
    decreases tries
  {
    var (r, f, _) := Download(files, info, env(k));
    if r == Success && tries != 1 {
      SuccessIsVerified(f, info, env, k + 1, tries - 1);
    }
  }

  // ------------------------------------------------------------------ one file per name

  predicate OneFilePerStem(files: Files) {
    forall f, g | f in files && g in files && f != g :: Stem(f) != Stem(g)
  }

  /** The directory opens and every removal succeeds. */
  ghost predicate Reliable(t: Attempt) {
    t.opens && forall f :: t.unlinks(f)
  }

  lemma {:induction false} StemOfSuffixed(name: string, suffix: string)
    requires DotFree(name) && (suffix == "" || suffix[0] == '.')
    ensures Stem(name + suffix) == name
  {
    var full := name + suffix;
    assert suffix != "" ==> full[|name|] == '.';
    assert IsRealFilename(full, name);
    RealFilenameIff(full, name);
  }

  lemma TargetStem(info: Info)
    requires DotFree(info.filename)
    ensures Stem(info.Target()) == info.filename
  {
    StemOfSuffixed(info.filename, if info.tail.None? then "" else SuffixOf(info.tail.value));
  }

  /** The attempt gets as far as storing a file. */
  predicate Stores(files: Files, info: Info, t: Attempt) {
    t.workspace && !(t.readable && Verified(files, info)) && t.room && t.issued && t.stored.Some?
  }

  /** A file of the name, not the target itself, that is not removed. */
  predicate Stays(files: Files, info: Info, t: Attempt, f: string) {
    f in files && f != info.Target() && IsRealFilename(f, info.filename) && !(t.opens && t.unlinks(f))
  }

  /** The attempt stores a file beside another one of the name. */
  predicate LeavesTwo(files: Files, info: Info, t: Attempt) {
    Stores(files, info, t) && exists f :: f in files && Stays(files, info, t, f)
  }

  lemma StoredBesideTwo(files: Files, info: Info, t: Attempt, f: string)
    requires DotFree(info.filename) && Stores(files, info, t) && Stays(files, info, t, f)
    ensures !OneFilePerStem(Download(files, info, t).1)
  {
    TargetStem(info);
    RealFilenameIff(f, info.filename);
    var after := Download(files, info, t).1;
    assert f in after && info.Target() in after;
  }

  lemma StoredAlone(files: Files, info: Info, t: Attempt)
    requires DotFree(info.filename) && OneFilePerStem(files) && !LeavesTwo(files, info, t)
    ensures OneFilePerStem(Download(files, info, t).1)
  {
    var after := Download(files, info, t).1;
    TargetStem(info);
    forall f, g | f in after && g in after && f != g ensures Stem(f) != Stem(g) {
      RealFilenameIff(f, info.filename);
      RealFilenameIff(g, info.filename);
      assert f in files && f != info.Target() && IsRealFilename(f, info.filename) && Stores(files, info, t) ==> !Stays(files, info, t, f);
      assert g in files && g != info.Target() && IsRealFilename(g, info.filename) && Stores(files, info, t) ==> !Stays(files, info, t, g);
    }
  }

  /** An attempt keeps one file per name iff it does not store a file while another one of its name stays. */
  lemma OnePerStemIff(files: Files, info: Info, t: Attempt)
    requires DotFree(info.filename) && OneFilePerStem(files)
    ensures OneFilePerStem(Download(files, info, t).1) <==> !LeavesTwo(files, info, t)
  {
    if LeavesTwo(files, info, t) {
      var f :| f in files && Stays(files, info, t, f);
      StoredBesideTwo(files, info, t, f);
    } else {
      StoredAlone(files, info, t);
    }
  }

  lemma {:induction false} ReceiveKeepsOnePerStem(files: Files, info: Info, env: nat -> Attempt, k: nat, tries: nat)
    requires 0 < tries && DotFree(info.filename) && OneFilePerStem(files) && forall i :: Reliable(env(i))
    ensures OneFilePerStem(Receive(files, info, env, k, tries).1)
    decreases tries
  {
    var (r, f, _) := Download(files, info, env(k));
    assert Reliable(env(k));
    OnePerStemIff(files, info, env(k));
    if r == Success && tries != 1 {
      ReceiveKeepsOnePerStem(f, info, env, k + 1, tries - 1);
    }
  }

  /** Downloads one after another, into a workspace that was empty at first. */
  datatype Receipt = Receipt(info: Info, env: nat -> Attempt)

  function FilesAfter(receipts: History<Receipt>): Files {
    if receipts.Nothing? then map[]
    else Receive(FilesAfter(receipts.before), receipts.last.info, receipts.last.env, 0, MAX_RETRY + 1).1
  }

  ghost predicate Undisturbed(receipts: History<Receipt>) {
    receipts.Then? ==>
      DotFree(receipts.last.info.filename) && (forall i :: Reliable(receipts.last.env(i))) && Undisturbed(receipts.before)
  }

  lemma {:induction false} WorkspaceKeepsOnePerStem(receipts: History<Receipt>)
    requires Undisturbed(receipts)
    ensures OneFilePerStem(FilesAfter(receipts))
  {
    if receipts.Then? {
      WorkspaceKeepsOnePerStem(receipts.before);
      ReceiveKeepsOnePerStem(FilesAfter(receipts.before), receipts.last.info, receipts.last.env, 0, MAX_RETRY + 1);
    }
  }

  /**
    After any downloads under names without dots, at most one file belongs to each such name; and if
    the last download succeeded, the only file of its name is the verified one, with or without suffix.
   */
  lemma LookupIsUnique(receipts: History<Receipt>, name: string)
    requires Undisturbed(receipts) && DotFree(name)
    ensures forall f, g | f in FilesAfter(receipts) && g in FilesAfter(receipts) ::
              IsRealFilename(f, name) && IsRealFilename(g, name) ==> f == g
  {
    WorkspaceKeepsOnePerStem(receipts);
    var files := FilesAfter(receipts);
    forall f, g | f in files && g in files && IsRealFilename(f, name) && IsRealFilename(g, name)
      ensures f == g
    {
      RealFilenameIff(f, name);
      RealFilenameIff(g, name);
    }
  }

  lemma LookupFindsVerified(receipts: History<Receipt>)
    requires receipts.Then? && Undisturbed(receipts)
    requires Receive(FilesAfter(receipts.before), receipts.last.info, receipts.last.env, 0, MAX_RETRY + 1).0 == Success
    ensures Verified(FilesAfter(receipts), receipts.last.info)
    ensures forall f | f in FilesAfter(receipts) :: IsRealFilename(f, receipts.last.info.filename) <==> f == receipts.last.info.Target()
  {
    SuccessIsVerified(FilesAfter(receipts.before), receipts.last.info, receipts.last.env, 0, MAX_RETRY + 1);
    LookupIsUnique(receipts, receipts.last.info.filename);
    TargetStem(receipts.last.info);
    RealFilenameIff(receipts.last.info.Target(), receipts.last.info.filename);
  }

  // ------------------------------------------------------------------ the code

  class Downloader {
    const directory: Directory
    /** The static counter of failed verifications. */
    var retry: nat
    /** Blob operations requested so far. */
    var operations: nat

    constructor (directory: Directory)
      ensures this.directory == directory && retry == 0 && operations == 0
    {
      this.directory, retry, operations := directory, 0, 0;
    }

    method TargetPath(info: Info) returns (target: string)
      ensures target == info.Target()
    {
      var suffix := GetSuffixFromUrl(info.tail);
      target := if suffix.Some? then info.filename + suffix.value else info.filename;
      assert info.filename + "" == info.filename;
    }

    method IsFileHashCorrect(info: Info, target: string, readable: bool) returns (ok: bool)
      ensures ok <==> readable && target in directory.files && info.Accepts(directory.files[target])
    {
      if info.hash.None? || |info.hash.value| != HASH_LENGTH {
        return false;
      }
      if !readable || target !in directory.files {
        return false;
      }
      var difference := CompareIgnoringCase(info.hash.value, info.digest(directory.files[target]));
      return !difference;
    }

    /** Compares character by character up to the first difference. */
    method CompareIgnoringCase(a: string, b: string) returns (differ: bool)
      ensures differ <==> Lowered(a) != Lowered(b)
    {
      if |a| != |b| {
        assert |Lowered(a)| != |Lowered(b)|;
        return true;
      }
      for i := 0 to |a|
        invariant forall j | 0 <= j < i :: Lower(a[j]) == Lower(b[j])
      {
        if Lower(a[i]) != Lower(b[i]) {
          assert Lowered(a)[i] != Lowered(b)[i];
          return true;
        }
      }
      return false;
    }

    method DownloadBlob(info: Info, t: Attempt, list: Files -> seq<Entry>) returns (r: Result)
      requires forall f :: Lists(list(f), f)
      modifies directory, this`operations
      ensures (r, directory.files, operations != old(operations)) == Download(old(directory.files), info, t)
      ensures old(operations) <= operations <= old(operations) + 1
    {
      if !t.workspace {
        return Uninitialized;
      }
      var target := TargetPath(info);
      var ok := IsFileHashCorrect(info, target, t.readable);
      if ok {
        return Success;
      }
      var code := directory.RemoveOutdatedFile(info.filename, t.opens, list(directory.files), t.unlinks);
      if !t.room {
        return DataTooLarge;
      }
      operations := operations + 1;
      if !t.issued {
        return Failure;
      }
      directory.files := Stored(directory.files, target, t.stored);
      return t.answer;
    }

    /** Counts a failed verification, and resets the counter after a passed one or on request. */
    method HashCheckAndRetry(info: Option<Info>, t: Attempt) returns (count: nat)
      modifies this`retry
      ensures count == retry
      ensures retry == if info.None? || (t.workspaceAfter && t.readableAfter && Verified(directory.files, info.value)) then 0 else old(retry) + 1
    {
      if info.None? {
        retry := 0;
        return 0;
      }
      retry := retry + 1;
      if !t.workspaceAfter {
        return retry;
      }
      var target := TargetPath(info.value);
      var ok := IsFileHashCorrect(info.value, target, t.readableAfter);
      if ok {
        retry := 0;
      }
      return retry;
    }

    /**
      The recursive download. `info` is absent when a pointer is null. Started with the counter at zero
      it behaves as three bounded attempts, requests at most three operations, and leaves it at zero.
     */
    method EdgeAppLibReceiveData(initialized: bool, info: Option<Info>, env: nat -> Attempt, k: nat, list: Files -> seq<Entry>)
      returns (result: Result)
      requires retry <= MAX_RETRY && (retry > 0 ==> initialized && info.Some?)
      requires forall f :: Lists(list(f), f)
      modifies directory, this
      ensures retry == 0
      ensures initialized && info.Some? ==>
                (result, directory.files, operations - old(operations))
                == Receive(old(directory.files), info.value, env, k, MAX_RETRY + 1 - old(retry))
      ensures !(initialized && info.Some?) ==>
                && result == (if initialized then InvalidParam else Uninitialized)
                && directory.files == old(directory.files) && operations == old(operations)
      ensures old(operations) <= operations <= old(operations) + MAX_RETRY + 1 - old(retry)
      decreases MAX_RETRY - retry
    {
      if !initialized {
        return Uninitialized;
      }
      if info.None? {
        return InvalidParam;
      }
      result := DownloadBlob(info.value, env(k), list);
      if result == Success {
        var count := HashCheckAndRetry(info, env(k));
        if count > MAX_RETRY {
          result := Failure;
          var _ := HashCheckAndRetry(None, env(k));
        } else if count > 0 {
          result := EdgeAppLibReceiveData(initialized, info, env, k + 1, list);
        }
      } else {
        var _ := HashCheckAndRetry(None, env(k));
      }
    }
  }
}

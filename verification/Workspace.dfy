/**
  The workspace of downloaded files: a download for a name is stored under that name and the suffix of
  its URL, and both the removal of outdated files and the lookup of a model go by the name alone.
 */
module Workspace {
  import opened Basics

  type Content = string

  /** The regular files of the directory. */
  type Files = map<string, Content>

  // ------------------------------------------------------------------ names

  /** `filename` is `name`, or `name` and a suffix. */
  predicate IsRealFilename(filename: string, name: string) {
    name <= filename && (|filename| == |name| || filename[|name|] == '.')
  }

  predicate DotFree(name: string) {
    '.' !in name
  }

  /** A file name up to its first dot. */
  function Stem(filename: string): (stem: string)
    ensures stem <= filename && DotFree(stem)
    ensures |stem| < |filename| ==> filename[|stem|] == '.'
  {
    if filename == [] || filename[0] == '.' then [] else [filename[0]] + Stem(filename[1..])
  }

  /** For names without a dot, the files of a name are those with that stem. */
  lemma {:induction false} RealFilenameIff(filename: string, name: string)
    requires DotFree(name)
    ensures IsRealFilename(filename, name) <==> Stem(filename) == name
  {
    var stem := Stem(filename);
    if IsRealFilename(filename, name) {
      assert |name| <= |stem| && |stem| <= |name|;
      assert stem == filename[..|name|] == name;
    }
  }

  /** Two names have a file in common iff one of them is a file of the other; for names without a dot, never. */
  lemma NamesClashIff(a: string, b: string)
    requires a != b
    ensures (exists f :: IsRealFilename(f, a) && IsRealFilename(f, b)) <==> IsRealFilename(a, b) || IsRealFilename(b, a)
    ensures DotFree(a) && DotFree(b) ==> !IsRealFilename(a, b) && !IsRealFilename(b, a)
  {
    if f :| IsRealFilename(f, a) && IsRealFilename(f, b) {
      if |a| < |b| {
        PrefixIsFile(f, a, b);
      } else {
        PrefixIsFile(f, b, a);
      }
    }
    if IsRealFilename(a, b) {
      assert IsRealFilename(a, a);
    }
    if IsRealFilename(b, a) {
      assert IsRealFilename(b, b);
    }
  }

  /** Of two names of one file the longer one is a file of the shorter one. */
  lemma PrefixIsFile(f: string, short: string, long: string)
    requires IsRealFilename(f, short) && IsRealFilename(f, long) && |short| <= |long| && short != long
    ensures IsRealFilename(long, short)
  {
    assert short == f[..|short|] && long == f[..|long|];
    assert long[..|short|] == short;
  }

  // ------------------------------------------------------------------ the suffix of a URL

  /** `suffix` is the end of `text` from its last dot on, and that dot is not the first character. */
  predicate IsSuffix(text: string, suffix: string) {
    && 0 < |suffix| < |text| && text[|text| - |suffix|..] == suffix
    && suffix[0] == '.' && DotFree(suffix[1..])
  }

  /** The suffix of `text`, or nothing. */
  function SuffixOf(text: string): (s: string)
    ensures s != "" ==> IsSuffix(text, s)
    ensures s == "" ==> forall t: string :: !IsSuffix(text, t)
  {
    LastDot(text, |text|)
  }

  /** The same when no dot is at position `p` or later. */
  function LastDot(text: string, p: nat): (s: string)
    requires p <= |text| && DotFree(text[p..])
    ensures s != "" ==> IsSuffix(text, s)
    ensures s == "" ==> forall t: string :: !IsSuffix(text, t)
  {
    if p <= 1 then
      assert forall t: string | 0 < |t| < |text| :: text[|text| - |t|..][0] == text[|text| - |t|];
      ""
    else if text[p - 1] == '.' then
      assert text[p - 1..][1..] == text[p..];
      text[p - 1..]
    else
      assert text[p - 1..] == [text[p - 1]] + text[p..];
      LastDot(text, p - 1)
  }

  /** Scans the last segment of the path backwards; `tail` is that segment if the URL parses and has one. */
  method GetSuffixFromUrl(tail: Option<string>) returns (suffix: Option<string>)
    ensures suffix == if tail.None? || SuffixOf(tail.value) == "" then None else Some(SuffixOf(tail.value))
  {
    if tail.None? {
      return None;
    }
    var text := tail.value;
    var p: nat := |text|;
    while p != 0
      invariant p <= |text| && DotFree(text[p..]) && SuffixOf(text) == LastDot(text, p)
      decreases p
    {
      p := p - 1;
      if text[p] == '.' {
        break;
      }
      assert text[p..] == [text[p]] + text[p + 1..];
    }
    return if p != 0 then Some(text[p..]) else None;
  }

  // ------------------------------------------------------------------ the directory

  /** An entry as the directory lists it. */
  datatype Entry = Entry(name: string, regular: bool)

  /** The listing names every regular file once. */
  ghost predicate Lists(entries: seq<Entry>, files: Files) {
    && (forall e | e in entries :: e.regular ==> e.name in files)
    && (forall f | f in files :: Entry(f, true) in entries)
    && (forall i, j | 0 <= i < j < |entries| && entries[i].regular && entries[j].regular :: entries[i].name != entries[j].name)
  }

  /** No earlier entry of the listing belongs to `name`. */
  ghost predicate IsFirst(entries: seq<Entry>, name: string, filename: string) {
    exists i :: 0 <= i < |entries| && entries[i] == Entry(filename, true) && forall j | 0 <= j < i :: !Outdated(entries[j], name)
  }

  const OPEN_DIR_FAILED: int := -1
  const REMOVE_FILE_ATTEMPT: int := 1
  const REMOVE_FILE_FAILED: int := 9999

  predicate Outdated(e: Entry, name: string) {
    e.regular && IsRealFilename(e.name, name)
  }

  /** The files that are left when those of `name` are unlinked as far as that succeeds. */
  function Without(files: Files, name: string, unlinks: string -> bool): Files {
    map f | f in files && !(IsRealFilename(f, name) && unlinks(f)) :: files[f]
  }

  /** One for every attempt to remove a file, and the penalty for every failure. */
  function RemovalCode(entries: seq<Entry>, name: string, unlinks: string -> bool): int {
    if entries == [] then 0
    else
      var e, n := entries[|entries| - 1], |entries| - 1;
      RemovalCode(entries[..n], name, unlinks)
        + if !Outdated(e, name) then 0 else REMOVE_FILE_ATTEMPT + if unlinks(e.name) then 0 else REMOVE_FILE_FAILED
  }

  /** The code is 0 iff there was nothing to remove, and at least 10000 iff, of fewer than 10000 entries, some could not be removed. */
  lemma {:induction false} RemovalCodeTells(entries: seq<Entry>, name: string, unlinks: string -> bool)
    ensures 0 <= RemovalCode(entries, name, unlinks)
    ensures RemovalCode(entries, name, unlinks) == 0 <==> forall e | e in entries :: !Outdated(e, name)
    ensures (forall e | e in entries && Outdated(e, name) :: unlinks(e.name)) ==> RemovalCode(entries, name, unlinks) <= |entries|
    ensures (exists e :: e in entries && Outdated(e, name) && !unlinks(e.name)) ==> RemovalCode(entries, name, unlinks) >= 10000
  {
    if entries != [] {
      var n := |entries| - 1;
      RemovalCodeTells(entries[..n], name, unlinks);
      assert forall e :: e in entries <==> e in entries[..n] || e == entries[n];
    }
  }

  /** The suffix of a name with an extension is its last extension, with the dot. */
  lemma SuffixOfExtended(name: string, extension: string)
    requires name != "" && DotFree(extension)
    ensures SuffixOf(name + "." + extension) == "." + extension
  {
    var text, suffix := name + "." + extension, SuffixOf(name + "." + extension);
    assert text[|name|] == '.' && text[|name| + 1..] == extension && text[|name|..] == "." + extension;
    assert ("." + extension)[1..] == extension;
    assert IsSuffix(text, "." + extension);
    assert IsSuffix(text, suffix);
    SameSuffix(text, suffix, "." + extension);
  }

  lemma SameSuffix(text: string, a: string, b: string)
    requires IsSuffix(text, a) && IsSuffix(text, b)
    ensures a == b
  {
  }

  /** The same after only the listed entries were visited. */
  function Left(files: Files, seen: seq<Entry>, name: string, unlinks: string -> bool): Files {
    map f | f in files && !(IsRealFilename(f, name) && unlinks(f) && Entry(f, true) in seen) :: files[f]
  }

  lemma LeftStep(files: Files, seen: seq<Entry>, e: Entry, name: string, unlinks: string -> bool)
    ensures Left(files, seen + [e], name, unlinks)
            == if Outdated(e, name) && unlinks(e.name) then Left(files, seen, name, unlinks) - {e.name}
               else Left(files, seen, name, unlinks)
  {
    assert forall f :: Entry(f, true) in seen + [e] <==> Entry(f, true) in seen || (e.regular && e.name == f);
  }

  class Directory {
    var files: Files

    constructor ()
      ensures files == map[]
    {
      files := map[];
    }

    method RemoveOutdatedFile(name: string, opens: bool, entries: seq<Entry>, unlinks: string -> bool) returns (ret: int)
      requires opens ==> Lists(entries, files)
      modifies this
      ensures files == if opens then Without(old(files), name, unlinks) else old(files)
      ensures ret == if opens then RemovalCode(entries, name, unlinks) else OPEN_DIR_FAILED
    {
      if !opens {
        return OPEN_DIR_FAILED;
      }
      ghost var before := files;
      ret := 0;
      var i := 0;
      while i < |entries|
        invariant i <= |entries| && ret == RemovalCode(entries[..i], name, unlinks)
        invariant files == Left(before, entries[..i], name, unlinks)
      {
        var e := entries[i];
        assert entries[..i + 1] == entries[..i] + [e] && entries[..i + 1][..i] == entries[..i];
        LeftStep(before, entries[..i], e, name, unlinks);
        if Outdated(e, name) {
          ret := ret + REMOVE_FILE_ATTEMPT;
          if !unlinks(e.name) {
            ret := ret + REMOVE_FILE_FAILED;
          } else {
            files := files - {e.name};
          }
        }
        i := i + 1;
      }
      assert entries[..i] == entries;
    }

    /** The lookup of a model: the first regular file of that name, in the order of the listing. */
    method FindFilename(name: string, opens: bool, entries: seq<Entry>) returns (filename: Option<string>)
      requires opens ==> Lists(entries, files)
      ensures filename.Some? ==> filename.value in files && IsRealFilename(filename.value, name)
      ensures filename.None? && opens ==> forall f | f in files :: !IsRealFilename(f, name)
      ensures filename.Some? ==> opens && IsFirst(entries, name, filename.value)
    {
      if !opens {
        return None;
      }
      for i := 0 to |entries|
        invariant forall j | 0 <= j < i :: !Outdated(entries[j], name)
      {
        if Outdated(entries[i], name) {
          assert entries[i] == Entry(entries[i].name, true);
          return Some(entries[i].name);
        }
      }
      forall f | f in files
        ensures !IsRealFilename(f, name)
      {
        assert Entry(f, true) in entries;
      }
      return None;
    }
  }
}

/** The File class (src/file.c) of the FAT-filesystem target: unlink/delete and
    rename over the volume, basename, the stubs that have nothing to do on FAT,
    and File::Constants. */
module File {
  import opened Runtime
  import FileTest

  // File::Constants, for headers that do not define the LOCK_* values.
  const LOCK_SH: int := 1
  const LOCK_EX: int := 2
  const LOCK_NB: int := 4
  const LOCK_UN: int := 8
  const SEPARATOR: string := "/"

  /** The lock constants are four distinct single bits; LOCK_UN is 8 and LOCK_NB
      is 4, not in the order they are registered. */
  lemma LockConstants()
    ensures [LOCK_SH, LOCK_EX, LOCK_NB, LOCK_UN] == [1, 2, 4, 8]
    ensures LOCK_SH + LOCK_EX + LOCK_NB + LOCK_UN == 15
    ensures SEPARATOR == "/" && |SEPARATOR| == 1
  {
  }

  /** File.umask: there is no mask on FAT, so it is 0 whatever the argument. */
  function Umask(mask: Option<int>): (r: int)
    ensures r == 0
  {
    0
  }

  /** File._getwd: FAT has no working directory here, so it is nil. */
  function Getwd(): (r: Option<string>)
    ensures r == None
  {
    None
  }

  /** File._gethome: nil whatever the (optional) user name. */
  function Gethome(user: Option<string>): (r: Option<string>)
    ensures r == None
  {
    None
  }

  // ---------------------------------------------------------------------------
  // basename

  /** strrchr: the index of the last occurrence of `ch`, or none. */
  function Strrchr(s: string, ch: char): (r: Option<nat>)
    ensures r.Some? ==> r.value < |s| && s[r.value] == ch
    ensures r.Some? ==> forall j :: r.value < j < |s| ==> s[j] != ch
    ensures r.None? <==> ch !in s
  {
    if s == [] then None
    else if s[|s| - 1] == ch then Some(|s| - 1)
    else
      var r := Strrchr(s[..|s| - 1], ch);
      assert forall j :: 0 <= j < |s| - 1 ==> s[..|s| - 1][j] == s[j];
      r
  }

  /** File.basename (file_basename and mrb_file_basename): the part of the C
      string after its last '/', or all of it when it has none. It is the longest
      suffix without '/'. */
  function Basename(path: string): (r: string)
    ensures var c := CStr(path); |r| <= |c| && r == c[|c| - |r|..]
    ensures '/' !in r && '\0' !in r
    ensures var c := CStr(path); |r| < |c| ==> c[|c| - |r| - 1] == '/'
  {
    var c := CStr(path);
    match Strrchr(c, '/')
    case Some(p) =>
      c[p + 1..]
    case None => c
  }

  /** A path ending in '/' has an empty basename; a path without '/' is its own
      basename; and taking the basename twice changes nothing. */
  lemma BasenameCases(path: string)
    ensures var c := CStr(path); |c| > 0 && c[|c| - 1] == '/' ==> Basename(path) == ""
    ensures '/' !in CStr(path) ==> Basename(path) == CStr(path)
    ensures Basename(Basename(path)) == Basename(path)
  {
    var c := CStr(path);
    var r := Basename(path);
    assert CStr(r) == r by {
      CStrIdentity(r);
    }
  }

  /** A string without NUL is its own C view. */
  lemma {:induction false} CStrIdentity(s: string)
    requires '\0' !in s
    ensures CStr(s) == s
  {
    if s != [] {
      CStrIdentity(s[1..]);
    }
  }

  // ---------------------------------------------------------------------------
  // The volume

  /** An entry of the volume, as stat(2) would describe it. */
  datatype Node = Node(kind: FileTest.FileKind, size: nat)

  // The FatFs FRESULT codes the volume reports, negated as the driver layer
  // does so that failures are negative.
  const FR_NO_FILE: int := 4
  const FR_DENIED: int := 7
  const FR_EXIST: int := 8

  /** f_unlink's answer: it fails when the name is absent, and when the driver
      refuses the name. */
  function UnlinkCode(entries: map<string, Node>, refused: set<string>, path: string): int {
    if path !in entries then -FR_NO_FILE
    else if path in refused then -FR_DENIED
    else 0
  }

  /** f_rename's answer: it fails when the source is absent, when the driver
      refuses either name, and when the destination exists. A rename of a name
      onto itself finds the destination existing; FatFs releases from R0.12 on
      then re-register the entry and succeed (`selfRename`), earlier ones answer
      FR_EXIST. */
  function RenameCode(entries: map<string, Node>, refused: set<string>, selfRename: bool,
                      src: string, dst: string): int {
    if src !in entries then -FR_NO_FILE
    else if src in refused || dst in refused then -FR_DENIED
    else if src == dst then (if selfRename then 0 else -FR_EXIST)
    else if dst in entries then -FR_EXIST
    else 0
  }

  /** The volume after moving `src` to `dst`. */
  function Moved(entries: map<string, Node>, src: string, dst: string): map<string, Node>
    requires src in entries
  {
    (entries - {src})[dst := entries[src]]
  }

  /** The FAT volume, standing in for the FatFs driver: a map from names to
      entries that f_unlink and f_rename change, and the names the driver
      refuses to unlink or rename whether or not they exist (read-only or open
      files, non-empty directories, names in a missing directory, and every
      name of a write-protected or failing volume), and whether a rename onto
      the same name succeeds. */
  class Volume {
    var entries: map<string, Node>
    const refused: set<string>
    const selfRename: bool

    constructor (entries: map<string, Node>, refused: set<string>, selfRename: bool)
      ensures this.entries == entries && this.refused == refused && this.selfRename == selfRename
    {
      this.entries := entries;
      this.refused := refused;
      this.selfRename := selfRename;
    }

    /** f_unlink. */
    method FUnlink(path: string) returns (rc: int)
      modifies this
      ensures rc == UnlinkCode(old(entries), refused, path)
      ensures entries == if rc == 0 then old(entries) - {path} else old(entries)
    {
      rc := UnlinkCode(entries, refused, path);
      if rc == 0 {
        entries := entries - {path};
      }
    }

    /** f_rename. */
    method FRename(src: string, dst: string) returns (rc: int)
      modifies this
      ensures rc == RenameCode(old(entries), refused, selfRename, src, dst)
      ensures entries == if rc == 0 then Moved(old(entries), src, dst) else old(entries)
    {
      rc := RenameCode(entries, refused, selfRename, src, dst);
      if rc == 0 {
        entries := Moved(entries, src, dst);
      }
    }
  }

  /** The names among the first `k` paths. */
  function Names(paths: seq<string>, k: nat): set<string>
    requires k <= |paths|
  {
    set j | 0 <= j < k :: paths[j]
  }

  datatype UnlinkRun = UnlinkRun(entries: map<string, Node>, removed: nat)

  /** File.unlink on a volume: the paths are removed in order until the first one
      that f_unlink fails on (a missing name, a name given twice, or a refused
      name); the volume then lacks exactly the names removed. */
  function UnlinkAll(entries: map<string, Node>, refused: set<string>, paths: seq<string>): (run: UnlinkRun)
    ensures run.removed <= |paths|
    ensures run.entries == entries - Names(paths, run.removed)
    ensures forall j :: 0 <= j < run.removed ==>
      paths[j] in entries && paths[j] !in refused && paths[j] !in paths[..j]
    ensures run.removed < |paths| ==>
      paths[run.removed] !in entries || paths[run.removed] in refused
      || paths[run.removed] in paths[..run.removed]
    decreases |paths|
  {
    if paths == [] || UnlinkCode(entries, refused, paths[0]) != 0 then UnlinkRun(entries, 0)
    else
      var rest := UnlinkAll(entries - {paths[0]}, refused, paths[1..]);
      var k := rest.removed + 1;
      assert Names(paths, k) == {paths[0]} + Names(paths[1..], rest.removed) by {
        forall x | x in Names(paths, k) ensures x in {paths[0]} + Names(paths[1..], rest.removed) {
          var j :| 0 <= j < k && paths[j] == x;
          if j > 0 {
            assert paths[1..][j - 1] == x;
          }
        }
      }
      assert forall j :: 1 <= j < k ==> paths[..j] == [paths[0]] + paths[1..][..j - 1];
      UnlinkRun(rest.entries, k)
  }

  /** File.unlink / File.delete: unlinks each path in argument order and raises
      at the first failure, leaving the later paths alone; on success it
      returns the number of paths. */
  method Unlink(vol: Volume, paths: seq<string>) returns (r: Result<int>)
    modifies vol
    ensures var run := UnlinkAll(old(vol.entries), vol.refused, paths);
      && vol.entries == run.entries
      && r == if run.removed == |paths| then Ok(|paths|) else Raise(SystemCallError)
  {
    var i := 0;
    while i < |paths|
      invariant 0 <= i <= |paths|
      invariant var run := UnlinkAll(vol.entries, vol.refused, paths[i..]);
        UnlinkAll(old(vol.entries), vol.refused, paths) == UnlinkRun(run.entries, run.removed + i)
    {
      assert paths[i..][0] == paths[i] && paths[i..][1..] == paths[i + 1..];
      var rc := vol.FUnlink(paths[i]);
      if rc < 0 {
        return Raise(SystemCallError);
      }
      i := i + 1;
    }
    return Ok(|paths|);
  }

  /** Paths that are present, not refused and pairwise distinct are all
      removed. */
  lemma {:induction false} UnlinkDistinctPresent(entries: map<string, Node>, refused: set<string>, paths: seq<string>)
    requires forall j :: 0 <= j < |paths| ==> paths[j] in entries && paths[j] !in refused
    requires forall i, j :: 0 <= i < j < |paths| ==> paths[i] != paths[j]
    ensures UnlinkAll(entries, refused, paths).removed == |paths|
    ensures UnlinkAll(entries, refused, paths).entries == entries - (set p | p in paths)
  {
    if paths != [] {
      var rest := paths[1..];
      var cleared := entries - {paths[0]};
      forall j | 0 <= j < |rest| ensures rest[j] in cleared && rest[j] !in refused {
        assert rest[j] == paths[j + 1];
      }
      forall i, j | 0 <= i < j < |rest| ensures rest[i] != rest[j] {
        assert rest[i] == paths[i + 1] && rest[j] == paths[j + 1];
      }
      UnlinkDistinctPresent(cleared, refused, rest);
      var tail := UnlinkAll(cleared, refused, rest);
      assert UnlinkCode(entries, refused, paths[0]) == 0;
      assert UnlinkAll(entries, refused, paths) == UnlinkRun(tail.entries, tail.removed + 1);
      NamesOfCons(paths);
    }
  }

  /** The names in a non-empty sequence are its head's and its tail's. */
  lemma NamesOfCons(paths: seq<string>)
    requires paths != []
    ensures (set p | p in paths) == {paths[0]} + (set p | p in paths[1..])
  {
    forall p | p in paths ensures p in {paths[0]} + (set p | p in paths[1..]) {
      var j :| 0 <= j < |paths| && paths[j] == p;
      if j > 0 {
        assert paths[1..][j - 1] == p;
      }
    }
  }

  /** Naming a path twice makes the second unlink fail, once the first has
      removed it; a refused path stops the loop at its turn, leaving it and
      every later path in place. */
  lemma UnlinkStops(entries: map<string, Node>, refused: set<string>, p: string, paths: seq<string>)
    ensures UnlinkAll(entries, refused, [p, p]).removed < 2
    ensures p in refused ==>
      var run := UnlinkAll(entries, refused, [p] + paths);
      run.removed == 0 && run.entries == entries
  {
  }

  /** A File.unlink that succeeds leaves none of its paths in existence, as
      FileTest.exist? sees the volume. */
  lemma UnlinkedPathsAreGone(entries: map<string, Node>, refused: set<string>, paths: seq<string>)
    requires UnlinkAll(entries, refused, paths).removed == |paths|
    ensures forall p :: p in paths ==>
      FileTest.Exists(FileTest.StringArg(p), VolumeStat(UnlinkAll(entries, refused, paths).entries)) == Ok(false)
  {
    var e := UnlinkAll(entries, refused, paths).entries;
    forall p | p in paths
      ensures FileTest.Exists(FileTest.StringArg(p), VolumeStat(e)) == Ok(false)
    {
      var j :| 0 <= j < |paths| && paths[j] == p;
      assert p in Names(paths, |paths|);
    }
  }

  /** stat(2) answered from the volume. */
  function VolumeStat(entries: map<string, Node>): FileTest.StatCalls {
    var st := (p: string) =>
      if p in entries then FileTest.StatOk(entries[p].kind, entries[p].size) else FileTest.StatFail;
    FileTest.StatCalls((fd: int32) => FileTest.StatFail, st, st)
  }

  // ---------------------------------------------------------------------------
  // rename

  /** The volume calls a rename makes, in order. */
  datatype FsCall = RenameCall | UnlinkCall

  datatype RenameRun = RenameRun(result: Result<int>, entries: map<string, Node>, calls: seq<FsCall>)

  /** File.rename as written: when f_rename fails, CHMOD is the constant 0, so the
      destination is unlinked and the rename tried once more; a failed unlink
      skips the retry, and either failure raises. */
  function RenameAsWritten(entries: map<string, Node>, refused: set<string>, selfRename: bool,
                           src: string, dst: string): RenameRun {
    if RenameCode(entries, refused, selfRename, src, dst) >= 0 then
      RenameRun(Ok(0), Moved(entries, src, dst), [RenameCall])
    else if UnlinkCode(entries, refused, dst) != 0 then
      RenameRun(Raise(SystemCallError), entries, [RenameCall, UnlinkCall])
    else
      var cleared := entries - {dst};
      if RenameCode(cleared, refused, selfRename, src, dst) == 0 then
        RenameRun(Ok(0), Moved(cleared, src, dst), [RenameCall, UnlinkCall, RenameCall])
      else
        RenameRun(Raise(SystemCallError), cleared, [RenameCall, UnlinkCall, RenameCall])
  }

  /** mrb_file_s_rename. */
  method Rename(vol: Volume, src: string, dst: string) returns (r: Result<int>, calls: seq<FsCall>)
    modifies vol
    ensures RenameRun(r, vol.entries, calls) ==
      RenameAsWritten(old(vol.entries), vol.refused, vol.selfRename, src, dst)
  {
    calls := [RenameCall];
    var rc := vol.FRename(src, dst);
    if rc < 0 {
      // CHMOD(dst, 0666) is the constant 0, so the unlink always runs.
      calls := calls + [UnlinkCall];
      var unlinked := vol.FUnlink(dst);
      if unlinked == 0 {
        calls := calls + [RenameCall];
        var retried := vol.FRename(src, dst);
        if retried == 0 {
          return Ok(0), calls;
        }
      }
      return Raise(SystemCallError), calls;
    }
    return Ok(0), calls;
  }

  /** The fallback gives rename replace semantics: an existing source moves onto
      the destination whether or not the destination existed, unless the
      driver refuses one of the names. */
  lemma RenameReplaces(entries: map<string, Node>, refused: set<string>, selfRename: bool, src: string, dst: string)
    requires src in entries && src != dst && src !in refused && dst !in refused
    ensures var run := RenameAsWritten(entries, refused, selfRename, src, dst);
      run.result == Ok(0) && run.entries == Moved(entries, src, dst)
      && (run.calls == [RenameCall] <==> dst !in entries)
  {
    if dst in entries {
      assert Moved(entries - {dst}, src, dst) == Moved(entries, src, dst);
    }
  }

  /** A refused name makes rename raise and change nothing; the unlink of a
      refused destination fails, so the retry is skipped. */
  lemma RenameRefusedChangesNothing(entries: map<string, Node>, refused: set<string>, selfRename: bool,
                                    src: string, dst: string)
    requires src in refused && dst in refused
    ensures var run := RenameAsWritten(entries, refused, selfRename, src, dst);
      run.result == Raise(SystemCallError) && run.entries == entries && |run.calls| == 2
  {
  }

  /** A failed unlink skips the retry: with neither name present, rename raises
      after two calls and changes nothing. */
  lemma RenameRetrySkipped(entries: map<string, Node>, refused: set<string>, selfRename: bool, src: string, dst: string)
    requires src !in entries && dst !in entries
    ensures RenameAsWritten(entries, refused, selfRename, src, dst) ==
      RenameRun(Raise(SystemCallError), entries, [RenameCall, UnlinkCall])
  {
  }

  /** The fallback runs after ANY failure of the first f_rename, so a rename that
      cannot succeed (a missing source, or, on FatFs releases that answer a
      rename onto the same name with FR_EXIST, the destination named as its own
      source) first deletes the destination and then raises. */
  lemma RenameFailureDeletesDestination(entries: map<string, Node>, refused: set<string>, selfRename: bool,
                                        src: string, dst: string)
    requires dst in entries && dst !in refused && (src !in entries || (src == dst && !selfRename))
    ensures var run := RenameAsWritten(entries, refused, selfRename, src, dst);
      run.result == Raise(SystemCallError) && run.entries == entries - {dst} && dst !in run.entries
  {
  }

  /** The concrete case: renaming a missing "a" onto an existing "b" loses "b". */
  lemma RenameMissingSourceLosesDestination(node: Node, selfRename: bool)
    ensures var run := RenameAsWritten(map["b" := node], {}, selfRename, "a", "b");
      run.result.Raise? && run.entries == map[]
  {
    assert map["b" := node] - {"b"} == map[];
  }

  /** Renaming a name onto itself: where the driver re-registers the entry, the
      call succeeds and changes nothing; where it answers FR_EXIST, the fallback
      unlinks the file, the retry finds no source, and the file is lost. */
  lemma RenameOntoItself(entries: map<string, Node>, refused: set<string>, selfRename: bool, name: string)
    requires name in entries && name !in refused
    ensures var run := RenameAsWritten(entries, refused, selfRename, name, name);
      && (selfRename ==> run == RenameRun(Ok(0), entries, [RenameCall]))
      && (!selfRename ==> run.result == Raise(SystemCallError) && run.entries == entries - {name})
  {
    assert Moved(entries, name, name) == entries;
  }

  /** File.rename with the fallback kept for what it is for: it unlinks the
      destination only when f_rename reported that a different destination
      exists. A rename that raises leaves the volume as it was, and one that
      succeeds moves the source onto the destination, whichever answer the
      driver gives to a rename onto the same name. */
  method RenameGuarded(vol: Volume, src: string, dst: string) returns (r: Result<int>)
    modifies vol
    ensures r.Raise? ==> r.exc == SystemCallError && vol.entries == old(vol.entries)
    ensures r.Ok? ==> r.value == 0 && src in old(vol.entries)
                      && vol.entries == Moved(old(vol.entries), src, dst)
    ensures r.Ok? <==> src in old(vol.entries) && src !in vol.refused && dst !in vol.refused
                       && (src != dst || vol.selfRename)
  {
    var rc := vol.FRename(src, dst);
    if rc < 0 {
      if rc == -FR_EXIST && src != dst {
        ghost var before := vol.entries;
        var unlinked := vol.FUnlink(dst);
        if unlinked == 0 {
          var retried := vol.FRename(src, dst);
          if retried == 0 {
            assert Moved(before - {dst}, src, dst) == Moved(before, src, dst);
            return Ok(0);
          }
        }
      }
      return Raise(SystemCallError);
    }
    return Ok(0);
  }
}

/**
  The rotating file sink, `rotatingFileoutputStream` (proxy.js:146-198): its
  configuration check, the directory derived from the path, and the per-write
  state machine over the retained files, the running byte count and the open
  file. File-system actions are recorded, in order, in a ghost log of effects.
 */
module FileSink {
  import opened Wrappers
  import opened Buffers
  import Js

  /** `Math.pow(2, 20)`: the rotation size is given in MiB. */
  const MiB: int := 1048576

  datatype FileConfig = FileConfig(filepath: string, rotateSizeMB: int, keepCount: int)

  datatype ConfigError = InvalidFileOutputConfig

  /** lodash `isNumber` of a `parseInt` result (None stands for NaN): NaN is a number too. */
  predicate IsNumber(n: Option<int>)
  {
    n.Some? || n.None?
  }

  /**
    The check of proxy.js:147-154 as written: `!filepath || filepath === ''` or
    `!isNumber(..)` of either number rejects. Since every `parseInt` result is
    a number to lodash, only the path decides.
   */
  function AcceptsAsWritten(filepath: Option<string>, rotateSizeMB: Option<int>, keepCount: Option<int>): (ok: bool)
    ensures ok <==> filepath.Some? && filepath.value != ""
  {
    filepath.Some? && filepath.value != "" && IsNumber(rotateSizeMB) && IsNumber(keepCount)
  }

  /**
    The configuration check as intended: a path that is neither undefined nor
    empty, and a size and a count that are numbers other than NaN.
   */
  function ValidateFileConfig(filepath: Option<string>, rotateSizeMB: Option<int>, keepCount: Option<int>)
    : (r: Result<FileConfig, ConfigError>)
    ensures r.Ok? <==> AcceptsAsWritten(filepath, rotateSizeMB, keepCount) && rotateSizeMB.Some? && keepCount.Some?
    ensures r.Ok? ==> r.value == FileConfig(filepath.value, rotateSizeMB.value, keepCount.value)
  {
    if filepath.None? || filepath.value == "" || rotateSizeMB.None? || keepCount.None? then
      Err(InvalidFileOutputConfig)
    else
      Ok(FileConfig(filepath.value, rotateSizeMB.value, keepCount.value))
  }

  /**
    `filepath.split('/')` without its last piece, joined again with '/': the
    text before the last '/', or empty when the path has no '/'.
   */
  function DirOf(filepath: string): (d: string)
    ensures '/' !in filepath ==> d == ""
    ensures '/' in filepath ==>
      |d| < |filepath| && filepath[..|d| + 1] == d + "/" && '/' !in filepath[|d| + 1..]
  {
    var parts := Js.Split(filepath, '/');
    var d := Js.Join(parts[..|parts| - 1], '/');
    Js.JoinSplit(filepath, '/');
    if '/' !in filepath then
      Js.SplitWithoutSeparator(filepath, '/');
      d
    else
      assert |parts| >= 2;
      Js.JoinLast(parts, '/');
      assert filepath == d + "/" + parts[|parts| - 1];
      assert filepath[|d| + 1..] == parts[|parts| - 1];
      d
  }

  /** A file-system action of the sink. */
  datatype Effect =
    | EnsureDir(dir: string)
    | Open(path: string)
    | Close(path: string)
    | Append(path: string, data: Bytes)
    | Unlink(path: string)

  /** The paths opened, in order. */
  ghost function Opened(es: seq<Effect>): seq<string>
  {
    if es == [] then [] else Opened(es[..|es| - 1]) + (if es[|es| - 1].Open? then [es[|es| - 1].path] else [])
  }

  /** The paths closed, in order. */
  ghost function Closed(es: seq<Effect>): seq<string>
  {
    if es == [] then [] else Closed(es[..|es| - 1]) + (if es[|es| - 1].Close? then [es[|es| - 1].path] else [])
  }

  /** The paths unlinked, in order. */
  ghost function Unlinked(es: seq<Effect>): seq<string>
  {
    if es == [] then [] else Unlinked(es[..|es| - 1]) + (if es[|es| - 1].Unlink? then [es[|es| - 1].path] else [])
  }

  /** How one action changes the byte counts of the opened files: an Append adds to the newest. */
  function StepSizes(sizes: seq<nat>, e: Effect): seq<nat>
  {
    match e
    case Open(_) => sizes + [0]
    case Append(_, data) => if sizes == [] then sizes else sizes[..|sizes| - 1] + [sizes[|sizes| - 1] + |data|]
    case _ => sizes
  }

  /** The number of bytes written to each opened file, in the order the files were opened. */
  ghost function FileSizes(es: seq<Effect>): seq<nat>
  {
    if es == [] then [] else StepSizes(FileSizes(es[..|es| - 1]), es[|es| - 1])
  }

  /** Every Append goes to the file opened most recently before it. */
  ghost predicate AppendsToNewest(es: seq<Effect>)
  {
    es == [] ||
      (AppendsToNewest(es[..|es| - 1]) &&
       (es[|es| - 1].Append? ==>
          var o := Opened(es[..|es| - 1]); o != [] && es[|es| - 1].path == o[|o| - 1]))
  }

  /** Unlink actions for the given paths, in order. */
  function Unlinks(paths: seq<string>): seq<Effect>
  {
    if paths == [] then [] else Unlinks(paths[..|paths| - 1]) + [Unlink(paths[|paths| - 1])]
  }

  lemma UnlinksSnoc(paths: seq<string>, k: nat)
    requires k < |paths|
    ensures Unlinks(paths[..k + 1]) == Unlinks(paths[..k]) + [Unlink(paths[k])]
  {
    assert paths[..k + 1][..k] == paths[..k];
  }

  lemma Snoc(es: seq<Effect>, e: Effect)
    ensures Opened(es + [e]) == Opened(es) + (if e.Open? then [e.path] else [])
    ensures Closed(es + [e]) == Closed(es) + (if e.Close? then [e.path] else [])
    ensures Unlinked(es + [e]) == Unlinked(es) + (if e.Unlink? then [e.path] else [])
    ensures FileSizes(es + [e]) == StepSizes(FileSizes(es), e)
    ensures AppendsToNewest(es + [e]) <==>
      AppendsToNewest(es) && (e.Append? ==> var o := Opened(es); o != [] && e.path == o[|o| - 1])
  {
    assert (es + [e])[..|es|] == es;
  }

  /** Closing the open file, if there is one. */
  function CloseEffects(current: Option<string>): seq<Effect>
  {
    if current.Some? then [Close(current.value)] else []
  }

  /** How many of the `count` retained paths the eviction loop removes: `while (length > keepCount) shift()`. */
  function EvictionCount(count: nat, keepCount: int): nat
  {
    if keepCount < 0 then count else if count > keepCount then count - keepCount else 0
  }

  /**
    The sink state agrees with its history of effects: the retained paths are the
    opened ones not yet unlinked, in opening order; every file but the open one
    is closed; each Append went to the newest file; `runningSize` is the byte
    count of the open file; and every earlier file reached the threshold before
    it was rotated out.
   */
  ghost predicate Agrees(fileMaxSize: int, runningFiles: seq<string>, runningSize: int,
                         current: Option<string>, es: seq<Effect>)
  {
    var openedPaths := Opened(es);
    var sizes := FileSizes(es);
    openedPaths == Unlinked(es) + runningFiles &&
    AppendsToNewest(es) &&
    |sizes| == |openedPaths| &&
    (forall i :: 0 <= i < |sizes| - 1 ==> sizes[i] >= fileMaxSize) &&
    (current.None? ==> openedPaths == [] && Closed(es) == [] && runningSize == 0) &&
    (current.Some? ==>
       openedPaths != [] && current.value == openedPaths[|openedPaths| - 1] &&
       Closed(es) == openedPaths[..|openedPaths| - 1] &&
       runningSize == sizes[|sizes| - 1])
  }

  /** The retained list never holds more than `keepCount` paths (none when `keepCount` is negative). */
  predicate WithinRetention(runningFiles: seq<string>, keepCount: int)
  {
    |runningFiles| <= if keepCount < 0 then 0 else keepCount
  }

  /**
    Eviction is oldest first: the retained paths are the most recently opened
    ones, in opening order, and the unlinked paths are all the earlier ones.
   */
  lemma RetainedAreTheNewest(fileMaxSize: int, runningFiles: seq<string>, runningSize: int,
                             current: Option<string>, es: seq<Effect>)
    requires Agrees(fileMaxSize, runningFiles, runningSize, current, es)
    ensures var o := Opened(es);
      && |runningFiles| <= |o|
      && runningFiles == o[|o| - |runningFiles|..]
      && Unlinked(es) == o[..|o| - |runningFiles|]
  {
    var o := Opened(es);
    assert o == Unlinked(es) + runningFiles;
  }

  lemma AppendKeepsAgreement(fileMaxSize: int, runningFiles: seq<string>, runningSize: int,
                             current: string, es: seq<Effect>, chunk: Bytes)
    requires Agrees(fileMaxSize, runningFiles, runningSize, Some(current), es)
    ensures Agrees(fileMaxSize, runningFiles, runningSize + |chunk|, Some(current), es + [Append(current, chunk)])
  {
    Snoc(es, Append(current, chunk));
  }

  /** No file is open: every opened file is closed and reached the threshold. */
  ghost predicate AllClosed(fileMaxSize: int, runningFiles: seq<string>, es: seq<Effect>)
  {
    var openedPaths := Opened(es);
    var sizes := FileSizes(es);
    openedPaths == Unlinked(es) + runningFiles &&
    AppendsToNewest(es) &&
    |sizes| == |openedPaths| &&
    (forall i :: 0 <= i < |sizes| ==> sizes[i] >= fileMaxSize) &&
    Closed(es) == openedPaths
  }

  lemma CloseStep(fileMaxSize: int, runningFiles: seq<string>, runningSize: int,
                  current: Option<string>, es: seq<Effect>)
    requires Agrees(fileMaxSize, runningFiles, runningSize, current, es)
    requires current.None? || runningSize >= fileMaxSize
    ensures AllClosed(fileMaxSize, runningFiles, es + CloseEffects(current))
  {
    if current.Some? {
      Snoc(es, Close(current.value));
      var o := Opened(es);
      assert o == o[..|o| - 1] + [current.value];
    } else {
      assert es + CloseEffects(current) == es;
    }
  }

  lemma OpenStep(fileMaxSize: int, runningFiles: seq<string>, es: seq<Effect>, next: string)
    requires AllClosed(fileMaxSize, runningFiles, es)
    ensures Agrees(fileMaxSize, runningFiles + [next], 0, Some(next), es + [Open(next)])
  {
    Snoc(es, Open(next));
    var o := Opened(es);
    assert (o + [next])[..|o|] == o;
  }

  lemma OpenKeepsAgreement(fileMaxSize: int, runningFiles: seq<string>, runningSize: int,
                           current: Option<string>, es: seq<Effect>, next: string)
    requires Agrees(fileMaxSize, runningFiles, runningSize, current, es)
    requires current.None? || runningSize >= fileMaxSize
    ensures Agrees(fileMaxSize, runningFiles + [next], 0, Some(next), es + CloseEffects(current) + [Open(next)])
  {
    CloseStep(fileMaxSize, runningFiles, runningSize, current, es);
    OpenStep(fileMaxSize, runningFiles, es + CloseEffects(current), next);
  }

  lemma UnlinkKeepsAgreement(fileMaxSize: int, runningFiles: seq<string>, runningSize: int,
                             current: Option<string>, es: seq<Effect>)
    requires Agrees(fileMaxSize, runningFiles, runningSize, current, es)
    requires runningFiles != []
    ensures Agrees(fileMaxSize, runningFiles[1..], runningSize, current, es + [Unlink(runningFiles[0])])
  {
    Snoc(es, Unlink(runningFiles[0]));
  }

  class RotatingFileSink {
    const filepath: string
    /** `Math.pow(2, 20) * rotateSizeMB`. */
    const fileMaxSize: int
    const keepCount: int
    /** `runningFiles`: the paths of the retained log files, oldest first. */
    var runningFiles: seq<string>
    /** `runningSize`: bytes written to the open file since it was opened. */
    var runningSize: int
    /** `currentFileStream`, identified by its path; None while no file has been opened. */
    var currentFile: Option<string>
    /** Every file-system action so far, in order. */
    ghost var effects: seq<Effect>
    /**
      Set once a write has thrown. Nothing catches that error, so the process
      ends and the transform is never called again.
     */
    ghost var failed: bool

    ghost predicate Valid()
      reads this
    {
      && effects != [] && effects[0] == EnsureDir(DirOf(filepath))
      && Agrees(fileMaxSize, runningFiles, runningSize, currentFile, effects)
      && WithinRetention(runningFiles, keepCount)
    }

    /** The sink as built once its configuration passed the check: the directory is ensured, no file is open yet. */
    constructor (config: FileConfig)
      ensures Valid()
      ensures filepath == config.filepath && fileMaxSize == MiB * config.rotateSizeMB && keepCount == config.keepCount
      ensures runningFiles == [] && runningSize == 0 && currentFile.None?
      ensures effects == [EnsureDir(DirOf(config.filepath))] && !failed
    {
      filepath := config.filepath;
      fileMaxSize := MiB * config.rotateSizeMB;
      keepCount := config.keepCount;
      runningFiles := [];
      runningSize := 0;
      currentFile := None;
      effects := [EnsureDir(DirOf(config.filepath))];
      failed := false;
      Snoc([], EnsureDir(DirOf(config.filepath)));
    }

    /** The condition of proxy.js:169: no file is open, or the open one has reached the threshold. */
    predicate NeedsNewFile()
      reads this
    {
      currentFile.None? || runningSize >= fileMaxSize
    }

    /**
      The transform function: one chunk. When a new file is needed the open file
      is closed, `filepath + stamp + ".log"` is opened (`stamp` is the formatted
      clock reading) and appended to the retained list, and the oldest retained
      paths are unlinked while there are more than `keepCount`. When `keepCount`
      is negative that loop empties the list and then calls `unlink(undefined)`,
      which throws: `raised` reports that, the chunk is not written, and the sink
      is marked failed, since the error ends the process. Otherwise the chunk is
      appended to the open file and counted.
     */
    method Write(chunk: Bytes, stamp: string) returns (raised: bool)
      requires Valid() && !failed
      modifies this
      ensures Valid() && failed == raised
      ensures !old(NeedsNewFile()) ==>
        && !raised
        && effects == old(effects) + [Append(old(currentFile).value, chunk)]
        && currentFile == old(currentFile) && runningFiles == old(runningFiles)
        && runningSize == old(runningSize) + |chunk|
      ensures old(NeedsNewFile()) ==>
        var next := filepath + stamp + ".log";
        var all := old(runningFiles) + [next];
        var n := EvictionCount(|all|, keepCount);
        && raised == (keepCount < 0)
        && currentFile == Some(next)
        && runningFiles == all[n..]
        && effects == old(effects) + CloseEffects(old(currentFile)) + [Open(next)] + Unlinks(all[..n])
                      + (if raised then [] else [Append(next, chunk)])
        && runningSize == if raised then 0 else |chunk|
    {
      raised := false;
      if currentFile.None? || runningSize >= fileMaxSize {
        raised := Rotate(filepath + stamp + ".log");
        if raised {
          failed := true;
          return;
        }
      }
      AppendChunk(chunk);
    }

    /** The rotation of proxy.js:170-190: close, open `next`, retain it, evict. */
    method Rotate(next: string) returns (raised: bool)
      requires Valid() && NeedsNewFile()
      modifies this
      ensures failed == old(failed)
      ensures var all := old(runningFiles) + [next];
        var n := EvictionCount(|all|, keepCount);
        && raised == (keepCount < 0)
        && currentFile == Some(next) && runningSize == 0
        && runningFiles == all[n..]
        && effects == old(effects) + CloseEffects(old(currentFile)) + [Open(next)] + Unlinks(all[..n])
      ensures effects[0] == EnsureDir(DirOf(filepath))
      ensures Agrees(fileMaxSize, runningFiles, runningSize, currentFile, effects)
      ensures WithinRetention(runningFiles, keepCount)
    {
      OpenNext(next);
      raised := Evict();
    }

    /** Closes the open file, if any, then opens `next` and retains its path (proxy.js:170-176). */
    method OpenNext(next: string)
      requires Valid() && NeedsNewFile()
      modifies this
      ensures failed == old(failed)
      ensures effects == old(effects) + CloseEffects(old(currentFile)) + [Open(next)]
      ensures currentFile == Some(next) && runningSize == 0 && runningFiles == old(runningFiles) + [next]
      ensures effects[0] == EnsureDir(DirOf(filepath))
      ensures Agrees(fileMaxSize, runningFiles, runningSize, currentFile, effects)
    {
      OpenKeepsAgreement(fileMaxSize, runningFiles, runningSize, currentFile, effects, next);
      effects := effects + CloseEffects(currentFile) + [Open(next)];
      currentFile := Some(next);
      runningSize := 0;
      runningFiles := runningFiles + [next];
    }

    /**
      The eviction loop of proxy.js:180-190: unlinks the oldest retained path while
      more than `keepCount` are retained. With a negative `keepCount` the list
      runs empty and the next `unlink(undefined)` throws, reported as `raised`.
     */
    method Evict() returns (raised: bool)
      requires currentFile.Some? && effects != [] && effects[0] == EnsureDir(DirOf(filepath))
      requires Agrees(fileMaxSize, runningFiles, runningSize, currentFile, effects)
      modifies this
      ensures failed == old(failed)
      ensures var n := EvictionCount(|old(runningFiles)|, keepCount);
        && raised == (keepCount < 0)
        && runningFiles == old(runningFiles)[n..]
        && effects == old(effects) + Unlinks(old(runningFiles)[..n])
      ensures currentFile == old(currentFile) && runningSize == old(runningSize)
      ensures effects[0] == EnsureDir(DirOf(filepath))
      ensures Agrees(fileMaxSize, runningFiles, runningSize, currentFile, effects)
      ensures WithinRetention(runningFiles, keepCount)
    {
      ghost var all := runningFiles;
      ghost var beforeEviction := effects;
      ghost var k := 0;
      while |runningFiles| > keepCount
        invariant 0 <= k <= |all| && runningFiles == all[k..]
        invariant k <= EvictionCount(|all|, keepCount)
        invariant effects == beforeEviction + Unlinks(all[..k])
        invariant effects[0] == EnsureDir(DirOf(filepath))
        invariant currentFile == old(currentFile) && runningSize == old(runningSize)
        invariant failed == old(failed)
        invariant Agrees(fileMaxSize, runningFiles, runningSize, currentFile, effects)
        decreases |runningFiles|
      {
        if runningFiles == [] {
          // `shift()` of an empty array yields undefined, and `unlink(undefined)` throws.
          assert k == |all| == EvictionCount(|all|, keepCount);
          return true;
        }
        UnlinkOldest();
        UnlinksSnoc(all, k);
        k := k + 1;
      }
      assert k == EvictionCount(|all|, keepCount);
      return false;
    }

    /** One round of the eviction loop: `runningFiles.shift()` and the unlink of that path. */
    method UnlinkOldest()
      requires runningFiles != [] && effects != [] && effects[0] == EnsureDir(DirOf(filepath))
      requires Agrees(fileMaxSize, runningFiles, runningSize, currentFile, effects)
      modifies this
      ensures failed == old(failed)
      ensures runningFiles == old(runningFiles)[1..]
      ensures effects == old(effects) + [Unlink(old(runningFiles)[0])]
      ensures currentFile == old(currentFile) && runningSize == old(runningSize)
      ensures effects[0] == EnsureDir(DirOf(filepath))
      ensures Agrees(fileMaxSize, runningFiles, runningSize, currentFile, effects)
    {
      var removableFile := runningFiles[0];
      UnlinkKeepsAgreement(fileMaxSize, runningFiles, runningSize, currentFile, effects);
      runningFiles := runningFiles[1..];
      effects := effects + [Unlink(removableFile)];
    }

    /** Writes the chunk to the open file and counts its bytes (proxy.js:193-195). */
    method AppendChunk(chunk: Bytes)
      requires currentFile.Some? && effects != [] && effects[0] == EnsureDir(DirOf(filepath))
      requires Agrees(fileMaxSize, runningFiles, runningSize, currentFile, effects)
      requires WithinRetention(runningFiles, keepCount)
      modifies this
      ensures failed == old(failed)
      ensures Valid()
      ensures currentFile == old(currentFile) && effects == old(effects) + [Append(currentFile.value, chunk)]
      ensures runningFiles == old(runningFiles)
      ensures runningSize == old(runningSize) + |chunk|
    {
      AppendKeepsAgreement(fileMaxSize, runningFiles, runningSize, currentFile.value, effects, chunk);
      effects := effects + [Append(currentFile.value, chunk)];
      runningSize := runningSize + |chunk|;
    }
  }

  /** rotatingFileoutputStream: the configuration check, then the sink; a failed check is the thrown error. */
  method NewRotatingFileSink(filepath: Option<string>, rotateSizeMB: Option<int>, keepCount: Option<int>)
    returns (r: Result<RotatingFileSink, ConfigError>)
    ensures r.Err? <==> ValidateFileConfig(filepath, rotateSizeMB, keepCount).Err?
    ensures r.Ok? ==>
      && fresh(r.value) && r.value.Valid()
      && r.value.filepath == filepath.value
      && r.value.fileMaxSize == MiB * rotateSizeMB.value
      && r.value.keepCount == keepCount.value
      && r.value.currentFile.None? && r.value.runningFiles == [] && !r.value.failed
  {
    match ValidateFileConfig(filepath, rotateSizeMB, keepCount)
    case Err(e) =>
      r := Err(e);
    case Ok(config) =>
      var sink := new RotatingFileSink(config);
      r := Ok(sink);
  }
}

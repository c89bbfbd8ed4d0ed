/**
 * The manifest processor, `dl`: it prepares `minecraft/mods`, then takes the
 * manifest's `(projectID, fileID)` entries in order, serving each from the
 * cache, logging an HTTP failure, skipping a name that is already present, or
 * writing a fresh download.
 *
 * The mods directory is a map from file name to bytes, the cache a map from a
 * key to the files its directory holds (in `iterdir` order), the failure log a
 * sequence of lines and the network a total function of the request. `Step`
 * and `Run` say what one entry and a whole manifest do; the method `Dl` is the
 * loop itself and is proved to compute `Run`.
 */
module Manifest {
  import opened Wrappers
  import opened Text
  import opened Urls
  import opened Net

  /** One element of the manifest's `files`. */
  datatype FileRef = FileRef(projectID: int, fileID: int)

  /** A file found in a key's cache directory. */
  datatype CachedFile = CachedFile(name: string, content: Bytes)

  /**
   * The cache root: a key is present exactly when `<cache>/<projectID>/<fileID>`
   * is a directory, and maps to the files in it in the order `iterdir` lists them.
   */
  type Cache = map<FileRef, seq<CachedFile>>

  /**
   * How a fresh download is stored in the cache: `AsWritten` is the code's
   * inverted existence test, `AsIntended` the corrected one.
   */
  datatype StoreRule = AsWritten | AsIntended

  /** The arguments of `dl` that matter here, and whether the cache path is a directory. */
  datatype Config = Config(
    logFile: Option<string>,
    userAgent: string,
    cachePath: Option<string>,
    cacheIsDir: bool,
    store: StoreRule)

  /** `cachedl`: a cache path was given and it is a directory. */
  predicate CacheEnabled(cfg: Config)
  {
    cfg.cachePath.Some? && cfg.cacheIsDir
  }

  // ---------------------------------------------------------------------------
  // Preparing minecraft/mods

  /**
   * Which directories exist next to the manifest: the overrides directory
   * (and whether it holds a `mods` directory), `minecraft`, and `minecraft/mods`.
   */
  datatype Layout = Layout(overrides: bool, overridesHasMods: bool, minecraft: bool, mods: bool)

  /** `mods` lives inside `minecraft`. */
  predicate WellFormed(l: Layout)
  {
    l.mods ==> l.minecraft
  }

  /** `os.mkdir` of `minecraft/mods` fails with `FileNotFoundError` when `minecraft` is missing. */
  datatype SetupError = MinecraftMissing

  /**
   * `shutil.move(overrides, minecraft)`: a missing `minecraft` is replaced by
   * the overrides directory; an existing one receives it as a subdirectory.
   */
  function MoveOverrides(l: Layout): (m: Layout)
    requires WellFormed(l)
    ensures WellFormed(m)
  {
    if !l.overrides then l
    else if l.minecraft then l.(overrides := false)
    else Layout(false, false, true, l.overridesHasMods)
  }

  /** The two steps before the loop: move the overrides, then create `mods` if it is absent. */
  function Setup(l: Layout): (r: Result<Layout, SetupError>)
    requires WellFormed(l)
    ensures r.Failure? <==> !l.overrides && !l.minecraft
    ensures r.Success? ==> !r.value.overrides && r.value.minecraft && r.value.mods
    ensures r.Success? && l.mods && !l.overrides ==> r.value == l
  {
    var moved := MoveOverrides(l);
    if moved.mods then Success(moved)
    else if moved.minecraft then Success(moved.(mods := true))
    else Failure(MinecraftMissing)
  }

  // ---------------------------------------------------------------------------
  // One entry

  /** What the loop reads and changes: `mods`, the cache, the failure log and the requests sent. */
  datatype State = State(
    mods: map<string, Bytes>,
    cache: Cache,
    log: seq<string>,
    requests: seq<Request>)

  /** The recorded result of one entry. */
  datatype Outcome =
    | FromCache(name: string)
    | Failed(line: string)
    | Skipped(name: string)
    | Downloaded(name: string)

  /** An exception that leaves `dl` and ends the run. */
  datatype Abort =
    | ConnectionFailed(url: string)   // URLError from urlopen
    | NotAFile(name: string)          // open() of mods/<name> names a directory
    | CacheDirExists(key: FileRef)    // mkdir of an existing cache directory
    | CacheDirMissing(key: FileRef)   // copyfile into a cache directory that does not exist

  datatype StepResult = Next(state: State, outcome: Outcome) | Stop(state: State, reason: Abort)

  /** `_log_failed`: the line goes to the log only when a log file was given. */
  function LogFailed(logFile: Option<string>, log: seq<string>, line: string): seq<string>
  {
    if logFile.Some? then log + [line] else log
  }

  /** The cache holds at least one file for the entry, so the lookup succeeds. */
  predicate CacheHit(cfg: Config, cache: Cache, e: FileRef)
  {
    CacheEnabled(cfg) && e in cache && |cache[e]| >= 1
  }

  /** The request `dl` sends for an entry. */
  function EntryRequest(cfg: Config, e: FileRef): Request
  {
    Request(EntryUrl(e.projectID, e.fileID), cfg.userAgent)
  }

  function EntryRequester(cfg: Config): FileRef -> Request
  {
    (e: FileRef) => EntryRequest(cfg, e)
  }

  /** Names under which `open(..., "wb")` meets a directory instead of a file. */
  predicate IsDirName(name: string)
  {
    name == "" || name == "." || name == ".."
  }

  /**
   * The cache-store step as written: it calls `mkdir` only when the key's
   * directory already exists, which raises, and otherwise copies into a
   * directory that does not exist, which raises too.
   */
  function StoreAsWritten(cache: Cache, e: FileRef): Abort
  {
    if e in cache then CacheDirExists(e) else CacheDirMissing(e)
  }

  /** The cache-store step as intended: create the key's directory if needed and copy the file in. */
  function StoreAsIntended(cache: Cache, e: FileRef, name: string, body: Bytes): (c: Cache)
    ensures e in c && c[e] == [CachedFile(name, body)]
    ensures forall k :: k in cache && k != e ==> k in c && c[k] == cache[k]
    ensures c.Keys == cache.Keys + {e}
  {
    cache[e := [CachedFile(name, body)]]
  }

  /** What the body of the `for dependency in manifestjson['files']` loop does with one entry. */
  function Step(cfg: Config, fetch: Fetcher, st: State, e: FileRef): StepResult
  {
    if CacheHit(cfg, st.cache, e) then
      var f := st.cache[e][0];
      Next(st.(mods := st.mods[f.name := f.content]), FromCache(f.name))
    else
      var req := EntryRequest(cfg, e);
      var sent := st.(requests := st.requests + [req]);
      match fetch(req)
      case HttpError(code) =>
        var line := IntToString(code) + " - " + req.url;
        Next(sent.(log := LogFailed(cfg.logFile, sent.log, line)), Failed(line))
      case ConnectionError =>
        Stop(sent, ConnectionFailed(req.url))
      case Response(finalUrl, body, _) =>
        var name := EntryFileName(finalUrl);
        if name in st.mods then Next(sent, Skipped(name))
        else if IsDirName(name) then Stop(sent, NotAFile(name))
        else
          var written := sent.(mods := sent.mods[name := body]);
          if !CacheEnabled(cfg) then Next(written, Downloaded(name))
          else if cfg.store.AsWritten? then Stop(written, StoreAsWritten(st.cache, e))
          else Next(written.(cache := StoreAsIntended(st.cache, e, name, body)), Downloaded(name))
  }

  // ---------------------------------------------------------------------------
  // The whole manifest

  /** The final state, the outcome of every entry handled, and the exception that ended the run, if any. */
  datatype RunResult = RunResult(state: State, outcomes: seq<Outcome>, aborted: Option<Abort>)

  /** What the loop does with one entry, given the state before it. */
  type Stepper = (State, FileRef) -> StepResult

  function EntryStep(cfg: Config, fetch: Fetcher): Stepper
  {
    (st: State, e: FileRef) => Step(cfg, fetch, st, e)
  }

  /**
   * The loop over the entries for any per-entry step: the entries are taken
   * in order until one raises.
   */
  function RunWith(step: Stepper, st: State, files: seq<FileRef>): RunResult
    decreases |files|, 1
  {
    if files == [] then RunResult(st, [], None)
    else Continue(step, step(st, files[0]), files[1..])
  }

  /** After one entry: an exception ends the run, otherwise the loop goes on with the rest. */
  function Continue(step: Stepper, r: StepResult, rest: seq<FileRef>): RunResult
    decreases |rest| + 1, 0
  {
    match r
    case Stop(s, reason) => RunResult(s, [], Some(reason))
    case Next(s, o) =>
      var tail := RunWith(step, s, rest);
      tail.(outcomes := [o] + tail.outcomes)
  }

  /** The loop of `dl` over a manifest's entries. */
  function Run(cfg: Config, fetch: Fetcher, st: State, files: seq<FileRef>): RunResult
  {
    RunWith(EntryStep(cfg, fetch), st, files)
  }

  function Prepend(done: seq<Outcome>, r: RunResult): RunResult
  {
    r.(outcomes := done + r.outcomes)
  }

  /** The status `dl` ends in. */
  datatype Status = SetupFailed(error: SetupError) | Completed | Aborted(reason: Abort)

  lemma RunAfterNext(cfg: Config, fetch: Fetcher, st0: State, files: seq<FileRef>, i: nat,
                     done: seq<Outcome>, before: State, after: State, o: Outcome)
    requires i < |files|
    requires Run(cfg, fetch, st0, files) == Prepend(done, Run(cfg, fetch, before, files[i..]))
    requires Step(cfg, fetch, before, files[i]) == Next(after, o)
    ensures Run(cfg, fetch, st0, files) == Prepend(done + [o], Run(cfg, fetch, after, files[i + 1..]))
  {
    assert files[i..][0] == files[i] && files[i..][1..] == files[i + 1..];
    var step := EntryStep(cfg, fetch);
    assert step(before, files[i]) == Next(after, o);
    assert RunWith(step, before, files[i..]) == Continue(step, Next(after, o), files[i + 1..]);
    assert done + ([o] + Run(cfg, fetch, after, files[i + 1..]).outcomes)
        == (done + [o]) + Run(cfg, fetch, after, files[i + 1..]).outcomes;
  }

  lemma RunAfterStop(cfg: Config, fetch: Fetcher, st0: State, files: seq<FileRef>, i: nat,
                     done: seq<Outcome>, before: State, after: State, reason: Abort)
    requires i < |files|
    requires Run(cfg, fetch, st0, files) == Prepend(done, Run(cfg, fetch, before, files[i..]))
    requires Step(cfg, fetch, before, files[i]) == Stop(after, reason)
    ensures Run(cfg, fetch, st0, files) == RunResult(after, done, Some(reason))
  {
    assert files[i..][0] == files[i];
    var step := EntryStep(cfg, fetch);
    assert step(before, files[i]) == Stop(after, reason);
    assert RunWith(step, before, files[i..]) == Continue(step, Stop(after, reason), files[i + 1..]);
    assert done + [] == done;
  }

  /**
   * The body of the loop for one entry, as `dl` executes it: look in the
   * cache, otherwise send the request and deal with what comes back.
   */
  method ProcessEntry(cfg: Config, fetch: Fetcher, st: State, dependency: FileRef) returns (r: StepResult)
    ensures r == Step(cfg, fetch, st, dependency)
  {
    var cachedl := cfg.cachePath.Some? && cfg.cacheIsDir;
    if cachedl && dependency in st.cache {
      var targetfile := st.cache[dependency];
      if |targetfile| >= 1 {
        var mods := st.mods[targetfile[0].name := targetfile[0].content];
        return Next(st.(mods := mods), FromCache(targetfile[0].name));
      }
    }
    var filepath := EntryUrl(dependency.projectID, dependency.fileID);
    var req := Request(filepath, cfg.userAgent);
    var sent := st.(requests := st.requests + [req]);
    var projectresp := fetch(req);
    if projectresp.HttpError? {
      var line := IntToString(projectresp.code) + " - " + filepath;
      return Next(sent.(log := LogFailed(cfg.logFile, sent.log, line)), Failed(line));
    }
    if projectresp.ConnectionError? {
      return Stop(sent, ConnectionFailed(filepath));
    }
    var filename := EntryFileName(projectresp.finalUrl);
    if filename in st.mods {
      return Next(sent, Skipped(filename));
    }
    if IsDirName(filename) {
      return Stop(sent, NotAFile(filename));
    }
    var written := sent.(mods := sent.mods[filename := projectresp.body]);
    if !cachedl {
      return Next(written, Downloaded(filename));
    }
    if cfg.store.AsWritten? {
      return Stop(written, StoreAsWritten(st.cache, dependency));
    }
    var cache := StoreAsIntended(st.cache, dependency, filename, projectresp.body);
    return Next(written.(cache := cache), Downloaded(filename));
  }

  /**
   * `dl` on an already parsed manifest. `st0.mods` is what `minecraft/mods`
   * holds once the setup steps are done: nothing, when setup creates it.
   * The loop counter `currF` starts at 1
   * and goes up by one for every entry, whatever its outcome; `allF` is the
   * number of entries.
   */
  method Dl(cfg: Config, fetch: Fetcher, layout: Layout, st0: State, files: seq<FileRef>)
    returns (status: Status, st: State, outcomes: seq<Outcome>, currF: int, allF: int)
    requires WellFormed(layout)
    requires !MoveOverrides(layout).mods ==> st0.mods == map[]
    ensures status.SetupFailed? <==> Setup(layout).Failure?
    ensures status.SetupFailed? ==> st == st0 && outcomes == []
    ensures !status.SetupFailed? ==>
      Run(cfg, fetch, st0, files) == RunResult(st, outcomes, if status.Aborted? then Some(status.reason) else None)
    ensures !status.SetupFailed? ==> allF == |files| && currF == |outcomes| + 1
    ensures status.Completed? ==> currF == |files| + 1
    ensures !status.SetupFailed? && files == [] ==>
      status.Completed? && st == st0 && (!MoveOverrides(layout).mods ==> st.mods == map[])
  {
    st, outcomes := st0, [];
    var ready := Setup(layout);
    if ready.Failure? {
      status, currF, allF := SetupFailed(ready.error), 0, 0;
      return;
    }
    currF := 1;
    allF := |files|;
    var i := 0;
    while i < |files|
      invariant 0 <= i <= |files|
      invariant currF == i + 1 && |outcomes| == i
      invariant Run(cfg, fetch, st0, files) == Prepend(outcomes, Run(cfg, fetch, st, files[i..]))
    {
      var r := ProcessEntry(cfg, fetch, st, files[i]);
      match r
      case Stop(after, reason) =>
        RunAfterStop(cfg, fetch, st0, files, i, outcomes, st, after, reason);
        st, status := after, Aborted(reason);
        return;
      case Next(after, o) =>
        RunAfterNext(cfg, fetch, st0, files, i, outcomes, st, after, o);
        st, outcomes := after, outcomes + [o];
        currF := currF + 1;
        i := i + 1;
    }
    status := Completed;
    assert files[i..] == [];
  }
}

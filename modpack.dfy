/**
 * The archive bootstrapper, `get_modpack`: fetch the modpack archive, write
 * it next to the program, refuse to go on when its extraction directory
 * already exists, and otherwise create that directory, extract into it,
 * delete the archive and hand the extracted `manifest.json` to `dl`.
 *
 * The working directory is a map from file name to bytes plus the set of
 * names of its subdirectories; whether the archive can be extracted is a
 * given predicate on its bytes.
 */
module Modpack {
  import opened Wrappers
  import opened Text
  import opened Urls
  import opened Net
  import opened Manifest

  /** The working directory's files and subdirectories, the failure log and the requests sent. */
  datatype World = World(
    files: map<string, Bytes>,
    dirs: set<string>,
    log: seq<string>,
    requests: seq<Request>)

  /** How `get_modpack` ends: it returns, raises, or calls `dl` on the extracted manifest. */
  datatype Bootstrap =
    | FetchFailed(line: string)       // HTTPError: logged, then return
    | NoConnection(url: string)       // URLError from urlopen propagates
    | WriteFailed(name: string)       // OSError from open(): reported, then return
    | DirExists(dir: string)          // the safety stop: return before touching the directory
    | MakedirsFailed(dir: string)     // FileExistsError from os.makedirs propagates
    | ExtractFailed(dir: string)      // an unreadable archive: the zipfile error propagates
    | HandedOff(manifest: string)     // dl(Path(dirname, 'manifest.json'))

  /** `str(Path(name))` for a name without a slash: the empty name is the current directory. */
  function PathOf(name: string): string
  {
    if name == "" then "." else name
  }

  /** `os.path.isdir` of a name without a slash. */
  predicate IsDir(w: World, p: string)
  {
    p == "." || p == ".." || p in w.dirs
  }

  /** `open(name, "wb")` raises an `OSError`: there is no name, or it is a directory. */
  predicate CannotWrite(w: World, name: string)
  {
    name == "" || IsDir(w, name)
  }

  /** What `get_modpack(url, log, user_agent)` does, as a function of the world before it. */
  function GetModpackEffect(logFile: Option<string>, userAgent: string, fetch: Fetcher,
                            unzips: Bytes -> bool, w: World, url: string): (Bootstrap, World)
  {
    var req := Request(ModpackRequestUrl(url), userAgent);
    var sent := w.(requests := w.requests + [req]);
    match fetch(req)
    case HttpError(code) =>
      var line := IntToString(code) + " - " + url;
      (FetchFailed(line), sent.(log := LogFailed(logFile, sent.log, line)))
    case ConnectionError =>
      (NoConnection(req.url), sent)
    case Response(finalUrl, body, _) =>
      var filename := ModpackFileName(finalUrl);
      if CannotWrite(sent, filename) then (WriteFailed(filename), sent)
      else
        var written := sent.(files := sent.files[filename := body]);
        var dir := PathOf(ExtractDir(filename));
        if IsDir(written, dir) then (DirExists(dir), written)
        else if dir in written.files then (MakedirsFailed(dir), written)
        else
          var made := written.(dirs := written.dirs + {dir});
          if !unzips(body) then (ExtractFailed(dir), made)
          else (HandedOff(dir + "/manifest.json"), made.(files := made.files - {filename}))
  }

  /** `get_modpack`, step by step with its early returns. */
  method GetModpack(logFile: Option<string>, userAgent: string, fetch: Fetcher,
                    unzips: Bytes -> bool, w: World, url: string)
    returns (outcome: Bootstrap, after: World)
    ensures (outcome, after) == GetModpackEffect(logFile, userAgent, fetch, unzips, w, url)
  {
    var toFile := "/download";
    if EndsWith(url, toFile) {
      toFile := "";
    }
    var req := Request(url + toFile, userAgent);
    after := w.(requests := w.requests + [req]);
    var dlMp := fetch(req);
    if dlMp.HttpError? {
      var line := IntToString(dlMp.code) + " - " + url;
      after := after.(log := LogFailed(logFile, after.log, line));
      return FetchFailed(line), after;
    }
    if dlMp.ConnectionError? {
      return NoConnection(req.url), after;
    }
    var resp := dlMp.body;
    var filename := ModpackFileName(dlMp.finalUrl);
    if CannotWrite(after, filename) {
      return WriteFailed(filename), after;
    }
    after := after.(files := after.files[filename := resp]);
    var dirname := filename;
    if EndsWith(filename, ".zip") {
      dirname := dirname[..|dirname| - 4];
    }
    var dir := PathOf(dirname);
    if IsDir(after, dir) {
      return DirExists(dir), after;
    }
    if dir in after.files {
      return MakedirsFailed(dir), after;
    }
    after := after.(dirs := after.dirs + {dir});
    if !unzips(resp) {
      return ExtractFailed(dir), after;
    }
    after := after.(files := after.files - {filename});
    outcome := HandedOff(dir + "/manifest.json");
  }

  // ---------------------------------------------------------------------------
  // What get_modpack promises

  function ModpackRequest(userAgent: string, url: string): Request
  {
    Request(ModpackRequestUrl(url), userAgent)
  }

  /** Exactly one request is sent, for the `/download` form of the URL; a failure below HTTP raises. */
  lemma GetModpackRequests(logFile: Option<string>, userAgent: string, fetch: Fetcher,
                           unzips: Bytes -> bool, w: World, url: string)
    ensures var r := GetModpackEffect(logFile, userAgent, fetch, unzips, w, url);
            && r.1.requests == w.requests + [ModpackRequest(userAgent, url)]
            && (r.0.NoConnection? <==> fetch(ModpackRequest(userAgent, url)).ConnectionError?)
  {
  }

  /**
   * An HTTP error logs `<code> - <url>` with the URL as given (not the
   * request URL) when a log file is given, and changes nothing on disk.
   */
  lemma GetModpackHttpFailure(logFile: Option<string>, userAgent: string, fetch: Fetcher,
                              unzips: Bytes -> bool, w: World, url: string, code: int)
    requires fetch(ModpackRequest(userAgent, url)) == HttpError(code)
    ensures var line := IntToString(code) + " - " + url;
            var r := GetModpackEffect(logFile, userAgent, fetch, unzips, w, url);
            && r.0 == FetchFailed(line)
            && r.1.files == w.files && r.1.dirs == w.dirs
            && r.1.log == (if logFile.Some? then w.log + [line] else w.log)
  {
  }

  /**
   * The safety stop: the run stops at the directory check exactly when the
   * archive could be written and its extraction directory already exists;
   * then no directory is created, the archive stays on disk and `dl` is not called.
   */
  lemma SafetyStop(logFile: Option<string>, userAgent: string, fetch: Fetcher,
                   unzips: Bytes -> bool, w: World, url: string)
    ensures var resp := fetch(ModpackRequest(userAgent, url));
            var r := GetModpackEffect(logFile, userAgent, fetch, unzips, w, url);
            && (r.0.DirExists? <==>
                  resp.Response? && !CannotWrite(w, ModpackFileName(resp.finalUrl))
                  && IsDir(w, PathOf(ExtractDir(ModpackFileName(resp.finalUrl)))))
            && (r.0.DirExists? ==>
                  && r.0.dir == PathOf(ExtractDir(ModpackFileName(resp.finalUrl)))
                  && r.1.dirs == w.dirs
                  && r.1.files == w.files[ModpackFileName(resp.finalUrl) := resp.body]
                  && r.1.log == w.log)
  {
  }

  /**
   * `dl` is called exactly when a `.zip` archive was written, its directory
   * was new and it could be extracted; the directory is then the archive's
   * name without `.zip`, and the archive is gone.
   */
  lemma HandOff(logFile: Option<string>, userAgent: string, fetch: Fetcher,
                unzips: Bytes -> bool, w: World, url: string)
    ensures var resp := fetch(ModpackRequest(userAgent, url));
            var r := GetModpackEffect(logFile, userAgent, fetch, unzips, w, url);
            && (r.0.HandedOff? <==>
                  && resp.Response?
                  && var name := ModpackFileName(resp.finalUrl);
                     var dir := ExtractDir(name);
                     && !CannotWrite(w, name) && EndsWith(name, ".zip")
                     && !IsDir(w, PathOf(dir)) && dir !in w.files && unzips(resp.body))
            && (r.0.HandedOff? ==>
                  var name := ModpackFileName(resp.finalUrl);
                  var dir := ExtractDir(name);
                  && name == dir + ".zip" && dir != ""
                  && r.0.manifest == dir + "/manifest.json"
                  && dir !in w.dirs && r.1.dirs == w.dirs + {dir}
                  && r.1.files == w.files - {name})
  {
    var resp := fetch(ModpackRequest(userAgent, url));
    if resp.Response? {
      var name := ModpackFileName(resp.finalUrl);
      if EndsWith(name, ".zip") {
        var dir := ExtractDir(name);
        assert |dir| < |name|;
        assert dir != name;
        assert (w.files[name := resp.body] - {name}) == w.files - {name};
      }
    }
  }

  /**
   * As written, an archive whose name does not end in `.zip` is never
   * extracted: its directory has the archive's own name, which now names a
   * file, so `os.makedirs` raises and the archive stays.
   */
  lemma NonZipArchiveRaises(logFile: Option<string>, userAgent: string, fetch: Fetcher,
                            unzips: Bytes -> bool, w: World, url: string)
    requires fetch(ModpackRequest(userAgent, url)).Response?
    requires var name := ModpackFileName(fetch(ModpackRequest(userAgent, url)).finalUrl);
             !CannotWrite(w, name) && !EndsWith(name, ".zip")
    ensures var resp := fetch(ModpackRequest(userAgent, url));
            var name := ModpackFileName(resp.finalUrl);
            var r := GetModpackEffect(logFile, userAgent, fetch, unzips, w, url);
            && r.0 == MakedirsFailed(name)
            && r.1.files == w.files[name := resp.body] && r.1.dirs == w.dirs
  {
  }

  /**
   * Nothing that was there before is lost: directories are only added, and
   * only past the safety stop; every file but the archive keeps its bytes.
   */
  lemma GetModpackFrame(logFile: Option<string>, userAgent: string, fetch: Fetcher,
                        unzips: Bytes -> bool, w: World, url: string)
    ensures var resp := fetch(ModpackRequest(userAgent, url));
            var r := GetModpackEffect(logFile, userAgent, fetch, unzips, w, url);
            && w.dirs <= r.1.dirs
            && (r.1.dirs != w.dirs ==> r.0.HandedOff? || r.0.ExtractFailed?)
            && forall n :: n in w.files ==>
                 || (n in r.1.files && r.1.files[n] == w.files[n])
                 || (resp.Response? && n == ModpackFileName(resp.finalUrl))
  {
  }
}


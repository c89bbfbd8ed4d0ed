/**
 * What `dl` promises, stated on `Step` (one entry) and `Run` (a whole
 * manifest). Since the method `Manifest.Dl` is proved to compute `Run`, every
 * fact here is a fact about the loop.
 */
module ManifestFacts {
  import opened Wrappers
  import opened Text
  import opened Urls
  import opened Net
  import opened Manifest

  // ---------------------------------------------------------------------------
  // One entry

  /** A cache hit copies the first cached file under its own name, opens no URL and leaves the cache alone. */
  lemma StepFromCache(cfg: Config, fetch: Fetcher, st: State, e: FileRef)
    requires CacheHit(cfg, st.cache, e)
    ensures var f := st.cache[e][0];
            var r := Step(cfg, fetch, st, e);
            && r == Next(r.state, FromCache(f.name))
            && r.state.mods == st.mods[f.name := f.content]
            && r.state.cache == st.cache && r.state.log == st.log && r.state.requests == st.requests
  {
  }

  /**
   * An HTTP error is logged as `<code> - <url>` when a log file is given, the
   * entry ends `Failed` and the run goes on; mods and cache are untouched.
   */
  lemma StepHttpFailure(cfg: Config, fetch: Fetcher, st: State, e: FileRef, code: int)
    requires !CacheHit(cfg, st.cache, e)
    requires fetch(EntryRequest(cfg, e)) == HttpError(code)
    ensures var line := IntToString(code) + " - " + EntryUrl(e.projectID, e.fileID);
            var r := Step(cfg, fetch, st, e);
            && r == Next(r.state, Failed(line))
            && r.state.mods == st.mods && r.state.cache == st.cache
            && r.state.log == (if cfg.logFile.Some? then st.log + [line] else st.log)
            && r.state.requests == st.requests + [EntryRequest(cfg, e)]
  {
  }

  /** A name already present in mods is skipped: only the name is compared and its bytes stay as they are. */
  lemma StepSkip(cfg: Config, fetch: Fetcher, st: State, e: FileRef)
    requires !CacheHit(cfg, st.cache, e)
    requires fetch(EntryRequest(cfg, e)).Response?
    requires EntryFileName(fetch(EntryRequest(cfg, e)).finalUrl) in st.mods
    ensures var r := Step(cfg, fetch, st, e);
            && r == Next(r.state, Skipped(EntryFileName(fetch(EntryRequest(cfg, e)).finalUrl)))
            && r.state.mods == st.mods && r.state.cache == st.cache && r.state.log == st.log
  {
  }

  /** A fresh name that is not a directory: the body is written under it and the entry ends `Downloaded`. */
  lemma StepFreshWrite(cfg: Config, fetch: Fetcher, st: State, e: FileRef)
    requires !CacheHit(cfg, st.cache, e)
    requires fetch(EntryRequest(cfg, e)).Response?
    requires var name := EntryFileName(fetch(EntryRequest(cfg, e)).finalUrl);
             name !in st.mods && !IsDirName(name)
    requires !CacheEnabled(cfg) || cfg.store.AsIntended?
    ensures var resp := fetch(EntryRequest(cfg, e));
            var name := EntryFileName(resp.finalUrl);
            var r := Step(cfg, fetch, st, e);
            && r == Next(r.state, Downloaded(name))
            && r.state.mods == st.mods[name := resp.body]
            && r.state.log == st.log
  {
  }

  /**
   * The cache-store step as written: once the mod file is written, the run
   * stops with an exception, and the key is not added to the cache.
   */
  lemma StepStoreAsWrittenAborts(cfg: Config, fetch: Fetcher, st: State, e: FileRef)
    requires CacheEnabled(cfg) && cfg.store.AsWritten?
    requires !CacheHit(cfg, st.cache, e)
    requires fetch(EntryRequest(cfg, e)).Response?
    requires var name := EntryFileName(fetch(EntryRequest(cfg, e)).finalUrl);
             name !in st.mods && !IsDirName(name)
    ensures var resp := fetch(EntryRequest(cfg, e));
            var r := Step(cfg, fetch, st, e);
            && r.Stop?
            && r.reason == (if e in st.cache then CacheDirExists(e) else CacheDirMissing(e))
            && r.state.mods == st.mods[EntryFileName(resp.finalUrl) := resp.body]
            && r.state.cache == st.cache
            && (e !in st.cache ==> !CacheHit(cfg, r.state.cache, e))
  {
  }

  /**
   * The cache-store step as intended: after a fresh download the key holds
   * that file, so handling the same entry again is a cache hit that sends no
   * request and reproduces the same file.
   */
  lemma StepStoreAsIntendedThenHit(cfg: Config, fetch: Fetcher, st: State, e: FileRef)
    requires CacheEnabled(cfg) && cfg.store.AsIntended?
    requires !CacheHit(cfg, st.cache, e)
    requires fetch(EntryRequest(cfg, e)).Response?
    requires var name := EntryFileName(fetch(EntryRequest(cfg, e)).finalUrl);
             name !in st.mods && !IsDirName(name)
    ensures var resp := fetch(EntryRequest(cfg, e));
            var name := EntryFileName(resp.finalUrl);
            var r := Step(cfg, fetch, st, e);
            && r == Next(r.state, Downloaded(name))
            && CacheHit(cfg, r.state.cache, e)
            && Step(cfg, fetch, r.state, e) == Next(r.state, FromCache(name))
  {
    var resp := fetch(EntryRequest(cfg, e));
    var name := EntryFileName(resp.finalUrl);
    var s := Step(cfg, fetch, st, e).state;
    assert s.mods == st.mods[name := resp.body];
    assert s.cache[e][0] == CachedFile(name, resp.body);
    assert s.mods[name := resp.body] == s.mods;
  }

  // ---------------------------------------------------------------------------
  // What one entry changes, in every case

  /** The log gains the entry's line exactly when it failed and a log file is given. */
  predicate LogsFailure(cfg: Config, before: State, r: StepResult)
  {
    r.state.log == (if cfg.logFile.Some? && r.Next? && r.outcome.Failed? then before.log + [r.outcome.line] else before.log)
  }

  /** Every entry but a cache hit sends its own request `req`, and nothing else is sent. */
  predicate SendsRequest(req: Request, before: State, r: StepResult)
  {
    r.state.requests == (if r.Next? && r.outcome.FromCache? then before.requests else before.requests + [req])
  }

  predicate KeepsNames(before: State, r: StepResult)
  {
    before.mods.Keys <= r.state.mods.Keys
  }

  predicate KeepsBytes(mods: map<string, Bytes>, after: map<string, Bytes>)
  {
    forall n :: n in mods ==> n in after && after[n] == mods[n]
  }

  predicate NotFromCache(r: StepResult)
  {
    !(r.Next? && r.outcome.FromCache?)
  }

  /** No name leaves mods; without a cache no existing file changes, and nothing comes from the cache. */
  lemma StepMods(cfg: Config, fetch: Fetcher, st: State, e: FileRef)
    ensures var r := Step(cfg, fetch, st, e);
            && KeepsNames(st, r)
            && (!CacheEnabled(cfg) ==> KeepsBytes(st.mods, r.state.mods) && NotFromCache(r))
  {
    if !CacheHit(cfg, st.cache, e) {
      match fetch(EntryRequest(cfg, e))
      case HttpError(_) =>
      case ConnectionError =>
      case Response(_, _, _) =>
    }
  }

  lemma StepLog(cfg: Config, fetch: Fetcher, st: State, e: FileRef)
    ensures LogsFailure(cfg, st, Step(cfg, fetch, st, e))
  {
    if !CacheHit(cfg, st.cache, e) {
      match fetch(EntryRequest(cfg, e))
      case HttpError(_) =>
      case ConnectionError =>
      case Response(_, _, _) =>
    }
  }

  lemma StepRequests(cfg: Config, fetch: Fetcher, st: State, e: FileRef)
    ensures SendsRequest(EntryRequest(cfg, e), st, Step(cfg, fetch, st, e))
  {
    if !CacheHit(cfg, st.cache, e) {
      match fetch(EntryRequest(cfg, e))
      case HttpError(_) =>
      case ConnectionError =>
      case Response(_, _, _) =>
    }
  }

  /** Only the corrected store step changes the cache; the store step as written never ends an entry `Downloaded`. */
  lemma StepCache(cfg: Config, fetch: Fetcher, st: State, e: FileRef)
    ensures var r := Step(cfg, fetch, st, e);
            && (!CacheEnabled(cfg) || cfg.store.AsWritten? ==> r.state.cache == st.cache)
            && (CacheEnabled(cfg) && cfg.store.AsWritten? ==> !(r.Next? && r.outcome.Downloaded?))
  {
    if !CacheHit(cfg, st.cache, e) {
      match fetch(EntryRequest(cfg, e))
      case HttpError(_) =>
      case ConnectionError =>
      case Response(_, _, _) =>
    }
  }

  /** A response that neither raises nor names a directory. */
  predicate Harmless(resp: FetchResult)
  {
    match resp
    case HttpError(_) => true
    case ConnectionError => false
    case Response(finalUrl, _, _) => !IsDirName(EntryFileName(finalUrl))
  }

  /** An HTTP failure does not stop the loop; only a connection failure, a directory name or the store step raise. */
  lemma StepContinues(cfg: Config, fetch: Fetcher, st: State, e: FileRef)
    requires Harmless(fetch(EntryRequest(cfg, e)))
    requires !CacheEnabled(cfg) || cfg.store.AsIntended?
    ensures Step(cfg, fetch, st, e).Next?
  {
    if !CacheHit(cfg, st.cache, e) {
      match fetch(EntryRequest(cfg, e))
      case HttpError(_) =>
      case Response(_, _, _) =>
    }
  }

  /** What a response makes of an entry when there is no cache. */
  predicate OutcomeWithoutCache(cfg: Config, fetch: Fetcher, e: FileRef, o: Outcome)
  {
    match fetch(EntryRequest(cfg, e))
    case HttpError(code) => o == Failed(IntToString(code) + " - " + EntryUrl(e.projectID, e.fileID))
    case ConnectionError => false
    case Response(finalUrl, _, _) => o == Skipped(EntryFileName(finalUrl)) || o == Downloaded(EntryFileName(finalUrl))
  }

  lemma StepOutcomeWithoutCache(cfg: Config, fetch: Fetcher, st: State, e: FileRef)
    requires !CacheEnabled(cfg)
    ensures var r := Step(cfg, fetch, st, e);
            r.Next? ==> OutcomeWithoutCache(cfg, fetch, e, r.outcome)
  {
    match fetch(EntryRequest(cfg, e))
    case HttpError(_) =>
    case ConnectionError =>
    case Response(_, _, _) =>
  }

  /** The entry's response is an HTTP error or names a file already in `mods`. */
  predicate SettledEntry(cfg: Config, fetch: Fetcher, mods: map<string, Bytes>, e: FileRef)
  {
    match fetch(EntryRequest(cfg, e))
    case HttpError(_) => true
    case ConnectionError => false
    case Response(finalUrl, _, _) => EntryFileName(finalUrl) in mods
  }

  /** Without a cache, an entry that was handled is settled afterwards. */
  lemma StepSettles(cfg: Config, fetch: Fetcher, st: State, e: FileRef)
    requires !CacheEnabled(cfg)
    ensures var r := Step(cfg, fetch, st, e);
            r.Next? ==> SettledEntry(cfg, fetch, r.state.mods, e)
  {
    match fetch(EntryRequest(cfg, e))
    case HttpError(_) =>
    case ConnectionError =>
    case Response(_, _, _) =>
  }

  /** Without a cache, a settled entry is skipped or fails, and neither mods nor the cache change. */
  lemma StepWhenSettled(cfg: Config, fetch: Fetcher, st: State, e: FileRef)
    requires !CacheEnabled(cfg)
    requires SettledEntry(cfg, fetch, st.mods, e)
    ensures var r := Step(cfg, fetch, st, e);
            && r.Next? && r.state.mods == st.mods && r.state.cache == st.cache
            && (r.outcome.Skipped? || r.outcome.Failed?)
  {
    match fetch(EntryRequest(cfg, e))
    case HttpError(_) =>
    case Response(_, _, _) =>
  }

  // ---------------------------------------------------------------------------
  // The loop, for any per-entry step that has the property at hand

  lemma {:induction false} RunWithLengths(step: Stepper, st: State, files: seq<FileRef>)
    ensures var r := RunWith(step, st, files);
            |r.outcomes| <= |files| && (r.aborted.None? <==> |r.outcomes| == |files|)
    decreases |files|
  {
    if files != [] {
      match step(st, files[0])
      case Stop(_, _) =>
      case Next(s, _) => RunWithLengths(step, s, files[1..]);
    }
  }

  /** The lines of the entries that ended `Failed`, in order. */
  function FailedLines(outcomes: seq<Outcome>): (lines: seq<string>)
    ensures |lines| <= |outcomes|
  {
    if outcomes == [] then []
    else (if outcomes[0].Failed? then [outcomes[0].line] else []) + FailedLines(outcomes[1..])
  }

  lemma {:induction false} RunWithLog(cfg: Config, step: Stepper, st: State, files: seq<FileRef>)
    requires forall s: State, e: FileRef :: LogsFailure(cfg, s, step(s, e))
    ensures var r := RunWith(step, st, files);
            r.state.log == st.log + (if cfg.logFile.Some? then FailedLines(r.outcomes) else [])
    decreases |files|
  {
    if files != [] {
      var first := step(st, files[0]);
      assert LogsFailure(cfg, st, first);
      match first
      case Stop(s, _) =>
        assert st.log + [] == st.log;
      case Next(s, o) =>
        RunWithLog(cfg, step, s, files[1..]);
        var rest := RunWith(step, s, files[1..]);
        var all := [o] + rest.outcomes;
        assert all[0] == o && all[1..] == rest.outcomes;
        var mine := if o.Failed? then [o.line] else [];
        assert FailedLines(all) == mine + FailedLines(rest.outcomes);
        if cfg.logFile.Some? {
          assert s.log == st.log + mine;
          assert st.log + mine + FailedLines(rest.outcomes) == st.log + FailedLines(all);
        }
    }
  }

  /** The number of outcomes that came over the network rather than from the cache. */
  function Fetched(outcomes: seq<Outcome>): (n: nat)
    ensures n <= |outcomes|
  {
    if outcomes == [] then 0
    else (if outcomes[0].FromCache? then 0 else 1) + Fetched(outcomes[1..])
  }

  lemma {:induction false} RunWithRequests(req: FileRef -> Request, step: Stepper, st: State, files: seq<FileRef>)
    requires forall s: State, e: FileRef :: SendsRequest(req(e), s, step(s, e))
    ensures var r := RunWith(step, st, files);
            && |st.requests| <= |r.state.requests|
            && r.state.requests[..|st.requests|] == st.requests
            && |r.state.requests| == |st.requests| + Fetched(r.outcomes) + (if r.aborted.Some? then 1 else 0)
            && forall j :: |st.requests| <= j < |r.state.requests| ==>
                 exists e :: e in files && r.state.requests[j] == req(e)
    decreases |files|
  {
    if files != [] {
      var e := files[0];
      var first := step(st, e);
      assert SendsRequest(req(e), st, first);
      match first
      case Stop(s, _) =>
        assert s.requests == st.requests + [req(e)];
        assert s.requests[..|st.requests|] == st.requests;
        assert s.requests[|st.requests|] == req(e);
      case Next(s, o) =>
        RunWithRequests(req, step, s, files[1..]);
        var rest := RunWith(step, s, files[1..]);
        var all := [o] + rest.outcomes;
        assert all[0] == o && all[1..] == rest.outcomes;
        var reqs := rest.state.requests;
        assert |s.requests| == |st.requests| + (if o.FromCache? then 0 else 1);
        assert s.requests[..|st.requests|] == st.requests;
        assert reqs[..|st.requests|] == reqs[..|s.requests|][..|st.requests|];
        forall j | |st.requests| <= j < |reqs|
          ensures exists e' :: e' in files && reqs[j] == req(e')
        {
          if j < |s.requests| {
            assert reqs[j] == reqs[..|s.requests|][j] == s.requests[j] == req(e);
          } else {
            var e' :| e' in files[1..] && reqs[j] == req(e');
            assert e' in files;
          }
        }
    }
  }

  /** The request of every entry, in order. */
  function RequestsOf(req: FileRef -> Request, files: seq<FileRef>): seq<Request>
  {
    if files == [] then [] else [req(files[0])] + RequestsOf(req, files[1..])
  }

  /** `RequestsOf` lists exactly the entries' requests, position by position. */
  lemma {:induction false} RequestsOfAt(req: FileRef -> Request, files: seq<FileRef>)
    ensures |RequestsOf(req, files)| == |files|
    ensures forall k :: 0 <= k < |files| ==> RequestsOf(req, files)[k] == req(files[k])
  {
    if files != [] {
      RequestsOfAt(req, files[1..]);
    }
  }

  lemma RequestsOfPrefix(req: FileRef -> Request, files: seq<FileRef>, n: nat)
    requires n < |files|
    ensures RequestsOf(req, files[..n + 1]) == [req(files[0])] + RequestsOf(req, files[1..][..n])
  {
    assert files[..n + 1][1..] == files[1..][..n];
  }

  /** The requests of a run that sends one request for every entry it handles, and only those. */
  predicate SentInOrder(req: FileRef -> Request, st: State, files: seq<FileRef>, r: RunResult)
  {
    var handled := |r.outcomes| + (if r.aborted.Some? then 1 else 0);
    handled <= |files| && r.state.requests == st.requests + RequestsOf(req, files[..handled])
  }

  /** The inductive step of the lemma below, once the rest of the manifest is known to be sent in order. */
  lemma SentInOrderAfterNext(req: FileRef -> Request, step: Stepper, st: State, files: seq<FileRef>)
    requires files != [] && step(st, files[0]).Next?
    requires SendsRequest(req(files[0]), st, step(st, files[0])) && NotFromCache(step(st, files[0]))
    requires SentInOrder(req, step(st, files[0]).state, files[1..], RunWith(step, step(st, files[0]).state, files[1..]))
    ensures SentInOrder(req, st, files, RunWith(step, st, files))
  {
    var first := step(st, files[0]);
    var s := first.state;
    var rest := RunWith(step, s, files[1..]);
    var r := RunWith(step, st, files);
    assert r == Continue(step, first, files[1..]);
    assert r.state == rest.state && r.aborted == rest.aborted && |r.outcomes| == |rest.outcomes| + 1;
    var n := |rest.outcomes| + (if rest.aborted.Some? then 1 else 0);
    RequestsOfPrefix(req, files, n);
    assert s.requests == st.requests + [req(files[0])];
    assert rest.state.requests == st.requests + ([req(files[0])] + RequestsOf(req, files[1..][..n]));
  }

  lemma {:induction false} RunWithRequestsNoHits(req: FileRef -> Request, step: Stepper, st: State, files: seq<FileRef>)
    requires forall s: State, e: FileRef :: SendsRequest(req(e), s, step(s, e)) && NotFromCache(step(s, e))
    ensures SentInOrder(req, st, files, RunWith(step, st, files))
    decreases |files|
  {
    if files != [] {
      var e := files[0];
      var first := step(st, e);
      assert SendsRequest(req(e), st, first);
      match first
      case Stop(s, _) =>
        assert RequestsOf(req, files[..1]) == [req(e)];
      case Next(s, o) =>
        RunWithRequestsNoHits(req, step, s, files[1..]);
        SentInOrderAfterNext(req, step, st, files);
    }
  }

  lemma {:induction false} RunWithKeepsNames(step: Stepper, st: State, files: seq<FileRef>)
    requires forall s: State, e: FileRef :: KeepsNames(s, step(s, e))
    ensures st.mods.Keys <= RunWith(step, st, files).state.mods.Keys
    decreases |files|
  {
    if files != [] {
      var first := step(st, files[0]);
      assert KeepsNames(st, first);
      match first
      case Stop(_, _) =>
      case Next(s, _) => RunWithKeepsNames(step, s, files[1..]);
    }
  }

  lemma {:induction false} RunWithKeepsBytes(step: Stepper, st: State, files: seq<FileRef>)
    requires forall s: State, e: FileRef :: KeepsBytes(s.mods, step(s, e).state.mods)
    ensures KeepsBytes(st.mods, RunWith(step, st, files).state.mods)
    decreases |files|
  {
    if files != [] {
      var first := step(st, files[0]);
      assert KeepsBytes(st.mods, first.state.mods);
      match first
      case Stop(_, _) =>
      case Next(s, _) => RunWithKeepsBytes(step, s, files[1..]);
    }
  }

  lemma {:induction false} RunWithKeepsCache(step: Stepper, st: State, files: seq<FileRef>)
    requires forall s: State, e: FileRef :: step(s, e).state.cache == s.cache
    ensures RunWith(step, st, files).state.cache == st.cache
    decreases |files|
  {
    if files != [] {
      var first := step(st, files[0]);
      assert first.state.cache == st.cache;
      match first
      case Stop(_, _) =>
      case Next(s, _) => RunWithKeepsCache(step, s, files[1..]);
    }
  }

  /** Every outcome satisfies what each step promises of the outcome of its own entry. */
  lemma {:induction false} RunWithOutcomes(step: Stepper, ok: (FileRef, Outcome) -> bool, st: State, files: seq<FileRef>)
    requires forall s: State, e: FileRef :: step(s, e).Next? ==> ok(e, step(s, e).outcome)
    ensures var r := RunWith(step, st, files);
            |r.outcomes| <= |files| && forall k :: 0 <= k < |r.outcomes| ==> ok(files[k], r.outcomes[k])
    decreases |files|
  {
    RunWithLengths(step, st, files);
    if files != [] {
      var first := step(st, files[0]);
      match first
      case Stop(_, _) =>
      case Next(s, o) =>
        assert ok(files[0], o);
        RunWithOutcomes(step, ok, s, files[1..]);
        var rest := RunWith(step, s, files[1..]);
        var all := [o] + rest.outcomes;
        forall k | 0 <= k < |all| ensures ok(files[k], all[k]) {
          if k > 0 {
            assert all[k] == rest.outcomes[k - 1] && files[k] == files[1..][k - 1];
          }
        }
    }
  }

  lemma {:induction false} RunWithCompletes(step: Stepper, st: State, files: seq<FileRef>)
    requires forall s: State, e: FileRef :: e in files ==> step(s, e).Next?
    ensures var r := RunWith(step, st, files);
            r.aborted.None? && |r.outcomes| == |files|
    decreases |files|
  {
    if files != [] {
      var first := step(st, files[0]);
      assert first.Next?;
      assert forall e :: e in files[1..] ==> e in files;
      RunWithCompletes(step, first.state, files[1..]);
    }
  }

  /**
   * A run that raised nothing leaves every entry settled, when each step
   * settles its own entry, keeps every name, and settledness only needs names.
   */
  lemma {:induction false} RunWithSettles(step: Stepper, settled: (map<string, Bytes>, FileRef) -> bool,
                                          st: State, files: seq<FileRef>)
    requires forall s: State, e: FileRef :: step(s, e).Next? ==> settled(step(s, e).state.mods, e)
    requires forall s: State, e: FileRef :: KeepsNames(s, step(s, e))
    requires forall m1: map<string, Bytes>, m2: map<string, Bytes>, e: FileRef ::
               settled(m1, e) && m1.Keys <= m2.Keys ==> settled(m2, e)
    ensures var r := RunWith(step, st, files);
            r.aborted.None? ==> forall e :: e in files ==> settled(r.state.mods, e)
    decreases |files|
  {
    if files != [] {
      var first := step(st, files[0]);
      match first
      case Stop(_, _) =>
      case Next(s, o) =>
        var m := RunWith(step, s, files[1..]).state.mods;
        RunWithSettles(step, settled, s, files[1..]);
        RunWithKeepsNames(step, s, files[1..]);
        assert settled(s.mods, files[0]);
        assert settled(m, files[0]);
    }
  }

  /** When every entry is settled and a settled entry changes nothing, the run changes nothing. */
  lemma {:induction false} RunWithSettled(step: Stepper, settled: (map<string, Bytes>, FileRef) -> bool,
                                          st: State, files: seq<FileRef>)
    requires forall s: State, e: FileRef :: settled(s.mods, e) ==>
               && step(s, e).Next? && step(s, e).state.mods == s.mods && step(s, e).state.cache == s.cache
               && (step(s, e).outcome.Skipped? || step(s, e).outcome.Failed?)
    requires forall e :: e in files ==> settled(st.mods, e)
    ensures var r := RunWith(step, st, files);
            && r.aborted.None? && |r.outcomes| == |files|
            && r.state.mods == st.mods && r.state.cache == st.cache
            && forall o :: o in r.outcomes ==> o.Skipped? || o.Failed?
    decreases |files|
  {
    if files != [] {
      assert settled(st.mods, files[0]);
      var first := step(st, files[0]);
      assert first.Next? && first.state.mods == st.mods;
      assert forall e :: e in files[1..] ==> e in files;
      RunWithSettled(step, settled, first.state, files[1..]);
    }
  }

  // ---------------------------------------------------------------------------
  // The loop of dl over a manifest

  /** The loop handles a prefix of the entries; it handles all of them exactly when nothing was raised. */
  lemma RunLengths(cfg: Config, fetch: Fetcher, st: State, files: seq<FileRef>)
    ensures var r := Run(cfg, fetch, st, files);
            |r.outcomes| <= |files| && (r.aborted.None? <==> |r.outcomes| == |files|)
  {
    RunWithLengths(EntryStep(cfg, fetch), st, files);
  }

  /** The log gains exactly one line per HTTP failure, in order, and nothing without a log file. */
  lemma RunLog(cfg: Config, fetch: Fetcher, st: State, files: seq<FileRef>)
    ensures var r := Run(cfg, fetch, st, files);
            r.state.log == st.log + (if cfg.logFile.Some? then FailedLines(r.outcomes) else [])
  {
    var step := EntryStep(cfg, fetch);
    forall s: State, e: FileRef ensures LogsFailure(cfg, s, step(s, e)) {
      StepLog(cfg, fetch, s, e);
    }
    RunWithLog(cfg, step, st, files);
  }

  /**
   * One request per entry that did not come from the cache, plus one for the
   * entry that raised; earlier requests are kept, and each new one is an
   * entry's download URL with the configured User-Agent.
   */
  lemma RunRequests(cfg: Config, fetch: Fetcher, st: State, files: seq<FileRef>)
    ensures var r := Run(cfg, fetch, st, files);
            && |st.requests| <= |r.state.requests|
            && r.state.requests[..|st.requests|] == st.requests
            && |r.state.requests| == |st.requests| + Fetched(r.outcomes) + (if r.aborted.Some? then 1 else 0)
            && forall j :: |st.requests| <= j < |r.state.requests| ==>
                 exists e :: e in files && r.state.requests[j] == EntryRequest(cfg, e)
  {
    var step := EntryStep(cfg, fetch);
    var req := EntryRequester(cfg);
    forall s: State, e: FileRef ensures SendsRequest(req(e), s, step(s, e)) {
      StepRequests(cfg, fetch, s, e);
    }
    RunWithRequests(req, step, st, files);
  }

  /** Without a cache, the requests are the download requests of the entries handled, in manifest order. */
  lemma RunRequestsWithoutCache(cfg: Config, fetch: Fetcher, st: State, files: seq<FileRef>)
    requires !CacheEnabled(cfg)
    ensures var r := Run(cfg, fetch, st, files);
            var handled := |r.outcomes| + (if r.aborted.Some? then 1 else 0);
            handled <= |files| && r.state.requests == st.requests + RequestsOf(EntryRequester(cfg), files[..handled])
  {
    var step := EntryStep(cfg, fetch);
    var req := EntryRequester(cfg);
    forall s: State, e: FileRef ensures SendsRequest(req(e), s, step(s, e)) && NotFromCache(step(s, e)) {
      StepRequests(cfg, fetch, s, e);
      StepMods(cfg, fetch, s, e);
    }
    RunWithRequestsNoHits(req, step, st, files);
  }

  /**
   * No name ever leaves the mods directory, and without a cache a file
   * already there keeps its bytes: only a cache hit overwrites.
   */
  lemma RunMods(cfg: Config, fetch: Fetcher, st: State, files: seq<FileRef>)
    ensures var m := Run(cfg, fetch, st, files).state.mods;
            && st.mods.Keys <= m.Keys
            && (!CacheEnabled(cfg) ==> KeepsBytes(st.mods, m))
  {
    var step := EntryStep(cfg, fetch);
    forall s: State, e: FileRef ensures KeepsNames(s, step(s, e)) {
      StepMods(cfg, fetch, s, e);
    }
    RunWithKeepsNames(step, st, files);
    if !CacheEnabled(cfg) {
      forall s: State, e: FileRef ensures KeepsBytes(s.mods, step(s, e).state.mods) {
        StepMods(cfg, fetch, s, e);
      }
      RunWithKeepsBytes(step, st, files);
    }
  }

  /** The cache changes only through the corrected store step. */
  lemma RunCache(cfg: Config, fetch: Fetcher, st: State, files: seq<FileRef>)
    requires !CacheEnabled(cfg) || cfg.store.AsWritten?
    ensures Run(cfg, fetch, st, files).state.cache == st.cache
  {
    var step := EntryStep(cfg, fetch);
    forall s: State, e: FileRef ensures step(s, e).state.cache == s.cache {
      StepCache(cfg, fetch, s, e);
    }
    RunWithKeepsCache(step, st, files);
  }

  /** Without a cache no entry is served from it. */
  lemma RunWithoutCacheNeverHits(cfg: Config, fetch: Fetcher, st: State, files: seq<FileRef>)
    requires !CacheEnabled(cfg)
    ensures forall o :: o in Run(cfg, fetch, st, files).outcomes ==> !o.FromCache?
  {
    var step := EntryStep(cfg, fetch);
    var ok := (e: FileRef, o: Outcome) => !o.FromCache?;
    forall s: State, e: FileRef ensures step(s, e).Next? ==> ok(e, step(s, e).outcome) {
      StepMods(cfg, fetch, s, e);
    }
    RunWithOutcomes(step, ok, st, files);
  }

  /** As written, with the cache on, no entry ever ends `Downloaded`: the first fresh write raises. */
  lemma RunAsWrittenNeverDownloads(cfg: Config, fetch: Fetcher, st: State, files: seq<FileRef>)
    requires CacheEnabled(cfg) && cfg.store.AsWritten?
    ensures forall o :: o in Run(cfg, fetch, st, files).outcomes ==> !o.Downloaded?
  {
    var step := EntryStep(cfg, fetch);
    var ok := (e: FileRef, o: Outcome) => !o.Downloaded?;
    forall s: State, e: FileRef ensures step(s, e).Next? ==> ok(e, step(s, e).outcome) {
      StepCache(cfg, fetch, s, e);
    }
    RunWithOutcomes(step, ok, st, files);
  }

  /**
   * HTTP failures never stop the loop: when no entry's response raises and
   * the store step cannot raise, every entry is handled.
   */
  lemma RunCompletes(cfg: Config, fetch: Fetcher, st: State, files: seq<FileRef>)
    requires forall e :: e in files ==> Harmless(fetch(EntryRequest(cfg, e)))
    requires !CacheEnabled(cfg) || cfg.store.AsIntended?
    ensures var r := Run(cfg, fetch, st, files);
            r.aborted.None? && |r.outcomes| == |files|
  {
    var step := EntryStep(cfg, fetch);
    forall s: State, e: FileRef | e in files ensures step(s, e).Next? {
      StepContinues(cfg, fetch, s, e);
    }
    RunWithCompletes(step, st, files);
  }

  /** Without a cache, entry `k` ends as its own response says, whatever the other entries do. */
  lemma RunOutcomesWithoutCache(cfg: Config, fetch: Fetcher, st: State, files: seq<FileRef>)
    requires !CacheEnabled(cfg)
    ensures var r := Run(cfg, fetch, st, files);
            |r.outcomes| <= |files| &&
            forall k :: 0 <= k < |r.outcomes| ==> OutcomeWithoutCache(cfg, fetch, files[k], r.outcomes[k])
  {
    var step := EntryStep(cfg, fetch);
    var ok := (e: FileRef, o: Outcome) => OutcomeWithoutCache(cfg, fetch, e, o);
    forall s: State, e: FileRef ensures step(s, e).Next? ==> ok(e, step(s, e).outcome) {
      StepOutcomeWithoutCache(cfg, fetch, s, e);
    }
    RunWithOutcomes(step, ok, st, files);
  }

  // ---------------------------------------------------------------------------
  // Running the manifest a second time

  /** Every entry's response is an HTTP error or names a file already in `mods`. */
  predicate Settled(cfg: Config, fetch: Fetcher, mods: map<string, Bytes>, files: seq<FileRef>)
  {
    forall e :: e in files ==> SettledEntry(cfg, fetch, mods, e)
  }

  /** Without a cache, a run that raised nothing leaves every entry's name in `mods`. */
  lemma CompletedRunSettles(cfg: Config, fetch: Fetcher, st: State, files: seq<FileRef>)
    requires !CacheEnabled(cfg)
    requires Run(cfg, fetch, st, files).aborted.None?
    ensures Settled(cfg, fetch, Run(cfg, fetch, st, files).state.mods, files)
  {
    var step := EntryStep(cfg, fetch);
    var settled := (m: map<string, Bytes>, e: FileRef) => SettledEntry(cfg, fetch, m, e);
    forall s: State, e: FileRef
      ensures step(s, e).Next? ==> settled(step(s, e).state.mods, e)
      ensures KeepsNames(s, step(s, e))
    {
      StepSettles(cfg, fetch, s, e);
      StepMods(cfg, fetch, s, e);
    }
    RunWithSettles(step, settled, st, files);
  }

  /** Without a cache, a settled manifest changes nothing: every entry is skipped or fails. */
  lemma SettledRunChangesNothing(cfg: Config, fetch: Fetcher, st: State, files: seq<FileRef>)
    requires !CacheEnabled(cfg)
    requires Settled(cfg, fetch, st.mods, files)
    ensures var r := Run(cfg, fetch, st, files);
            && r.aborted.None? && |r.outcomes| == |files|
            && r.state.mods == st.mods && r.state.cache == st.cache
            && forall o :: o in r.outcomes ==> o.Skipped? || o.Failed?
  {
    var step := EntryStep(cfg, fetch);
    var settled := (m: map<string, Bytes>, e: FileRef) => SettledEntry(cfg, fetch, m, e);
    forall s: State, e: FileRef | settled(s.mods, e)
      ensures && step(s, e).Next? && step(s, e).state.mods == s.mods && step(s, e).state.cache == s.cache
              && (step(s, e).outcome.Skipped? || step(s, e).outcome.Failed?)
    {
      StepWhenSettled(cfg, fetch, s, e);
    }
    RunWithSettled(step, settled, st, files);
  }

  /** Without a cache, running a manifest again after a run that raised nothing changes nothing in `mods`. */
  lemma RerunIsIdempotent(cfg: Config, fetch: Fetcher, st: State, files: seq<FileRef>)
    requires !CacheEnabled(cfg)
    requires Run(cfg, fetch, st, files).aborted.None?
    ensures var s := Run(cfg, fetch, st, files).state;
            var again := Run(cfg, fetch, s, files);
            again.aborted.None? && again.state.mods == s.mods
  {
    CompletedRunSettles(cfg, fetch, st, files);
    SettledRunChangesNothing(cfg, fetch, Run(cfg, fetch, st, files).state, files);
  }

  // ---------------------------------------------------------------------------
  // Running the manifest a second time with the cache on

  /** A write of one file into mods, if the entry makes one. */
  function ApplyWrite(m: map<string, Bytes>, w: Option<CachedFile>): map<string, Bytes>
  {
    match w
    case None => m
    case Some(f) => m[f.name := f.content]
  }

  /** The file an entry writes into mods: the cached file on a hit, otherwise the body under a fresh name. */
  function EntryWrite(cfg: Config, fetch: Fetcher, st: State, e: FileRef): Option<CachedFile>
  {
    if CacheHit(cfg, st.cache, e) then Some(st.cache[e][0])
    else match fetch(EntryRequest(cfg, e))
      case Response(finalUrl, body, _) =>
        var name := EntryFileName(finalUrl);
        if name !in st.mods && !IsDirName(name) then Some(CachedFile(name, body)) else None
      case _ => None
  }

  function EntryWriter(cfg: Config, fetch: Fetcher): (State, FileRef) -> Option<CachedFile>
  {
    (st: State, e: FileRef) => EntryWrite(cfg, fetch, st, e)
  }

  /** Two caches agree on key `k`: it is in both with the same files, or in neither. */
  predicate SameAt(c1: Cache, c2: Cache, k: FileRef)
  {
    (k in c1 <==> k in c2) && (k in c1 ==> c1[k] == c2[k])
  }

  /** Entry `k` would be downloaded under a name that is not yet in mods. */
  predicate Fresh(cfg: Config, fetch: Fetcher, mods: map<string, Bytes>, k: FileRef)
  {
    var resp := fetch(EntryRequest(cfg, k));
    resp.Response? && EntryFileName(resp.finalUrl) !in mods
  }

  /** The cache can no longer change at `k`: `k` is a hit, or entry `k` would not be downloaded. */
  predicate Stable(cfg: Config, fetch: Fetcher, st: State, k: FileRef)
  {
    CacheHit(cfg, st.cache, k) || !Fresh(cfg, fetch, st.mods, k)
  }

  function Stability(cfg: Config, fetch: Fetcher): (State, FileRef) -> bool
  {
    (st: State, k: FileRef) => Stable(cfg, fetch, st, k)
  }

  lemma ApplyWriteUnion(m: map<string, Bytes>, d: map<string, Bytes>, w: Option<CachedFile>)
    ensures ApplyWrite(m + d, w) == m + ApplyWrite(d, w)
  {
    if w.Some? {
      assert (m + d)[w.value.name := w.value.content] == m + d[w.value.name := w.value.content];
    }
  }

  lemma UnionTwice(m: map<string, Bytes>, d: map<string, Bytes>)
    ensures (m + d) + d == m + d
  {
  }

  /** An entry that continues changes mods by exactly its own write. */
  lemma StepWrites(cfg: Config, fetch: Fetcher, st: State, e: FileRef)
    ensures var r := Step(cfg, fetch, st, e);
            r.Next? ==> r.state.mods == ApplyWrite(st.mods, EntryWrite(cfg, fetch, st, e))
  {
    if !CacheHit(cfg, st.cache, e) {
      match fetch(EntryRequest(cfg, e))
      case HttpError(_) =>
      case ConnectionError =>
      case Response(_, _, _) =>
    }
  }

  /** Once the cache can no longer change at `k`, no entry changes it there, and it stays so. */
  lemma StepKeepsStable(cfg: Config, fetch: Fetcher, st: State, e: FileRef, k: FileRef)
    requires Stable(cfg, fetch, st, k)
    ensures var r := Step(cfg, fetch, st, e);
            Stable(cfg, fetch, r.state, k) && SameAt(r.state.cache, st.cache, k)
  {
    var r := Step(cfg, fetch, st, e);
    StepMods(cfg, fetch, st, e);
    if !CacheHit(cfg, st.cache, e) {
      match fetch(EntryRequest(cfg, e))
      case HttpError(_) =>
      case ConnectionError =>
      case Response(_, _, _) =>
    }
    assert SameAt(r.state.cache, st.cache, k);
    if Fresh(cfg, fetch, r.state.mods, k) {
      assert Fresh(cfg, fetch, st.mods, k);
    }
  }

  /** After an entry that continues, the cache can no longer change at that entry's key. */
  lemma StepStabilises(cfg: Config, fetch: Fetcher, st: State, e: FileRef)
    ensures var r := Step(cfg, fetch, st, e);
            r.Next? ==> Stable(cfg, fetch, r.state, e)
  {
    if !CacheHit(cfg, st.cache, e) {
      match fetch(EntryRequest(cfg, e))
      case HttpError(_) =>
      case ConnectionError =>
      case Response(_, _, _) =>
    }
  }

  /**
   * With the cache on, an entry handled again, in a state whose mods holds at
   * least the names it had before and whose cache agrees at the key with the
   * cache after the first handling, makes the same write, leaves the cache
   * alone and does not end `Downloaded`: a download comes back as a hit.
   */
  lemma StepMirror(cfg: Config, fetch: Fetcher, a: State, b: State, e: FileRef)
    requires CacheEnabled(cfg)
    requires Step(cfg, fetch, a, e).Next?
    requires a.mods.Keys <= b.mods.Keys
    requires SameAt(b.cache, Step(cfg, fetch, a, e).state.cache, e)
    ensures var r := Step(cfg, fetch, b, e);
            && r.Next? && r.state.mods == ApplyWrite(b.mods, EntryWrite(cfg, fetch, a, e))
            && r.state.cache == b.cache && !r.outcome.Downloaded?
  {
    if CacheHit(cfg, a.cache, e) {
      StepFromCache(cfg, fetch, a, e);
      StepFromCache(cfg, fetch, b, e);
    } else {
      match fetch(EntryRequest(cfg, e))
      case HttpError(code) =>
        StepHttpFailure(cfg, fetch, a, e, code);
        StepHttpFailure(cfg, fetch, b, e, code);
      case Response(finalUrl, body, _) =>
        var name := EntryFileName(finalUrl);
        if name in a.mods {
          StepSkip(cfg, fetch, a, e);
          StepSkip(cfg, fetch, b, e);
        } else {
          StepStoreAsIntendedThenHit(cfg, fetch, a, e);
          assert b.cache[e] == [CachedFile(name, body)];
          StepFromCache(cfg, fetch, b, e);
        }
    }
  }

  /** The cache does not change at `k` over a run that starts where it can no longer change there. */
  lemma {:induction false} RunWithKeepsAt(step: Stepper, stable: (State, FileRef) -> bool,
                                          st: State, files: seq<FileRef>, k: FileRef)
    requires forall s: State, e: FileRef :: stable(s, k) ==>
               stable(step(s, e).state, k) && SameAt(step(s, e).state.cache, s.cache, k)
    requires stable(st, k)
    ensures SameAt(RunWith(step, st, files).state.cache, st.cache, k)
    decreases |files|
  {
    if files != [] {
      var first := step(st, files[0]);
      assert stable(first.state, k) && SameAt(first.state.cache, st.cache, k);
      match first
      case Stop(_, _) =>
      case Next(s, _) => RunWithKeepsAt(step, stable, s, files[1..], k);
    }
  }

  /**
   * The second run, entry by entry: `a` is the first run's state, `b` the
   * second's, and both have applied the same writes `d` since the start,
   * `a` to the first run's initial mods `m0` and `b` to its final mods.
   */
  lemma {:induction false} RunWithRerun(step: Stepper, write: (State, FileRef) -> Option<CachedFile>,
                                        stable: (State, FileRef) -> bool, m0: map<string, Bytes>,
                                        d: map<string, Bytes>, a: State, b: State, files: seq<FileRef>)
    requires forall s: State, e: FileRef :: step(s, e).Next? ==> step(s, e).state.mods == ApplyWrite(s.mods, write(s, e))
    requires forall s: State, e: FileRef :: KeepsNames(s, step(s, e))
    requires forall s: State, e: FileRef :: step(s, e).Next? ==> stable(step(s, e).state, e)
    requires forall s: State, e: FileRef, k: FileRef :: stable(s, k) ==>
               stable(step(s, e).state, k) && SameAt(step(s, e).state.cache, s.cache, k)
    requires forall s: State, t: State, e: FileRef ::
               step(s, e).Next? && s.mods.Keys <= t.mods.Keys && SameAt(t.cache, step(s, e).state.cache, e) ==>
               && step(t, e).Next? && step(t, e).state.mods == ApplyWrite(t.mods, write(s, e))
               && step(t, e).state.cache == t.cache && !step(t, e).outcome.Downloaded?
    requires RunWith(step, a, files).aborted.None?
    requires a.mods == m0 + d
    requires b.mods == RunWith(step, a, files).state.mods + d
    requires b.cache == RunWith(step, a, files).state.cache
    ensures var fin := RunWith(step, a, files).state;
            var r := RunWith(step, b, files);
            && r.aborted.None? && r.state.mods == fin.mods && r.state.cache == fin.cache
            && forall o :: o in r.outcomes ==> !o.Downloaded?
    decreases |files|
  {
    if files == [] {
      UnionTwice(m0, d);
    } else {
      var e, rest := files[0], files[1..];
      var first := step(a, e);
      match first
      case Stop(_, _) =>
      case Next(a1, _) =>
        var fin := RunWith(step, a1, rest).state;
        assert stable(a1, e);
        RunWithKeepsAt(step, stable, a1, rest, e);
        RunWithKeepsNames(step, a1, rest);
        assert KeepsNames(a, first);
        assert a.mods.Keys <= b.mods.Keys;
        var w := write(a, e);
        var again := step(b, e);
        assert again.Next? && again.state.mods == ApplyWrite(b.mods, w) && again.state.cache == b.cache;
        ApplyWriteUnion(m0, d, w);
        ApplyWriteUnion(fin.mods, d, w);
        RunWithRerun(step, write, stable, m0, ApplyWrite(d, w), a1, again.state, rest);
        var tail := RunWith(step, again.state, rest);
        assert RunWith(step, b, files).outcomes == [again.outcome] + tail.outcomes;
    }
  }

  /**
   * With the cache on, under either store step, running a manifest again
   * after a run that raised nothing raises nothing, leaves mods and the cache
   * as they were, and downloads nothing: every entry is a hit, skipped or fails.
   */
  lemma RerunWithCacheIsIdempotent(cfg: Config, fetch: Fetcher, st: State, files: seq<FileRef>)
    requires CacheEnabled(cfg)
    requires Run(cfg, fetch, st, files).aborted.None?
    ensures var s := Run(cfg, fetch, st, files).state;
            var again := Run(cfg, fetch, s, files);
            && again.aborted.None? && again.state.mods == s.mods && again.state.cache == s.cache
            && forall o :: o in again.outcomes ==> o.FromCache? || o.Skipped? || o.Failed?
  {
    var step := EntryStep(cfg, fetch);
    var write := EntryWriter(cfg, fetch);
    var stable := Stability(cfg, fetch);
    forall s: State, e: FileRef
      ensures step(s, e).Next? ==> step(s, e).state.mods == ApplyWrite(s.mods, write(s, e))
      ensures KeepsNames(s, step(s, e))
      ensures step(s, e).Next? ==> stable(step(s, e).state, e)
    {
      StepWrites(cfg, fetch, s, e);
      StepMods(cfg, fetch, s, e);
      StepStabilises(cfg, fetch, s, e);
    }
    forall s: State, e: FileRef, k: FileRef | stable(s, k)
      ensures stable(step(s, e).state, k) && SameAt(step(s, e).state.cache, s.cache, k)
    {
      StepKeepsStable(cfg, fetch, s, e, k);
    }
    forall s: State, t: State, e: FileRef
      | step(s, e).Next? && s.mods.Keys <= t.mods.Keys && SameAt(t.cache, step(s, e).state.cache, e)
      ensures && step(t, e).Next? && step(t, e).state.mods == ApplyWrite(t.mods, write(s, e))
              && step(t, e).state.cache == t.cache && !step(t, e).outcome.Downloaded?
    {
      StepMirror(cfg, fetch, s, t, e);
    }
    var fin := Run(cfg, fetch, st, files).state;
    assert st.mods == st.mods + map[];
    assert fin.mods == fin.mods + map[];
    RunWithRerun(step, write, stable, st.mods, map[], st, fin, files);
  }
}

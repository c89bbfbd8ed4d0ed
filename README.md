# dlcmp in Dafny

A model of `dlcmp.py`, a downloader for Minecraft mod packs. It turns a parsed
manifest of `(projectID, fileID)` entries into a populated `minecraft/mods`
directory, with an optional local cache. It also bootstraps a pack from a
remote archive. The model covers four parts of the script:

- `dl`, the manifest processor. It prepares the mods directory, then handles
  each entry in order.
- `get_modpack`, the archive bootstrapper. It fetches the archive, writes it,
  stops if the extraction directory already exists, and otherwise extracts the
  archive and hands its `manifest.json` to `dl`.
- The pure string rules both of them rely on:
  - the path that `urlsplit` finds, and `posixpath.basename`
  - the `%20` to space replacement and `str()` of an integer
  - the entry download URL and the `/download` suffix rule
  - stripping `.zip` from an archive name, and the cache key path
- The URL-or-path decision in `main`.

The outside world is abstract:

- The network is a total function from a request (URL and User-Agent) to a
  response, an HTTP error code, or a connection failure.
- The mods directory is a map from file name to bytes.
- The cache is a map from a key to the files its directory holds, in `iterdir`
  order.
- The failure log is a sequence of lines.
- Every request sent is recorded, so the properties can say which URLs were
  opened.

Modules, one file each:

- `Wrappers`: `Option` and `Result`.
- `Text`: `str(int)` and its inverse, prefix and suffix tests, ASCII case
  folding, `replace('%20', ' ')`, `posixpath.basename`.
- `Urls`: the URL path, entry URLs, the two file-name rules, the modpack URL,
  the extraction directory, the cache key path.
- `Net`: requests, fetch results, `_getheader`.
- `Manifest`: `dl` as a method.
  - `Dl` loops over the entries and calls `ProcessEntry` once per entry.
  - `Step` specifies one entry and `Run` the whole loop; `ProcessEntry` is
    proved to compute `Step`, and `Dl` to compute `Run`.
  - `Run` is `RunWith` applied to the per-entry step of `dl`. `RunWith` is the
    loop over any per-entry step.
- `ManifestFacts`: what one entry and a whole manifest do.
  - The whole-manifest facts are proved once for `RunWith`, for any step that
    has the property at hand.
  - They are then specialised to `Run` with the one-entry facts.
- `Modpack`: `get_modpack` as the method `GetModpack`, proved to compute
  `GetModpackEffect`, and the properties of that function.
- `Cli`: the dispatch in `main`.

## Model

| member | source | states |
|---|---|---|
| Manifest.LogFailed | dlcmp.py:24-32 | defines `_log_failed`: the line is appended to the log only when a log file is given; its effect is stated by `ManifestFacts.StepLog` and `ManifestFacts.RunLog` |
| Manifest.EntryRequest | dlcmp.py:35-38 | defines `_req` for an entry: its download URL with the configured User-Agent; what is sent is stated by `ManifestFacts.RunRequests` |
| Manifest.MoveOverrides | dlcmp.py:57-58 | `shutil.move` of the overrides: a missing `minecraft` becomes the overrides directory, an existing one receives it; `mods` is always inside `minecraft` afterwards |
| Manifest.CacheEnabled | dlcmp.py:71-77 | defines `cachedl`: the cache is used only when a cache path is given and it is a directory; otherwise the run goes on without it |
| Manifest.IsDirName | dlcmp.py:114-117 | defines the names under which `open(mods / name, "wb")` meets the mods directory itself or its parent (`""`, `.`, `..`), so `os.path.isfile` is false and `open` raises; used by `ManifestFacts.StepFreshWrite` and `ManifestFacts.StepContinues` |
| Modpack.PathOf | dlcmp.py:163-168 | defines `str(Path(dirname))` for a name without a slash: the empty name becomes `.` |
| Modpack.IsDir | dlcmp.py:163 | defines `os.path.isdir` on the working directory: `.`, `..` and the names of its subdirectories; used by `Modpack.SafetyStop` |
| Modpack.CannotWrite | dlcmp.py:151-156 | defines when `open(filename, "wb")` raises an `OSError`: the name is empty or names a directory; used by `Modpack.SafetyStop` and `Modpack.HandOff` |
| Manifest.CacheHit | dlcmp.py:81-86 | defines the lookup: the cache is on, the key's directory exists, and it lists at least one file; its effect is stated by `ManifestFacts.StepFromCache` |
| Manifest.StoreAsWritten | dlcmp.py:122-124 | defines the store step as written: `FileExistsError` when the key directory exists, `FileNotFoundError` otherwise; stated by `ManifestFacts.StepStoreAsWrittenAborts` |
| Manifest.Step | dlcmp.py:80-126 | defines one pass of the loop body, with its order of tests and its exceptions; what it promises is stated by the `ManifestFacts.Step*` lemmas |
| Manifest.RunWith | dlcmp.py:80-126 | defines the loop over any per-entry step: entries in order until one raises |
| Manifest.Run | dlcmp.py:80-126 | defines the loop of `dl` over the manifest's entries; what it promises is stated by the `ManifestFacts.Run*` lemmas and `Manifest.Dl` computes it |
| Urls.UrlPath | dlcmp.py:105 | defines `urlsplit(url).path`; stated by `Urls.UrlPathOfPlainUrl` |
| Text.Basename | dlcmp.py:106 | defines `posixpath.basename`; stated by `Text.BasenameShape` |
| Text.DecodeSpaces | dlcmp.py:107 | defines `replace('%20', ' ')`, scanning left to right; stated by `Text.DecodeSpacesLeavesNoEscape`, `Text.DecodeSpacesOneEscape` and `Text.DecodeSpacesAppend` |
| Text.IntToString | dlcmp.py:82 | `str()` of an integer: at least one character, all digits except a leading minus; read back by `Text.ParseIntOfIntToString` |
| Urls.EntryUrl | dlcmp.py:92-95 | defines the entry download URL; stated by `Urls.EntryUrlShape` and `Urls.EntryUrlInjective` |
| Urls.EntryFileName | dlcmp.py:104-107 | defines the mod name: the basename of the redirected URL's path with `%20` decoded; stated by `Urls.EntryFileNameShape` and `Urls.EntryFileNameOfPlainUrl` |
| Urls.ModpackFileName | dlcmp.py:143-145 | defines the archive name: `%20` decoded in the whole redirected URL, then its basename; stated by `Urls.ModpackFileNameShape` |
| Urls.CacheKeyPath | dlcmp.py:82 | defines the key directory `<cache>/<projectID>/<fileID>`; stated by `Urls.CacheKeyPathShape`, `Urls.CacheKeyPathInjective` and `Urls.CacheKeyPathLeaf` |
| Modpack.GetModpackEffect | dlcmp.py:131-175 | defines `get_modpack`'s effect and ending; what it promises is stated by the `Modpack` lemmas, and `Modpack.GetModpack` computes it |
| Cli.MatchesUrlPattern | dlcmp.py:201 | defines the `re.match` of the URL pattern; stated by `Cli.MatchesUrlPatternIffScheme` |
| Cli.Dispatch | dlcmp.py:195-209 | defines `main`'s choice of action; stated by `Cli.DispatchFetches` |
| Net.GetHeader | dlcmp.py:11-16 | the value of the first header whose name matches case-insensitively; `None` exactly when no header matches; `"-"` exactly when the header list cannot be read |
| Manifest.Setup | dlcmp.py:57-61 | after moving the overrides and `mkdir` of `mods`, `minecraft/mods` exists; it fails exactly when there are no overrides and no `minecraft` directory, because `os.mkdir` does not create parents; an existing `mods` without overrides is left as it is |
| Manifest.StoreAsIntended | dlcmp.py:120-124 | the corrected store step: the key maps to exactly the one freshly written file, all other keys are unchanged, and only the key is added |
| Manifest.ProcessEntry | dlcmp.py:80-126 | one pass through the loop body, with its early `continue`s and the exceptions it lets through, computes `Step` |
| Manifest.Dl | dlcmp.py:57-127 | if setup fails, nothing else happens; otherwise the final state, the outcomes and the exception that ended the loop are those of `Run`; `allF` is the number of entries; `currF` is 1 plus the number of entries handled, so it equals `len(files) + 1` after a complete run; with no entries nothing changes, so a `mods` directory created by setup stays empty |
| ManifestFacts.StepFromCache | dlcmp.py:81-90 | a cache hit copies the first cached file into mods under its own name, overwriting a file of that name; it sends no request and leaves the cache and the log unchanged |
| ManifestFacts.StepHttpFailure | dlcmp.py:92-100 | an HTTP error ends the entry `Failed` with the line `<code> - <url>`; the line is logged only when a log file is given; mods and cache are unchanged; the run goes on |
| ManifestFacts.StepSkip | dlcmp.py:113-115 | a derived name already present in mods is skipped; its bytes are never compared or changed |
| ManifestFacts.StepFreshWrite | dlcmp.py:116-118 | a fresh name that is not a directory gets the response body and the entry ends `Downloaded` (without a cache, or with the corrected store step) |
| ManifestFacts.StepStoreAsWrittenAborts | dlcmp.py:120-124 | as written, with the cache on, a fresh write always raises right after writing: `FileExistsError` when the key directory exists, `FileNotFoundError` otherwise; the key is not stored |
| ManifestFacts.StepStoreAsIntendedThenHit | dlcmp.py:81-90 | with the corrected store step, after a fresh download the next lookup of that key is a hit that reproduces the same file without a request |
| ManifestFacts.StepMods | dlcmp.py:88 | no entry removes a name from mods; without a cache no existing file changes and nothing comes from the cache |
| ManifestFacts.StepLog | dlcmp.py:24-32 | the log gains the entry's line exactly when the entry failed and a log file is given |
| ManifestFacts.StepRequests | dlcmp.py:92-96 | every entry except a cache hit sends exactly its own download request; a skipped entry sends one too |
| ManifestFacts.StepCache | dlcmp.py:119-124 | only the corrected store step changes the cache; as written, no entry ends `Downloaded` while the cache is on |
| ManifestFacts.StepContinues | dlcmp.py:97-100 | an entry whose response is an HTTP error or a usable name never raises, unless the store step as written is used |
| ManifestFacts.StepOutcomeWithoutCache | dlcmp.py:92-118 | without a cache, an entry's outcome is fixed by its own response: `Failed` with its line, or `Skipped`/`Downloaded` under the derived name |
| ManifestFacts.StepWhenSettled | dlcmp.py:113-115 | without a cache, an entry that is an HTTP error or names a present file changes neither mods nor the cache, and ends `Skipped` or `Failed` |
| ManifestFacts.StepSettles | dlcmp.py:113-118 | without a cache, an entry that was handled leaves its derived name in mods, or it was an HTTP error |
| ManifestFacts.RunLengths | dlcmp.py:80-126 | the loop handles a prefix of the entries; it handles all of them exactly when nothing was raised |
| ManifestFacts.RunLog | dlcmp.py:97-100 | the log gains exactly the lines of the failed entries, in order, and nothing without a log file |
| ManifestFacts.RunRequests | dlcmp.py:92-96 | earlier requests are kept; the number of new requests is the number of entries not served from the cache, plus one for the entry that raised; each new request is some entry's download URL with the configured User-Agent |
| ManifestFacts.RequestsOfAt | dlcmp.py:80-96 | position `k` of the request list is the request of entry `k` |
| ManifestFacts.RunRequestsWithoutCache | dlcmp.py:80-96 | without a cache, the requests sent are exactly the download requests of the entries handled, in manifest order |
| ManifestFacts.RunMods | dlcmp.py:80-126 | no name ever leaves mods; without a cache every pre-existing file keeps its bytes |
| ManifestFacts.RunCache | dlcmp.py:119-124 | without a cache, or with the store step as written, the cache never changes |
| ManifestFacts.RunWithoutCacheNeverHits | dlcmp.py:81 | without a cache no outcome is `FromCache` |
| ManifestFacts.RunAsWrittenNeverDownloads | dlcmp.py:120-124 | as written, with the cache on, no outcome of a run is `Downloaded` |
| ManifestFacts.RunCompletes | dlcmp.py:97-100 | when no entry's response raises (HTTP failures included), and the cache is off or the store step is the corrected one, every entry is handled and nothing is raised; with the cache on and the store step as written, a fresh download still raises |
| ManifestFacts.RunOutcomesWithoutCache | dlcmp.py:92-118 | without a cache, entry `k` ends `Failed` with the line of its own HTTP error, or `Skipped` or `Downloaded` under the name its own response gives; which of these two it is depends on the names already in mods, and the lemma does not say which |
| ManifestFacts.CompletedRunSettles | dlcmp.py:113-118 | without a cache, after a run that raised nothing every entry is settled: an HTTP error, or a name present in mods |
| ManifestFacts.SettledRunChangesNothing | dlcmp.py:113-115 | without a cache, a settled manifest completes, changes neither mods nor the cache, and every outcome is `Skipped` or `Failed` |
| ManifestFacts.RerunIsIdempotent | dlcmp.py:80-126 | without a cache, running a manifest again after a complete run raises nothing and leaves mods unchanged |
| ManifestFacts.RerunWithCacheIsIdempotent | dlcmp.py:80-126 | with the cache on, under either store step, running a manifest again after a complete run raises nothing, leaves mods and the cache exactly as they were, and every entry is a cache hit, skipped or failed |
| ManifestFacts.StepWrites | dlcmp.py:81-118 | an entry that does not raise changes mods by exactly one write: the first cached file on a hit, the body under a fresh name that is not a directory, and nothing otherwise |
| ManifestFacts.StepKeepsStable | dlcmp.py:81-124 | once a key is a cache hit, or its entry would not be downloaded, no entry changes the cache at that key, and this stays so |
| ManifestFacts.StepMirror | dlcmp.py:81-124 | with the cache on, an entry handled again, with at least the names in mods it had the first time and the cache as the first handling left it at the key, makes the same write, leaves the cache alone and does not download: a download comes back as a hit |
| Urls.UrlPathOfPlainUrl | dlcmp.py:105 | for `scheme://host/path?query#fragment`, `urlsplit(...).path` is exactly the path |
| Urls.EntryUrlShape | dlcmp.py:92-95 | every entry URL lies under the projects prefix and ends in `/download` |
| Urls.EntryUrlInjective | dlcmp.py:92-95 | distinct entries are fetched from distinct URLs |
| Urls.EntryFileNameShape | dlcmp.py:104-107 | a mod's name never holds a slash, and no `%20` is left in it |
| Urls.EntryFileNameOfPlainUrl | dlcmp.py:104-107 | for `scheme://host/dir/file?query#fragment`, the mod's name is `file` with every `%20` decoded; query and fragment play no part |
| Text.DecodeSpacesOneEscape | dlcmp.py:107 | a name with one `%20` and no other `%` gets exactly one space in its place (`CoolMod%201.2.jar` becomes `CoolMod 1.2.jar`) |
| Text.DecodeSpacesLeavesNoEscape | dlcmp.py:107 | after the replacement no `%20` is left, not even one formed across a replaced escape |
| Text.DecodeSpacesAppend | dlcmp.py:107 | the replacement works piecewise across a boundary that splits no escape |
| Text.BasenameShape | dlcmp.py:106 | the basename is the longest slash-free suffix of the path |
| Text.ParseIntOfIntToString | dlcmp.py:82 | `str()` of an integer can be read back, so distinct IDs print differently |
| Urls.ModpackFileNameShape | dlcmp.py:143-145 | the archive's name never holds a slash, and no `%20` is left in it |
| Urls.NamesAgreeOnPlainUrls | dlcmp.py:104-107 | on a URL `scheme://host/path` with no query or fragment, whose path is not empty and starts with `/`, the mod name rule and the archive name rule give the same name (on `https://h` the archive rule gives `h` and the mod rule gives the empty name) |
| Urls.ModpackRequestUrl | dlcmp.py:136-140 | the request URL always ends in `/download`; it is the URL itself exactly when the URL already ends in `/download`, and otherwise the URL with `/download` appended |
| Urls.ModpackRequestUrlIdempotent | dlcmp.py:136-138 | applying the `/download` rule twice is the same as applying it once |
| Urls.ExtractDir | dlcmp.py:158-161 | the extraction directory is the name without its `.zip`, if it has one, and the name itself otherwise |
| Urls.ExtractDirOfZip | dlcmp.py:158-161 | `<dir>.zip` extracts into `<dir>` |
| Urls.CacheKeyPathShape | dlcmp.py:82 | the key directory is the cache path, a separator if it lacks one, then `<projectID>/<fileID>` |
| Urls.CacheKeyPathInjective | dlcmp.py:82 | distinct keys have distinct cache directories, so a cache keyed by `(projectID, fileID)` is faithful |
| Urls.CacheKeyPathLeaf | dlcmp.py:82 | the last component of a key directory is the file ID |
| Modpack.GetModpack | dlcmp.py:131-175 | the effects in order and each early return or exception compute `GetModpackEffect` |
| Modpack.GetModpackRequests | dlcmp.py:136-140 | exactly one request is sent, for the `/download` form of the URL; a failure below HTTP raises |
| Modpack.GetModpackHttpFailure | dlcmp.py:146-148 | an HTTP error logs `<code> - <url>` with the URL as given, only when a log file is given, and changes nothing on disk |
| Modpack.SafetyStop | dlcmp.py:149-166 | the run stops at the directory check exactly when the archive was written and its extraction directory already exists; then no directory is created, the written archive stays and `dl` is not called |
| Modpack.HandOff | dlcmp.py:158-175 | `dl` is called exactly when a `.zip` archive was written, its directory was new and the archive could be extracted; the directory is the name without `.zip`, it is created, the archive is deleted, and `dl` gets `<dir>/manifest.json` |
| Modpack.NonZipArchiveRaises | dlcmp.py:158-167 | as written, an archive whose name does not end in `.zip` is never extracted: its directory has the archive's own name, so `os.makedirs` raises |
| Modpack.GetModpackFrame | dlcmp.py:131-175 | existing directories are never removed, a new one appears only past the safety stop, and every file but the archive keeps its bytes |
| Cli.MatchesUrlPatternIffScheme | dlcmp.py:201 | the pattern `(?:(?:http\|ftp)s?://)`, matched ignoring case, accepts exactly the prefixes `http://`, `https://`, `ftp://` and `ftps://` |
| Cli.DispatchFetches | dlcmp.py:195-209 | no argument shows the usage; the argument is fetched as a modpack exactly when `--url` is given, or it has a URL scheme and `--path` is not given; otherwise it goes to `dl` exactly when it names a file, and else "no manifest" is reported |
| Cli.PreferUrlWins | dlcmp.py:202 | `--url` wins over `--path` and over the argument's form |
| Cli.PreferPathWins | dlcmp.py:202 | without `--url`, `--path` makes even a URL-looking argument a path |
| Cli.PlainPathGoesToDl | dlcmp.py:202-209 | without flags, an argument with no URL scheme that names a file goes to `dl` |

## Left out

- Parsing the manifest JSON (dlcmp.py:51) is left out. The loop takes the parsed list of entries, and the layout flags stand for the overrides check.
- A `KeyError` from a missing field, and a malformed manifest, are left out with the parsing.
- `shutil.move` of the overrides directory is reduced to the directory flags it changes (`Manifest.MoveOverrides`). The moved contents are not modelled.
- Console output (`_report`), including the progress line and the verbose `Content-Length` text, is left out. `_getheader` is modelled, but the verbose branch that prints its result is not.
- A failure to write the log file is swallowed by `_log_failed`, so the model treats the log as a plain append.
- The network, including redirects, is a given function. Timeouts and retries are left out.
- `URLError` is modelled as a connection failure that propagates. Other exceptions from `urlopen` or `read()` are left out.
- The cache root is either a directory or not (`cacheIsDir`). Files inside a key directory are listed in a given order, and all of them are taken to be files. A subdirectory inside a key directory, which `copyfile` would reject, is left out.
- `minecraft/mods` holds only files. A subdirectory inside it under the derived name is left out. Only `""`, `.` and `..` stand for names that `open` cannot write in mods.
- `get_modpack` only models the files and subdirectory names of the working directory. `OSError` from `open` is limited to an empty name or a directory name, and permissions are left out.
- ZIP extraction is a given predicate on the archive's bytes, so the extracted contents are not modelled. `HandedOff` names the manifest path that `dl` receives but does not run `dl` on it.
- `get_modpack` passes `verbose`, `silent` and `cache` on to `dl` unchanged. The model does not run `dl` on the extracted manifest, so it omits them there.
- `argparse`, the usage text and unknown arguments are left out. `Cli.Dispatch` starts from the parsed flags.
- Cli.MatchesUrlPattern: it folds only ASCII case. Python's `re.IGNORECASE` also lets `ſ` (U+017F) match `s`.
- Cli.MatchesUrlPattern: it checks the prefix only. The `.*$` of the pattern fails on an argument with a line break before its end, and that case is not modelled.
- Urls.CacheKeyPath: the cache path is kept as given and is not normalised the way `pathlib` normalises it (collapsing `//`, dropping `.` components and a trailing `/`). Both spellings name the same directory, and distinct keys still get distinct paths.
- Urls.UrlPath: it follows `urlsplit` for the URLs a server redirects to. It omits the removal of unsafe bytes (tab, CR, LF), the stripping of leading C0 control characters and spaces, and bracketed IPv6 netloc validation.
- Integers are unbounded, as in Python, so there is no width to model.
- Manifest.Step: it looks for the name in mods before it tests for a directory name. A mods map holding `""`, `.` or `..` is not meant: no real directory lists such names, and for them the source's `os.path.isfile` is false, so `open` would raise.
- Net.SameHeaderName: it folds only ASCII case. Python compares header names with `str.lower()`, and `http.client` decodes them as ISO-8859-1, so non-ASCII letters fold there too.
- Manifest.MoveOverrides: it always succeeds. When `minecraft` exists and already holds an entry with the overrides directory's name, `shutil.move` raises `shutil.Error`, and the model does not capture that.

## Findings

| source | as written | input that shows it | evidently intended | confidence | as-written member | corrected member |
|---|---|---|---|---|---|---|
| dlcmp.py:122-123 | `if os.path.exists(targetcachepath): targetcachepath.mkdir(parents=True)`: the directory is created only when it already exists, so `mkdir` raises `FileExistsError`; otherwise `copyfile` targets a directory that does not exist and raises `FileNotFoundError` | cache enabled, an entry with a cache miss whose response names a new file: the mod is written, then `dl` raises and the remaining entries are never handled | `if not os.path.exists(...)`: create the key directory when it is missing, then copy the file in, so that the next lookup of the key hits | high (not executed) | ManifestFacts.StepStoreAsWrittenAborts | ManifestFacts.StepStoreAsIntendedThenHit |

The store step is chosen by `Config.store`:

- `AsWritten` is the code as it stands. `ManifestFacts.RunAsWrittenNeverDownloads` shows that no entry of a cached run ever ends `Downloaded`.
- `AsIntended` is the corrected step. `Manifest.StoreAsIntended` states what it stores.

Every whole-manifest lemma that does not depend on the store step holds for both rules.

## Behaviour of the code that the model follows

- The code creates `mods` with `os.mkdir`, so setup fails when `minecraft` is missing (`Manifest.Setup`).
- The name of a mod comes from the redirected URL, so the code opens the URL for every entry that is not a cache hit, skipped ones included (`ManifestFacts.StepRequests`).
- A cache hit overwrites a file of the same name in mods (`ManifestFacts.StepFromCache`).
- On a second run, an entry whose URL fails fails again, so a rerun gives `Skipped` and `Failed` results, and with the cache on also `FromCache` (`ManifestFacts.SettledRunChangesNothing`, `ManifestFacts.RerunWithCacheIsIdempotent`).
- In `get_modpack`, a connection failure, a failing `os.makedirs` and a bad archive all raise, and a directory already created then stays (`Modpack.GetModpackEffect`).
- `get_modpack` strips only `.zip`. For any other name the extraction directory is the archive's own name, which is a file by then, so `os.makedirs` raises (`Modpack.NonZipArchiveRaises`).
- As written, a fresh download is never stored in the cache, so a later lookup of that key misses. The corrected store step makes it a hit (see Findings).

/**
 * How `main` chooses between `get_modpack` and `dl` for its one positional
 * argument: the argument counts as a URL when it starts with `http://`,
 * `https://`, `ftp://` or `ftps://` in any letter case, unless `--path`
 * says otherwise; `--url` always makes it a URL.
 */
module Cli {
  import opened Wrappers
  import opened Text

  /**
   * The prefix `(?:(?:http|ftp)s?://)` of the pattern matched with
   * `re.IGNORECASE`, read the way the pattern is built: a word, an optional
   * `s`, then `://`.
   */
  predicate MatchesUrlPattern(dest: string)
  {
    var d := LowerString(dest);
    var word := if StartsWith(d, "http") then 4 else if StartsWith(d, "ftp") then 3 else 0;
    var afterS := if 0 < word < |d| && d[word] == 's' then word + 1 else word;
    word > 0 && StartsWith(d[afterS..], "://")
  }

  /** The four schemes the pattern accepts, spelled out. */
  predicate HasUrlScheme(dest: string)
  {
    var d := LowerString(dest);
    StartsWith(d, "http://") || StartsWith(d, "https://") || StartsWith(d, "ftp://") || StartsWith(d, "ftps://")
  }

  lemma StartsWithConcat(d: string, p: string, q: string)
    ensures StartsWith(d, p + q) <==> StartsWith(d, p) && StartsWith(d[|p|..], q)
  {
    if StartsWith(d, p) && StartsWith(d[|p|..], q) {
      assert d[..|p + q|] == d[..|p|] + d[|p|..][..|q|];
    }
    if StartsWith(d, p + q) {
      assert d[..|p|] == (p + q)[..|p|];
      assert d[|p|..][..|q|] == (p + q)[|p|..];
    }
  }

  /** After the word: an optional `s`, then `://`, as the greedy `s?` reads it. */
  lemma AfterWord(d: string, w: string)
    requires StartsWith(d, w)
    ensures (StartsWith(d, w + "://") || StartsWith(d, w + "s://"))
        <==> var at := if |w| < |d| && d[|w|] == 's' then |w| + 1 else |w|;
             StartsWith(d[at..], "://")
  {
    var rest := d[|w|..];
    StartsWithConcat(d, w, "://");
    StartsWithConcat(d, w, "s://");
    StartsWithConcat(rest, "s", "://");
    if |rest| > 0 {
      assert rest[1..] == d[|w| + 1..];
      assert StartsWith(rest, "s") <==> d[|w|] == 's';
    }
  }

  /** Two words that start with different characters. */
  lemma DifferentStart(d: string, v: string, w: string)
    requires |v| > 0 && |w| > 0 && v[0] != w[0]
    requires StartsWith(d, v)
    ensures !StartsWith(d, w)
  {
    assert d[0] == v[0];
  }

  /** The pattern accepts exactly the four schemes, in any letter case. */
  lemma MatchesUrlPatternIffScheme(dest: string)
    ensures MatchesUrlPattern(dest) <==> HasUrlScheme(dest)
  {
    var d := LowerString(dest);
    assert "http://" == "http" + "://" && "https://" == "http" + "s://";
    assert "ftp://" == "ftp" + "://" && "ftps://" == "ftp" + "s://";
    if StartsWith(d, "http") {
      AfterWord(d, "http");
      DifferentStart(d, "http", "ftp://");
      DifferentStart(d, "http", "ftps://");
    } else if StartsWith(d, "ftp") {
      AfterWord(d, "ftp");
      DifferentStart(d, "ftp", "http://");
      DifferentStart(d, "ftp", "https://");
    } else {
      StartsWithConcat(d, "http", "://");
      StartsWithConcat(d, "http", "s://");
      StartsWithConcat(d, "ftp", "://");
      StartsWithConcat(d, "ftp", "s://");
    }
  }

  /** What `main` does with its arguments once they are parsed. */
  datatype Action =
    | ShowUsage                   // no positional argument
    | FetchModpack(url: string)   // get_modpack(dest, ...)
    | NoManifest(path: string)    // "No manifest found at ..."
    | ProcessManifest(path: string) // dl(dest, ...)

  /**
   * `main`'s decision: `match and not prefer_path or prefer_url`, then
   * `os.path.isfile` (given as `isFile`) for a path.
   */
  function Dispatch(dest: Option<string>, preferUrl: bool, preferPath: bool, isFile: string -> bool): Action
  {
    match dest
    case None => ShowUsage
    case Some(d) =>
      if (MatchesUrlPattern(d) && !preferPath) || preferUrl then FetchModpack(d)
      else if !isFile(d) then NoManifest(d)
      else ProcessManifest(d)
  }

  /** The argument is fetched as a modpack exactly as the flags and its scheme say, and is never altered. */
  lemma DispatchFetches(dest: Option<string>, preferUrl: bool, preferPath: bool, isFile: string -> bool)
    ensures var a := Dispatch(dest, preferUrl, preferPath, isFile);
            && (a.ShowUsage? <==> dest.None?)
            && (a.FetchModpack? <==> dest.Some? && (preferUrl || (HasUrlScheme(dest.value) && !preferPath)))
            && (a.FetchModpack? ==> a.url == dest.value)
            && (a.ProcessManifest? <==> dest.Some? && !a.FetchModpack? && isFile(dest.value))
            && (a.ProcessManifest? ==> a.path == dest.value)
            && (a.NoManifest? ==> a.path == dest.value && !isFile(a.path))
  {
    if dest.Some? {
      MatchesUrlPatternIffScheme(dest.value);
    }
  }

  /** `--url` wins over `--path` and over the argument's form. */
  lemma PreferUrlWins(d: string, preferPath: bool, isFile: string -> bool)
    ensures Dispatch(Some(d), true, preferPath, isFile) == FetchModpack(d)
  {
  }

  /** Without `--url`, `--path` makes even a URL-looking argument a path. */
  lemma PreferPathWins(d: string, isFile: string -> bool)
    ensures !Dispatch(Some(d), false, true, isFile).FetchModpack?
  {
  }

  /** Without flags, a path with no URL scheme goes to `dl` when it names a file. */
  lemma PlainPathGoesToDl(d: string, isFile: string -> bool)
    requires !HasUrlScheme(d) && isFile(d)
    ensures Dispatch(Some(d), false, false, isFile) == ProcessManifest(d)
  {
    MatchesUrlPatternIffScheme(d);
  }
}

/**
 * The pure locator and name rules of the downloader: the path component that
 * `urllib.parse.urlsplit` finds, the download URL of a manifest entry, the two
 * ways a file name is derived from a redirected URL, the `/download` suffix
 * rule for a modpack, the extraction directory of an archive and the cache
 * directory of a `(projectID, fileID)` key.
 */
module Urls {
  import opened Text

  // ---------------------------------------------------------------------------
  // Searching

  /** Index of the first `c` in `s`; `|s|` when there is none (`str.find`, with -1 read as `|s|`). */
  function Find(s: string, c: char): (k: nat)
    ensures k <= |s|
    ensures forall j :: 0 <= j < k ==> s[j] != c
    ensures k < |s| ==> s[k] == c
  {
    if s == [] || s[0] == c then 0 else 1 + Find(s[1..], c)
  }

  lemma FindIs(s: string, c: char, k: nat)
    requires k <= |s|
    requires forall j :: 0 <= j < k ==> s[j] != c
    requires k < |s| ==> s[k] == c
    ensures Find(s, c) == k
  {
  }

  /** What comes before the first `c` in `s` (all of `s` when there is none): `s.split(c, 1)[0]`. */
  function TakeUntil(s: string, c: char): string
  {
    if s == [] || s[0] == c then [] else [s[0]] + TakeUntil(s[1..], c)
  }

  lemma {:induction false} TakeUntilAppend(a: string, b: string, c: char)
    requires c !in a
    ensures TakeUntil(a + b, c) == a + TakeUntil(b, c)
  {
    if a != [] {
      assert (a + b)[1..] == a[1..] + b;
      TakeUntilAppend(a[1..], b, c);
    } else {
      assert a + b == b;
    }
  }

  /** `TakeUntil` stops exactly at the first `c`. */
  lemma TakeUntilOf(a: string, b: string, c: char)
    requires c !in a
    requires b == [] || b[0] == c
    ensures TakeUntil(a + b, c) == a
  {
    TakeUntilAppend(a, b, c);
  }

  // ---------------------------------------------------------------------------
  // urllib.parse.urlsplit(url).path

  predicate IsSchemeChar(c: char)
  {
    IsAsciiAlpha(c) || IsDigit(c) || c == '+' || c == '-' || c == '.'
  }

  /** A URL scheme as `urlsplit` accepts it: an ASCII letter, then letters, digits, `+`, `-` or `.`. */
  predicate IsScheme(s: string)
  {
    |s| > 0 && IsAsciiAlpha(s[0]) && forall j :: 0 <= j < |s| ==> IsSchemeChar(s[j])
  }

  /** Length of the run of scheme characters that `s` starts with. */
  function SchemeRun(s: string): (n: nat)
    ensures n <= |s|
  {
    if s == [] || !IsSchemeChar(s[0]) then 0 else 1 + SchemeRun(s[1..])
  }

  lemma {:induction false} SchemeRunOf(scheme: string, rest: string)
    requires forall j :: 0 <= j < |scheme| ==> IsSchemeChar(scheme[j])
    requires rest == [] || !IsSchemeChar(rest[0])
    ensures SchemeRun(scheme + rest) == |scheme|
  {
    if scheme != [] {
      assert (scheme + rest)[1..] == scheme[1..] + rest;
      SchemeRunOf(scheme[1..], rest);
    } else {
      assert scheme + rest == rest;
    }
  }

  /**
   * The URL with a leading `scheme:` taken off. `urlsplit` does so when the
   * text before the first `:` is a scheme; since `:` is not a scheme
   * character, that is when the leading run of scheme characters is not
   * empty, starts with a letter and is followed by `:`.
   */
  function AfterScheme(url: string): string
  {
    var n := SchemeRun(url);
    if 0 < n < |url| && IsAsciiAlpha(url[0]) && url[n] == ':' then url[n + 1..] else url
  }

  /** The characters that end the network location of a URL. */
  predicate IsNetlocEnd(c: char) { c == '/' || c == '?' || c == '#' }

  /** `s` from its first `/`, `?` or `#` on. */
  function SkipNetloc(s: string): string
  {
    if s == [] || IsNetlocEnd(s[0]) then s else SkipNetloc(s[1..])
  }

  /** The rest with a leading `//netloc` taken off. */
  function AfterNetloc(rest: string): string
  {
    if |rest| >= 2 && rest[0] == '/' && rest[1] == '/' then SkipNetloc(rest[2..]) else rest
  }

  /** The `path` field of `urlsplit(url)`: what is left once scheme, netloc, fragment and query are cut. */
  function UrlPath(url: string): string
  {
    TakeUntil(TakeUntil(AfterNetloc(AfterScheme(url)), '#'), '?')
  }

  lemma AfterSchemeOf(scheme: string, rest: string)
    requires IsScheme(scheme)
    ensures AfterScheme(scheme + ":" + rest) == rest
  {
    var url := scheme + ":" + rest;
    assert url == scheme + (":" + rest);
    SchemeRunOf(scheme, ":" + rest);
    assert url[|scheme|] == ':' && url[0] == scheme[0];
    assert url[|scheme| + 1..] == rest;
  }

  lemma {:induction false} SkipNetlocOf(host: string, rest: string)
    requires forall j :: 0 <= j < |host| ==> !IsNetlocEnd(host[j])
    requires rest == [] || IsNetlocEnd(rest[0])
    ensures SkipNetloc(host + rest) == rest
  {
    if host != [] {
      assert (host + rest)[1..] == host[1..] + rest;
      SkipNetlocOf(host[1..], rest);
    } else {
      assert host + rest == rest;
    }
  }

  lemma AfterNetlocOf(host: string, rest: string)
    requires forall j :: 0 <= j < |host| ==> !IsNetlocEnd(host[j])
    requires rest == [] || IsNetlocEnd(rest[0])
    ensures AfterNetloc("//" + host + rest) == rest
  {
    var s := "//" + host + rest;
    assert s[0] == '/' && s[1] == '/';
    assert s[2..] == host + rest;
    SkipNetlocOf(host, rest);
  }

  lemma CutFragmentAndQuery(path: string, tail: string)
    requires '?' !in path && '#' !in path
    requires tail == [] || tail[0] == '?' || tail[0] == '#'
    ensures TakeUntil(TakeUntil(path + tail, '#'), '?') == path
  {
    TakeUntilAppend(path, tail, '#');
    var t := TakeUntil(tail, '#');
    assert t == [] || t[0] == '?';
    TakeUntilOf(path, t, '?');
  }

  /** For `scheme://host/path?query#fragment`, the path is exactly the part between host and query. */
  lemma UrlPathOfPlainUrl(scheme: string, host: string, path: string, tail: string)
    requires IsScheme(scheme)
    requires forall j :: 0 <= j < |host| ==> !IsNetlocEnd(host[j])
    requires path == [] || path[0] == '/'
    requires '?' !in path && '#' !in path
    requires tail == [] || tail[0] == '?' || tail[0] == '#'
    ensures UrlPath(scheme + "://" + host + path + tail) == path
  {
    var rest := path + tail;
    assert scheme + "://" + host + path + tail == scheme + ":" + ("//" + host + rest);
    AfterSchemeOf(scheme, "//" + host + rest);
    assert rest == [] || IsNetlocEnd(rest[0]);
    AfterNetlocOf(host, rest);
    CutFragmentAndQuery(path, tail);
  }

  // ---------------------------------------------------------------------------
  // Where a manifest entry is downloaded from

  const PROJECTS_URL := "https://minecraft.curseforge.com/projects/"

  /** The URL `dl` opens for an entry: `<projects>/<projectID>/files/<fileID>/download`. */
  function EntryUrl(projectID: int, fileID: int): string
  {
    PROJECTS_URL + IntToString(projectID) + "/files/" + IntToString(fileID) + "/download"
  }

  lemma SplitAtFirstSlash(a: string, b: string, c: string, d: string)
    requires '/' !in a && '/' !in c
    requires a + ("/" + b) == c + ("/" + d)
    ensures a == c && b == d
  {
    var s := a + ("/" + b);
    assert s[|a|] == '/';
    FindIs(s, '/', |a|);
    var t := c + ("/" + d);
    assert t[|c|] == '/';
    FindIs(t, '/', |c|);
    assert a == s[..|a|] && c == t[..|c|];
    assert "/" + b == s[|a|..] && "/" + d == t[|c|..];
    DropPrefix("/", b, d);
  }

  /** The part of an entry URL after the projects prefix, grouped at the first slash. */
  lemma EntryUrlParts(projectID: int, fileID: int)
    ensures EntryUrl(projectID, fileID)
         == PROJECTS_URL + (IntToString(projectID) + ("/" + ("files/" + (IntToString(fileID) + "/download"))))
  {
  }

  /** Every entry URL lies under the projects prefix and ends in `/download`. */
  lemma EntryUrlShape(projectID: int, fileID: int)
    ensures StartsWith(EntryUrl(projectID, fileID), PROJECTS_URL)
    ensures EndsWith(EntryUrl(projectID, fileID), "/download")
  {
    var u := EntryUrl(projectID, fileID);
    EntryUrlParts(projectID, fileID);
    assert u[..|PROJECTS_URL|] == PROJECTS_URL;
    var front := PROJECTS_URL + IntToString(projectID) + "/files/" + IntToString(fileID);
    assert u == front + "/download";
    assert u[|u| - |"/download"|..] == "/download";
  }

  /** Distinct entries are fetched from distinct URLs. */
  lemma EntryUrlInjective(p1: int, f1: int, p2: int, f2: int)
    requires EntryUrl(p1, f1) == EntryUrl(p2, f2)
    ensures p1 == p2 && f1 == f2
  {
    var a, b := IntToString(p1), IntToString(f1);
    var c, d := IntToString(p2), IntToString(f2);
    EntryUrlParts(p1, f1);
    EntryUrlParts(p2, f2);
    DropPrefix(PROJECTS_URL, a + ("/" + ("files/" + (b + "/download"))), c + ("/" + ("files/" + (d + "/download"))));
    NoSlashInIntToString(p1);
    NoSlashInIntToString(p2);
    SplitAtFirstSlash(a, "files/" + (b + "/download"), c, "files/" + (d + "/download"));
    DropPrefix("files/", b + "/download", d + "/download");
    DropSuffix(b, d, "/download");
    IntToStringInjective(p1, p2);
    IntToStringInjective(f1, f2);
  }

  // ---------------------------------------------------------------------------
  // File names derived from a redirected URL

  /**
   * The name `dl` gives a downloaded mod: the basename of the path of the
   * final URL, with every `%20` replaced by a space.
   */
  function EntryFileName(finalUrl: string): string
  {
    DecodeSpaces(Basename(UrlPath(finalUrl)))
  }

  /** A mod's name never holds a slash, and no `%20` is left in it. */
  lemma EntryFileNameShape(finalUrl: string)
    ensures var name := EntryFileName(finalUrl);
            '/' !in name && !HasEscape(name)
  {
    var base := Basename(UrlPath(finalUrl));
    BasenameShape(UrlPath(finalUrl));
    DecodeSpacesKeepsSlashes(base);
    DecodeSpacesLeavesNoEscape(base);
  }

  /**
   * The name `get_modpack` gives the archive: `%20` replaced in the whole
   * final URL first, then the basename of that string, query and fragment
   * included.
   */
  function ModpackFileName(finalUrl: string): string
  {
    Basename(DecodeSpaces(finalUrl))
  }

  /** The archive's name never holds a slash, and no `%20` is left in it. */
  lemma ModpackFileNameShape(finalUrl: string)
    ensures var name := ModpackFileName(finalUrl);
            '/' !in name && !HasEscape(name)
  {
    var decoded := DecodeSpaces(finalUrl);
    DecodeSpacesLeavesNoEscape(finalUrl);
    BasenameShape(decoded);
    SuffixHasNoEscape(decoded, |decoded| - |Basename(decoded)|);
  }

  /**
   * For `scheme://host/dir/file?query#fragment`, the mod's name is the last
   * path segment with its escaped spaces decoded; query and fragment play no part.
   */
  lemma EntryFileNameOfPlainUrl(scheme: string, host: string, dir: string, file: string, tail: string)
    requires IsScheme(scheme)
    requires forall j :: 0 <= j < |host| ==> !IsNetlocEnd(host[j])
    requires |dir| > 0 && dir[0] == '/' && dir[|dir| - 1] == '/'
    requires '?' !in dir + file && '#' !in dir + file && '/' !in file
    requires tail == [] || tail[0] == '?' || tail[0] == '#'
    ensures EntryFileName(scheme + "://" + host + dir + file + tail) == DecodeSpaces(file)
  {
    var path := dir + file;
    assert path[0] == '/';
    UrlPathOfPlainUrl(scheme, host, path, tail);
    var front := scheme + "://" + host;
    assert front + dir + file == front + path;
    BasenameOfSuffix(dir, file);
  }

  /** For a string ending in `/` followed by a slash-free tail, the archive's name is the decoded tail. */
  lemma ModpackFileNameOfSuffix(front: string, base: string)
    requires |front| > 0 && front[|front| - 1] == '/'
    requires '/' !in base
    ensures ModpackFileName(front + base) == DecodeSpaces(base)
  {
    DecodeSpacesAppend(front, base);
    DecodeSpacesEndsWithSlash(front);
    DecodeSpacesKeepsSlashes(base);
    BasenameOfSuffix(DecodeSpaces(front), DecodeSpaces(base));
  }

  /**
   * On a URL without query or fragment whose path starts with `/`, the two
   * name rules agree: decoding and taking the basename commute.
   */
  lemma NamesAgreeOnPlainUrls(scheme: string, host: string, path: string)
    requires IsScheme(scheme)
    requires forall j :: 0 <= j < |host| ==> !IsNetlocEnd(host[j])
    requires |path| > 0 && path[0] == '/'
    requires '?' !in path && '#' !in path
    ensures ModpackFileName(scheme + "://" + host + path) == EntryFileName(scheme + "://" + host + path)
  {
    var prefix := scheme + "://" + host;
    var base := Basename(path);
    BasenameShape(path);
    var dir := path[..|path| - |base|];
    assert path == dir + base;
    var front := prefix + dir;
    assert prefix + path == front + base;
    assert front + base + "" == front + base;
    EntryFileNameOfPlainUrl(scheme, host, dir, base, "");
    ModpackFileNameOfSuffix(front, base);
  }

  // ---------------------------------------------------------------------------
  // The modpack archive

  /** `get_modpack` requests `url + "/download"`, unless `url` already ends with `/download`. */
  function ModpackRequestUrl(url: string): (r: string)
    ensures EndsWith(r, "/download")
    ensures r == url <==> EndsWith(url, "/download")
    ensures r != url ==> r == url + "/download"
  {
    var toFile := if EndsWith(url, "/download") then "" else "/download";
    assert EndsWith(url + "/download", "/download");
    url + toFile
  }

  lemma ModpackRequestUrlIdempotent(url: string)
    ensures ModpackRequestUrl(ModpackRequestUrl(url)) == ModpackRequestUrl(url)
  {
  }

  /** The extraction directory: the archive's name without a trailing `.zip`, otherwise the name itself. */
  function ExtractDir(name: string): (dir: string)
    ensures EndsWith(name, ".zip") ==> name == dir + ".zip"
    ensures !EndsWith(name, ".zip") ==> dir == name
  {
    if EndsWith(name, ".zip") then name[..|name| - 4] else name
  }

  lemma ExtractDirOfZip(dir: string)
    ensures ExtractDir(dir + ".zip") == dir
  {
    assert EndsWith(dir + ".zip", ".zip");
  }

  // ---------------------------------------------------------------------------
  // The cache directory of a key

  /** `Path(a, b)` for a component `b` that holds no slash (no normalisation of `a`). */
  function JoinPath(a: string, b: string): string
  {
    if a == "" then b else if EndsWith(a, "/") then a + b else a + "/" + b
  }

  /** `<cache>/<projectID>/<fileID>`, the directory that holds a key's cached file. */
  function CacheKeyPath(cache: string, projectID: int, fileID: int): string
  {
    JoinPath(JoinPath(cache, IntToString(projectID)), IntToString(fileID))
  }

  /** What `cache` contributes in front of the two key components. */
  function CacheDirPrefix(cache: string): string
  {
    if cache == "" then "" else if EndsWith(cache, "/") then cache else cache + "/"
  }

  /** `JoinPath(a, b)` is `b` after the prefix that `a` contributes. */
  lemma JoinPathShape(a: string, b: string)
    ensures JoinPath(a, b) == CacheDirPrefix(a) + b
  {
    if a != "" && !EndsWith(a, "/") {
      assert a + "/" + b == (a + "/") + b;
    }
  }

  lemma CacheKeyPathShape(cache: string, projectID: int, fileID: int)
    ensures CacheKeyPath(cache, projectID, fileID)
         == CacheDirPrefix(cache) + (IntToString(projectID) + ("/" + IntToString(fileID)))
  {
    var p, f := IntToString(projectID), IntToString(fileID);
    var pre := CacheDirPrefix(cache);
    var j := JoinPath(cache, p);
    JoinPathShape(cache, p);
    LastOfAppend(pre, p);
    NoSlashInIntToString(projectID);
    EndsWithChar(j, '/');
    calc {
      CacheKeyPath(cache, projectID, fileID);
      j + "/" + f;
      (pre + p) + "/" + f;
      { Reassociate(pre, p, "/", f); }
      pre + (p + ("/" + f));
    }
  }

  /** Distinct keys have distinct cache directories. */
  lemma CacheKeyPathInjective(cache: string, p1: int, f1: int, p2: int, f2: int)
    requires CacheKeyPath(cache, p1, f1) == CacheKeyPath(cache, p2, f2)
    ensures p1 == p2 && f1 == f2
  {
    CacheKeyPathShape(cache, p1, f1);
    CacheKeyPathShape(cache, p2, f2);
    var a, b := IntToString(p1), IntToString(f1);
    var c, d := IntToString(p2), IntToString(f2);
    DropPrefix(CacheDirPrefix(cache), a + ("/" + b), c + ("/" + d));
    NoSlashInIntToString(p1);
    NoSlashInIntToString(p2);
    SplitAtFirstSlash(a, b, c, d);
    IntToStringInjective(p1, p2);
    IntToStringInjective(f1, f2);
  }

  lemma CacheKeyPathLeaf(cache: string, projectID: int, fileID: int)
    ensures Basename(CacheKeyPath(cache, projectID, fileID)) == IntToString(fileID)
  {
    CacheKeyPathShape(cache, projectID, fileID);
    NoSlashInIntToString(fileID);
    var front := CacheDirPrefix(cache) + IntToString(projectID) + "/";
    assert CacheKeyPath(cache, projectID, fileID) == front + IntToString(fileID);
    assert front[|front| - 1] == '/';
    BasenameOfSuffix(front, IntToString(fileID));
  }
}

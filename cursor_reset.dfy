/**
 * The selection logic of the Cursor reset (src/infrastructure/cursor_reset.rs): the file-name
 * pattern test, the cleanup statistics and how they merge, and which directory entries the
 * pattern and AppImage cleanups remove. A directory listing is a parameter; each entry says
 * whether removing it succeeds.
 */
module CursorReset {
  import opened Base
  import opened Text

  /** The name patterns of desktop entries and of icons. */
  const DESKTOP_PATTERNS: seq<string> := ["cursor*.desktop", "co.anysphere.cursor*.desktop"]
  const ICON_PATTERNS: seq<string> := ["cursor*.*", "co.anysphere.cursor*.*"]

  // ------------------------------------------------------------- patterns

  /**
   * `matches_pattern` as written: a pattern that splits into exactly two parts around '*' is
   * a prefix and a suffix test (the two may overlap in the name); any other pattern, with no
   * '*' or with several, must equal the name.
   */
  function MatchesPattern(name: string, pattern: string): (r: bool)
    ensures CountChar(pattern, '*') != 1 ==> (r <==> name == pattern)
  {
    if '*' in pattern then
      var parts := Split(pattern, '*');
      if |parts| == 2 then StartsWith(name, parts[0]) && EndsWith(name, parts[1]) else name == pattern
    else name == pattern
  }

  /** With exactly one '*', the name must start with the text before it and end with the text after it. */
  lemma MatchesPatternOneStar(name: string, prefix: string, suffix: string)
    requires '*' !in prefix && '*' !in suffix
    ensures MatchesPattern(name, prefix + "*" + suffix) <==> StartsWith(name, prefix) && EndsWith(name, suffix)
  {
    var p := prefix + "*" + suffix;
    assert p[..|prefix|] == prefix && p[|prefix| + 1..] == suffix;
    SplitOnce(p, '*', |prefix|);
  }

  /**
   * A shell-style glob: '*' matches any run of characters, every other character itself. It
   * is the matcher the icon and desktop patterns evidently call for.
   */
  function Glob(name: string, pattern: string): (r: bool)
    ensures '*' !in pattern ==> (r <==> name == pattern)
    decreases |pattern| + |name|
  {
    if pattern == [] then name == []
    else if pattern[0] == '*' then Glob(name, pattern[1..]) || (name != [] && Glob(name[1..], pattern))
    else
      assert '*' !in pattern ==> (name == pattern <==> name != [] && name[0] == pattern[0] && name[1..] == pattern[1..]);
      name != [] && name[0] == pattern[0] && Glob(name[1..], pattern[1..])
  }

  /** A literal lead of the pattern must lead the name. */
  lemma {:induction false} GlobLiteralPrefix(name: string, prefix: string, rest: string)
    requires '*' !in prefix
    ensures Glob(name, prefix + rest) <==> StartsWith(name, prefix) && Glob(name[|prefix|..], rest)
    decreases |prefix|
  {
    if prefix == [] {
      assert prefix + rest == rest && name[0..] == name;
    } else if name != [] {
      assert (prefix + rest)[1..] == prefix[1..] + rest;
      GlobLiteralPrefix(name[1..], prefix[1..], rest);
      if |prefix| <= |name| {
        assert name[1..][|prefix| - 1..] == name[|prefix|..];
        assert name[..|prefix|] == [name[0]] + name[1..][..|prefix| - 1];
        assert prefix == [prefix[0]] + prefix[1..];
      }
    }
  }

  /** A '*' followed by literal text matches exactly the names that end with that text. */
  lemma {:induction false} GlobStarSuffix(name: string, suffix: string)
    requires '*' !in suffix
    ensures Glob(name, "*" + suffix) <==> EndsWith(name, suffix)
    decreases |name|
  {
    var p := "*" + suffix;
    assert p[1..] == suffix;
    if name != [] {
      GlobStarSuffix(name[1..], suffix);
      if |suffix| < |name| {
        assert name[1..][|name| - 1 - |suffix|..] == name[|name| - |suffix|..];
      } else if |suffix| == |name| {
        assert name[0..] == name;
      }
    }
  }

  /**
   * With exactly one '*', the glob holds iff the name starts with the text before it, ends with
   * the text after it, and is long enough for the two not to overlap.
   */
  lemma GlobOneStar(name: string, prefix: string, suffix: string)
    requires '*' !in prefix && '*' !in suffix
    ensures Glob(name, prefix + "*" + suffix)
        <==> StartsWith(name, prefix) && EndsWith(name, suffix) && |prefix| + |suffix| <= |name|
  {
    assert prefix + "*" + suffix == prefix + ("*" + suffix);
    GlobLiteralPrefix(name, prefix, "*" + suffix);
    if |prefix| <= |name| {
      GlobStarSuffix(name[|prefix|..], suffix);
      if |prefix| + |suffix| <= |name| {
        assert name[|prefix|..][|name| - |prefix| - |suffix|..] == name[|name| - |suffix|..];
      }
    }
  }

  /**
   * The two matchers agree on patterns with at most one '*', except on names too short to hold
   * both sides of the '*', which only the code as written accepts.
   */
  lemma MatchersAgree(name: string, prefix: string, suffix: string)
    requires '*' !in prefix && '*' !in suffix
    ensures Glob(name, prefix + suffix) <==> MatchesPattern(name, prefix + suffix)
    ensures Glob(name, prefix + "*" + suffix)
        <==> MatchesPattern(name, prefix + "*" + suffix) && |prefix| + |suffix| <= |name|
  {
    assert '*' !in prefix + suffix;
    CountCharZero(prefix + suffix, '*');
    GlobOneStar(name, prefix, suffix);
    MatchesPatternOneStar(name, prefix, suffix);
  }

  lemma {:induction false} CountCharAppend(a: string, b: string, c: char)
    ensures CountChar(a + b, c) == CountChar(a, c) + CountChar(b, c)
    decreases |a|
  {
    if a == [] {
      assert a + b == b;
    } else {
      assert (a + b)[1..] == a[1..] + b;
      CountCharAppend(a[1..], b, c);
    }
  }

  /**
   * The icon pattern "cursor*.*" has two '*': as written it matches only a file named
   * literally "cursor*.*", so "cursor.png" is not cleaned, although a glob matches it.
   */
  lemma IconPatternAsWritten(name: string)
    ensures MatchesPattern(name, ICON_PATTERNS[0]) <==> name == "cursor*.*"
    ensures !MatchesPattern("cursor.png", ICON_PATTERNS[0])
    ensures !MatchesPattern("cursor-icon.svg", ICON_PATTERNS[0])
  {
    var p := ICON_PATTERNS[0];
    assert p == "cursor" + "*.*";
    assert '*' !in "cursor";
    CountCharZero("cursor", '*');
    CountCharAppend("cursor", "*.*", '*');
    assert "*.*"[1..] == ".*" && ".*"[1..] == "*" && "*"[1..] == [];
  }

  /** "*c*" matches the names that contain the character c. */
  lemma {:induction false} GlobContains(name: string, c: char)
    requires c != '*'
    ensures Glob(name, ['*', c, '*']) <==> c in name
    decreases |name|
  {
    var p := ['*', c, '*'];
    assert p[1..] == [c, '*'] && p[1..][1..] == "*";
    if name == [] {
      assert !Glob(name, p[1..]);
    } else {
      GlobStarAll(name[1..]);
      GlobContains(name[1..], c);
      assert Glob(name, p[1..]) <==> name[0] == c;
      assert c in name <==> name[0] == c || c in name[1..];
    }
  }

  /** The glob accepts, for the icon pattern, the names that start with "cursor" and have a '.' after it. */
  lemma IconPatternGlob(name: string)
    ensures Glob(name, ICON_PATTERNS[0]) <==> StartsWith(name, "cursor") && '.' in name[6..]
  {
    assert ICON_PATTERNS[0] == "cursor" + ['*', '.', '*'];
    GlobLiteralPrefix(name, "cursor", ['*', '.', '*']);
    if 6 <= |name| {
      GlobContains(name[6..], '.');
    }
  }

  /** The corrected matcher accepts the icon names the unit test expects. */
  lemma IconPatternGlobExamples()
    ensures Glob("cursor.png", ICON_PATTERNS[0])
    ensures Glob("cursor-icon.svg", ICON_PATTERNS[0])
  {
    IconPatternGlob("cursor.png");
    IconPatternGlob("cursor-icon.svg");
    assert "cursor.png"[..6] == "cursor" && "cursor.png"[6..][0] == '.';
    assert "cursor-icon.svg"[..6] == "cursor" && "cursor-icon.svg"[6..][5] == '.';
  }

  /** ... and refuses a name without the "cursor" prefix. */
  lemma IconPatternGlobRejects()
    ensures !Glob("other.png", ICON_PATTERNS[0])
  {
    IconPatternGlob("other.png");
    assert "other.png"[0] == 'o';
  }

  /** A lone '*' matches every name. */
  lemma {:induction false} GlobStarAll(name: string)
    ensures Glob(name, "*")
    decreases |name|
  {
    assert "*"[1..] == [];
    if name != [] {
      GlobStarAll(name[1..]);
    }
  }

  /** The desktop pattern "cursor*.desktop", which has one '*', is a prefix-and-suffix test. */
  lemma DesktopPattern(name: string)
    ensures MatchesPattern(name, DESKTOP_PATTERNS[0]) <==> StartsWith(name, "cursor") && EndsWith(name, ".desktop")
  {
    assert DESKTOP_PATTERNS[0] == "cursor" + "*" + ".desktop";
    MatchesPatternOneStar(name, "cursor", ".desktop");
  }

  lemma Affixes(prefix: string, middle: string, suffix: string)
    ensures StartsWith(prefix + middle + suffix, prefix) && EndsWith(prefix + middle + suffix, suffix)
  {
    var s := prefix + middle + suffix;
    assert s[..|prefix|] == prefix;
    assert s[|s| - |suffix|..] == suffix;
  }

  /** "cursor.desktop" and "cursor-app.desktop" match; "other.desktop", like any name not starting with 'c', does not. */
  lemma DesktopPatternExamples(middle: string, other: string)
    requires other != [] && other[0] != 'c'
    ensures MatchesPattern("cursor" + middle + ".desktop", DESKTOP_PATTERNS[0])
    ensures !MatchesPattern(other, DESKTOP_PATTERNS[0])
  {
    DesktopPattern("cursor" + middle + ".desktop");
    DesktopPattern(other);
    Affixes("cursor", middle, ".desktop");
  }

  // ------------------------------------------------------------- statistics

  /** The counts and path lists of a cleanup, as a value. */
  datatype Stats = Stats(dirsRemoved: nat, filesRemoved: nat, pathsCleaned: seq<string>, pathsSkipped: seq<string>)

  const NO_STATS := Stats(0, 0, [], [])

  /** `merge`: the counts add up, the other's paths follow this one's. */
  function Merged(a: Stats, b: Stats): Stats {
    Stats(a.dirsRemoved + b.dirsRemoved, a.filesRemoved + b.filesRemoved,
          a.pathsCleaned + b.pathsCleaned, a.pathsSkipped + b.pathsSkipped)
  }

  /** Merging with empty statistics, on either side, changes nothing. */
  lemma MergeIdentity(s: Stats)
    ensures Merged(s, NO_STATS) == s && Merged(NO_STATS, s) == s
  {
    assert s.pathsCleaned + [] == s.pathsCleaned && s.pathsSkipped + [] == s.pathsSkipped;
  }

  /** Merging is associative, so the statistics of a full reset do not depend on the grouping. */
  lemma MergeAssociative(a: Stats, b: Stats, c: Stats)
    ensures Merged(Merged(a, b), c) == Merged(a, Merged(b, c))
  {
    assert a.pathsCleaned + b.pathsCleaned + c.pathsCleaned == a.pathsCleaned + (b.pathsCleaned + c.pathsCleaned);
    assert a.pathsSkipped + b.pathsSkipped + c.pathsSkipped == a.pathsSkipped + (b.pathsSkipped + c.pathsSkipped);
  }

  /** The merge example: 2 + 1 directories, 5 + 3 files, two cleaned paths. */
  lemma MergeExample()
    ensures var m := Merged(Stats(2, 5, ["a"], []), Stats(1, 3, ["b"], ["c"]));
      m.dirsRemoved == 3 && m.filesRemoved == 8 && |m.pathsCleaned| == 2 && m.pathsSkipped == ["c"]
  {
  }

  /** `CleanupStats`: the statistics a cleanup accumulates in place. */
  class CleanupStats {
    var dirsRemoved: nat
    var filesRemoved: nat
    var pathsCleaned: seq<string>
    var pathsSkipped: seq<string>

    function Value(): Stats
      reads this
    {
      Stats(dirsRemoved, filesRemoved, pathsCleaned, pathsSkipped)
    }

    /** `CleanupStats::default()`. */
    constructor Default()
      ensures Value() == NO_STATS
    {
      dirsRemoved, filesRemoved, pathsCleaned, pathsSkipped := 0, 0, [], [];
    }

    /** `merge`, which consumes the other statistics. */
    method Merge(other: Stats)
      modifies this
      ensures Value() == Merged(old(Value()), other)
    {
      dirsRemoved := dirsRemoved + other.dirsRemoved;
      filesRemoved := filesRemoved + other.filesRemoved;
      pathsCleaned := pathsCleaned + other.pathsCleaned;
      pathsSkipped := pathsSkipped + other.pathsSkipped;
    }

    /** One removed file. */
    method RecordFile(path: string)
      modifies this
      ensures Value() == old(Value()).(filesRemoved := old(filesRemoved) + 1, pathsCleaned := old(pathsCleaned) + [path])
    {
      filesRemoved := filesRemoved + 1;
      pathsCleaned := pathsCleaned + [path];
    }

    /** One removed directory. */
    method RecordDir(path: string)
      modifies this
      ensures Value() == old(Value()).(dirsRemoved := old(dirsRemoved) + 1, pathsCleaned := old(pathsCleaned) + [path])
    {
      dirsRemoved := dirsRemoved + 1;
      pathsCleaned := pathsCleaned + [path];
    }
  }

  // ------------------------------------------------------------- cleanups

  /** A directory entry: its file name, its full path, and whether removing it succeeds. */
  datatype DirEntry = DirEntry(name: string, path: string, removable: bool)

  /** A directory to clean: absent, present but unreadable, or its entries in listing order. */
  datatype Listing = Absent | Unreadable | Entries(entries: seq<DirEntry>)

  /** A file-name matcher: `matches_pattern` as written, or the corrected `Glob`. */
  type Matcher = (string, string) -> bool

  /** Whether some pattern matches the name. */
  predicate AnyMatch(name: string, patterns: seq<string>, matches: Matcher) {
    exists j :: 0 <= j < |patterns| && matches(name, patterns[j])
  }

  /** The paths a pattern cleanup removes from the entries, in listing order: one per matching entry. */
  function PatternCleaned(es: seq<DirEntry>, patterns: seq<string>, matches: Matcher): (paths: seq<string>)
    ensures |paths| <= |es|
    ensures forall p :: p in paths ==> exists e :: e in es && e.path == p && e.removable && AnyMatch(e.name, patterns, matches)
    decreases |es|
  {
    if es == [] then []
    else
      var e := es[|es| - 1];
      var before := PatternCleaned(es[..|es| - 1], patterns, matches);
      assert forall x :: x in es[..|es| - 1] ==> x in es;
      before + (if e.removable && AnyMatch(e.name, patterns, matches) then [e.path] else [])
  }

  /** Every entry that matches a pattern and can be removed is cleaned. */
  lemma {:induction false} PatternCleanedComplete(es: seq<DirEntry>, patterns: seq<string>, matches: Matcher, i: nat)
    requires i < |es| && es[i].removable && AnyMatch(es[i].name, patterns, matches)
    ensures es[i].path in PatternCleaned(es, patterns, matches)
    decreases |es|
  {
    if i < |es| - 1 {
      assert es[..|es| - 1][i] == es[i];
      PatternCleanedComplete(es[..|es| - 1], patterns, matches, i);
    }
  }

  /** One more entry: its path is appended when it is removable and matches. */
  lemma PatternCleanedSnoc(es: seq<DirEntry>, i: nat, patterns: seq<string>, matches: Matcher)
    requires i < |es|
    ensures PatternCleaned(es[..i + 1], patterns, matches)
         == PatternCleaned(es[..i], patterns, matches)
            + (if es[i].removable && AnyMatch(es[i].name, patterns, matches) then [es[i].path] else [])
  {
    assert es[..i + 1][..i] == es[..i];
  }

  function CountFiles(s: Stats, paths: seq<string>): Stats {
    s.(filesRemoved := s.filesRemoved + |paths|, pathsCleaned := s.pathsCleaned + paths)
  }

  /** The effect of a pattern cleanup with the given matcher on the statistics. */
  function PatternStats(s: Stats, dir: Listing, patterns: seq<string>, matches: Matcher): Stats {
    if dir.Entries? then CountFiles(s, PatternCleaned(dir.entries, patterns, matches)) else s
  }

  /** The loop over the patterns of `clean_by_patterns`, which stops at the first match. */
  method MatchesSome(name: string, patterns: seq<string>) returns (matched: bool)
    ensures matched <==> AnyMatch(name, patterns, MatchesPattern)
  {
    matched := false;
    var j := 0;
    while j < |patterns|
      invariant 0 <= j <= |patterns|
      invariant !matched ==> forall k :: 0 <= k < j ==> !MatchesPattern(name, patterns[k])
      invariant matched ==> AnyMatch(name, patterns, MatchesPattern)
    {
      if MatchesPattern(name, patterns[j]) {
        matched := true;
        break;
      }
      j := j + 1;
    }
  }

  /**
   * `clean_by_patterns`: each entry whose name `matches_pattern` accepts for some pattern is
   * removed once, whichever patterns it matches (the loop over the patterns stops at the
   * first match).
   */
  method CleanByPatterns(dir: Listing, patterns: seq<string>, stats: CleanupStats)
    modifies stats
    ensures stats.Value() == PatternStats(old(stats.Value()), dir, patterns, MatchesPattern)
  {
    if !dir.Entries? {
      return;
    }
    var es := dir.entries;
    ghost var start := stats.Value();
    var i := 0;
    while i < |es|
      invariant 0 <= i <= |es|
      invariant stats.Value() == CountFiles(start, PatternCleaned(es[..i], patterns, MatchesPattern))
    {
      var e := es[i];
      var matched := MatchesSome(e.name, patterns);
      PatternCleanedSnoc(es, i, patterns, MatchesPattern);
      if matched && e.removable {
        stats.RecordFile(e.path);
      }
      i := i + 1;
    }
    assert es[..|es|] == es;
  }

  /** A single entry is cleaned exactly when it can be removed and some pattern matches it. */
  lemma PatternCleanedSingle(e: DirEntry, patterns: seq<string>, matches: Matcher)
    ensures PatternCleaned([e], patterns, matches)
         == if e.removable && AnyMatch(e.name, patterns, matches) then [e.path] else []
  {
    assert [e][..0] == [];
  }

  /** As written, the desktop cleanup removes a removable "cursor….desktop" entry. */
  lemma DesktopCleanupExample(middle: string, path: string)
    ensures PatternCleaned([DirEntry("cursor" + middle + ".desktop", path, true)], DESKTOP_PATTERNS, MatchesPattern) == [path]
  {
    var e := DirEntry("cursor" + middle + ".desktop", path, true);
    DesktopPatternExamples(middle, "x");
    assert MatchesPattern(e.name, DESKTOP_PATTERNS[0]);
    PatternCleanedSingle(e, DESKTOP_PATTERNS, MatchesPattern);
  }

  /** The second icon pattern, with two '*', matches only itself as written. */
  lemma SecondIconPatternAsWritten(name: string)
    ensures MatchesPattern(name, ICON_PATTERNS[1]) <==> name == ICON_PATTERNS[1]
  {
    var p := ICON_PATTERNS[1];
    assert p == "co.anysphere.cursor" + "*.*";
    CountCharZero("co.anysphere.cursor", '*');
    CountCharAppend("co.anysphere.cursor", "*.*", '*');
    assert "*.*"[1..] == ".*" && ".*"[1..] == "*" && "*"[1..] == [];
  }

  /** Two patterns: some pattern matches iff the first or the second does. */
  lemma AnyMatchOfTwo(name: string, patterns: seq<string>, matches: Matcher)
    requires |patterns| == 2
    ensures AnyMatch(name, patterns, matches) <==> matches(name, patterns[0]) || matches(name, patterns[1])
  {
  }

  /** As written, the icon patterns together accept only the two pattern texts themselves. */
  lemma IconPatternsAsWritten(name: string)
    ensures AnyMatch(name, ICON_PATTERNS, MatchesPattern) <==> name == ICON_PATTERNS[0] || name == ICON_PATTERNS[1]
  {
    var ps := ICON_PATTERNS;
    IconPatternAsWritten(name);
    SecondIconPatternAsWritten(name);
    AnyMatchOfTwo(name, ps, MatchesPattern);
  }

  /**
   * As written, the icon cleanup leaves a removable "cursor.png" in place and counts nothing,
   * although the unit test of `matches_pattern` expects the icon pattern to accept it.
   */
  lemma IconCleanupAsWritten(name: string, path: string, s: Stats)
    requires name == "cursor.png"
    ensures PatternCleaned([DirEntry(name, path, true)], ICON_PATTERNS, MatchesPattern) == []
    ensures PatternStats(s, Entries([DirEntry(name, path, true)]), ICON_PATTERNS, MatchesPattern) == s
  {
    IconPatternsAsWritten(name);
    assert |name| == 10 && |ICON_PATTERNS[0]| == 9 && |ICON_PATTERNS[1]| == 22;
    PatternCleanedSingle(DirEntry(name, path, true), ICON_PATTERNS, MatchesPattern);
    assert s.pathsCleaned + [] == s.pathsCleaned;
  }

  /** With the corrected matcher, the icon cleanup removes the same "cursor.png" and counts it. */
  lemma IconCleanupCorrected(name: string, path: string, s: Stats)
    requires name == "cursor.png"
    ensures PatternCleaned([DirEntry(name, path, true)], ICON_PATTERNS, Glob) == [path]
    ensures PatternStats(s, Entries([DirEntry(name, path, true)]), ICON_PATTERNS, Glob)
         == s.(filesRemoved := s.filesRemoved + 1, pathsCleaned := s.pathsCleaned + [path])
  {
    IconPatternGlobExamples();
    assert Glob(name, ICON_PATTERNS[0]);
    assert AnyMatch(name, ICON_PATTERNS, Glob);
    PatternCleanedSingle(DirEntry(name, path, true), ICON_PATTERNS, Glob);
  }

  /** `clean_appimages` targets the names `Cursor-*.AppImage`. */
  predicate IsAppImage(name: string) {
    StartsWith(name, "Cursor-") && EndsWith(name, ".AppImage")
  }

  /** The AppImage paths removed from the entries, in listing order. */
  function AppImagesCleaned(es: seq<DirEntry>): (paths: seq<string>)
    ensures |paths| <= |es|
    ensures forall p :: p in paths ==> exists e :: e in es && e.path == p && e.removable && IsAppImage(e.name)
    decreases |es|
  {
    if es == [] then []
    else
      var e := es[|es| - 1];
      var before := AppImagesCleaned(es[..|es| - 1]);
      assert forall x :: x in es[..|es| - 1] ==> x in es;
      before + (if e.removable && IsAppImage(e.name) then [e.path] else [])
  }

  /**
   * The statistics of `clean_appimages`: nothing when disabled or when the downloads
   * directory is absent; otherwise the AppImages removed, then `~/squashfs-root` if it exists
   * and is removed.
   */
  function AppImageStats(enabled: bool, downloads: Listing, squashfs: Option<DirEntry>): (s: Stats)
    ensures !enabled || downloads.Absent? ==> s == NO_STATS
    ensures s.dirsRemoved <= 1 && s.pathsSkipped == []
    ensures |s.pathsCleaned| == s.filesRemoved + s.dirsRemoved
  {
    if !enabled || downloads.Absent? then NO_STATS
    else
      var files := if downloads.Entries? then AppImagesCleaned(downloads.entries) else [];
      var s := CountFiles(NO_STATS, files);
      if squashfs.Some? && squashfs.value.removable
      then s.(dirsRemoved := 1, pathsCleaned := s.pathsCleaned + [squashfs.value.path])
      else s
  }

  /** An AppImage cleanup only removes AppImages, besides the extracted `squashfs-root`. */
  lemma AppImageOnlyTargets(enabled: bool, downloads: Listing, squashfs: Option<DirEntry>, p: string)
    requires p in AppImageStats(enabled, downloads, squashfs).pathsCleaned
    ensures (squashfs.Some? && p == squashfs.value.path)
         || (downloads.Entries? && exists e :: e in downloads.entries && e.path == p && IsAppImage(e.name))
  {
  }

  lemma AppImageExamples()
    ensures IsAppImage("Cursor-0.42.3-x86_64.AppImage")
    ensures !IsAppImage("cursor-0.42.3.AppImage") && !IsAppImage("Cursor-0.42.3.tar.gz")
  {
    assert "Cursor-0.42.3-x86_64.AppImage"[..7] == "Cursor-";
    assert "Cursor-0.42.3-x86_64.AppImage"[20..] == ".AppImage";
    assert "cursor-0.42.3.AppImage"[0] == 'c';
    assert "Cursor-0.42.3.tar.gz"[|"Cursor-0.42.3.tar.gz"| - 1] == 'z';
  }

  /** `clean_appimages`. */
  method CleanAppImages(enabled: bool, downloads: Listing, squashfs: Option<DirEntry>) returns (stats: CleanupStats)
    ensures fresh(stats)
    ensures stats.Value() == AppImageStats(enabled, downloads, squashfs)
  {
    stats := new CleanupStats.Default();
    if !enabled || downloads.Absent? {
      return;
    }
    if downloads.Entries? {
      var es := downloads.entries;
      var i := 0;
      while i < |es|
        invariant 0 <= i <= |es|
        invariant stats.Value() == CountFiles(NO_STATS, AppImagesCleaned(es[..i]))
      {
        var e := es[i];
        assert es[..i + 1][..i] == es[..i];
        if IsAppImage(e.name) && e.removable {
          stats.RecordFile(e.path);
        }
        i := i + 1;
      }
      assert es[..|es|] == es;
    }
    if squashfs.Some? && squashfs.value.removable {
      stats.RecordDir(squashfs.value.path);
    }
  }
}

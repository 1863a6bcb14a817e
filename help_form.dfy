/**
 * The help window (src/AdUserStatus/Services/HelpForm.cs): which page it opens, which
 * links it hands to the system browser, and where each embedded help resource is
 * written on disk before the pages are shown.
 *
 * Paths follow `System.IO.Path.Combine` on Windows: `\` and `/` are separators, a
 * segment starting with a separator or with a drive letter and `:` is rooted.
 */
module HelpForm {
  import opened Wrappers
  import opened Text

  /** The page shown when no topic is given, and the fallback when a topic has no file. */
  const IndexPage: string := "index.html"

  /** The marker that separates the assembly prefix from the help path in a resource name. */
  const HelpMarker: string := ".Help."

  /** The folder the pages are extracted into, below the system temporary folder. */
  const HelpFolderName: string := "ADUserStatusHelp"

  // ----- Start page -----

  /**
   * The constructor's topic (a null argument is `None`): a missing or blank topic
   * becomes the index page, anything else is kept as given.
   */
  function Topic(topic: Option<string>): (t: string)
    ensures !IsBlank(t)
    ensures t != IndexPage ==> topic == Some(t)
    ensures topic.Some? && !IsBlank(topic.value) ==> t == topic.value
  {
    assert IndexPage[0] == 'i';
    if topic.None? || IsBlank(topic.value) then IndexPage else topic.value
  }

  /** Choosing the topic a second time changes nothing. */
  lemma TopicIdempotent(topic: Option<string>)
    ensures Topic(Some(Topic(topic))) == Topic(topic)
  {
    var t := Topic(topic);
    assert !IsBlank(t);
  }

  /**
   * The page the window opens: the topic below the help folder when that file exists
   * (`fileExists` stands for `File.Exists`), otherwise the index page.
   */
  function StartPage(root: string, topic: Option<string>, fileExists: string -> bool): (p: string)
    ensures fileExists(p) || p == Combine2(root, IndexPage)
    ensures p == Combine2(root, Topic(topic)) || p == Combine2(root, IndexPage)
    ensures fileExists(Combine2(root, Topic(topic))) ==> p == Combine2(root, Topic(topic))
  {
    var page := Combine2(root, Topic(topic));
    if fileExists(page) then page else Combine2(root, IndexPage)
  }

  // ----- Links -----

  /** A navigation to this URI is cancelled and handed to the system browser. */
  predicate IsExternal(uri: string) {
    StartsWithIgnoreCase(uri, "http://") || StartsWithIgnoreCase(uri, "https://")
  }

  /**
   * A request for a new window (the URI may be null, `None`) is handled by the system
   * browser exactly when the URI is present, non-empty and external; the emptiness test
   * adds nothing to the scheme test, so both handlers agree on every present URI.
   */
  function OpensInBrowser(uri: Option<string>): (b: bool)
    ensures b <==> uri.Some? && IsExternal(uri.value)
    ensures b ==> |uri.value| >= 7
  {
    uri.Some? && uri.value != [] && IsExternal(uri.value)
  }

  /** Lower-casing a string lower-cases each of its prefixes. */
  lemma {:induction false} LowerPrefix(s: string, n: nat)
    requires n <= |s|
    ensures Lower(s)[..n] == Lower(s[..n])
  {
    assert forall i | 0 <= i < n :: Lower(s)[..n][i] == LowerChar(s[i]) == Lower(s[..n])[i];
  }

  /** Folding a prefix of a folded string is folding that prefix once. */
  lemma {:induction false} FoldedPrefix(uri: string, n: nat)
    requires n <= |uri|
    ensures Lower(Lower(uri)[..n]) == Lower(uri[..n])
  {
    LowerPrefix(uri, n);
    forall i | 0 <= i < n
      ensures Lower(Lower(uri[..n]))[i] == Lower(uri[..n])[i]
    {
      assert LowerChar(LowerChar(uri[..n][i])) == LowerChar(uri[..n][i]);
    }
  }

  /** Whether a link is external does not depend on the case of its letters. */
  lemma {:induction false} ExternalIgnoresCase(uri: string)
    ensures IsExternal(Lower(uri)) <==> IsExternal(uri)
  {
    if |uri| >= 7 {
      FoldedPrefix(uri, 7);
    }
    if |uri| >= 8 {
      FoldedPrefix(uri, 8);
    }
  }

  /** Local pages (`file:` URIs, which is how the extracted pages are opened) stay in the window. */
  lemma FileUrisStayInside(uri: string)
    requires |uri| >= 5 && uri[..5] == "file:"
    ensures !IsExternal(uri)
  {
    assert uri[0] == 'f' by { assert uri[..5][0] == 'f'; }
    assert !StartsWithIgnoreCase(uri, "http://") by {
      if |uri| >= 7 {
        assert Lower(uri[..7])[0] == 'f' && Lower("http://")[0] == 'h';
      }
    }
    assert !StartsWithIgnoreCase(uri, "https://") by {
      if |uri| >= 8 {
        assert Lower(uri[..8])[0] == 'f' && Lower("https://")[0] == 'h';
      }
    }
  }

  // ----- Windows path combination -----

  /** `\` or `/`. */
  predicate IsSeparator(c: char) {
    c == '\\' || c == '/'
  }

  /** `Path.IsPathRooted` on Windows: a leading separator or a drive letter and `:`. */
  predicate IsRooted(p: string) {
    (|p| >= 1 && IsSeparator(p[0])) || (|p| >= 2 && ('A' <= p[0] <= 'Z' || 'a' <= p[0] <= 'z') && p[1] == ':')
  }

  /**
   * `Path.Combine(a, p)`: an empty side yields the other one, a rooted `p` replaces `a`,
   * and otherwise a `\` goes between them unless `a` already ends with a separator.
   */
  function Combine2(a: string, p: string): (r: string)
    ensures |p| <= |r| && r[|r| - |p|..] == p
    ensures p == [] ==> r == a
    ensures IsRooted(p) ==> r == p
    ensures !IsRooted(p) ==> |a| <= |r| && r[..|a|] == a
  {
    if p == [] then a
    else if a == [] || IsRooted(p) then p
    else if IsSeparator(a[|a| - 1]) then a + p
    else a + "\\" + p
  }

  /**
   * `Path.Combine(segments)`: the segments combined from left to right, so that the last
   * rooted segment starts the path and empty segments are skipped.
   */
  function Combine(ps: seq<string>): (r: string)
    ensures |ps| >= 1 ==> |ps[|ps| - 1]| <= |r| && r[|r| - |ps[|ps| - 1]|..] == ps[|ps| - 1]
  {
    if ps == [] then "" else Combine2(Combine(ps[..|ps| - 1]), ps[|ps| - 1])
  }

  /** A path segment with no separator, no `:`, and at least one character. */
  predicate IsPlainSegment(s: string) {
    s != [] && '\\' !in s && '/' !in s && ':' !in s
  }

  /** A plain segment is not rooted and does not end with a separator. */
  lemma PlainEdges(s: string)
    requires IsPlainSegment(s)
    ensures !IsRooted(s) && !IsSeparator(s[|s| - 1])
  {
    assert s[0] in s && s[|s| - 1] in s;
    if |s| >= 2 {
      assert s[1] in s;
    }
  }

  /** A non-rooted, non-empty segment after a path that does not end with a separator
      is added after one `\`. */
  lemma CombineAfter(a: string, p: string)
    requires a != [] && !IsSeparator(a[|a| - 1])
    requires p != [] && !IsRooted(p)
    ensures Combine2(a, p) == a + "\\" + p
  {
  }

  /** Plain segments are combined by putting a `\` between each two of them. */
  lemma {:induction false} CombinePlain(ps: seq<string>)
    requires |ps| >= 1
    requires forall i | 0 <= i < |ps| :: IsPlainSegment(ps[i])
    ensures Combine(ps) == Join('\\', ps)
    ensures Combine(ps) != [] && !IsSeparator(Combine(ps)[|Combine(ps)| - 1])
  {
    var n := |ps|;
    var init := ps[..n - 1];
    var last := ps[n - 1];
    PlainEdges(last);
    if n == 1 {
      assert Combine(init) == "";
    } else {
      CombinePlain(init);
      var acc := Combine(init);
      CombineAfter(acc, last);
      JoinSnoc(ps);
    }
  }

  /** A join of a run of pieces and one more piece puts a `\` before the last piece. */
  lemma JoinSnoc(ps: seq<string>)
    requires |ps| >= 2
    ensures Join('\\', ps) == Join('\\', ps[..|ps| - 1]) + "\\" + ps[|ps| - 1]
  {
    var init, last := ps[..|ps| - 1], [ps[|ps| - 1]];
    assert init + last == ps;
    JoinAppend('\\', init, last);
  }

  /** `HelpRootFolder`: the help folder below the temporary folder. */
  function HelpRootFolder(tempPath: string): (r: string)
    ensures |HelpFolderName| <= |r| && r[|r| - |HelpFolderName|..] == HelpFolderName
    ensures |tempPath| <= |r| && r[..|tempPath|] == tempPath
  {
    assert !IsRooted(HelpFolderName) by { assert HelpFolderName[0] == 'A' && HelpFolderName[1] == 'D'; }
    Combine2(tempPath, HelpFolderName)
  }

  // ----- Resource names -----

  /**
   * The help path of a resource name: the text after the first `.Help.` (any case), or
   * `None` for a resource that does not contain the marker and is therefore not extracted.
   */
  function HelpSuffix(resName: string): Option<string> {
    match IndexOfIgnoreCase(resName, HelpMarker)
    case None => None
    case Some(idx) => Some(resName[idx + |HelpMarker|..])
  }

  /**
   * A resource is a help resource exactly when the marker occurs in its name, and its
   * help path is what follows the first occurrence.
   */
  lemma HelpSuffixSpec(resName: string)
    ensures HelpSuffix(resName).None? <==> forall k: nat :: !MatchesAt(resName, HelpMarker, k)
    ensures HelpSuffix(resName).Some? ==> exists k: nat ::
      (&& MatchesAt(resName, HelpMarker, k)
       && (forall j: nat | j < k :: !MatchesAt(resName, HelpMarker, j))
       && HelpSuffix(resName).value == resName[k + |HelpMarker|..])
  {
    match IndexOfIgnoreCase(resName, HelpMarker)
    case None =>
    case Some(idx) =>
      assert MatchesAt(resName, HelpMarker, idx);
  }

  /** Only `.` folds to `.`, so a folded character equal to `.` was a `.`. */
  lemma LowerCharDot(c: char)
    requires LowerChar(c) == '.'
    ensures c == '.'
  {
  }

  /**
   * A resource named `prefix.Help.suffix` whose prefix has no `.` (the default root
   * namespace is a single word) has help path `suffix`, whatever the suffix holds.
   */
  lemma HelpSuffixAfterPrefix(prefix: string, suffix: string)
    requires '.' !in prefix
    ensures HelpSuffix(prefix + HelpMarker + suffix) == Some(suffix)
  {
    var s := prefix + HelpMarker + suffix;
    var k := |prefix|;
    assert s[k..k + |HelpMarker|] == HelpMarker;
    assert MatchesAt(s, HelpMarker, k);
    forall j: nat | j < k
      ensures !MatchesAt(s, HelpMarker, j)
    {
      assert s[j] == prefix[j];
    }
    assert s[k + |HelpMarker|..] == suffix;
  }

  /** Where a help path goes: an optional folder below the help root, and a file name. */
  datatype HelpTarget = HelpTarget(relDir: Option<string>, fileName: string)

  /**
   * The help path split at its dots: one or two pieces name a file in the help root;
   * with more, the last two pieces are the file name and the others are folders.
   */
  function TargetOf(suffix: string): HelpTarget {
    var parts := Split(suffix, '.');
    var n := |parts|;
    if n == 1 then HelpTarget(None, parts[0])
    else if n == 2 then HelpTarget(None, Join('.', parts))
    else HelpTarget(Some(Combine(parts[..n - 2])), Join('.', [parts[n - 2], parts[n - 1]]))
  }

  /** A help path with at most one dot is a file name in the help root, kept as it is. */
  lemma ShortPathIsFileName(suffix: string)
    requires Count(suffix, '.') <= 1
    ensures TargetOf(suffix) == HelpTarget(None, suffix)
  {
    if Count(suffix, '.') == 0 {
      SplitFree(suffix, '.');
    } else {
      JoinSplit(suffix, '.');
    }
  }

  /**
   * A help path with two dots or more: the file name is its last two pieces, the
   * folder is combined from the pieces before them, and folders, a `.` and the file
   * name spell the help path again.
   */
  lemma {:induction false} LongPathSplits(suffix: string)
    requires Count(suffix, '.') >= 2
    ensures var parts := Split(suffix, '.');
      var n := |parts|;
      var t := TargetOf(suffix);
      && t.relDir == Some(Combine(parts[..n - 2]))
      && Split(t.fileName, '.') == parts[n - 2..]
      && suffix == Join('.', parts[..n - 2]) + "." + t.fileName
  {
    var parts := Split(suffix, '.');
    var n := |parts|;
    var t := TargetOf(suffix);
    assert [parts[n - 2], parts[n - 1]] == parts[n - 2..];
    SplitJoin(parts[n - 2..], '.');
    JoinSplit(suffix, '.');
    JoinAppend('.', parts[..n - 2], parts[n - 2..]);
    assert parts[..n - 2] + parts[n - 2..] == parts;
  }

  /** The folder created for a help path: only when it names a non-empty folder. */
  function Folder(root: string, t: HelpTarget): Option<string> {
    if t.relDir.Some? && t.relDir.value != [] then Some(Combine2(root, t.relDir.value)) else None
  }

  /** The file a help path is written to: in its folder, or else in `root`. */
  function FilePath(root: string, t: HelpTarget): string {
    Combine2(Folder(root, t).GetOr(root), t.fileName)
  }

  /** A plain help path with at most one dot is written directly below a plain root. */
  lemma ShortPathLocation(root: string, suffix: string)
    requires IsPlainSegment(root) && IsPlainSegment(suffix)
    requires Count(suffix, '.') <= 1
    ensures FilePath(root, TargetOf(suffix)) == root + "\\" + suffix
  {
    ShortPathIsFileName(suffix);
    PlainEdges(root);
    PlainEdges(suffix);
    CombineAfter(root, suffix);
  }

  /**
   * With a plain help root and plain pieces, the file lands at the root, then each
   * folder piece, then the file name, separated by `\`: `Images.binoculars.png` is
   * written to `root\Images\binoculars.png`.
   */
  lemma LongPathLocation(root: string, suffix: string)
    requires IsPlainSegment(root)
    requires Count(suffix, '.') >= 2
    requires forall i | 0 <= i < |Split(suffix, '.')| :: IsPlainSegment(Split(suffix, '.')[i])
    ensures var parts := Split(suffix, '.');
      var n := |parts|;
      FilePath(root, TargetOf(suffix)) == Join('\\', [root] + parts[..n - 2] + [parts[n - 2] + "." + parts[n - 1]])
  {
    var parts := Split(suffix, '.');
    var n := |parts|;
    assert TargetOf(suffix) == HelpTarget(Some(Combine(parts[..n - 2])), Join('.', [parts[n - 2], parts[n - 1]]));
    PlainPartsLocation(root, parts);
  }

  /** The location of a help path given as its pieces, three or more, all plain. */
  lemma PlainPartsLocation(root: string, parts: seq<string>)
    requires IsPlainSegment(root)
    requires |parts| >= 3 && forall i | 0 <= i < |parts| :: IsPlainSegment(parts[i])
    ensures var n := |parts|;
      FilePath(root, HelpTarget(Some(Combine(parts[..n - 2])), Join('.', [parts[n - 2], parts[n - 1]])))
      == Join('\\', [root] + parts[..n - 2] + [parts[n - 2] + "." + parts[n - 1]])
  {
    var n := |parts|;
    var dirs := parts[..n - 2];
    var file := parts[n - 2] + "." + parts[n - 1];
    JoinPair('.', parts[n - 2], parts[n - 1]);
    assert forall i | 0 <= i < |dirs| :: IsPlainSegment(dirs[i]);
    CombinePlain(dirs);
    assert IsPlainSegment(file);
    PlainLocation(root, dirs, file);
  }

  /** A plain root, plain folders and a plain file name combine into their `\`-join. */
  lemma PlainLocation(root: string, dirs: seq<string>, file: string)
    requires IsPlainSegment(root) && IsPlainSegment(file)
    requires |dirs| >= 1 && forall i | 0 <= i < |dirs| :: IsPlainSegment(dirs[i])
    ensures Combine2(Combine2(root, Join('\\', dirs)), file) == Join('\\', [root] + dirs + [file])
  {
    PlainFolder(root, dirs);
    var dir := Join('\\', [root] + dirs);
    PlainEdges(file);
    CombineAfter(dir, file);
    var all := [root] + dirs + [file];
    assert all[..|all| - 1] == [root] + dirs;
    JoinSnoc(all);
  }

  /** A plain root and plain folders combine into their `\`-join, which ends with a
      folder character. */
  lemma PlainFolder(root: string, dirs: seq<string>)
    requires IsPlainSegment(root)
    requires |dirs| >= 1 && forall i | 0 <= i < |dirs| :: IsPlainSegment(dirs[i])
    ensures Combine2(root, Join('\\', dirs)) == Join('\\', [root] + dirs)
    ensures Join('\\', [root] + dirs) != [] && !IsSeparator(Join('\\', [root] + dirs)[|Join('\\', [root] + dirs)| - 1])
  {
    CombinePlain(dirs);
    var rel := Join('\\', dirs);
    assert !IsRooted(rel) by {
      JoinHead(dirs);
      PlainEdges(dirs[0]);
    }
    PlainEdges(root);
    CombineAfter(root, rel);
    JoinCons(root, dirs);
  }

  /** A join with one more piece in front puts a `\` after that piece. */
  lemma JoinCons(x: string, ps: seq<string>)
    requires |ps| >= 1
    ensures Join('\\', [x] + ps) == x + "\\" + Join('\\', ps)
  {
    assert ([x] + ps)[1..] == ps;
  }

  /** Joining two pieces puts the separator between them. */
  lemma JoinPair(c: char, a: string, b: string)
    ensures Join(c, [a, b]) == a + [c] + b
  {
    assert [a, b][1..] == [b];
  }

  /** The first characters of a join come from its first piece, then the separator. */
  lemma JoinHead(b: seq<string>)
    requires |b| >= 1 && b[0] != []
    ensures Join('\\', b)[0] == b[0][0]
    ensures |Join('\\', b)| >= 2 ==> Join('\\', b)[1] == '\\' || Join('\\', b)[1] in b[0]
  {
    if |b[0]| >= 2 {
      assert b[0][1] in b[0];
    }
  }

  // ----- Extraction -----

  /** One extracted resource: the folder created for it, if any, and the file written. */
  datatype Extraction = Extraction(resource: string, folder: Option<string>, filePath: string)

  /** What extracting one help resource does below `root`. */
  function ExtractionOf(root: string, resName: string): (e: Extraction)
    requires HelpSuffix(resName).Some?
    ensures e.resource == resName
    ensures e.folder.Some? && !IsRooted(TargetOf(HelpSuffix(resName).value).fileName) ==>
      |e.folder.value| <= |e.filePath| && e.filePath[..|e.folder.value|] == e.folder.value
  {
    var t := TargetOf(HelpSuffix(resName).value);
    Extraction(resName, Folder(root, t), FilePath(root, t))
  }

  /**
   * The resources the extraction loop writes, in order: those whose name contains the
   * marker and whose stream is present (`hasStream` stands for a non-null
   * `GetManifestResourceStream`).
   */
  function Extractions(root: string, names: seq<string>, hasStream: string -> bool): seq<Extraction> {
    if names == [] then []
    else
      var last := names[|names| - 1];
      Extractions(root, names[..|names| - 1], hasStream)
        + (if hasStream(last) && HelpSuffix(last).Some? then [ExtractionOf(root, last)] else [])
  }

  /** `ExtractHelpFiles`: the help root and, in order, every extraction it performs. */
  method ExtractHelpFiles(tempPath: string, names: seq<string>, hasStream: string -> bool)
    returns (root: string, written: seq<Extraction>)
    ensures root == HelpRootFolder(tempPath)
    ensures written == Extractions(root, names, hasStream)
  {
    root := HelpRootFolder(tempPath);
    written := [];
    for i := 0 to |names|
      invariant written == Extractions(root, names[..i], hasStream)
    {
      assert names[..i + 1][..i] == names[..i];
      if hasStream(names[i]) && HelpSuffix(names[i]).Some? {
        written := written + [ExtractionOf(root, names[i])];
      }
    }
    assert names[..|names|] == names;
  }

  /** An extraction is performed exactly for each help resource with a stream. */
  lemma {:induction false} ExtractionsMembers(root: string, names: seq<string>, hasStream: string -> bool, e: Extraction)
    ensures e in Extractions(root, names, hasStream) <==>
      exists i | 0 <= i < |names| :: Extracted(root, names, hasStream, i, e)
  {
    if names != [] {
      var n := |names|;
      var init := names[..n - 1];
      ExtractionsMembers(root, init, hasStream, e);
      var before := Extractions(root, init, hasStream);
      var step := if hasStream(names[n - 1]) && HelpSuffix(names[n - 1]).Some? then [ExtractionOf(root, names[n - 1])] else [];
      assert Extractions(root, names, hasStream) == before + step;
      assert e in step <==> Extracted(root, names, hasStream, n - 1, e);
      if e in before {
        var i :| 0 <= i < n - 1 && Extracted(root, init, hasStream, i, e);
        assert Extracted(root, names, hasStream, i, e);
      }
      if i :| 0 <= i < n && Extracted(root, names, hasStream, i, e) {
        if i < n - 1 {
          assert Extracted(root, init, hasStream, i, e);
        }
      }
    }
  }

  /** The `i`-th resource is extracted, and `e` is its extraction. */
  predicate Extracted(root: string, names: seq<string>, hasStream: string -> bool, i: int, e: Extraction)
    requires 0 <= i < |names|
  {
    hasStream(names[i]) && HelpSuffix(names[i]).Some? && e == ExtractionOf(root, names[i])
  }

  /** Every written file comes from a resource whose name contains the marker. */
  lemma OnlyHelpResources(root: string, names: seq<string>, hasStream: string -> bool, e: Extraction)
    requires e in Extractions(root, names, hasStream)
    ensures e.resource in names && exists k: nat :: MatchesAt(e.resource, HelpMarker, k)
  {
    ExtractionsMembers(root, names, hasStream, e);
    HelpSuffixSpec(e.resource);
  }
}

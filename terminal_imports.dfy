/**
 * src/terminalImports.ts: reading the Kotlin compiler's "unresolved
 * reference" diagnostics out of the terminal output, into a record from
 * each file path to the references missing in it.
 *
 * The diagnostic text is cut at fixed offsets with JavaScript's
 * `indexOf`, `lastIndexOf` and `substring`, whose clamping and argument
 * swapping the Text module models, so every line has a defined outcome.
 * Capturing the terminal output (the clipboard dance) is I/O and is left
 * out: the output is a parameter.
 */
module TerminalImports {
  import opened Wrappers
  import opened Text
  import opened Records

  /** `IMPORT_ERROR_PREFIX` */
  const ImportErrorPrefix: string := "e: file://"
  /** `IMPORT_ERROR_KEYWORD_PREFIX` */
  const ImportErrorKeywordPrefix: string := "Unresolved reference"
  /** `IMPORT_ERROR_KEYWORD_PREFIX_GAP` */
  const ImportErrorKeywordPrefixGap: nat := 2

  /** What parseGradleOutputMissingImports builds: file path to the references missing there. */
  type MissingImports = Record<seq<ImportInfo>>

  /**
   * The record read from one trimmed line, or None when the line is
   * skipped: the path is what lies between the prefix and two characters
   * before the marker, up to its second-to-last colon; the location is what
   * follows that colon; the keyword runs from two characters after the
   * marker to the next quote (or the end of the line), trimmed.
   */
  function ParseDiagnostic(line: string): Option<ImportInfo>
  {
    if !StartsWith(line, ImportErrorPrefix) then None
    else
      var unresRefIndex := IndexOf(line, ImportErrorKeywordPrefix);
      if unresRefIndex == -1 then None
      else Some(DiagnosticAt(line, unresRefIndex))
  }

  function DiagnosticAt(line: string, unresRefIndex: int): ImportInfo
  {
    var importFile := Substring(line, |ImportErrorPrefix|, unresRefIndex - 2);
    var keywordStart := unresRefIndex + |ImportErrorKeywordPrefix| + ImportErrorKeywordPrefixGap;
    ImportInfo(KeywordFrom(line, keywordStart), PathOf(importFile), LocationOf(importFile))
  }

  /** The position of the second-to-last colon of `importFile` (JavaScript's lastIndexOf, so -1 or a clamped search). */
  function SecondLastColon(importFile: string): int
  {
    var lastColon := LastIndexOf(importFile, ':');
    LastIndexOfFrom(importFile, ':', lastColon - 1)
  }

  /** The file path: `importFile` up to its second-to-last colon. */
  function PathOf(importFile: string): string
  {
    Substring(importFile, 0, SecondLastColon(importFile))
  }

  /** The location in the file: `importFile` after its second-to-last colon. */
  function LocationOf(importFile: string): string
  {
    SubstringFrom(importFile, SecondLastColon(importFile) + 1)
  }

  /** The keyword: from `keywordStart` to the next quote, or the end of the line, trimmed. */
  function KeywordFrom(line: string, keywordStart: int): string
  {
    var quote := IndexOfFrom(line, "'", keywordStart);
    var keywordEnd := if quote == -1 then |line| else quote;
    Trim(Substring(line, keywordStart, keywordEnd))
  }

  /** A line yields a record exactly when it starts with the prefix and contains the marker somewhere. */
  lemma ParseDiagnosticAccepts(line: string)
    ensures ParseDiagnostic(line).Some?
        <==> StartsWith(line, ImportErrorPrefix) && exists k :: OccursAt(line, ImportErrorKeywordPrefix, k)
  {
    IndexOfFromSpec(line, ImportErrorKeywordPrefix, 0);
    if StartsWith(line, ImportErrorPrefix) && exists k :: OccursAt(line, ImportErrorKeywordPrefix, k) {
      var k :| OccursAt(line, ImportErrorKeywordPrefix, k);
      assert IndexOf(line, ImportErrorKeywordPrefix) != -1;
    }
  }

  /** The first occurrence of the marker is the one placed after `head`. */
  lemma MarkerPosition(line: string, head: string, tail: string)
    requires line == head + ImportErrorKeywordPrefix + tail
    requires forall k :: 0 <= k < |head| ==> !OccursAt(line, ImportErrorKeywordPrefix, k)
    ensures IndexOf(line, ImportErrorKeywordPrefix) == |head|
  {
    var u := |head|;
    assert line[u..u + |ImportErrorKeywordPrefix|] == ImportErrorKeywordPrefix;
    assert OccursAt(line, ImportErrorKeywordPrefix, u);
    IndexOfFromSpec(line, ImportErrorKeywordPrefix, 0);
  }

  /** In `path:a:b`, with no colon in `a` or `b`, the last colon is the one before `b`. */
  lemma LastColon(path: string, a: string, b: string)
    requires ':' !in b
    ensures LastIndexOf(path + ":" + a + ":" + b, ':') == |path| + 1 + |a|
  {
    var s := path + ":" + a + ":" + b;
    var c2 := |path| + 1 + |a|;
    assert s[c2] == ':';
    forall k | c2 < k < |s| ensures s[k] != ':' {
      assert s[k] == b[k - c2 - 1];
    }
    LastIndexOfSpec(s, ':');
  }

  /** In `path:a:b`, with no colon in `a` or `b`, the second-to-last colon is the one after `path`. */
  lemma SecondLastColonOf(path: string, a: string, b: string)
    requires ':' !in a && ':' !in b
    ensures SecondLastColon(path + ":" + a + ":" + b) == |path|
  {
    var s := path + ":" + a + ":" + b;
    var c1, c2 := |path|, |path| + 1 + |a|;
    LastColon(path, a, b);
    assert s[c1] == ':';
    forall k | c1 < k < c2 ensures s[k] != ':' {
      assert s[k] == a[k - c1 - 1];
    }
    LastIndexOfFromSpec(s, ':', c2 - 1);
  }

  /** In `path:a:b`, with no colon in `a` or `b`, the path is `path`. */
  lemma PathOfColons(path: string, a: string, b: string)
    requires ':' !in a && ':' !in b
    ensures PathOf(path + ":" + a + ":" + b) == path
  {
    var s := path + ":" + a + ":" + b;
    SecondLastColonOf(path, a, b);
    SubstringSpec(s, 0, |path|);
    assert s[..|path|] == path;
  }

  /** In `path:a:b`, with no colon in `a` or `b`, the location is `a:b`. */
  lemma LocationOfColons(path: string, a: string, b: string)
    requires ':' !in a && ':' !in b
    ensures LocationOf(path + ":" + a + ":" + b) == a + ":" + b
  {
    var s := path + ":" + a + ":" + b;
    SecondLastColonOf(path, a, b);
    assert s[|path| + 1..] == a + ":" + b;
  }

  /** No quote starts inside a quote-free keyword. */
  lemma NoQuoteIn(line: string, start: nat, keyword: string)
    requires start + |keyword| <= |line| && line[start..start + |keyword|] == keyword
    requires '\'' !in keyword
    ensures forall k :: start <= k < start + |keyword| ==> !OccursAt(line, "'", k)
  {
    forall k | start <= k < start + |keyword| ensures !OccursAt(line, "'", k) {
      assert line[k] == keyword[k - start];
      assert line[k..k + 1] == [line[k]];
    }
  }

  /** The first quote at or after `start`: the end of the keyword when `rest` starts with one, and none otherwise. */
  lemma QuoteAfter(line: string, start: nat, keyword: string, rest: string)
    requires start + |keyword| + |rest| == |line|
    requires line[start..start + |keyword|] == keyword && line[start + |keyword|..] == rest
    requires '\'' !in keyword
    requires rest == [] || rest[0] == '\''
    ensures IndexOfFrom(line, "'", start) == if rest == [] then -1 else start + |keyword|
  {
    var e := start + |keyword|;
    IndexOfFromSpec(line, "'", start);
    NoQuoteIn(line, start, keyword);
    if rest != [] {
      assert line[e] == rest[0];
      assert line[e..e + 1] == "'";
      assert OccursAt(line, "'", e);
    }
  }

  /** The quote search after the keyword stops at the end of the keyword. */
  lemma KeywordEnd(line: string, start: nat, keyword: string, rest: string)
    requires start + |keyword| + |rest| == |line|
    requires line[start..start + |keyword|] == keyword && line[start + |keyword|..] == rest
    requires '\'' !in keyword
    requires rest == [] || rest[0] == '\''
    ensures KeywordFrom(line, start) == Trim(keyword)
  {
    QuoteAfter(line, start, keyword, rest);
    SubstringSpec(line, start, start + |keyword|);
  }

  /** The text between the prefix and the two characters before the first marker. */
  lemma ImportFileOf(line: string, file: string, gap: string, tail: string)
    requires line == ImportErrorPrefix + file + gap + ImportErrorKeywordPrefix + tail
    requires |gap| == ImportErrorKeywordPrefixGap
    requires forall k :: 0 <= k < |ImportErrorPrefix + file + gap| ==> !OccursAt(line, ImportErrorKeywordPrefix, k)
    ensures StartsWith(line, ImportErrorPrefix)
    ensures IndexOf(line, ImportErrorKeywordPrefix) == |ImportErrorPrefix + file + gap|
    ensures Substring(line, |ImportErrorPrefix|, |ImportErrorPrefix + file + gap| - 2) == file
  {
    var head := ImportErrorPrefix + file + gap;
    assert line[..|ImportErrorPrefix|] == ImportErrorPrefix;
    MarkerPosition(line, head, tail);
    var p := |ImportErrorPrefix|;
    assert line[p..|head| - 2] == file;
    SubstringSpec(line, p, |head| - 2);
  }

  /** The keyword read two characters after the marker. */
  lemma KeywordAfterMarker(line: string, head: string, sep: string, keyword: string, rest: string)
    requires line == head + ImportErrorKeywordPrefix + sep + keyword + rest
    requires |sep| == ImportErrorKeywordPrefixGap && '\'' !in keyword
    requires rest == [] || rest[0] == '\''
    ensures KeywordFrom(line, |head| + |ImportErrorKeywordPrefix| + ImportErrorKeywordPrefixGap) == Trim(keyword)
  {
    var start := |head| + |ImportErrorKeywordPrefix| + ImportErrorKeywordPrefixGap;
    assert line[start..start + |keyword|] == keyword;
    assert line[start + |keyword|..] == rest;
    KeywordEnd(line, start, keyword, rest);
  }

  /** What ParseDiagnostic yields for a line with the prefix, its first marker at `m` and the given parts. */
  lemma ParseDiagnosticAt(line: string, m: int, file: string, path: string, location: string, keyword: string)
    requires StartsWith(line, ImportErrorPrefix) && IndexOf(line, ImportErrorKeywordPrefix) == m && m != -1
    requires Substring(line, |ImportErrorPrefix|, m - 2) == file
    requires PathOf(file) == path && LocationOf(file) == location
    requires KeywordFrom(line, m + |ImportErrorKeywordPrefix| + ImportErrorKeywordPrefixGap) == keyword
    ensures ParseDiagnostic(line) == Some(ImportInfo(keyword, path, location))
  {
    assert ParseDiagnostic(line) == Some(DiagnosticAt(line, m));
  }

  /**
   * A diagnostic `e: file://<path>:<a>:<b><2 chars>Unresolved reference<2
   * chars><keyword><rest>`, with no colon in `a` or `b`, no quote in the
   * keyword, `rest` empty or starting with a quote, and no occurrence of
   * the marker before its place.
   */
  ghost predicate WellFormedDiagnostic(line: string, path: string, a: string, b: string, gap: string, sep: string, keyword: string, rest: string)
  {
    && line == ImportErrorPrefix + path + ":" + a + ":" + b + gap + ImportErrorKeywordPrefix + sep + keyword + rest
    && ':' !in a && ':' !in b && '\'' !in keyword
    && |gap| == ImportErrorKeywordPrefixGap && |sep| == ImportErrorKeywordPrefixGap
    && (rest == [] || rest[0] == '\'')
    && forall k :: 0 <= k < |ImportErrorPrefix + path + ":" + a + ":" + b + gap| ==> !OccursAt(line, ImportErrorKeywordPrefix, k)
  }

  /** A well-formed diagnostic yields the record for `path`, at `a:b`, with the keyword trimmed. */
  lemma ParseWellFormed(line: string, path: string, a: string, b: string, gap: string, sep: string, keyword: string, rest: string)
    requires WellFormedDiagnostic(line, path, a, b, gap, sep, keyword, rest)
    ensures ParseDiagnostic(line) == Some(ImportInfo(Trim(keyword), path, a + ":" + b))
  {
    var m := HeadOf(line, path, a, b, gap, sep, keyword, rest);
    KeywordOf(line, path, a, b, gap, sep, keyword, rest, m);
    ParseDiagnosticAt(line, m, path + ":" + a + ":" + b, path, a + ":" + b, Trim(keyword));
  }

  /** The prefix, the position `m` of the first marker and the path and location between them. */
  lemma HeadOf(line: string, path: string, a: string, b: string, gap: string, sep: string, keyword: string, rest: string)
    returns (m: int)
    requires WellFormedDiagnostic(line, path, a, b, gap, sep, keyword, rest)
    ensures m == |ImportErrorPrefix + path + ":" + a + ":" + b + gap|
    ensures StartsWith(line, ImportErrorPrefix) && IndexOf(line, ImportErrorKeywordPrefix) == m && m != -1
    ensures Substring(line, |ImportErrorPrefix|, m - 2) == path + ":" + a + ":" + b
    ensures PathOf(path + ":" + a + ":" + b) == path && LocationOf(path + ":" + a + ":" + b) == a + ":" + b
  {
    var file := path + ":" + a + ":" + b;
    m := |ImportErrorPrefix + file + gap|;
    assert ImportErrorPrefix + path + ":" + a + ":" + b + gap == ImportErrorPrefix + file + gap;
    assert line == ImportErrorPrefix + file + gap + ImportErrorKeywordPrefix + (sep + keyword + rest);
    ImportFileOf(line, file, gap, sep + keyword + rest);
    PathOfColons(path, a, b);
    LocationOfColons(path, a, b);
  }

  /** The keyword read two characters after the marker at `m`. */
  lemma KeywordOf(line: string, path: string, a: string, b: string, gap: string, sep: string, keyword: string, rest: string, m: int)
    requires WellFormedDiagnostic(line, path, a, b, gap, sep, keyword, rest)
    requires m == |ImportErrorPrefix + path + ":" + a + ":" + b + gap|
    ensures KeywordFrom(line, m + |ImportErrorKeywordPrefix| + ImportErrorKeywordPrefixGap) == Trim(keyword)
  {
    KeywordAfterMarker(line, ImportErrorPrefix + path + ":" + a + ":" + b + gap, sep, keyword, rest);
  }

  /** No occurrence of a pattern can start inside `head` when its first character is absent from `head`. */
  lemma NoOccurrenceBefore(head: string, tail: string, pattern: string)
    requires |pattern| > 0 && pattern[0] !in head
    ensures forall k :: 0 <= k < |head| ==> !OccursAt(head + tail, pattern, k)
  {
    var s := head + tail;
    forall k | 0 <= k < |head| ensures !OccursAt(s, pattern, k) {
      assert s[k] == head[k];
      if k + |pattern| <= |s| {
        assert s[k..k + |pattern|][0] == s[k];
      }
    }
  }

  /** A line built from its parts is well formed when the marker's first letter is absent from the parts before it. */
  lemma DiagnosticParts(line: string, path: string, a: string, b: string, gap: string, sep: string, keyword: string, rest: string)
    requires line == ImportErrorPrefix + path + ":" + a + ":" + b + gap + ImportErrorKeywordPrefix + sep + keyword + rest
    requires ':' !in a && ':' !in b && '\'' !in keyword
    requires |gap| == ImportErrorKeywordPrefixGap && |sep| == ImportErrorKeywordPrefixGap
    requires rest == [] || rest[0] == '\''
    requires 'U' !in path && 'U' !in a && 'U' !in b && 'U' !in gap
    ensures WellFormedDiagnostic(line, path, a, b, gap, sep, keyword, rest)
  {
    var head := ImportErrorPrefix + path + ":" + a + ":" + b + gap;
    assert 'U' !in head;
    NoOccurrenceBefore(head, ImportErrorKeywordPrefix + sep + keyword + rest, ImportErrorKeywordPrefix);
    assert line == head + (ImportErrorKeywordPrefix + sep + keyword + rest);
  }

  /** The diagnostic of ParseExampleQuoted, cut into its parts. */
  lemma ExampleQuotedParts(line: string)
    requires line == ImportErrorPrefix + "/a/Main.kt:3:5 " + ImportErrorKeywordPrefix + " 'Foo'."
    ensures WellFormedDiagnostic(line, "/a/Main.kt", "3", "", "5 ", " '", "Foo", "'.")
  {
    assert line == ImportErrorPrefix + "/a/Main.kt" + ":" + "3" + ":" + "" + "5 " + ImportErrorKeywordPrefix + " '" + "Foo" + "'.";
    DiagnosticParts(line, "/a/Main.kt", "3", "", "5 ", " '", "Foo", "'.");
  }

  /** The diagnostic `e: file:///a/Main.kt:3:5 Unresolved reference 'Foo'.`: the two characters before the marker are `5 `. */
  lemma ParseExampleQuoted(line: string)
    requires line == ImportErrorPrefix + "/a/Main.kt:3:5 " + ImportErrorKeywordPrefix + " 'Foo'."
    ensures ParseDiagnostic(line) == Some(ImportInfo("Foo", "/a/Main.kt", "3:"))
  {
    ExampleQuotedParts(line);
    assert ImportInfo("Foo", "/a/Main.kt", "3:") == ImportInfo(Trim("Foo"), "/a/Main.kt", "3" + ":" + "") by {
      TrimUnspaced("Foo");
    }
    ParseWellFormed(line, "/a/Main.kt", "3", "", "5 ", " '", "Foo", "'.");
  }

  /** The diagnostic of ParseExampleColon, cut into its parts. */
  lemma ExampleColonParts(line: string)
    requires line == ImportErrorPrefix + "/a/Main.kt:10:5: " + ImportErrorKeywordPrefix + ": 'Bar'"
    ensures WellFormedDiagnostic(line, "/a/Main.kt", "10", "5", ": ", ": ", "", "'Bar'")
  {
    assert line == ImportErrorPrefix + "/a/Main.kt" + ":" + "10" + ":" + "5" + ": " + ImportErrorKeywordPrefix + ": " + "" + "'Bar'";
    DiagnosticParts(line, "/a/Main.kt", "10", "5", ": ", ": ", "", "'Bar'");
  }

  /**
   * The diagnostic `e: file:///a/Main.kt:10:5: Unresolved reference: 'Bar'`:
   * the two characters skipped after the marker end before the quote, so
   * the keyword is empty.
   */
  lemma ParseExampleColon(line: string)
    requires line == ImportErrorPrefix + "/a/Main.kt:10:5: " + ImportErrorKeywordPrefix + ": 'Bar'"
    ensures ParseDiagnostic(line) == Some(ImportInfo("", "/a/Main.kt", "10:5"))
  {
    ExampleColonParts(line);
    assert ImportInfo("", "/a/Main.kt", "10:5") == ImportInfo(Trim(""), "/a/Main.kt", "10" + ":" + "5") by {
      TrimUnspaced("");
    }
    ParseWellFormed(line, "/a/Main.kt", "10", "5", ": ", ": ", "", "'Bar'");
  }

  // ---------------------------------------------------------------------------
  // Collecting the records

  /** True when a record in `infos` has keyword `keyword`. */
  predicate HasKeyword(infos: seq<ImportInfo>, keyword: string)
  {
    exists j :: 0 <= j < |infos| && infos[j].keyword == keyword
  }

  /**
   * One record into `missing_imports`: the first record for a path starts
   * its list; a later one is appended unless the list already has a record
   * with the same keyword.
   */
  function AddRecord(missing: MissingImports, info: ImportInfo): MissingImports
  {
    match missing.Get(info.filePath)
    case None => missing.Set(info.filePath, [info])
    case Some(infos) => if HasKeyword(infos, info.keyword) then missing else missing.Set(info.filePath, infos + [info])
  }

  /** The records `parse` reads from `lines`, in order (parseGradleOutputMissingImports uses ParseDiagnostic). */
  function Diagnostics(parse: string -> Option<ImportInfo>, lines: seq<string>): seq<ImportInfo>
  {
    if lines == [] then []
    else
      var init := lines[..|lines| - 1];
      match parse(lines[|lines| - 1])
      case None => Diagnostics(parse, init)
      case Some(info) => Diagnostics(parse, init) + [info]
  }

  /** Adding the records one after another. */
  function AddAll(missing: MissingImports, infos: seq<ImportInfo>): MissingImports
  {
    if infos == [] then missing else AddRecord(AddAll(missing, infos[..|infos| - 1]), infos[|infos| - 1])
  }

  /** The lines of the terminal output, split at line feeds and trimmed. */
  function OutputLines(output: string): seq<string>
  {
    TrimAll(Split(output, '\n'))
  }

  /** The records read from the terminal output, in order. */
  function OutputDiagnostics(output: string): seq<ImportInfo>
  {
    Diagnostics(ParseDiagnostic, OutputLines(output))
  }

  /** What parseGradleOutputMissingImports returns for `output`. */
  function Missing(output: string): MissingImports
  {
    AddAll(EmptyRecord(), OutputDiagnostics(output))
  }

  /** parseGradleOutputMissingImports: reads every line of the output and collects its record, if any. */
  method ParseGradleOutputMissingImports(output: string) returns (missing: MissingImports)
    ensures missing == Missing(output)
  {
    missing := EmptyRecord();
    var lines := OutputLines(output);
    var i := 0;
    while i < |lines|
      invariant i <= |lines|
      invariant missing == AddAll(EmptyRecord(), Diagnostics(ParseDiagnostic, lines[..i]))
    {
      assert lines[..i + 1][..i] == lines[..i];
      var info := ParseDiagnostic(lines[i]);
      if info.Some? {
        missing := AddMissingImport(missing, info.value);
      }
      i := i + 1;
    }
    assert lines[..i] == lines;
  }

  /** The body of the loop for a line that yields `info`: the `already_added` search and the push. */
  method AddMissingImport(missing: MissingImports, info: ImportInfo) returns (missing': MissingImports)
    ensures missing' == AddRecord(missing, info)
  {
    var fileMissingImports := missing.Get(info.filePath);
    if fileMissingImports.None? {
      return missing.Set(info.filePath, [info]);
    }
    var infos := fileMissingImports.value;
    var alreadyAdded := false;
    var j := 0;
    while j < |infos|
      invariant j <= |infos|
      invariant !alreadyAdded
      invariant forall m :: 0 <= m < j ==> infos[m].keyword != info.keyword
    {
      if infos[j].keyword == info.keyword {
        alreadyAdded := true;
        break;
      }
      j := j + 1;
    }
    if alreadyAdded {
      missing' := missing;
    } else {
      missing' := missing.Set(info.filePath, infos + [info]);
    }
  }

  // ---------------------------------------------------------------------------
  // What the record holds

  /** The records of `infos` for `path`, in order. */
  function OfPath(infos: seq<ImportInfo>, path: string): seq<ImportInfo>
  {
    if infos == [] then []
    else
      var init := infos[..|infos| - 1];
      var last := infos[|infos| - 1];
      OfPath(init, path) + (if last.filePath == path then [last] else [])
  }

  /** The first record of `infos` for each keyword, in order. */
  function KeepFirst(infos: seq<ImportInfo>): seq<ImportInfo>
  {
    if infos == [] then []
    else
      var kept := KeepFirst(infos[..|infos| - 1]);
      var last := infos[|infos| - 1];
      if HasKeyword(kept, last.keyword) then kept else kept + [last]
  }

  /** The paths of `infos`, each once, in order of first appearance. */
  function PathOrder(infos: seq<ImportInfo>): seq<string>
  {
    if infos == [] then []
    else
      var order := PathOrder(infos[..|infos| - 1]);
      var path := infos[|infos| - 1].filePath;
      if path in order then order else order + [path]
  }

  /** PathOrder lists the paths of `infos` and nothing else. */
  lemma {:induction false} PathOrderMembers(infos: seq<ImportInfo>, path: string)
    ensures path in PathOrder(infos) <==> OfPath(infos, path) != []
  {
    if infos != [] {
      var init := infos[..|infos| - 1];
      PathOrderMembers(init, path);
    }
  }

  /** True when `info` is at position `i` of `infos` and no earlier record has its keyword. */
  predicate FirstOfKeyword(infos: seq<ImportInfo>, i: int, info: ImportInfo)
  {
    0 <= i < |infos| && infos[i] == info && forall i' :: 0 <= i' < i ==> infos[i'].keyword != info.keyword
  }

  /** The kept records have distinct keywords. */
  lemma {:induction false} KeepFirstDistinct(infos: seq<ImportInfo>)
    ensures forall a, b :: 0 <= a < b < |KeepFirst(infos)| ==> KeepFirst(infos)[a].keyword != KeepFirst(infos)[b].keyword
  {
    if infos != [] {
      var init := infos[..|infos| - 1];
      var last := infos[|infos| - 1];
      var kept := KeepFirst(init);
      KeepFirstDistinct(init);
      if !HasKeyword(kept, last.keyword) {
        var r := kept + [last];
        assert KeepFirst(infos) == r;
        forall a, b | 0 <= a < b < |r| ensures r[a].keyword != r[b].keyword {
          if b == |kept| {
            assert r[a] == kept[a];
          }
        }
      }
    }
  }

  /** Every keyword of `infos` is kept. */
  lemma {:induction false} KeepFirstCovers(infos: seq<ImportInfo>)
    ensures forall i :: 0 <= i < |infos| ==> HasKeyword(KeepFirst(infos), infos[i].keyword)
  {
    if infos != [] {
      var init := infos[..|infos| - 1];
      var last := infos[|infos| - 1];
      var kept := KeepFirst(init);
      KeepFirstCovers(init);
      var r := KeepFirst(infos);
      assert r == if HasKeyword(kept, last.keyword) then kept else kept + [last];
      forall i | 0 <= i < |infos| ensures HasKeyword(r, infos[i].keyword) {
        var kw := infos[i].keyword;
        if i < |init| {
          assert infos[i] == init[i];
          var m :| 0 <= m < |kept| && kept[m].keyword == kw;
          assert r[m] == kept[m];
        } else if !HasKeyword(kept, last.keyword) {
          assert r[|kept|] == last;
        } else {
          var m :| 0 <= m < |kept| && kept[m].keyword == last.keyword;
          assert r[m] == kept[m];
        }
      }
    }
  }

  /** Each kept record is the first record of its keyword. */
  lemma {:induction false} KeepFirstFirst(infos: seq<ImportInfo>)
    ensures forall x :: x in KeepFirst(infos) ==> exists i :: FirstOfKeyword(infos, i, x)
  {
    if infos == [] {
      assert KeepFirst(infos) == [];
    } else {
      var init := infos[..|infos| - 1];
      var last := infos[|infos| - 1];
      var kept := KeepFirst(init);
      KeepFirstFirst(init);
      var r := KeepFirst(infos);
      assert r == if HasKeyword(kept, last.keyword) then kept else kept + [last];
      forall x | x in r ensures exists i :: FirstOfKeyword(infos, i, x) {
        if x in kept {
          var i :| FirstOfKeyword(init, i, x);
          assert FirstOfKeyword(infos, i, x);
        } else {
          KeepFirstCovers(init);
          assert !HasKeyword(kept, last.keyword) && x == last;
          forall i' | 0 <= i' < |init| ensures init[i'].keyword != last.keyword {
            assert HasKeyword(kept, init[i'].keyword);
          }
          assert FirstOfKeyword(infos, |init|, x);
        }
      }
    }
  }

  /**
   * Keeping the first record per keyword: the kept records have distinct
   * keywords, each is the first record of its keyword, and every keyword
   * of `infos` is kept.
   */
  lemma KeepFirstSpec(infos: seq<ImportInfo>)
    ensures forall a, b :: 0 <= a < b < |KeepFirst(infos)| ==> KeepFirst(infos)[a].keyword != KeepFirst(infos)[b].keyword
    ensures forall x :: x in KeepFirst(infos) ==> exists i :: FirstOfKeyword(infos, i, x)
    ensures forall i :: 0 <= i < |infos| ==> HasKeyword(KeepFirst(infos), infos[i].keyword)
  {
    KeepFirstDistinct(infos);
    KeepFirstFirst(infos);
    KeepFirstCovers(infos);
  }

  /** A path is a key exactly when some record names it. */
  ghost predicate PathsInv(infos: seq<ImportInfo>, missing: MissingImports)
  {
    forall path :: path in missing.values <==> OfPath(infos, path) != []
  }

  /** Each path's list is the first record per keyword among that path's records. */
  ghost predicate ListsInv(infos: seq<ImportInfo>, missing: MissingImports)
  {
    forall path :: path in missing.values ==> missing.values[path] == KeepFirst(OfPath(infos, path))
  }

  /** The keys are the paths in order of first appearance, which is the order `Object.keys` gives them. */
  ghost predicate KeysInv(infos: seq<ImportInfo>, missing: MissingImports)
  {
    missing.keys == PathOrder(infos)
  }

  /**
   * The paths are the keys, each once and in order of first appearance,
   * and each path's list is the first record per keyword among that
   * path's records.
   */
  ghost predicate CollectsPaths(infos: seq<ImportInfo>, missing: MissingImports)
  {
    missing.Valid() && PathsInv(infos, missing) && ListsInv(infos, missing) && KeysInv(infos, missing)
  }

  lemma OfPathSnoc(infos: seq<ImportInfo>, info: ImportInfo, path: string)
    ensures OfPath(infos + [info], path) == OfPath(infos, path) + (if info.filePath == path then [info] else [])
  {
    assert (infos + [info])[..|infos|] == infos;
  }

  lemma KeepFirstSnoc(infos: seq<ImportInfo>, info: ImportInfo)
    ensures KeepFirst(infos + [info])
         == if HasKeyword(KeepFirst(infos), info.keyword) then KeepFirst(infos) else KeepFirst(infos) + [info]
  {
    assert (infos + [info])[..|infos|] == infos;
  }

  lemma AddRecordPaths(infos: seq<ImportInfo>, missing: MissingImports, info: ImportInfo)
    requires PathsInv(infos, missing)
    ensures PathsInv(infos + [info], AddRecord(missing, info))
  {
    forall q ensures OfPath(infos + [info], q) == OfPath(infos, q) + (if info.filePath == q then [info] else []) {
      OfPathSnoc(infos, info, q);
    }
  }

  /** The list of the new record's path after adding it. */
  lemma AddRecordListSame(infos: seq<ImportInfo>, missing: MissingImports, info: ImportInfo)
    requires PathsInv(infos, missing) && ListsInv(infos, missing)
    ensures info.filePath in AddRecord(missing, info).values
    ensures AddRecord(missing, info).values[info.filePath] == KeepFirst(OfPath(infos + [info], info.filePath))
  {
    var p := info.filePath;
    OfPathSnoc(infos, info, p);
    KeepFirstSnoc(OfPath(infos, p), info);
    if p !in missing.values {
      assert OfPath(infos, p) == [];
      assert KeepFirst([] + [info]) == [info];
    }
  }

  /** The list of any other path is unchanged by adding a record. */
  lemma AddRecordListOther(infos: seq<ImportInfo>, missing: MissingImports, info: ImportInfo, q: string)
    requires ListsInv(infos, missing) && q != info.filePath
    ensures q in AddRecord(missing, info).values <==> q in missing.values
    ensures q in missing.values ==> AddRecord(missing, info).values[q] == KeepFirst(OfPath(infos + [info], q))
  {
    OfPathSnoc(infos, info, q);
    assert OfPath(infos + [info], q) == OfPath(infos, q) + [];
    assert OfPath(infos, q) + [] == OfPath(infos, q);
    var p := info.filePath;
    if p in missing.values && !HasKeyword(missing.values[p], info.keyword) {
      assert AddRecord(missing, info).values == missing.values[p := missing.values[p] + [info]];
    } else if p !in missing.values {
      assert AddRecord(missing, info).values == missing.values[p := [info]];
    }
  }

  lemma AddRecordLists(infos: seq<ImportInfo>, missing: MissingImports, info: ImportInfo)
    requires PathsInv(infos, missing) && ListsInv(infos, missing)
    ensures ListsInv(infos + [info], AddRecord(missing, info))
  {
    var r := AddRecord(missing, info);
    AddRecordListSame(infos, missing, info);
    forall q | q in r.values ensures r.values[q] == KeepFirst(OfPath(infos + [info], q)) {
      if q != info.filePath {
        AddRecordListOther(infos, missing, info, q);
      }
    }
  }

  /** Adding a record appends its path to the keys exactly when the path is new. */
  lemma AddRecordKeys(infos: seq<ImportInfo>, missing: MissingImports, info: ImportInfo)
    requires missing.Valid() && PathsInv(infos, missing) && KeysInv(infos, missing)
    ensures KeysInv(infos + [info], AddRecord(missing, info))
  {
    var p := info.filePath;
    assert (infos + [info])[..|infos|] == infos;
    PathOrderMembers(infos, p);
    assert p in missing.values <==> p in PathOrder(infos);
  }

  /** Adding one record keeps the record in step with the records added so far. */
  lemma AddRecordCollects(infos: seq<ImportInfo>, missing: MissingImports, info: ImportInfo)
    requires CollectsPaths(infos, missing)
    ensures CollectsPaths(infos + [info], AddRecord(missing, info))
  {
    var p := info.filePath;
    if p in missing.values {
      missing.SetValid(p, missing.values[p] + [info]);
    } else {
      missing.SetValid(p, [info]);
    }
    AddRecordPaths(infos, missing, info);
    AddRecordLists(infos, missing, info);
    AddRecordKeys(infos, missing, info);
  }

  /** The record built from `infos` is in step with them. */
  lemma {:induction false} AddAllCollects(infos: seq<ImportInfo>)
    ensures CollectsPaths(infos, AddAll(EmptyRecord(), infos))
  {
    if infos == [] {
      forall path ensures OfPath(infos, path) == [] {
      }
    } else {
      var init := infos[..|infos| - 1];
      AddAllCollects(init);
      AddRecordCollects(init, AddAll(EmptyRecord(), init), infos[|infos| - 1]);
      assert init + [infos[|infos| - 1]] == infos;
    }
  }

  /**
   * `r` holds, for `path`, one record per keyword: each is the first record
   * of `infos` for that path with its keyword, and every keyword reported
   * for that path is there.
   */
  ghost predicate FirstPerKeyword(infos: seq<ImportInfo>, path: string, r: seq<ImportInfo>)
  {
    && (forall a, b :: 0 <= a < b < |r| ==> r[a].keyword != r[b].keyword)
    && (forall x :: x in r ==> x.filePath == path && exists i :: FirstOfKeyword(OfPath(infos, path), i, x))
    && (forall i :: 0 <= i < |infos| && infos[i].filePath == path ==> HasKeyword(r, infos[i].keyword))
  }

  /**
   * The record parseGradleOutputMissingImports returns: its keys are
   * distinct and match its values, in order of first appearance; a path
   * is a key exactly when some diagnostic line names it; and its list
   * holds the first record per keyword among that path's diagnostics, in
   * the order they occur.
   */
  lemma MissingSpec(output: string, path: string)
    ensures Missing(output).Valid()
    ensures path in Missing(output).values
        <==> exists i :: 0 <= i < |OutputDiagnostics(output)| && OutputDiagnostics(output)[i].filePath == path
    ensures path in Missing(output).values ==> FirstPerKeyword(OutputDiagnostics(output), path, Missing(output).values[path])
    ensures path in Missing(output).values ==> Missing(output).values[path] == KeepFirst(OfPath(OutputDiagnostics(output), path))
    ensures Missing(output).keys == PathOrder(OutputDiagnostics(output))
  {
    var infos := OutputDiagnostics(output);
    AddAllCollects(infos);
    OfPathMembers(infos, path);
    var m := Missing(output);
    if path in m.values {
      KeepFirstSpec(OfPath(infos, path));
      var ofPath := OfPath(infos, path);
      var r := m.values[path];
      assert r == KeepFirst(ofPath);
      forall x | x in r ensures x.filePath == path {
        var i :| FirstOfKeyword(ofPath, i, x);
        assert ofPath[i] in ofPath;
      }
      forall i | 0 <= i < |infos| && infos[i].filePath == path ensures HasKeyword(r, infos[i].keyword) {
        assert infos[i] in ofPath;
        var i' :| 0 <= i' < |ofPath| && ofPath[i'] == infos[i];
      }
    }
  }

  /** A record is among a path's records exactly when it is a record of `infos` with that path. */
  lemma {:induction false} OfPathMembers(infos: seq<ImportInfo>, path: string)
    ensures forall x :: x in OfPath(infos, path) <==> x in infos && x.filePath == path
    ensures OfPath(infos, path) != [] <==> exists i :: 0 <= i < |infos| && infos[i].filePath == path
  {
    if infos != [] {
      var init := infos[..|infos| - 1];
      OfPathMembers(init, path);
      assert infos == init + [infos[|infos| - 1]];
      if exists i :: 0 <= i < |init| && init[i].filePath == path {
        var i :| 0 <= i < |init| && init[i].filePath == path;
        assert infos[i] == init[i];
      }
      if exists i :: 0 <= i < |infos| && infos[i].filePath == path {
        var i :| 0 <= i < |infos| && infos[i].filePath == path;
        if i < |init| {
          assert infos[i] == init[i];
        }
      }
    }
  }

  /** The records read are exactly those of the lines that yield one. */
  lemma {:induction false} DiagnosticsMembers(parse: string -> Option<ImportInfo>, lines: seq<string>, x: ImportInfo)
    ensures x in Diagnostics(parse, lines) <==> exists l :: l in lines && parse(l) == Some(x)
  {
    if lines != [] {
      var init := lines[..|lines| - 1];
      DiagnosticsMembers(parse, init, x);
      assert lines == init + [lines[|lines| - 1]];
    }
  }
}

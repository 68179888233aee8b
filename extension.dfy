/**
 * src/extension.ts: the older copies of the keyword function, the header
 * scanner, the insertion of an import line and the index build.
 *
 * The older scanner (readFileImports), the older build (buildImportIndex,
 * findKotlinKeywordImports) and the older getIndex run the same loops as
 * the newer ones. FileImports.IndexFileImports and the ImportIndex methods
 * take the keyword function as a parameter, so they model these copies
 * when given LegacyKeyword. Two things differ:
 * - the older keyword function has no fallback for a line without a dot,
 *   so a bare `import X` line is never indexed;
 * - the older addImportToFile never updates the best similarity, so it
 *   inserts after the last import line, and it inserts no empty line when
 *   the file has no import.
 */
module Extension {
  import opened Wrappers
  import opened Text
  import opened Records
  import opened FileImports

  // ---------------------------------------------------------------------------
  // getImportStringKeyword

  /** getImportStringKeyword (older copy): the text after the last dot, and nothing when there is no dot. */
  function LegacyKeyword(s: string): Option<string>
  {
    var dot := LastIndexOf(s, '.');
    if dot == -1 then None else Some(s[dot + 1..])
  }

  /**
   * The older keyword exists exactly when the string has a dot; it is then
   * what follows the last dot, as in the newer copy. Without a dot the two
   * differ exactly on lines starting with `import `.
   */
  lemma LegacyKeywordSpec(s: string)
    ensures LegacyKeyword(s).Some? <==> '.' in s
    ensures LegacyKeyword(s).Some? ==> AfterLastDot(s, LegacyKeyword(s).value)
    ensures '.' in s ==> LegacyKeyword(s) == ImportStringKeyword(s)
    ensures '.' !in s ==> (LegacyKeyword(s) != ImportStringKeyword(s) <==> StartsWith(s, "import "))
  {
    LastIndexOfSpec(s, '.');
    ImportStringKeywordSpec(s);
  }

  // ---------------------------------------------------------------------------
  // readFileImports

  /**
   * readFileImports: the loop of indexFileImports with the older keyword
   * function. It keeps the old lines of each keyword and adds the header's
   * import lines with that keyword, each once.
   */
  method ReadFileImports(file: seq<string>, imports: Index, keyword: Option<string>) returns (updated: Index)
    ensures updated == Scan(LegacyKeyword, file, imports, keyword)
  {
    updated := IndexFileImports(LegacyKeyword, file, imports, keyword);
  }

  /**
   * A bare `import X` line is an import line for the scan (it opens the
   * import section) but the older scanner never records it: everything it
   * adds has a dot. The newer scanner records it under `X`.
   */
  lemma BareImportNeverIndexed(file: seq<string>, index: Index, filter: Option<string>, k: string, l: string)
    requires IndexValid(index)
    ensures StartsWith(l, "import ") ==> KindOf(l) == ImportLine || KindOf(l) == Skipped
    ensures l in Lookup(Scan(LegacyKeyword, file, index, filter), k) && l !in Lookup(index, k) ==> '.' in l
    ensures StartsWith(l, "import ") && '.' !in l && l in HeaderImports(file) && Accepts(filter, l[7..])
            ==> l in Lookup(Scan(ImportStringKeyword, file, index, filter), l[7..])
  {
    ScanResult(LegacyKeyword, file, index, filter, k);
    LegacyKeywordSpec(l);
    if StartsWith(l, "import ") && '.' !in l {
      ImportStringKeywordSpec(l);
      ScanResult(ImportStringKeyword, file, index, filter, l[7..]);
    }
  }

  // ---------------------------------------------------------------------------
  // addImportToFile

  /** The last line among the first `n` whose trimmed text starts with `import `, or -1. */
  function LastImportLine(file: seq<string>, n: nat): (c: int)
    requires n <= |file|
    ensures -1 <= c < n
  {
    if n == 0 then -1
    else if IsImportText(file[n - 1]) then n - 1
    else LastImportLine(file, n - 1)
  }

  /** LastImportLine is -1 exactly when no line is an import line, and otherwise the last one. */
  lemma {:induction false} LastImportLineSpec(file: seq<string>, n: nat)
    requires n <= |file|
    ensures LastImportLine(file, n) == -1 <==> forall j :: 0 <= j < n ==> !IsImportText(file[j])
    ensures LastImportLine(file, n) >= 0 ==> IsImportText(file[LastImportLine(file, n)])
    ensures forall j :: LastImportLine(file, n) < j < n ==> !IsImportText(file[j])
  {
    if n > 0 && !IsImportText(file[n - 1]) {
      LastImportLineSpec(file, n - 1);
    }
  }

  /**
   * The newer copy's choice is never after the older one's: both find an
   * import line exactly when there is one, and the closest import is at or
   * before the last.
   */
  lemma ClosestNotAfterLast(file: seq<string>, importLine: string, n: nat)
    requires n <= |file|
    ensures ClosestImport(file, importLine, n) == -1 <==> LastImportLine(file, n) == -1
    ensures ClosestImport(file, importLine, n) <= LastImportLine(file, n)
  {
    ClosestImportSpec(file, importLine, n);
    LastImportLineSpec(file, n);
  }

  /** One iteration of the older search loop. */
  lemma LegacySearchStep(file: seq<string>, i: nat)
    requires i < |file|
    ensures FirstPackageLine(file, i + 1)
         == if !IsImportText(file[i]) && IsPackageText(file[i]) && FirstPackageLine(file, i) == -1 then i
            else FirstPackageLine(file, i)
    ensures LastImportLine(file, i + 1) == if IsImportText(file[i]) then i else LastImportLine(file, i)
  {
    ImportIsNotPackage(file[i]);
  }

  /**
   * The search loop of the older addImportToFile: the first package line,
   * and the import line chosen by `similarity >= closest_import_similarity`
   * with the best similarity left at 0, that is, the last import line.
   */
  method LegacyFindInsertionPoint(file: seq<string>, importLine: string)
    returns (packageIndex: int, closestImportIndex: int)
    ensures packageIndex == FirstPackageLine(file, |file|)
    ensures closestImportIndex == LastImportLine(file, |file|)
  {
    var importParts := Split(SubstringFrom(Trim(importLine), 7), '.');
    packageIndex := -1;
    closestImportIndex := -1;
    var closestImportSimilarity := 0;
    var i := 0;
    while i < |file|
      invariant 0 <= i <= |file|
      invariant packageIndex == FirstPackageLine(file, i)
      invariant closestImportIndex == LastImportLine(file, i)
      invariant closestImportSimilarity == 0
    {
      var line := Trim(file[i]);
      LegacySearchStep(file, i);
      if !StartsWith(line, "import ") {
        if StartsWith(line, "package ") && packageIndex == -1 {
          packageIndex := i;
        }
        i := i + 1;
        continue;
      }
      var parts := Split(SubstringFrom(line, 7), '.');
      var similarity := CountSimilarity(parts, importParts);
      if similarity >= closestImportSimilarity {
        closestImportIndex := i;
      }
      i := i + 1;
    }
  }

  /**
   * addImportToFile (older copy): when the exact line is already among the
   * header's imports (found under its older keyword), reports false and
   * leaves the file alone; otherwise inserts the line after the last import
   * line, or, when the file has none, after the first package line (at the
   * top when there is none), with no empty line before it.
   */
  method LegacyAddImportToFile(file: seq<string>, importLine: string) returns (added: bool, edited: seq<string>)
    ensures !added <==> '.' in importLine && importLine in HeaderImports(file)
    ensures !added ==> edited == file
    ensures added && LastImportLine(file, |file|) >= 0 ==>
      edited == InsertText(file, LastImportLine(file, |file|) + 1, [importLine, ""])
    ensures added && LastImportLine(file, |file|) == -1 ==>
      edited == InsertText(file, FirstPackageLine(file, |file|) + 1, [importLine, ""])
  {
    var keyword := LegacyKeyword(importLine);
    var index := ReadFileImports(file, EmptyRecord(), keyword);
    var keywordImports := index.Get(PropertyKey(keyword));
    AlreadyPresentInHeader(LegacyKeyword, file, importLine);
    LegacyKeywordSpec(importLine);
    if keywordImports.Some? && importLine in keywordImports.value {
      return false, file;
    }
    var packageIndex, closestImportIndex := LegacyFindInsertionPoint(file, importLine);
    var insertionIndex := if closestImportIndex == -1 then packageIndex else closestImportIndex;
    added, edited := true, InsertText(file, insertionIndex + 1, [importLine, ""]);
  }

  // ---------------------------------------------------------------------------
  // The older choice of insertion point, on an example

  /** The path parts of `import a.b.c` for dot-free parts. */
  lemma PathPartsOfThree(line: string, a: string, b: string, c: string)
    requires line == "import " + a + "." + b + "." + c
    requires a != [] && c != [] && !IsSpace(c[|c| - 1]) && '.' !in a && '.' !in b && '.' !in c
    ensures PathParts(line) == [a, b, c]
    ensures IsImportText(line)
  {
    assert line[0] == 'i';
    TrimUnspaced(line);
    assert SubstringFrom(line, 7) == a + ['.'] + (b + ['.'] + c);
    SplitNoSeparator(c, '.');
    SplitAtFirst(b, c, '.');
    SplitAtFirst(a, b + "." + c, '.');
  }

  /** The path parts of `import a.b` for dot-free parts. */
  lemma PathPartsOfTwo(line: string, a: string, b: string)
    requires line == "import " + a + "." + b
    requires a != [] && b != [] && !IsSpace(b[|b| - 1]) && '.' !in a && '.' !in b
    ensures PathParts(line) == [a, b]
    ensures IsImportText(line)
  {
    assert line[0] == 'i';
    TrimUnspaced(line);
    assert SubstringFrom(line, 7) == a + ['.'] + b;
    SplitNoSeparator(b, '.');
    SplitAtFirst(a, b, '.');
  }

  /**
   * Adding `import a.b.D` to a file holding `import a.b.C` and then
   * `import x.Y`: the newer copy inserts it after `import a.b.C` (line 0),
   * its closest relative; the older copy inserts it after `import x.Y`
   * (line 1), the last import line.
   */
  lemma LegacyInsertionExample(file: seq<string>, importLine: string)
    requires file == ["import a.b.C", "import x.Y"] && importLine == "import a.b.D"
    ensures ClosestImport(file, importLine, 2) == 0
    ensures LastImportLine(file, 2) == 1
  {
    var scores := Scores(file, importLine);
    ExampleScores(file, importLine);
    assert LastBest(scores, 0) == -1;
    assert LastBest(scores, 1) == 0;
    assert LastBest(scores, 2) == 0;
  }

  /** The similarities in LegacyInsertionExample: two leading parts shared with the first line, none with the second. */
  lemma ExampleScores(file: seq<string>, importLine: string)
    requires file == ["import a.b.C", "import x.Y"] && importLine == "import a.b.D"
    ensures Scores(file, importLine)[0] == 2 && Scores(file, importLine)[1] == 0
  {
    assert file[0] == "import " + "a" + "." + "b" + "." + "C";
    assert file[1] == "import " + "x" + "." + "Y";
    assert importLine == "import " + "a" + "." + "b" + "." + "D";
    SharedTwoParts(file[0], importLine, "a", "b", "C", "D");
    SharedNoPart(file[1], importLine, "x", "Y", "a", "b", "D");
  }

  /** `import a.b.c` shares two path parts with `import a.b.d` when `c` and `d` differ. */
  lemma SharedTwoParts(line: string, importLine: string, a: string, b: string, c: string, d: string)
    requires line == "import " + a + "." + b + "." + c && importLine == "import " + a + "." + b + "." + d
    requires a != [] && c != [] && d != [] && !IsSpace(c[|c| - 1]) && !IsSpace(d[|d| - 1])
    requires '.' !in a && '.' !in b && '.' !in c && '.' !in d && c != d
    ensures LineScore(line, importLine) == 2
  {
    PathPartsOfThree(line, a, b, c);
    PathPartsOfThree(importLine, a, b, d);
    assert [a, b, c][..2] == [a, b, d][..2];
    CommonPrefixUnique([a, b, c], [a, b, d], 2);
  }

  /** `import x.y` shares no path part with `import a.b.d` when `x` and `a` differ. */
  lemma SharedNoPart(line: string, importLine: string, x: string, y: string, a: string, b: string, d: string)
    requires line == "import " + x + "." + y && importLine == "import " + a + "." + b + "." + d
    requires x != [] && y != [] && !IsSpace(y[|y| - 1]) && '.' !in x && '.' !in y
    requires a != [] && d != [] && !IsSpace(d[|d| - 1]) && '.' !in a && '.' !in b && '.' !in d && x != a
    ensures LineScore(line, importLine) == 0
  {
    PathPartsOfTwo(line, x, y);
    PathPartsOfThree(importLine, a, b, d);
    CommonPrefixUnique([x, y], [a, b, d], 0);
  }
}

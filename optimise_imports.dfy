/**
 * src/command/optimiseImportsCommand.ts: the helpers of the "optimise
 * imports" command. Sorting puts import lines in the default order of
 * `Array.prototype.sort`; optimising also collapses the lines of a package
 * that has two or more imports into one wildcard import `pkg.*`.
 *
 * Here a line's "package" is what getImportLinePackage returns: the trimmed
 * text before its last dot (for `import a.b.C`, that is `import a.b`). A
 * line without a dot is its own package, and such a line is never grouped.
 */
module OptimiseImports {
  import opened Wrappers
  import opened Text
  import opened Lex
  import opened Records

  // ---------------------------------------------------------------------------
  // sortImportLines

  /**
   * sortImportLines: `lines.sort()`, which sorts the array in place. The
   * result is Sort of the old contents: sorted, and a permutation of them.
   */
  method SortImportLines(lines: array<string>)
    modifies lines
    ensures lines[..] == Sort(old(lines[..]))
  {
    var i := 0;
    while i < lines.Length
      invariant 0 <= i <= lines.Length
      invariant Sorted(lines[..i])
      invariant multiset(lines[..]) == multiset(old(lines[..]))
    {
      InsertAt(lines, i);
      i := i + 1;
    }
    assert lines[..i] == lines[..];
    SortedPermutationUnique(lines[..], Sort(old(lines[..])));
  }

  /** Moves `a[i]` left, by swaps, past the elements of the sorted prefix that are greater. */
  method InsertAt(a: array<string>, i: nat)
    requires i < a.Length && Sorted(a[..i])
    modifies a
    ensures Sorted(a[..i + 1])
    ensures multiset(a[..]) == multiset(old(a[..]))
  {
    var j := i;
    InsertStart(a[..], i);
    while j > 0 && Less(a[j], a[j - 1])
      invariant 0 <= j <= i
      invariant multiset(a[..]) == multiset(old(a[..]))
      invariant Inserting(a[..], j, i)
    {
      ghost var s := a[..];
      SwapStep(s, j, i);
      a[j - 1], a[j] := a[j], a[j - 1];
      assert a[..] == Swap(s, j);
      j := j - 1;
    }
    SettledSorted(a[..], j, i);
  }

  /** `s` with the elements at `j - 1` and `j` exchanged. */
  function Swap(s: seq<string>, j: nat): (r: seq<string>)
    requires 0 < j < |s|
    ensures |r| == |s|
  {
    s[j - 1 := s[j]][j := s[j - 1]]
  }

  /**
   * While `s[j]` moves left through the first `i + 1` elements: the elements
   * before and after it are sorted, those after it are greater than it, and
   * those before it are no greater than those after it.
   */
  ghost predicate Inserting(s: seq<string>, j: nat, i: nat)
  {
    && j <= i < |s|
    && (forall k, m :: 0 <= k < m < j ==> LessOrEqual(s[k], s[m]))
    && (forall k, m :: j < k < m <= i ==> LessOrEqual(s[k], s[m]))
    && (forall k :: j < k <= i ==> Less(s[j], s[k]))
    && (forall k, m :: 0 <= k < j < m <= i ==> LessOrEqual(s[k], s[m]))
  }

  lemma InsertStart(s: seq<string>, i: nat)
    requires i < |s| && Sorted(s[..i])
    ensures Inserting(s, i, i)
  {
    forall k, m | 0 <= k < m < i ensures LessOrEqual(s[k], s[m]) {
      assert s[..i][k] == s[k] && s[..i][m] == s[m];
    }
  }

  lemma SwapStep(s: seq<string>, j: nat, i: nat)
    requires Inserting(s, j, i) && 0 < j && Less(s[j], s[j - 1])
    ensures Inserting(Swap(s, j), j - 1, i)
    ensures multiset(Swap(s, j)) == multiset(s)
  {
    SwapOrder(s, j, i);
    SwapPermutes(s, j);
  }

  /** Exchanging neighbours keeps the multiset of elements. */
  lemma SwapPermutes(s: seq<string>, j: nat)
    requires 0 < j < |s|
    ensures multiset(Swap(s, j)) == multiset(s)
  {
    var r := Swap(s, j);
    assert s == s[..j - 1] + [s[j - 1], s[j]] + s[j + 1..];
    assert r == s[..j - 1] + [s[j], s[j - 1]] + s[j + 1..];
  }

  /** Exchanging the moving element with a greater left neighbour moves it one place left. */
  lemma SwapOrder(s: seq<string>, j: nat, i: nat)
    requires Inserting(s, j, i) && 0 < j && Less(s[j], s[j - 1])
    ensures Inserting(Swap(s, j), j - 1, i)
  {
    var r := Swap(s, j);
    assert r[j - 1] == s[j] && r[j] == s[j - 1];
    forall k, m | j - 1 < k < m <= i ensures LessOrEqual(r[k], r[m]) {
      if k == j {
        assert LessOrEqual(s[j - 1], s[m]);
      }
    }
    forall k | j - 1 < k <= i ensures Less(r[j - 1], r[k]) {
      if k > j {
        assert Less(s[j], s[k]);
      }
    }
    forall k, m | 0 <= k < j - 1 < m <= i ensures LessOrEqual(r[k], r[m]) {
      if m == j {
        assert LessOrEqual(s[k], s[j - 1]);
      } else {
        assert LessOrEqual(s[k], s[m]);
      }
    }
  }

  /** Once the moving element is no less than its left neighbour, the first `i + 1` elements are sorted. */
  lemma SettledSorted(s: seq<string>, j: nat, i: nat)
    requires Inserting(s, j, i)
    requires j > 0 ==> !Less(s[j], s[j - 1])
    ensures Sorted(s[..i + 1])
  {
    forall k, m | 0 <= k < m <= i ensures LessOrEqual(s[k], s[m]) {
      if m == j && k < j {
        LessOrEqualTotal(s[j], s[j - 1]);
        if k < j - 1 {
          LessOrEqualTransitive(s[k], s[j - 1], s[j]);
        }
      } else if k == j {
        assert Less(s[j], s[m]);
      }
    }
    assert forall k :: 0 <= k <= i ==> s[..i + 1][k] == s[k];
  }

  // ---------------------------------------------------------------------------
  // getImportLinePackage

  /** getImportLinePackage: the trimmed text before the last dot, or the whole line without a dot. */
  function GetImportLinePackage(line: string): string
  {
    var lastDot := LastIndexOf(line, '.');
    if lastDot == -1 then line else Trim(Substring(line, 0, lastDot))
  }

  /**
   * A line is grouped when its package differs from the line itself (the
   * test optimiseImportLines makes). The grouping below is stated for any
   * package function; optimiseImportLines uses GetImportLinePackage.
   */
  predicate Grouped(packageOf: string -> string, line: string)
  {
    packageOf(line) != line
  }

  /** With getImportLinePackage, a line is grouped exactly when it has a dot. */
  lemma GroupedIffDot(line: string)
    ensures Grouped(GetImportLinePackage, line) <==> '.' in line
    ensures '.' in line ==> GetImportLinePackage(line) == Trim(line[..LastIndexOf(line, '.')])
  {
    var lastDot := LastIndexOf(line, '.');
    LastIndexOfSpec(line, '.');
    if lastDot != -1 {
      SubstringSpec(line, 0, lastDot);
      assert |Trim(line[..lastDot])| < |line|;
    }
  }

  /** Trimming a trimmed string changes nothing. */
  lemma TrimIdempotent(s: string)
    ensures Trim(Trim(s)) == Trim(s)
  {
    var r := Trim(s);
    TrimSpec(s);
    if r != [] {
      assert TrimStart(r) == r;
      assert TrimEnd(r) == r;
    }
  }

  /** The wildcard written for a dotted line is itself dotted, with the same package. */
  lemma WildcardPackage(line: string)
    requires '.' in line
    ensures var pkg := GetImportLinePackage(line);
      '.' in pkg + ".*" && GetImportLinePackage(pkg + ".*") == pkg
  {
    GroupedIffDot(line);
    var pkg := GetImportLinePackage(line);
    var w := pkg + ".*";
    assert w[|pkg|] == '.' && w[|pkg| + 1] == '*';
    var d := LastIndexOf(w, '.');
    LastIndexOfSpec(w, '.');
    assert d == |pkg|;
    GroupedIffDot(w);
    assert w[..d] == pkg;
    TrimIdempotent(line[..LastIndexOf(line, '.')]);
  }

  // ---------------------------------------------------------------------------
  // optimiseImportLines, step by step

  /** The state of optimiseImportLines: `found_lines` (each key says whether its package was seen again) and `out_lines`. */
  datatype Grouping = Grouping(found: Record<bool>, out: seq<string>)

  /**
   * The inner loop of optimiseImportLines after `j` of the `keys`: every
   * key with package `pkg` is marked as seen more than once.
   */
  function MarkUpTo(packageOf: string -> string, found: Record<bool>, keys: seq<string>, pkg: string, j: nat): Record<bool>
    requires j <= |keys|
  {
    if j == 0 then found
    else
      var f := MarkUpTo(packageOf, found, keys, pkg, j - 1);
      if packageOf(keys[j - 1]) == pkg then f.Set(keys[j - 1], true) else f
  }

  /** When no key has package `pkg`, the inner loop changes nothing. */
  lemma {:induction false} MarkUpToMiss(packageOf: string -> string, found: Record<bool>, keys: seq<string>, pkg: string, j: nat)
    requires j <= |keys|
    requires forall m :: 0 <= m < j ==> packageOf(keys[m]) != pkg
    ensures MarkUpTo(packageOf, found, keys, pkg, j) == found
  {
    if j > 0 {
      MarkUpToMiss(packageOf, found, keys, pkg, j - 1);
    }
  }

  /** One line of the outer loop of optimiseImportLines. */
  function GroupLine(packageOf: string -> string, g: Grouping, line: string): Grouping
  {
    var pkg := packageOf(line);
    if pkg == line then Grouping(g.found, g.out + [line])
    else if exists m :: 0 <= m < |g.found.keys| && packageOf(g.found.keys[m]) == pkg then
      Grouping(MarkUpTo(packageOf, g.found, g.found.keys, pkg, |g.found.keys|), g.out)
    else Grouping(g.found.Set(line, false), g.out)
  }

  /** The state after the first `n` (trimmed) lines. */
  function Collect(packageOf: string -> string, lines: seq<string>, n: nat): Grouping
    requires n <= |lines|
  {
    if n == 0 then Grouping(EmptyRecord(), [])
    else GroupLine(packageOf, Collect(packageOf, lines, n - 1), lines[n - 1])
  }

  /** The line written for one key of `found_lines`: the wildcard of its package when that package was seen again. */
  function Representative(packageOf: string -> string, line: string, multiple: bool): string
  {
    if multiple then
      var pkg := packageOf(line);
      if pkg == line then line else pkg + ".*"
    else line
  }

  /** The lines the second loop writes for the first `j` keys. */
  function Emitted(packageOf: string -> string, found: Record<bool>, j: nat): (r: seq<string>)
    requires j <= |found.keys|
    ensures |r| == j
    ensures forall m :: 0 <= m < j ==>
      r[m] == Representative(packageOf, found.keys[m], found.Get(found.keys[m]) == Some(true))
  {
    if j == 0 then []
    else
      Emitted(packageOf, found, j - 1)
      + [Representative(packageOf, found.keys[j - 1], found.Get(found.keys[j - 1]) == Some(true))]
  }

  /** The lines optimiseImportLines writes, before sorting them. */
  function Unsorted(lines: seq<string>): seq<string>
  {
    var trimmed := TrimAll(lines);
    var g := Collect(GetImportLinePackage, trimmed, |trimmed|);
    g.out + Emitted(GetImportLinePackage, g.found, |g.found.keys|)
  }

  /**
   * optimiseImportLines: trims the lines; a line without a dot goes straight
   * to the output; a dotted line marks the key of `found_lines` with the
   * same package, or becomes a new key when there is none. Then each key
   * is written, as the wildcard of its package when it was marked, and the
   * output is sorted.
   */
  method OptimiseImportLines(lines: seq<string>) returns (result: seq<string>)
    ensures result == Sort(Unsorted(lines))
  {
    var foundLines: Record<bool> := EmptyRecord();
    var outLines: seq<string> := [];
    var trimmed := TrimAll(lines);
    var i := 0;
    while i < |trimmed|
      invariant i <= |trimmed|
      invariant Grouping(foundLines, outLines) == Collect(GetImportLinePackage, trimmed, i)
    {
      foundLines, outLines := GroupImportLine(foundLines, outLines, trimmed[i]);
      i := i + 1;
    }
    outLines := WriteFoundLines(foundLines, outLines);
    var sorted := new string[|outLines|](m requires 0 <= m < |outLines| => outLines[m]);
    assert sorted[..] == outLines;
    SortImportLines(sorted);
    result := sorted[..];
  }

  /** The body of the first loop of optimiseImportLines, for one trimmed line. */
  method GroupImportLine(foundLines: Record<bool>, outLines: seq<string>, line: string)
    returns (foundLines': Record<bool>, outLines': seq<string>)
    ensures Grouping(foundLines', outLines') == GroupLine(GetImportLinePackage, Grouping(foundLines, outLines), line)
  {
    foundLines', outLines' := foundLines, outLines;
    var linePkg := GetImportLinePackage(line);
    if linePkg == line {
      outLines' := outLines' + [line];
      return;
    }
    var found;
    foundLines', found := MarkPackage(foundLines, linePkg);
    ghost var g := Grouping(foundLines, outLines);
    if found {
      var m :| 0 <= m < |foundLines.keys| && GetImportLinePackage(foundLines.keys[m]) == linePkg;
      var packageOf: string -> string := GetImportLinePackage;
      assert packageOf(g.found.keys[m]) == packageOf(line);
    } else {
      MarkUpToMiss(GetImportLinePackage, foundLines, foundLines.keys, linePkg, |foundLines.keys|);
      foundLines' := foundLines'.Set(line, false);
    }
  }

  /**
   * The inner loop over `found_lines`: marks every key whose package is
   * `linePkg`, and says whether there was one.
   */
  method MarkPackage(foundLines: Record<bool>, linePkg: string) returns (foundLines': Record<bool>, found: bool)
    ensures foundLines' == MarkUpTo(GetImportLinePackage, foundLines, foundLines.keys, linePkg, |foundLines.keys|)
    ensures found <==> exists m :: 0 <= m < |foundLines.keys| && GetImportLinePackage(foundLines.keys[m]) == linePkg
  {
    foundLines' := foundLines;
    found := false;
    var keys := foundLines.keys;
    var j := 0;
    while j < |keys|
      invariant j <= |keys|
      invariant foundLines' == MarkUpTo(GetImportLinePackage, foundLines, keys, linePkg, j)
      invariant found <==> exists m :: 0 <= m < j && GetImportLinePackage(keys[m]) == linePkg
    {
      var foundLine := keys[j];
      if GetImportLinePackage(foundLine) == linePkg {
        foundLines' := foundLines'.Set(foundLine, true);
        found := true;
      }
      j := j + 1;
    }
  }

  /** The second loop of optimiseImportLines: each key of `found_lines`, written as its representative. */
  method WriteFoundLines(foundLines: Record<bool>, outLines: seq<string>) returns (outLines': seq<string>)
    ensures outLines' == outLines + Emitted(GetImportLinePackage, foundLines, |foundLines.keys|)
  {
    outLines' := outLines;
    var keys := foundLines.keys;
    var k := 0;
    while k < |keys|
      invariant k <= |keys|
      invariant outLines' == outLines + Emitted(GetImportLinePackage, foundLines, k)
    {
      var line := keys[k];
      var multiple := foundLines.Get(line) == Some(true);
      if multiple {
        var pkg := GetImportLinePackage(line);
        if pkg == line {
          outLines' := outLines' + [line];
        } else {
          outLines' := outLines' + [pkg + ".*"];
        }
      } else {
        outLines' := outLines' + [line];
      }
      k := k + 1;
    }
  }

  // ---------------------------------------------------------------------------
  // What optimiseImportLines achieves

  /** The lines of `lines` that are not grouped, in order: the lines optimiseImportLines writes straight away. */
  function Undotted(packageOf: string -> string, lines: seq<string>): seq<string>
  {
    if lines == [] then []
    else
      var init := lines[..|lines| - 1];
      var last := lines[|lines| - 1];
      Undotted(packageOf, init) + (if Grouped(packageOf, last) then [] else [last])
  }

  /** How many grouped lines of `lines` have package `pkg`. */
  function Count(packageOf: string -> string, lines: seq<string>, pkg: string): nat
  {
    if lines == [] then 0
    else
      var init := lines[..|lines| - 1];
      var last := lines[|lines| - 1];
      Count(packageOf, init, pkg) + (if Grouped(packageOf, last) && packageOf(last) == pkg then 1 else 0)
  }

  /** The output holds the lines that are not grouped, and at most one entry (key or output line) was made per line. */
  ghost predicate OutInv(packageOf: string -> string, lines: seq<string>, g: Grouping)
  {
    g.out == Undotted(packageOf, lines) && |g.found.keys| + |g.out| <= |lines|
  }

  /** The keys are grouped lines seen so far. */
  ghost predicate KeysInv(packageOf: string -> string, lines: seq<string>, keys: seq<string>)
  {
    forall m :: 0 <= m < |keys| ==> keys[m] in lines && Grouped(packageOf, keys[m])
  }

  /** No two keys share a package. */
  ghost predicate DistinctInv(packageOf: string -> string, keys: seq<string>)
  {
    forall a, b :: 0 <= a < b < |keys| ==> packageOf(keys[a]) != packageOf(keys[b])
  }

  /** A key is marked exactly when its package has been seen on two or more lines. */
  ghost predicate MarksInv(packageOf: string -> string, lines: seq<string>, found: Record<bool>)
  {
    forall m :: 0 <= m < |found.keys| ==>
      found.keys[m] in found.values
      && (found.values[found.keys[m]] <==> Count(packageOf, lines, packageOf(found.keys[m])) >= 2)
  }

  /** Every package seen has a key. */
  ghost predicate CoverInv(packageOf: string -> string, lines: seq<string>, keys: seq<string>)
  {
    forall t :: t in lines && Grouped(packageOf, t) ==> exists m :: 0 <= m < |keys| && packageOf(keys[m]) == packageOf(t)
  }

  /** What the grouping state says about the lines seen so far. */
  ghost predicate GroupingInv(packageOf: string -> string, lines: seq<string>, g: Grouping)
  {
    && OutInv(packageOf, lines, g)
    && KeysInv(packageOf, lines, g.found.keys)
    && DistinctInv(packageOf, g.found.keys)
    && MarksInv(packageOf, lines, g.found)
    && CoverInv(packageOf, lines, g.found.keys)
  }

  lemma {:induction false} CountPositive(packageOf: string -> string, lines: seq<string>, t: string)
    requires t in lines && Grouped(packageOf, t)
    ensures Count(packageOf, lines, packageOf(t)) >= 1
  {
    var init := lines[..|lines| - 1];
    if t != lines[|lines| - 1] {
      assert lines == init + [lines[|lines| - 1]];
      CountPositive(packageOf, init, t);
    }
  }

  lemma {:induction false} CountWitness(packageOf: string -> string, lines: seq<string>, pkg: string)
    requires Count(packageOf, lines, pkg) >= 1
    ensures exists t :: t in lines && Grouped(packageOf, t) && packageOf(t) == pkg
  {
    var init := lines[..|lines| - 1];
    var last := lines[|lines| - 1];
    if !(Grouped(packageOf, last) && packageOf(last) == pkg) {
      CountWitness(packageOf, init, pkg);
      var t :| t in init && Grouped(packageOf, t) && packageOf(t) == pkg;
      assert lines == init + [last];
      assert t in lines;
    }
  }

  /** Two different grouped lines with the same package make that package's count at least two. */
  lemma {:induction false} CountTwo(packageOf: string -> string, lines: seq<string>, a: string, b: string)
    requires a in lines && b in lines && a != b && Grouped(packageOf, a) && Grouped(packageOf, b)
    requires packageOf(a) == packageOf(b)
    ensures Count(packageOf, lines, packageOf(a)) >= 2
  {
    var init := lines[..|lines| - 1];
    var last := lines[|lines| - 1];
    assert lines == init + [last];
    if last == a {
      CountPositive(packageOf, init, b);
    } else if last == b {
      CountPositive(packageOf, init, a);
    } else {
      CountTwo(packageOf, init, a, b);
    }
  }

  /** The inner loop leaves the keys alone and marks exactly the keys with package `pkg` among the first `j`. */
  lemma {:induction false} MarkUpToSpec(packageOf: string -> string, found: Record<bool>, pkg: string, j: nat)
    requires NoDuplicates(found.keys) && j <= |found.keys|
    requires forall m :: 0 <= m < |found.keys| ==> found.keys[m] in found.values
    ensures var r := MarkUpTo(packageOf, found, found.keys, pkg, j);
      && r.keys == found.keys && r.values.Keys == found.values.Keys
      && forall m :: 0 <= m < |found.keys| ==>
           r.values[found.keys[m]] == (found.values[found.keys[m]] || (m < j && packageOf(found.keys[m]) == pkg))
  {
    if j > 0 {
      MarkUpToSpec(packageOf, found, pkg, j - 1);
      var f := MarkUpTo(packageOf, found, found.keys, pkg, j - 1);
      var key := found.keys[j - 1];
      var r := MarkUpTo(packageOf, found, found.keys, pkg, j);
      var hit := packageOf(key) == pkg;
      assert r.values == if hit then f.values[key := true] else f.values;
      forall m | 0 <= m < |found.keys|
        ensures r.values[found.keys[m]] == (found.values[found.keys[m]] || (m < j && packageOf(found.keys[m]) == pkg))
      {
        var k := found.keys[m];
        if m != j - 1 {
          assert k != key;
          assert r.values[k] == f.values[k];
        } else {
          assert r.values[k] == (f.values[k] || hit);
        }
      }
    }
  }

  lemma CountSnoc(packageOf: string -> string, lines: seq<string>, line: string, pkg: string)
    ensures Count(packageOf, lines + [line], pkg)
         == Count(packageOf, lines, pkg) + (if Grouped(packageOf, line) && packageOf(line) == pkg then 1 else 0)
  {
    var p := lines + [line];
    assert p[..|p| - 1] == lines;
  }

  lemma StepUndotted(packageOf: string -> string, lines: seq<string>, g: Grouping, line: string)
    requires GroupingInv(packageOf, lines, g) && !Grouped(packageOf, line)
    ensures GroupingInv(packageOf, lines + [line], GroupLine(packageOf, g, line))
  {
    var p := lines + [line];
    assert p[..|p| - 1] == lines;
    forall q ensures Count(packageOf, p, q) == Count(packageOf, lines, q) {
      CountSnoc(packageOf, lines, line, q);
    }
  }

  /** Marking the key of a package seen again keeps the marks right. */
  lemma MatchedMarks(packageOf: string -> string, lines: seq<string>, f: Record<bool>, line: string, r: Record<bool>)
    requires MarksInv(packageOf, lines, f) && KeysInv(packageOf, lines, f.keys) && Grouped(packageOf, line)
    requires r.keys == f.keys && r.values.Keys == f.values.Keys
    requires forall m :: 0 <= m < |f.keys| ==>
      r.values[f.keys[m]] == (f.values[f.keys[m]] || packageOf(f.keys[m]) == packageOf(line))
    ensures MarksInv(packageOf, lines + [line], r)
  {
    var pkg := packageOf(line);
    forall m | 0 <= m < |r.keys|
      ensures r.keys[m] in r.values
      ensures (r.values[r.keys[m]] <==> Count(packageOf, lines + [line], packageOf(r.keys[m])) >= 2)
    {
      var k := f.keys[m];
      CountSnoc(packageOf, lines, line, packageOf(k));
      if packageOf(k) == pkg {
        CountPositive(packageOf, lines, k);
      }
    }
  }

  /** Keys with different packages are different keys. */
  lemma DistinctKeys(packageOf: string -> string, keys: seq<string>)
    requires DistinctInv(packageOf, keys)
    ensures NoDuplicates(keys)
  {
    forall a, b | 0 <= a < b < |keys| ensures keys[a] != keys[b] {
      assert packageOf(keys[a]) != packageOf(keys[b]);
    }
  }

  /** A line whose package already has a key leaves every package covered. */
  lemma MatchedCover(packageOf: string -> string, lines: seq<string>, keys: seq<string>, line: string, m0: nat)
    requires CoverInv(packageOf, lines, keys)
    requires m0 < |keys| && packageOf(keys[m0]) == packageOf(line)
    ensures CoverInv(packageOf, lines + [line], keys)
  {
    forall t | t in lines + [line] && Grouped(packageOf, t)
      ensures exists m :: 0 <= m < |keys| && packageOf(keys[m]) == packageOf(t)
    {
      if t == line {
        assert packageOf(keys[m0]) == packageOf(t);
      }
    }
  }

  /** The keys stay lines seen so far as more lines are seen. */
  lemma KeysStay(packageOf: string -> string, lines: seq<string>, keys: seq<string>, line: string)
    requires KeysInv(packageOf, lines, keys)
    ensures KeysInv(packageOf, lines + [line], keys)
  {
  }

  lemma StepMatched(packageOf: string -> string, lines: seq<string>, g: Grouping, line: string, m0: nat)
    requires GroupingInv(packageOf, lines, g) && Grouped(packageOf, line)
    requires m0 < |g.found.keys| && packageOf(g.found.keys[m0]) == packageOf(line)
    ensures GroupingInv(packageOf, lines + [line], GroupLine(packageOf, g, line))
  {
    var pkg := packageOf(line);
    var f := g.found;
    DistinctKeys(packageOf, f.keys);
    MarkUpToSpec(packageOf, f, pkg, |f.keys|);
    var r := MarkUpTo(packageOf, f, f.keys, pkg, |f.keys|);
    assert GroupLine(packageOf, g, line) == Grouping(r, g.out) by {
      assert 0 <= m0 < |g.found.keys| && packageOf(g.found.keys[m0]) == pkg;
    }
    MatchedMarks(packageOf, lines, f, line, r);
    KeysStay(packageOf, lines, f.keys, line);
    MatchedCover(packageOf, lines, f.keys, line, m0);
    var p := lines + [line];
    assert p[..|p| - 1] == lines;
  }

  /** A package without a key has not been seen. */
  lemma UnseenPackage(packageOf: string -> string, lines: seq<string>, keys: seq<string>, pkg: string)
    requires CoverInv(packageOf, lines, keys)
    requires forall m :: 0 <= m < |keys| ==> packageOf(keys[m]) != pkg
    ensures Count(packageOf, lines, pkg) == 0
  {
    if Count(packageOf, lines, pkg) >= 1 {
      CountWitness(packageOf, lines, pkg);
    }
  }

  /** A new key for an unseen package starts unmarked, and the other marks stay right. */
  lemma NewMarks(packageOf: string -> string, lines: seq<string>, f: Record<bool>, line: string)
    requires MarksInv(packageOf, lines, f) && Grouped(packageOf, line) && line !in f.keys
    requires Count(packageOf, lines, packageOf(line)) == 0
    requires forall m :: 0 <= m < |f.keys| ==> packageOf(f.keys[m]) != packageOf(line)
    ensures MarksInv(packageOf, lines + [line], f.Set(line, false))
  {
    var r := f.Set(line, false);
    forall m | 0 <= m < |r.keys|
      ensures r.keys[m] in r.values
      ensures (r.values[r.keys[m]] <==> Count(packageOf, lines + [line], packageOf(r.keys[m])) >= 2)
    {
      CountSnoc(packageOf, lines, line, packageOf(r.keys[m]));
      if m < |f.keys| {
        assert r.keys[m] == f.keys[m] && r.keys[m] != line;
      }
    }
  }

  /** A new key for an unseen package: the keys stay seen and grouped, and one per package. */
  lemma NewKeys(packageOf: string -> string, lines: seq<string>, keys: seq<string>, line: string)
    requires KeysInv(packageOf, lines, keys) && DistinctInv(packageOf, keys) && Grouped(packageOf, line)
    requires forall m :: 0 <= m < |keys| ==> packageOf(keys[m]) != packageOf(line)
    ensures KeysInv(packageOf, lines + [line], keys + [line])
    ensures DistinctInv(packageOf, keys + [line])
  {
  }

  /** A new key for the new line's package leaves every package covered. */
  lemma NewCover(packageOf: string -> string, lines: seq<string>, keys: seq<string>, line: string)
    requires CoverInv(packageOf, lines, keys)
    ensures CoverInv(packageOf, lines + [line], keys + [line])
  {
    var p, r := lines + [line], keys + [line];
    forall t | t in p && Grouped(packageOf, t) ensures exists m :: 0 <= m < |r| && packageOf(r[m]) == packageOf(t) {
      if t == line {
        assert r[|keys|] == line;
      } else {
        var m :| 0 <= m < |keys| && packageOf(keys[m]) == packageOf(t);
        assert r[m] == keys[m];
      }
    }
  }

  lemma StepNew(packageOf: string -> string, lines: seq<string>, g: Grouping, line: string)
    requires GroupingInv(packageOf, lines, g) && Grouped(packageOf, line)
    requires forall m :: 0 <= m < |g.found.keys| ==> packageOf(g.found.keys[m]) != packageOf(line)
    ensures GroupingInv(packageOf, lines + [line], GroupLine(packageOf, g, line))
  {
    var p := lines + [line];
    var f := g.found;
    assert line !in f.keys;
    var r := f.Set(line, false);
    assert GroupLine(packageOf, g, line) == Grouping(r, g.out);
    assert r.keys == f.keys + [line];
    UnseenPackage(packageOf, lines, f.keys, packageOf(line));
    NewMarks(packageOf, lines, f, line);
    NewKeys(packageOf, lines, f.keys, line);
    NewCover(packageOf, lines, f.keys, line);
    assert p[..|p| - 1] == lines;
  }

  /** The grouping state keeps its invariant line after line. */
  lemma {:induction false} CollectInv(packageOf: string -> string, lines: seq<string>, n: nat)
    requires n <= |lines|
    ensures GroupingInv(packageOf, lines[..n], Collect(packageOf, lines, n))
  {
    if n == 0 {
      assert lines[..0] == [];
    } else {
      CollectInv(packageOf, lines, n - 1);
      var g := Collect(packageOf, lines, n - 1);
      var line := lines[n - 1];
      assert lines[..n] == lines[..n - 1] + [line];
      if !Grouped(packageOf, line) {
        StepUndotted(packageOf, lines[..n - 1], g, line);
      } else if exists m :: 0 <= m < |g.found.keys| && packageOf(g.found.keys[m]) == packageOf(line) {
        var m :| 0 <= m < |g.found.keys| && packageOf(g.found.keys[m]) == packageOf(line);
        StepMatched(packageOf, lines[..n - 1], g, line, m);
      } else {
        StepNew(packageOf, lines[..n - 1], g, line);
      }
    }
  }

  /** A line is among the lines written straight away exactly when it is a line that is not grouped. */
  lemma {:induction false} UndottedMembers(packageOf: string -> string, lines: seq<string>, x: string)
    ensures x in Undotted(packageOf, lines) <==> x in lines && !Grouped(packageOf, x)
  {
    if lines != [] {
      var init := lines[..|lines| - 1];
      UndottedMembers(packageOf, init, x);
      assert lines == init + [lines[|lines| - 1]];
    }
  }

  /** The line written for key `m`: the wildcard of its package when that package is on two or more lines, else the key. */
  lemma EmittedEntry(packageOf: string -> string, lines: seq<string>, g: Grouping, m: nat)
    requires GroupingInv(packageOf, lines, g) && m < |g.found.keys|
    ensures var k := g.found.keys[m];
      Emitted(packageOf, g.found, |g.found.keys|)[m]
      == if Count(packageOf, lines, packageOf(k)) >= 2 then packageOf(k) + ".*" else k
  {
  }

  /**
   * What the grouping writes for `lines`, before sorting: at most one line
   * per input line; every line that is not grouped; for a grouped line,
   * the wildcard of its package when two or more lines share that package
   * and the line itself when it is alone; and nothing else.
   */
  lemma GroupingOutput(packageOf: string -> string, lines: seq<string>)
    ensures var g := Collect(packageOf, lines, |lines|);
      var u := g.out + Emitted(packageOf, g.found, |g.found.keys|);
      && |u| <= |lines|
      && (forall t :: t in lines && !Grouped(packageOf, t) ==> t in u)
      && (forall t :: t in lines && Grouped(packageOf, t) && Count(packageOf, lines, packageOf(t)) >= 2
            ==> packageOf(t) + ".*" in u)
      && (forall t :: t in lines && Grouped(packageOf, t) && Count(packageOf, lines, packageOf(t)) == 1 ==> t in u)
      && (forall x :: x in u ==>
            || (x in lines && !Grouped(packageOf, x))
            || (x in lines && Grouped(packageOf, x) && Count(packageOf, lines, packageOf(x)) == 1)
            || (exists t :: t in lines && Grouped(packageOf, t) && Count(packageOf, lines, packageOf(t)) >= 2
                            && x == packageOf(t) + ".*"))
  {
    var g := Collect(packageOf, lines, |lines|);
    var keys := g.found.keys;
    var e := Emitted(packageOf, g.found, |keys|);
    var u := g.out + e;
    CollectInv(packageOf, lines, |lines|);
    assert lines[..|lines|] == lines;
    forall t | t in lines && !Grouped(packageOf, t) ensures t in u {
      UndottedMembers(packageOf, lines, t);
    }
    forall t | t in lines && Grouped(packageOf, t) ensures Count(packageOf, lines, packageOf(t)) >= 2 ==> packageOf(t) + ".*" in u
      ensures Count(packageOf, lines, packageOf(t)) == 1 ==> t in u
    {
      var m :| 0 <= m < |keys| && packageOf(keys[m]) == packageOf(t);
      EmittedEntry(packageOf, lines, g, m);
      assert e[m] in u;
      if keys[m] != t {
        CountTwo(packageOf, lines, keys[m], t);
      }
    }
    forall x | x in u
      ensures || (x in lines && !Grouped(packageOf, x))
              || (x in lines && Grouped(packageOf, x) && Count(packageOf, lines, packageOf(x)) == 1)
              || (exists t :: t in lines && Grouped(packageOf, t) && Count(packageOf, lines, packageOf(t)) >= 2
                              && x == packageOf(t) + ".*")
    {
      if x in g.out {
        UndottedMembers(packageOf, lines, x);
      } else {
        var m :| 0 <= m < |e| && e[m] == x;
        var k := keys[m];
        EmittedEntry(packageOf, lines, g, m);
        CountPositive(packageOf, lines, k);
      }
    }
  }

  /** The wildcard written for a grouped line has that line's package. */
  ghost predicate WildcardKeepsPackage(packageOf: string -> string, t: string)
  {
    Grouped(packageOf, t) ==> packageOf(packageOf(t) + ".*") == packageOf(t)
  }

  /** The line written for a key has the key's package. */
  lemma EmittedPackage(packageOf: string -> string, lines: seq<string>, g: Grouping, m: nat)
    requires GroupingInv(packageOf, lines, g) && m < |g.found.keys|
    requires WildcardKeepsPackage(packageOf, g.found.keys[m])
    ensures packageOf(Emitted(packageOf, g.found, |g.found.keys|)[m]) == packageOf(g.found.keys[m])
  {
    EmittedEntry(packageOf, lines, g, m);
    assert Grouped(packageOf, g.found.keys[m]);
  }

  /** Ungrouped lines followed by one line per key, each with its key's package, share no package among the grouped ones. */
  lemma DistinctPackages(packageOf: string -> string, out: seq<string>, e: seq<string>, keys: seq<string>)
    requires |e| == |keys| && DistinctInv(packageOf, keys)
    requires forall x :: x in out ==> !Grouped(packageOf, x)
    requires forall m :: 0 <= m < |e| ==> packageOf(e[m]) == packageOf(keys[m])
    ensures var u := out + e;
      forall a, b :: 0 <= a < b < |u| && Grouped(packageOf, u[a]) && Grouped(packageOf, u[b]) ==> packageOf(u[a]) != packageOf(u[b])
  {
    var u := out + e;
    var n := |out|;
    forall a, b | 0 <= a < b < |u| && Grouped(packageOf, u[a]) && Grouped(packageOf, u[b])
      ensures packageOf(u[a]) != packageOf(u[b])
    {
      if n <= a {
        assert u[a] == e[a - n] && u[b] == e[b - n];
        assert packageOf(keys[a - n]) != packageOf(keys[b - n]);
      }
    }
  }

  /** The grouped lines written hold one line per package: no two of them share a package. */
  lemma OnePerPackage(packageOf: string -> string, lines: seq<string>)
    requires forall t :: WildcardKeepsPackage(packageOf, t)
    ensures var g := Collect(packageOf, lines, |lines|);
      var u := g.out + Emitted(packageOf, g.found, |g.found.keys|);
      forall a, b :: 0 <= a < b < |u| && Grouped(packageOf, u[a]) && Grouped(packageOf, u[b]) ==> packageOf(u[a]) != packageOf(u[b])
  {
    var g := Collect(packageOf, lines, |lines|);
    var keys := g.found.keys;
    var e := Emitted(packageOf, g.found, |keys|);
    CollectInv(packageOf, lines, |lines|);
    assert lines[..|lines|] == lines;
    forall x | x in g.out ensures !Grouped(packageOf, x) {
      UndottedMembers(packageOf, lines, x);
    }
    forall m | 0 <= m < |e| ensures packageOf(e[m]) == packageOf(keys[m]) {
      EmittedPackage(packageOf, lines, g, m);
    }
    DistinctPackages(packageOf, g.out, e, keys);
  }

  /** The wildcard of a dotted line has the line's package. */
  lemma WildcardsRegroup()
    ensures forall t :: WildcardKeepsPackage(GetImportLinePackage, t)
  {
    forall t ensures WildcardKeepsPackage(GetImportLinePackage, t) {
      GroupedIffDot(t);
      if '.' in t {
        WildcardPackage(t);
      }
    }
  }

  /**
   * What optimiseImportLines returns for `lines`, with `T` the trimmed lines
   * and a line's package the text before its last dot: the sorted
   * arrangement of at most one line per input line, holding every line of
   * `T` without a dot; for each package of the dotted lines of `T`, the
   * wildcard `package.*` when two or more lines have that package, else
   * that one line; nothing else; and no two dotted lines with one package.
   */
  lemma OptimiseImportLinesSpec(lines: seq<string>)
    ensures var T := TrimAll(lines);
      var P := GetImportLinePackage;
      var r := Sort(Unsorted(lines));
      && Sorted(r) && multiset(r) == multiset(Unsorted(lines))
      && |r| <= |lines|
      && (forall t :: t in T && '.' !in t ==> t in r)
      && (forall t :: t in T && '.' in t && Count(P, T, P(t)) >= 2 ==> P(t) + ".*" in r)
      && (forall t :: t in T && '.' in t && Count(P, T, P(t)) == 1 ==> t in r)
      && (forall x :: x in r ==>
            || (x in T && '.' !in x)
            || (x in T && '.' in x && Count(P, T, P(x)) == 1)
            || (exists t :: t in T && '.' in t && Count(P, T, P(t)) >= 2 && x == P(t) + ".*"))
      && (forall a, b :: 0 <= a < b < |Unsorted(lines)| && '.' in Unsorted(lines)[a] && '.' in Unsorted(lines)[b]
            ==> P(Unsorted(lines)[a]) != P(Unsorted(lines)[b]))
  {
    OptimisedContents(lines);
    OptimisedDistinct(lines);
  }

  /** The lines of the optimised list, against the trimmed input lines. */
  lemma OptimisedContents(lines: seq<string>)
    ensures var T := TrimAll(lines);
      var P := GetImportLinePackage;
      var r := Sort(Unsorted(lines));
      && (forall t :: t in T && '.' !in t ==> t in r)
      && (forall t :: t in T && '.' in t && Count(P, T, P(t)) >= 2 ==> P(t) + ".*" in r)
      && (forall t :: t in T && '.' in t && Count(P, T, P(t)) == 1 ==> t in r)
      && (forall x :: x in r ==>
            || (x in T && '.' !in x)
            || (x in T && '.' in x && Count(P, T, P(x)) == 1)
            || (exists t :: t in T && '.' in t && Count(P, T, P(t)) >= 2 && x == P(t) + ".*"))
  {
    var T := TrimAll(lines);
    var P := GetImportLinePackage;
    var u := Unsorted(lines);
    var r := Sort(u);
    GroupingOutput(P, T);
    WildcardsRegroup();
    forall x ensures x in r <==> x in u {
      assert x in r <==> x in multiset(r);
    }
    forall t ensures Grouped(P, t) <==> '.' in t {
      GroupedIffDot(t);
    }
  }

  /** The optimised list is sorted, at most as long as the input, and has one dotted line per package. */
  lemma OptimisedDistinct(lines: seq<string>)
    ensures var r := Sort(Unsorted(lines));
      && Sorted(r) && multiset(r) == multiset(Unsorted(lines))
      && |r| <= |lines|
      && (forall a, b :: 0 <= a < b < |Unsorted(lines)| && '.' in Unsorted(lines)[a] && '.' in Unsorted(lines)[b]
            ==> GetImportLinePackage(Unsorted(lines)[a]) != GetImportLinePackage(Unsorted(lines)[b]))
  {
    var T := TrimAll(lines);
    var P := GetImportLinePackage;
    GroupingOutput(P, T);
    WildcardsRegroup();
    OnePerPackage(P, T);
    forall t ensures Grouped(P, t) <==> '.' in t {
      GroupedIffDot(t);
    }
  }
}

/**
 * src/fileImports.ts: the keyword of an import line, the header scanner that
 * records a file's import lines in an index, and the insertion of a new
 * import line next to its closest relative.
 *
 * The scan rules are stated once (Scan, over any keyword function) so
 * that the older copy of the scanner in src/extension.ts can share them.
 */
module FileImports {
  import opened Wrappers
  import opened Text
  import opened Records

  // ---------------------------------------------------------------------------
  // Keywords

  /** `k` is exactly what follows the last dot of `s`. */
  predicate AfterLastDot(s: string, k: string)
  {
    |k| < |s| && s[|s| - |k| - 1] == '.' && s[|s| - |k|..] == k && '.' !in k
  }

  /**
   * getImportStringKeyword: the text after the last dot; a line without any
   * dot that starts with `import ` gives the rest of the line; anything else
   * has no keyword.
   */
  function ImportStringKeyword(s: string): (r: Option<string>)
  {
    var dot := LastIndexOf(s, '.');
    if dot == -1 then
      if StartsWith(s, "import ") then Some(s[7..]) else None
    else
      Some(s[dot + 1..])
  }

  /**
   * The keyword of a line with a dot is what follows its last dot; a line
   * without a dot has one exactly when it starts with `import `, and it is
   * the rest of the line.
   */
  lemma ImportStringKeywordSpec(s: string)
    ensures var r := ImportStringKeyword(s);
      && ('.' in s ==> r.Some? && AfterLastDot(s, r.value))
      && ('.' !in s ==> (r.Some? <==> StartsWith(s, "import ")))
      && ('.' !in s && r.Some? ==> s == "import " + r.value)
  {
    var dot := LastIndexOf(s, '.');
    LastIndexOfSpec(s, '.');
    if dot == -1 {
      if StartsWith(s, "import ") {
        assert s == s[..7] + s[7..];
      }
    } else {
      var k := s[dot + 1..];
      assert s[dot] == '.';
      assert |s| - |k| - 1 == dot;
      forall j | 0 <= j < |k| ensures k[j] != '.' {
        assert k[j] == s[dot + 1 + j];
      }
    }
  }

  /** The property name `record[keyword]` reads: JavaScript turns `null` into "null". */
  function PropertyKey(keyword: Option<string>): string
  {
    if keyword.Some? then keyword.value else "null"
  }

  // ---------------------------------------------------------------------------
  // The header scan

  /** How the scan treats a line (the untrimmed text, as the scanner reads it). */
  datatype LineKind = Skipped | ImportLine | Header | Body

  function KindOf(line: string): LineKind
  {
    if IsBlank(line) || StartsWith(TrimStart(line), "//") then Skipped
    else if StartsWith(line, "import ") then ImportLine
    else if StartsWith(line, "package") || StartsWith(line, "@") then Header
    else Body
  }

  /** A keyword passes the optional keyword filter. */
  predicate Accepts(filter: Option<string>, k: string)
  {
    filter.None? || filter.value == k
  }

  /** Adds `line` under `k` unless it is already there (creating the list if needed). */
  function AddLine(index: Index, k: string, line: string): Index
  {
    var lines := Lookup(index, k);
    if line in lines then index else index.Set(k, lines + [line])
  }

  /** What the scan does with one import line. */
  function RecordLine(kw: string -> Option<string>, index: Index, line: string, filter: Option<string>): Index
  {
    var k := kw(line);
    if k.None? || !Accepts(filter, k.value) then index else AddLine(index, k.value, line)
  }

  /** The kind of every line. */
  function Kinds(lines: seq<string>): (kinds: seq<LineKind>)
    ensures |kinds| == |lines|
    ensures forall j :: 0 <= j < |lines| ==> kinds[j] == KindOf(lines[j])
  {
    if lines == [] then [] else [KindOf(lines[0])] + Kinds(lines[1..])
  }

  /**
   * Where the scan started at line `i` stops: blank and comment lines are
   * passed over, an import line opens the import section, a package or
   * annotation line is passed over only before the section, and anything
   * else stops the scan.
   */
  function ScanEnd(kinds: seq<LineKind>, i: nat, inSection: bool): (e: nat)
    requires i <= |kinds|
    ensures i <= e <= |kinds|
    decreases |kinds| - i
  {
    if i == |kinds| then i
    else match kinds[i]
      case Skipped => ScanEnd(kinds, i + 1, inSection)
      case ImportLine => ScanEnd(kinds, i + 1, true)
      case Header => if inSection then i else ScanEnd(kinds, i + 1, false)
      case Body => i
  }

  /** The number of lines the scanner examines: the file's header. */
  function HeaderEnd(lines: seq<string>): (e: nat)
    ensures e <= |lines|
  {
    ScanEnd(Kinds(lines), 0, false)
  }

  /** The import lines among `lines`, in order. */
  function ImportLinesOf(lines: seq<string>): (r: seq<string>)
    ensures |r| <= |lines|
  {
    if lines == [] then []
    else
      (if KindOf(lines[0]) == ImportLine then [lines[0]] else []) + ImportLinesOf(lines[1..])
  }

  /** ImportLinesOf keeps exactly the import lines. */
  lemma {:induction false} ImportLinesOfMembers(lines: seq<string>)
    ensures forall l :: l in ImportLinesOf(lines) <==> l in lines && KindOf(l) == ImportLine
  {
    if lines != [] {
      ImportLinesOfMembers(lines[1..]);
      assert lines == [lines[0]] + lines[1..];
    }
  }

  /** The import lines of the header, in file order. */
  function HeaderImports(lines: seq<string>): seq<string>
  {
    ImportLinesOf(lines[..HeaderEnd(lines)])
  }

  /** Records each of `lines` in turn. */
  function RecordAll(kw: string -> Option<string>, index: Index, lines: seq<string>, filter: Option<string>): Index
    decreases |lines|
  {
    if lines == [] then index
    else RecordAll(kw, RecordLine(kw, index, lines[0], filter), lines[1..], filter)
  }

  /** What scanning a file does to an index: it records the header's import lines, in order. */
  function Scan(kw: string -> Option<string>, lines: seq<string>, index: Index, filter: Option<string>): Index
  {
    RecordAll(kw, index, HeaderImports(lines), filter)
  }

  /** The lines of `lines` that the scan files under keyword `k`. */
  function Selected(kw: string -> Option<string>, lines: seq<string>, filter: Option<string>, k: string): (r: seq<string>)
    ensures |r| <= |lines|
  {
    if lines == [] then []
    else
      (if kw(lines[0]) == Some(k) && Accepts(filter, k) then [lines[0]] else [])
      + Selected(kw, lines[1..], filter, k)
  }

  /** Selected keeps exactly the lines filed under `k`. */
  lemma {:induction false} SelectedMembers(kw: string -> Option<string>, lines: seq<string>, filter: Option<string>, k: string)
    ensures forall l :: l in Selected(kw, lines, filter, k) <==> l in lines && kw(l) == Some(k) && Accepts(filter, k)
  {
    if lines != [] {
      SelectedMembers(kw, lines[1..], filter, k);
      assert lines == [lines[0]] + lines[1..];
    }
  }

  /** `list` followed by the lines of `more` it does not hold yet, first occurrence first. */
  function AppendNew(list: seq<string>, more: seq<string>): seq<string>
    decreases |more|
  {
    if more == [] then list
    else AppendNew(if more[0] in list then list else list + [more[0]], more[1..])
  }

  lemma {:induction false} AppendNewProperties(list: seq<string>, more: seq<string>)
    ensures |AppendNew(list, more)| >= |list| && AppendNew(list, more)[..|list|] == list
    ensures forall l :: l in AppendNew(list, more) <==> l in list || l in more
    ensures NoDuplicates(list) ==> NoDuplicates(AppendNew(list, more))
    decreases |more|
  {
    if more != [] {
      var next := if more[0] in list then list else list + [more[0]];
      AppendNewProperties(next, more[1..]);
      assert more == [more[0]] + more[1..];
      if NoDuplicates(list) && more[0] !in list {
        assert NoDuplicates(next);
      }
    }
  }

  /** Some line in kinds[i..j] is an import line. */
  predicate ImportBetween(kinds: seq<LineKind>, i: nat, j: nat)
    requires i <= j <= |kinds|
  {
    exists m :: i <= m < j && kinds[m] == ImportLine
  }

  /** Before the scan stops it meets no body line, and no package or annotation line after an import. */
  lemma {:induction false} ScanEndContinues(kinds: seq<LineKind>, i: nat, inSection: bool, j: nat)
    requires i <= j && i <= |kinds| && j < ScanEnd(kinds, i, inSection)
    ensures kinds[j] != Body
    ensures kinds[j] == Header ==> !inSection && !ImportBetween(kinds, i, j)
    decreases |kinds| - i
  {
    if i < j {
      match kinds[i]
      case Skipped => ScanEndContinues(kinds, i + 1, inSection, j);
      case ImportLine => ScanEndContinues(kinds, i + 1, true, j);
      case Header => ScanEndContinues(kinds, i + 1, false, j);
      case Body =>
    }
  }

  /** The scan stops at a body line, or at a package or annotation line after an import. */
  lemma {:induction false} ScanEndStops(kinds: seq<LineKind>, i: nat, inSection: bool)
    requires i <= |kinds|
    requires ScanEnd(kinds, i, inSection) < |kinds|
    ensures var e := ScanEnd(kinds, i, inSection);
      kinds[e] == Body || (kinds[e] == Header && (inSection || ImportBetween(kinds, i, e)))
    decreases |kinds| - i
  {
    var e := ScanEnd(kinds, i, inSection);
    if i < e {
      match kinds[i]
      case Skipped => ScanEndStops(kinds, i + 1, inSection);
      case ImportLine =>
        ScanEndStops(kinds, i + 1, true);
        assert ImportBetween(kinds, i, e);
      case Header => ScanEndStops(kinds, i + 1, false);
      case Body =>
    }
  }

  /**
   * The section rule: the header holds no body line and no package or
   * annotation line after an import; the line that ends it, if any, is a
   * body line or a package or annotation line after an import.
   */
  lemma HeaderRule(lines: seq<string>)
    ensures forall j :: 0 <= j < HeaderEnd(lines) ==> KindOf(lines[j]) != Body
    ensures forall j :: 0 <= j < HeaderEnd(lines) && KindOf(lines[j]) == Header ==>
      forall m :: 0 <= m < j ==> KindOf(lines[m]) != ImportLine
    ensures HeaderEnd(lines) < |lines| ==>
      KindOf(lines[HeaderEnd(lines)]) == Body ||
      (KindOf(lines[HeaderEnd(lines)]) == Header &&
       exists m :: 0 <= m < HeaderEnd(lines) && KindOf(lines[m]) == ImportLine)
  {
    var kinds := Kinds(lines);
    forall j | 0 <= j < HeaderEnd(lines)
      ensures KindOf(lines[j]) != Body
      ensures KindOf(lines[j]) == Header ==> forall m :: 0 <= m < j ==> KindOf(lines[m]) != ImportLine
    {
      ScanEndContinues(kinds, 0, false, j);
    }
    if HeaderEnd(lines) < |lines| {
      ScanEndStops(kinds, 0, false);
    }
  }

  /** Each keyword's list grows on its own: by the new lines filed under that keyword, in order. */
  lemma {:induction false} RecordAllPerKeyword(kw: string -> Option<string>, index: Index, lines: seq<string>,
                                               filter: Option<string>, k: string)
    ensures Lookup(RecordAll(kw, index, lines, filter), k) == AppendNew(Lookup(index, k), Selected(kw, lines, filter, k))
    ensures k in RecordAll(kw, index, lines, filter).values <==> k in index.values || Selected(kw, lines, filter, k) != []
    decreases |lines|
  {
    if lines != [] {
      var next := RecordLine(kw, index, lines[0], filter);
      RecordAllPerKeyword(kw, next, lines[1..], filter, k);
      var sel := kw(lines[0]) == Some(k) && Accepts(filter, k);
      if sel {
        assert Lookup(next, k) == if lines[0] in Lookup(index, k) then Lookup(index, k) else Lookup(index, k) + [lines[0]];
        assert Selected(kw, lines, filter, k) == [lines[0]] + Selected(kw, lines[1..], filter, k);
      } else {
        assert Lookup(next, k) == Lookup(index, k);
        assert k in next.values <==> k in index.values;
        assert Selected(kw, lines, filter, k) == Selected(kw, lines[1..], filter, k);
      }
    }
  }

  /** Recording one line keeps a valid index valid, and keeps the old keywords first and in their order. */
  lemma RecordLineValid(kw: string -> Option<string>, index: Index, line: string, filter: Option<string>)
    requires IndexValid(index)
    ensures var r := RecordLine(kw, index, line, filter);
      IndexValid(r) && index.keys <= r.keys
  {
    var k := kw(line);
    if k.Some? && Accepts(filter, k.value) && line !in Lookup(index, k.value) {
      index.SetValid(k.value, Lookup(index, k.value) + [line]);
      AppendNewProperties(Lookup(index, k.value), [line]);
      assert AppendNew(Lookup(index, k.value), [line]) == Lookup(index, k.value) + [line];
    }
  }

  /** Recording keeps a valid index valid, and keeps the old keywords first and in their order. */
  lemma {:induction false} RecordAllValid(kw: string -> Option<string>, index: Index, lines: seq<string>,
                                          filter: Option<string>)
    requires IndexValid(index)
    ensures var r := RecordAll(kw, index, lines, filter);
      IndexValid(r) && index.keys <= r.keys
    decreases |lines|
  {
    if lines != [] {
      var next := RecordLine(kw, index, lines[0], filter);
      RecordLineValid(kw, index, lines[0], filter);
      RecordAllValid(kw, next, lines[1..], filter);
    }
  }

  /**
   * What a scan leaves in the index: under keyword `k`, the old lines
   * followed by the header's new import lines filed under `k`, in file
   * order and without repetition.
   */
  lemma ScanResult(kw: string -> Option<string>, lines: seq<string>, index: Index, filter: Option<string>, k: string)
    requires IndexValid(index)
    ensures var r := Scan(kw, lines, index, filter);
      && IndexValid(r)
      && index.keys <= r.keys
      && Lookup(r, k) == AppendNew(Lookup(index, k), Selected(kw, HeaderImports(lines), filter, k))
      && (forall l :: l in Lookup(r, k) <==>
            l in Lookup(index, k) || (l in HeaderImports(lines) && kw(l) == Some(k) && Accepts(filter, k)))
  {
    RecordAllPerKeyword(kw, index, HeaderImports(lines), filter, k);
    RecordAllValid(kw, index, HeaderImports(lines), filter);
    AppendNewProperties(Lookup(index, k), Selected(kw, HeaderImports(lines), filter, k));
    SelectedMembers(kw, HeaderImports(lines), filter, k);
  }

  /** Recording lines that are all present already changes nothing. */
  lemma {:induction false} RecordAllPresent(kw: string -> Option<string>, index: Index, lines: seq<string>,
                                            filter: Option<string>)
    requires forall l :: l in lines && kw(l).Some? && Accepts(filter, kw(l).value) ==> l in Lookup(index, kw(l).value)
    ensures RecordAll(kw, index, lines, filter) == index
    decreases |lines|
  {
    if lines != [] {
      assert RecordLine(kw, index, lines[0], filter) == index;
      RecordAllPresent(kw, index, lines[1..], filter);
    }
  }

  /** Scanning the same file a second time adds nothing. */
  lemma ScanIdempotent(kw: string -> Option<string>, lines: seq<string>, index: Index, filter: Option<string>)
    ensures Scan(kw, lines, Scan(kw, lines, index, filter), filter) == Scan(kw, lines, index, filter)
  {
    var h := HeaderImports(lines);
    var once := RecordAll(kw, index, h, filter);
    forall l | l in h && kw(l).Some? && Accepts(filter, kw(l).value)
      ensures l in Lookup(once, kw(l).value)
    {
      RecordAllPerKeyword(kw, index, h, filter, kw(l).value);
      AppendNewProperties(Lookup(index, kw(l).value), Selected(kw, h, filter, kw(l).value));
      SelectedMembers(kw, h, filter, kw(l).value);
    }
    RecordAllPresent(kw, once, h, filter);
  }

  /** indexFileImports's update (create the keyword's list when missing, then push the line unless present) is AddLine. */
  lemma CreateThenPush(index: Index, k: string, line: string)
    ensures var created := if k !in index.values then index.Set(k, []) else index;
      var list := created.values[k];
      (if line !in list then created.Set(k, list + [line]) else created) == AddLine(index, k, line)
  {
    if k !in index.values {
      var created := index.Set(k, []);
      assert created.Set(k, [line]).values == index.values[k := [line]];
    }
  }

  /** One step of the scan inside the header: the line is recorded if it is an import line. */
  lemma HeaderStep(file: seq<string>, i: nat, inSection: bool, end: nat)
    requires i <= |file| && end == ScanEnd(Kinds(file), i, inSection) && i < end
    ensures KindOf(file[i]) != Body && !(inSection && KindOf(file[i]) == Header)
    ensures end == ScanEnd(Kinds(file), i + 1, inSection || KindOf(file[i]) == ImportLine)
    ensures ImportLinesOf(file[i..end])
         == (if KindOf(file[i]) == ImportLine then [file[i]] else []) + ImportLinesOf(file[i + 1..end])
  {
    assert file[i..end][0] == file[i] && file[i..end][1..] == file[i + 1..end];
  }

  /** Where the scan stops, the line is a body line, or a package or annotation line inside the section. */
  lemma HeaderStop(file: seq<string>, i: nat, inSection: bool)
    requires i < |file| && ScanEnd(Kinds(file), i, inSection) == i
    ensures KindOf(file[i]) == Body || (inSection && KindOf(file[i]) == Header)
  {
  }

  lemma RecordAllCons(kw: string -> Option<string>, index: Index, line: string, rest: seq<string>, filter: Option<string>)
    ensures RecordAll(kw, index, [line] + rest, filter) == RecordAll(kw, RecordLine(kw, index, line, filter), rest, filter)
  {
    assert ([line] + rest)[0] == line && ([line] + rest)[1..] == rest;
  }

  /**
   * The body of indexFileImports for one import line: unless its keyword is
   * missing or filtered out, the line is pushed onto its keyword's list
   * (created empty first if needed) when it is not there yet.
   */
  method RecordImportLine(kw: string -> Option<string>, imports: Index, line: string, keyword: Option<string>) returns (updated: Index)
    ensures updated == RecordLine(kw, imports, line, keyword)
  {
    updated := imports;
    var importKeyword := kw(line);
    if importKeyword.None? || (keyword.Some? && importKeyword.value != keyword.value) {
      return;
    }
    CreateThenPush(updated, importKeyword.value, line);
    if importKeyword.value !in updated.values {
      updated := updated.Set(importKeyword.value, []);
    }
    var keywordImports := updated.values[importKeyword.value];
    if line !in keywordImports {
      updated := updated.Set(importKeyword.value, keywordImports + [line]);
    }
  }

  /**
   * One step of indexFileImports at line `i` of a scan that stops at `end`:
   * the scan is at its end exactly when the line is a body line, or a package
   * or annotation line inside the section; otherwise what remains to record
   * is this line (if it is an import line) followed by the rest.
   */
  lemma ScanStep(kw: string -> Option<string>, file: seq<string>, i: nat, inSection: bool, end: nat, index: Index, keyword: Option<string>)
    requires i < |file| && i <= end && end == ScanEnd(Kinds(file), i, inSection)
    ensures var kind := KindOf(file[i]);
      && (i == end <==> kind == Body || (inSection && kind == Header))
      && (i < end ==> end == ScanEnd(Kinds(file), i + 1, inSection || kind == ImportLine))
      && (i < end ==> (
            RecordAll(kw, index, ImportLinesOf(file[i..end]), keyword)
         == RecordAll(kw,
                      if kind == ImportLine then RecordLine(kw, index, file[i], keyword) else index,
                      ImportLinesOf(file[i + 1..end]), keyword)))
  {
    if i < end {
      HeaderStep(file, i, inSection, end);
      if KindOf(file[i]) == ImportLine {
        RecordAllCons(kw, index, file[i], ImportLinesOf(file[i + 1..end]), keyword);
      } else {
        assert ImportLinesOf(file[i..end]) == ImportLinesOf(file[i + 1..end]);
      }
    } else {
      HeaderStop(file, i, inSection);
    }
  }

  /**
   * The scan from line `i` on, step by step as indexFileImports runs it: the
   * index the loop leaves when it starts at line `i` with this section flag
   * and this index.
   */
  ghost function ScanFrom(kw: string -> Option<string>, file: seq<string>, i: nat, inSection: bool, index: Index, filter: Option<string>): Index
    requires i <= |file|
    decreases |file| - i
  {
    if i == |file| then index
    else match KindOf(file[i])
      case Skipped => ScanFrom(kw, file, i + 1, inSection, index, filter)
      case ImportLine => ScanFrom(kw, file, i + 1, true, RecordLine(kw, index, file[i], filter), filter)
      case Header => if inSection then index else ScanFrom(kw, file, i + 1, false, index, filter)
      case Body => index
  }

  /** Running the loop from line `i` records the import lines between `i` and where the scan stops. */
  lemma {:induction false} ScanFromRecordsHeader(kw: string -> Option<string>, file: seq<string>, i: nat, inSection: bool, index: Index, filter: Option<string>)
    requires i <= |file|
    ensures var end := ScanEnd(Kinds(file), i, inSection);
      ScanFrom(kw, file, i, inSection, index, filter)
      == RecordAll(kw, index, ImportLinesOf(file[i..end]), filter)
    decreases |file| - i
  {
    var end := ScanEnd(Kinds(file), i, inSection);
    if i < end {
      ScanStep(kw, file, i, inSection, end, index, filter);
      var kind := KindOf(file[i]);
      var next := if kind == ImportLine then RecordLine(kw, index, file[i], filter) else index;
      ScanFromRecordsHeader(kw, file, i + 1, inSection || kind == ImportLine, next, filter);
    } else {
      if i < |file| {
        ScanStep(kw, file, i, inSection, end, index, filter);
      }
      assert file[i..end] == [];
    }
  }

  /**
   * indexFileImports: walks the file's lines and records its header's import
   * lines (only those with the given keyword, when one is given) in `imports`.
   * The keyword function is a parameter because the older copy of this loop,
   * readFileImports in src/extension.ts, differs only in that function.
   * Each line is classified once by KindOf, whose tests are the loop's own
   * tests in the loop's order.
   */
  method IndexFileImports(kw: string -> Option<string>, file: seq<string>, imports: Index, keyword: Option<string>) returns (updated: Index)
    ensures updated == Scan(kw, file, imports, keyword)
  {
    var inImportSection := false;
    var i := 0;
    updated := imports;
    while i < |file|
      invariant 0 <= i <= |file|
      invariant ScanFrom(kw, file, i, inImportSection, updated, keyword) == ScanFrom(kw, file, 0, false, imports, keyword)
    {
      var line := file[i];
      var kind := KindOf(line);
      if kind == Skipped {
        i := i + 1;
        continue;
      }
      if kind == ImportLine {
        inImportSection := true;
        updated := RecordImportLine(kw, updated, line, keyword);
      } else if inImportSection {
        break;
      } else if kind == Body {
        break;
      }
      i := i + 1;
    }
    ScanFromRecordsHeader(kw, file, 0, false, imports, keyword);
    assert file[0..HeaderEnd(file)] == file[..HeaderEnd(file)];
  }

  // ---------------------------------------------------------------------------
  // Insertion point

  /** The trimmed line starts with `import `: the insertion search trims every line. */
  predicate IsImportText(line: string)
  {
    StartsWith(Trim(line), "import ")
  }

  predicate IsPackageText(line: string)
  {
    StartsWith(Trim(line), "package ")
  }

  lemma ImportIsNotPackage(line: string)
    ensures IsImportText(line) ==> !IsPackageText(line)
  {
    var t := Trim(line);
    if IsImportText(line) {
      assert t[0] == t[..7][0] == 'i';
      assert |t| < 8 || t[..8][0] == 'i';
    }
  }

  /** The dot-separated parts of an import path: `substring(7).split(".")` of the trimmed line. */
  function PathParts(line: string): seq<string>
  {
    Split(SubstringFrom(Trim(line), 7), '.')
  }

  /** The number of leading parts two paths share. */
  function CommonPrefixLength(a: seq<string>, b: seq<string>): (n: nat)
    ensures n <= |a| && n <= |b|
  {
    if |a| == 0 || |b| == 0 || a[0] != b[0] then 0
    else 1 + CommonPrefixLength(a[1..], b[1..])
  }

  /** CommonPrefixLength is the length of a shared prefix that cannot be extended. */
  lemma {:induction false} CommonPrefixLengthSpec(a: seq<string>, b: seq<string>)
    ensures var n := CommonPrefixLength(a, b);
      a[..n] == b[..n] && (n < |a| && n < |b| ==> a[n] != b[n])
  {
    if |a| > 0 && |b| > 0 && a[0] == b[0] {
      CommonPrefixLengthSpec(a[1..], b[1..]);
      var n := CommonPrefixLength(a[1..], b[1..]);
      assert a[..n + 1] == [a[0]] + a[1..][..n];
      assert b[..n + 1] == [b[0]] + b[1..][..n];
    }
  }

  function Similarity(line: string, importLine: string): nat
  {
    CommonPrefixLength(PathParts(line), PathParts(importLine))
  }

  /** The similarity loop: counts leading equal parts, stopping at the first difference. */
  method CountSimilarity(parts: seq<string>, importParts: seq<string>) returns (similarity: nat)
    ensures similarity == CommonPrefixLength(parts, importParts)
  {
    similarity := 0;
    var j := 0;
    while j < |parts| && j < |importParts|
      invariant 0 <= j <= |parts| && j <= |importParts|
      invariant similarity == j
      invariant parts[..j] == importParts[..j]
    {
      if parts[j] == importParts[j] {
        similarity := similarity + 1;
      } else {
        break;
      }
      j := j + 1;
    }
    CommonPrefixUnique(parts, importParts, similarity);
  }

  /** The contract of CommonPrefixLength determines it. */
  lemma CommonPrefixUnique(a: seq<string>, b: seq<string>, n: nat)
    requires n <= |a| && n <= |b| && a[..n] == b[..n]
    requires n < |a| && n < |b| ==> a[n] != b[n]
    ensures n == CommonPrefixLength(a, b)
  {
    var m := CommonPrefixLength(a, b);
    CommonPrefixLengthSpec(a, b);
    assert forall k :: 0 <= k < n ==> a[k] == a[..n][k] && b[k] == b[..n][k];
    assert forall k :: 0 <= k < m ==> a[k] == a[..m][k] && b[k] == b[..m][k];
  }

  /**
   * Among the first `n` scores, the index of the last of the greatest
   * non-negative ones; -1 when every score is negative (no candidate).
   */
  function LastBest(scores: seq<int>, n: nat): (c: int)
    requires n <= |scores|
    ensures -1 <= c < n
  {
    if n == 0 then -1
    else
      var c := LastBest(scores, n - 1);
      if scores[n - 1] >= 0 && (c == -1 || scores[n - 1] >= scores[c]) then n - 1 else c
  }

  /**
   * What LastBest finds: -1 exactly when no score is a candidate's; otherwise
   * a candidate that no candidate beats and every later candidate falls short
   * of, so ties go to the last one.
   */
  lemma {:induction false} LastBestSpec(scores: seq<int>, n: nat)
    requires n <= |scores|
    ensures var c := LastBest(scores, n);
      && (c == -1 <==> forall j :: 0 <= j < n ==> scores[j] < 0)
      && (c >= 0 ==> scores[c] >= 0)
      && (c >= 0 ==> forall j :: 0 <= j < n ==> scores[j] <= scores[c])
      && (c >= 0 ==> forall j :: c < j < n ==> scores[j] < scores[c])
  {
    if n > 0 {
      LastBestSpec(scores, n - 1);
    }
  }

  /** How well a line suits as the predecessor of `importLine`: its similarity if it is an import line, else -1. */
  function LineScore(line: string, importLine: string): int
  {
    if IsImportText(line) then Similarity(line, importLine) else -1
  }

  function Scores(file: seq<string>, importLine: string): (r: seq<int>)
    ensures |r| == |file|
    ensures forall j :: 0 <= j < |file| ==> r[j] == LineScore(file[j], importLine)
  {
    if file == [] then [] else [LineScore(file[0], importLine)] + Scores(file[1..], importLine)
  }

  /**
   * The import line a new import goes after, among the first `n` lines: the
   * last of the import lines with the greatest similarity; -1 when there is
   * no import line.
   */
  function ClosestImport(file: seq<string>, importLine: string, n: nat): (c: int)
    requires n <= |file|
    ensures -1 <= c < n
  {
    LastBest(Scores(file, importLine), n)
  }

  /**
   * What ClosestImport finds: -1 exactly when no line is an import line;
   * otherwise an import line whose similarity no import line exceeds and
   * every later import line falls short of, so ties go to the last one.
   */
  lemma ClosestImportSpec(file: seq<string>, importLine: string, n: nat)
    requires n <= |file|
    ensures var c := ClosestImport(file, importLine, n);
      && (c == -1 <==> forall j :: 0 <= j < n ==> !IsImportText(file[j]))
      && (c >= 0 ==> IsImportText(file[c]))
      && (c >= 0 ==> forall j :: 0 <= j < n && IsImportText(file[j]) ==>
                       Similarity(file[j], importLine) <= Similarity(file[c], importLine))
      && (c >= 0 ==> forall j :: c < j < n && IsImportText(file[j]) ==>
                       Similarity(file[j], importLine) < Similarity(file[c], importLine))
  {
    var scores := Scores(file, importLine);
    LastBestSpec(scores, n);
    assert forall j :: 0 <= j < n ==> (scores[j] >= 0 <==> IsImportText(file[j]));
  }

  /** The first `package ` line among the first `n` lines, or -1. */
  function FirstPackageLine(file: seq<string>, n: nat): (p: int)
    requires n <= |file|
    ensures -1 <= p < n
  {
    if n == 0 then -1
    else
      var p := FirstPackageLine(file, n - 1);
      if p == -1 && IsPackageText(file[n - 1]) then n - 1 else p
  }

  /** FirstPackageLine is -1 exactly when no line is a package line, and otherwise the first one. */
  lemma {:induction false} FirstPackageLineSpec(file: seq<string>, n: nat)
    requires n <= |file|
    ensures var p := FirstPackageLine(file, n);
      && (p == -1 <==> forall j :: 0 <= j < n ==> !IsPackageText(file[j]))
      && (p >= 0 ==> IsPackageText(file[p]) && forall j :: 0 <= j < p ==> !IsPackageText(file[j]))
  {
    if n > 0 {
      FirstPackageLineSpec(file, n - 1);
    }
  }

  /**
   * One iteration of the insertion search of addImportToFile: a line that is
   * not an import may become the package line, and an import line at least
   * as similar as the best so far becomes the closest import.
   */
  lemma SearchStep(file: seq<string>, importLine: string, i: nat, packageIndex: int, closest: int, similarity: nat)
    requires i < |file|
    requires packageIndex == FirstPackageLine(file, i) && closest == ClosestImport(file, importLine, i)
    requires closest >= 0 ==> similarity == Similarity(file[closest], importLine)
    requires closest == -1 ==> similarity == 0
    ensures FirstPackageLine(file, i + 1)
         == if !IsImportText(file[i]) && IsPackageText(file[i]) && packageIndex == -1 then i else packageIndex
    ensures ClosestImport(file, importLine, i + 1)
         == if IsImportText(file[i]) && Similarity(file[i], importLine) >= similarity then i else closest
  {
    ImportIsNotPackage(file[i]);
    var scores := Scores(file, importLine);
    assert scores[i] == LineScore(file[i], importLine);
    assert closest >= 0 ==> scores[closest] == LineScore(file[closest], importLine);
    assert closest >= 0 ==> IsImportText(file[closest]) by {
      if closest >= 0 {
        LastBestSpec(scores, i);
      }
    }
  }

  /**
   * Where line `at` starts in the document's text (its lines joined by line
   * feeds). The editor moves a position past the last line to the end of
   * the document.
   */
  function LineOffset(file: seq<string>, at: nat): nat
    requires at <= |file|
  {
    if at == |file| then |Join(file, '\n')|
    else if at == 0 then 0
    else |Join(file[..at], '\n')| + 1
  }

  /**
   * The lines after `editor.edit` inserts, at the start of line `at`, a text
   * that ends with a line feed; `text` holds that text's lines, the last one
   * empty. Before the last line the text comes in as whole lines. At a
   * position past the last line the text starts at the end of the last
   * line, so its first line joins that line and an empty line ends the
   * file. An empty document has one empty line.
   */
  function InsertText(file: seq<string>, at: nat, text: seq<string>): seq<string>
    requires at <= |file| && |text| >= 2 && text[|text| - 1] == []
  {
    if at < |file| then file[..at] + text[..|text| - 1] + file[at..]
    else if file == [] then text
    else file[..|file| - 1] + [file[|file| - 1] + text[0]] + text[1..]
  }

  /** InsertText puts the text at the position where line `at` starts in the document's text, and changes nothing else. */
  lemma InsertTextSpec(file: seq<string>, at: nat, text: seq<string>)
    requires at <= |file| && |text| >= 2 && text[|text| - 1] == []
    ensures LineOffset(file, at) <= |Join(file, '\n')|
    ensures var d := Join(file, '\n');
      Join(InsertText(file, at, text), '\n')
        == d[..LineOffset(file, at)] + Join(text, '\n') + d[LineOffset(file, at)..]
  {
    var d := Join(file, '\n');
    if at == 0 && file != [] {
      InsertAtStart(file, text);
      assert d[..0] == [] && d[0..] == d;
    } else if at < |file| {
      InsertInside(file, at, text);
    } else if file != [] {
      InsertPastEnd(file, text);
      assert d[..|d|] == d && d[|d|..] == [];
    } else {
      assert InsertText(file, at, text) == text;
      assert d == [];
    }
  }

  lemma InsertPastEnd(file: seq<string>, text: seq<string>)
    requires file != [] && |text| >= 2 && text[|text| - 1] == []
    ensures Join(InsertText(file, |file|, text), '\n') == Join(file, '\n') + Join(text, '\n')
  {
    JoinGlue(file, text, '\n');
  }

  /** The text of a text that ends with a line feed: its lines before the last, and the line feed. */
  lemma TextLines(text: seq<string>)
    requires |text| >= 2 && text[|text| - 1] == []
    ensures Join(text, '\n') == Join(text[..|text| - 1], '\n') + ['\n']
  {
    JoinAppend(text[..|text| - 1], [[]], '\n');
    assert text[..|text| - 1] + [[]] == text;
  }

  lemma InsertAtStart(file: seq<string>, text: seq<string>)
    requires file != [] && |text| >= 2 && text[|text| - 1] == []
    ensures Join(InsertText(file, 0, text), '\n') == Join(text, '\n') + Join(file, '\n')
  {
    var lines := text[..|text| - 1];
    TextLines(text);
    JoinAppend(lines, file, '\n');
    assert InsertText(file, 0, text) == lines + file;
  }

  lemma InsertInside(file: seq<string>, at: nat, text: seq<string>)
    requires 0 < at < |file| && |text| >= 2 && text[|text| - 1] == []
    ensures var d := Join(file, '\n'); var o := |Join(file[..at], '\n')| + 1;
      o <= |d| && Join(InsertText(file, at, text), '\n') == d[..o] + Join(text, '\n') + d[o..]
  {
    var lines, a, b := text[..|text| - 1], file[..at], file[at..];
    TextLines(text);
    JoinAppend(lines, b, '\n');
    JoinAppend(a, lines + b, '\n');
    JoinAppend(a, b, '\n');
    assert a + b == file;
    assert InsertText(file, at, text) == a + (lines + b);
    var d := Join(file, '\n');
    var o := |Join(a, '\n')| + 1;
    assert d == (Join(a, '\n') + ['\n']) + Join(b, '\n');
    assert d[..o] == Join(a, '\n') + ['\n'];
    assert d[o..] == Join(b, '\n');
  }

  /**
   * The search loop of addImportToFile: the first package line, and the last
   * of the import lines sharing the most leading path parts with the new
   * import (trimmed lines throughout); -1 for either when there is none.
   */
  method FindInsertionPoint(file: seq<string>, importLine: string) returns (packageIndex: int, closestImportIndex: int)
    ensures packageIndex == FirstPackageLine(file, |file|)
    ensures closestImportIndex == ClosestImport(file, importLine, |file|)
  {
    var importParts := Split(SubstringFrom(Trim(importLine), 7), '.');
    packageIndex := -1;
    closestImportIndex := -1;
    var closestImportSimilarity := 0;
    var i := 0;
    while i < |file|
      invariant 0 <= i <= |file|
      invariant packageIndex == FirstPackageLine(file, i)
      invariant closestImportIndex == ClosestImport(file, importLine, i)
      invariant closestImportIndex >= 0 ==> closestImportSimilarity == Similarity(file[closestImportIndex], importLine)
      invariant closestImportIndex == -1 ==> closestImportSimilarity == 0
      invariant importParts == PathParts(importLine)
    {
      var line := Trim(file[i]);
      SearchStep(file, importLine, i, packageIndex, closestImportIndex, closestImportSimilarity);
      if !StartsWith(line, "import ") {
        if StartsWith(line, "package ") && packageIndex == -1 {
          packageIndex := i;
        }
        i := i + 1;
        continue;
      }
      var parts := Split(SubstringFrom(line, 7), '.');
      assert parts == PathParts(file[i]);
      var similarity := CountSimilarity(parts, importParts);
      if similarity >= closestImportSimilarity {
        closestImportIndex := i;
        closestImportSimilarity := similarity;
      }
      i := i + 1;
    }
  }

  /**
   * addImportToFile: when the exact line is already among the header's
   * imports, reports false and leaves the file alone; otherwise inserts it
   * after its closest relative, or, when the file has no import line, after
   * the first package line (at the top when there is none) preceded by an
   * empty line.
   */
  method AddImportToFile(file: seq<string>, importLine: string) returns (added: bool, edited: seq<string>)
    ensures !added <==> ImportStringKeyword(importLine).Some? && importLine in HeaderImports(file)
    ensures !added ==> edited == file
    ensures added && ClosestImport(file, importLine, |file|) >= 0 ==>
      edited == InsertText(file, ClosestImport(file, importLine, |file|) + 1, [importLine, ""])
    ensures added && ClosestImport(file, importLine, |file|) == -1 ==>
      edited == InsertText(file, FirstPackageLine(file, |file|) + 1, ["", importLine, ""])
  {
    var keyword := ImportStringKeyword(importLine);
    var index := IndexFileImports(ImportStringKeyword, file, EmptyRecord(), keyword);
    var keywordImports := index.Get(PropertyKey(keyword));
    AlreadyPresentInHeader(ImportStringKeyword, file, importLine);
    if keywordImports.Some? && importLine in keywordImports.value {
      return false, file;
    }
    var packageIndex, closestImportIndex := FindInsertionPoint(file, importLine);
    var insertionIndex := if closestImportIndex == -1 then packageIndex else closestImportIndex;
    var text := if closestImportIndex == -1 then ["", importLine, ""] else [importLine, ""];
    added, edited := true, InsertText(file, insertionIndex + 1, text);
  }

  /**
   * The duplicate check of addImportToFile (in both copies, each with its own
   * keyword function) finds the line exactly when the line has a keyword and
   * the header imports it; a line without a keyword is looked up under
   * "null", where it never is.
   */
  lemma AlreadyPresentInHeader(kw: string -> Option<string>, file: seq<string>, importLine: string)
    ensures var keyword := kw(importLine);
      var index := RecordAll(kw, EmptyRecord(), HeaderImports(file), keyword);
      (index.Get(PropertyKey(keyword)).Some? && importLine in index.Get(PropertyKey(keyword)).value)
        <==> keyword.Some? && importLine in HeaderImports(file)
  {
    var keyword := kw(importLine);
    var key := PropertyKey(keyword);
    var h := HeaderImports(file);
    RecordAllPerKeyword(kw, EmptyRecord(), h, keyword, key);
    AppendNewProperties([], Selected(kw, h, keyword, key));
    SelectedMembers(kw, h, keyword, key);
  }
}

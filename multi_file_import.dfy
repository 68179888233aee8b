/**
 * src/multiFileImport.ts: resolving, in one batch, the unresolved references
 * read from the compiler's output.
 *
 * The first phase walks the files in key order, and each file's references
 * in list order. It looks each reference's keyword up in the index:
 * - a keyword with no candidate line counts as unindexed;
 * - a keyword with several candidates is queued for the user;
 * - a keyword with exactly one candidate has that line inserted into the
 *   file, which counts as added or, when the line was already there, as
 *   existing.
 *
 * The second phase shows the queue to the user one entry at a time. The
 * first refusal cancels the rest of the queue.
 *
 * What the editor answers is an input here:
 * - `inserted(k)` is what the k-th insertion of the first phase returns;
 * - `pick(i, lines)` is the user's choice among `lines` for queue entry `i`,
 *   None when the quick pick is dismissed.
 * Opening a file and inserting into it are recorded, in order, in the
 * outcome.
 */
module MultiFileImport {
  import opened Wrappers
  import opened Records

  /** `MultiselectImport`: a reference with several candidate lines, and those lines. */
  datatype MultiselectImport = MultiselectImport(info: ImportInfo, importLines: seq<string>)

  /** One call of `addImportToFile`: the file it edits and the import line. */
  datatype Request = Request(filePath: string, importLine: string)

  /** A reference to resolve: the key of the file it is listed under, and its record. */
  datatype Reference = Reference(path: string, info: ImportInfo)

  /** The first phase's counters, its queue, and the insertions it asked for. */
  datatype Tally = Tally(added: nat, existing: nat, unindexed: nat, queue: seq<MultiselectImport>,
                         requests: seq<Request>)

  /**
   * What addImportsToFiles does: its four counters, the insertions it asks
   * for, the files the first phase opens, and the two messages it shows.
   */
  datatype Outcome = Outcome(added: nat, existing: nat, unindexed: nat, cancelled: nat,
                             requests: seq<Request>, files: seq<string>, messages: seq<string>)

  /** All counters zero and the queue empty. */
  const Start: Tally := Tally(0, 0, 0, [], [])

  // ---------------------------------------------------------------------------
  // The first phase

  /** `file_imports[file_path]`, empty for a missing key. */
  function ImportsOf(fileImports: Record<seq<ImportInfo>>, path: string): seq<ImportInfo>
  {
    if path in fileImports.values then fileImports.values[path] else []
  }

  /** The references of one file, each tagged with the file's key. */
  function Tag(path: string, infos: seq<ImportInfo>): seq<Reference>
  {
    seq(|infos|, j requires 0 <= j < |infos| => Reference(path, infos[j]))
  }

  /** The references of the files `paths`, in the order the first phase visits them. */
  function References(fileImports: Record<seq<ImportInfo>>, paths: seq<string>): seq<Reference>
  {
    if paths == [] then []
    else References(fileImports, paths[..|paths| - 1]) + Tag(paths[|paths| - 1], ImportsOf(fileImports, paths[|paths| - 1]))
  }

  /** Every reference of the batch, in the order the first phase visits them. */
  function AllReferences(fileImports: Record<seq<ImportInfo>>): seq<Reference>
  {
    References(fileImports, fileImports.keys)
  }

  /** The first phase's step for one reference. */
  function Visit(index: Index, inserted: nat -> bool, t: Tally, r: Reference): Tally
  {
    var lines := Lookup(index, r.info.keyword);
    if |lines| == 0 then t.(unindexed := t.unindexed + 1)
    else if |lines| > 1 then t.(queue := t.queue + [MultiselectImport(r.info, lines)])
    else if inserted(|t.requests|) then t.(added := t.added + 1, requests := t.requests + [Request(r.path, lines[0])])
    else t.(existing := t.existing + 1, requests := t.requests + [Request(r.path, lines[0])])
  }

  /** The first phase's steps for `refs`, one after another. */
  function VisitAll(index: Index, inserted: nat -> bool, t: Tally, refs: seq<Reference>): Tally
  {
    if refs == [] then t
    else Visit(index, inserted, VisitAll(index, inserted, t, refs[..|refs| - 1]), refs[|refs| - 1])
  }

  /** True when the keyword of `info` has exactly one candidate line. */
  predicate Single(index: Index, info: ImportInfo)
  {
    |Lookup(index, info.keyword)| == 1
  }

  /** True when some reference of `infos` has exactly one candidate line, which makes the first phase open the file. */
  predicate HasSingle(index: Index, infos: seq<ImportInfo>)
  {
    exists i :: 0 <= i < |infos| && Single(index, infos[i])
  }

  /** The files of `paths` the first phase opens, in order. */
  function OpenedFiles(index: Index, fileImports: Record<seq<ImportInfo>>, paths: seq<string>): seq<string>
  {
    if paths == [] then []
    else
      var p := paths[|paths| - 1];
      OpenedFiles(index, fileImports, paths[..|paths| - 1]) + (if HasSingle(index, ImportsOf(fileImports, p)) then [p] else [])
  }

  /**
   * The inner loop of the first phase, over the references of the file
   * `path`. The document is opened at the first reference with a single
   * candidate, and not again.
   */
  method VisitFile(index: Index, inserted: nat -> bool, path: string, imports: seq<ImportInfo>, t: Tally,
                   opens: seq<string>)
    returns (t': Tally, opens': seq<string>)
    ensures t' == VisitAll(index, inserted, t, Tag(path, imports))
    ensures opens' == opens + (if HasSingle(index, imports) then [path] else [])
  {
    t', opens' := t, opens;
    var file: Option<string> := None;
    for j := 0 to |imports|
      invariant t' == VisitAll(index, inserted, t, Tag(path, imports[..j]))
      invariant file.Some? <==> HasSingle(index, imports[..j])
      invariant opens' == opens + (if file.Some? then [path] else [])
    {
      var info := imports[j];
      VisitFileStep(index, inserted, path, imports, t, j);
      var indexed := index.Get(info.keyword);
      if indexed.None? || |indexed.value| == 0 {
        t' := t'.(unindexed := t'.unindexed + 1);
        continue;
      }
      if |indexed.value| > 1 {
        t' := t'.(queue := t'.queue + [MultiselectImport(info, indexed.value)]);
        continue;
      }
      if file.None? {
        file := Some(path);
        opens' := opens' + [path];
      }
      var added := inserted(|t'.requests|);
      var request := Request(path, indexed.value[0]);
      if added {
        t' := t'.(added := t'.added + 1, requests := t'.requests + [request]);
      } else {
        t' := t'.(existing := t'.existing + 1, requests := t'.requests + [request]);
      }
    }
    assert imports[..|imports|] == imports;
  }

  /** One more reference of the file is one more step, and opens the file when it has a single candidate. */
  lemma VisitFileStep(index: Index, inserted: nat -> bool, path: string, imports: seq<ImportInfo>, t: Tally, j: nat)
    requires j < |imports|
    ensures VisitAll(index, inserted, t, Tag(path, imports[..j + 1]))
         == Visit(index, inserted, VisitAll(index, inserted, t, Tag(path, imports[..j])), Reference(path, imports[j]))
    ensures HasSingle(index, imports[..j + 1]) <==> HasSingle(index, imports[..j]) || Single(index, imports[j])
  {
    TagSnoc(path, imports, j);
    assert forall i :: 0 <= i < j ==> imports[..j + 1][i] == imports[..j][i];
    assert imports[..j + 1][j] == imports[j];
  }

  /** Tagging one more reference appends it. */
  lemma TagSnoc(path: string, infos: seq<ImportInfo>, j: nat)
    requires j < |infos|
    ensures Tag(path, infos[..j + 1]) == Tag(path, infos[..j]) + [Reference(path, infos[j])]
  {
  }

  /** The outer loop of the first phase, over the files in key order. */
  method CollectReferences(fileImports: Record<seq<ImportInfo>>, index: Index, inserted: nat -> bool)
    returns (t: Tally, opens: seq<string>)
    ensures t == PhaseOne(fileImports, index, inserted)
    ensures opens == OpenedFiles(index, fileImports, fileImports.keys)
  {
    t, opens := Start, [];
    var keys := fileImports.keys;
    for i := 0 to |keys|
      invariant t == VisitAll(index, inserted, Start, References(fileImports, keys[..i]))
      invariant opens == OpenedFiles(index, fileImports, keys[..i])
    {
      var imports := ImportsOf(fileImports, keys[i]);
      ghost var before := References(fileImports, keys[..i]);
      assert References(fileImports, keys[..i + 1]) == before + Tag(keys[i], imports)
          && OpenedFiles(index, fileImports, keys[..i + 1])
               == OpenedFiles(index, fileImports, keys[..i]) + (if HasSingle(index, imports) then [keys[i]] else []) by {
        assert keys[..i + 1][..i] == keys[..i];
      }
      VisitAllAppend(index, inserted, Start, before, Tag(keys[i], imports));
      t, opens := VisitFile(index, inserted, keys[i], imports, t, opens);
    }
    assert keys[..|keys|] == keys;
  }

  /** Visiting `a + b` is visiting `a`, then `b`. */
  lemma {:induction false} VisitAllAppend(index: Index, inserted: nat -> bool, t: Tally, a: seq<Reference>,
                                          b: seq<Reference>)
    ensures VisitAll(index, inserted, t, a + b) == VisitAll(index, inserted, VisitAll(index, inserted, t, a), b)
    decreases |b|
  {
    if b == [] {
      assert a + b == a;
    } else {
      assert (a + b)[..|a + b| - 1] == a + b[..|b| - 1];
      VisitAllAppend(index, inserted, t, a, b[..|b| - 1]);
    }
  }

  // ---------------------------------------------------------------------------
  // The second phase

  /** The choice the user makes for queue entry `i`. */
  function Choice(queue: seq<MultiselectImport>, pick: (nat, seq<string>) -> Option<string>, i: nat): Option<string>
    requires i < |queue|
  {
    pick(i, queue[i].importLines)
  }

  /** The position of the first dismissed quick pick, or the queue's length when the user chooses every time. */
  function FirstCancel(queue: seq<MultiselectImport>, pick: (nat, seq<string>) -> Option<string>): (c: nat)
    ensures c <= |queue|
    ensures forall j :: 0 <= j < c ==> Choice(queue, pick, j).Some?
    ensures c < |queue| ==> Choice(queue, pick, c).None?
  {
    FirstCancelFrom(queue, pick, 0)
  }

  /** The first position at or after `i` whose quick pick is dismissed, or the queue's length. */
  function FirstCancelFrom(queue: seq<MultiselectImport>, pick: (nat, seq<string>) -> Option<string>, i: nat): (c: nat)
    requires i <= |queue|
    ensures i <= c <= |queue|
    ensures forall j :: i <= j < c ==> Choice(queue, pick, j).Some?
    ensures c < |queue| ==> Choice(queue, pick, c).None?
    decreases |queue| - i
  {
    if i == |queue| || Choice(queue, pick, i).None? then i else FirstCancelFrom(queue, pick, i + 1)
  }

  /** The insertions the second phase asks for: the chosen line of each of the first `n` entries, in the entry's file. */
  function Picked(queue: seq<MultiselectImport>, pick: (nat, seq<string>) -> Option<string>, n: nat): (r: seq<Request>)
    requires n <= |queue|
    requires forall j :: 0 <= j < n ==> Choice(queue, pick, j).Some?
    ensures |r| == n
    ensures forall j :: 0 <= j < n ==> r[j] == Request(queue[j].info.filePath, Choice(queue, pick, j).value)
  {
    if n == 0 then [] else Picked(queue, pick, n - 1) + [Request(queue[n - 1].info.filePath, Choice(queue, pick, n - 1).value)]
  }

  /**
   * The second phase: each entry in turn gets the user's choice inserted
   * into its file, until the first dismissed quick pick, which cancels that
   * entry and every later one. Every choice counts as added, whatever the
   * insertion returns.
   */
  method ResolveQueue(queue: seq<MultiselectImport>, pick: (nat, seq<string>) -> Option<string>)
    returns (added: nat, cancelled: nat, requests: seq<Request>)
    ensures added == FirstCancel(queue, pick)
    ensures cancelled == |queue| - added
    ensures requests == Picked(queue, pick, added)
  {
    added, cancelled, requests := 0, 0, [];
    var i := 0;
    while i < |queue|
      invariant i <= FirstCancel(queue, pick)
      invariant added == i && cancelled == 0
      invariant requests == Picked(queue, pick, i)
    {
      var selected := pick(i, queue[i].importLines);
      if selected.None? {
        assert Choice(queue, pick, i).None?;
        cancelled := cancelled + |queue| - i;
        break;
      }
      requests := requests + [Request(queue[i].info.filePath, selected.value)];
      added := added + 1;
      i := i + 1;
    }
  }

  // ---------------------------------------------------------------------------
  // Messages

  /** The decimal digits of `n`. */
  function Decimal(n: nat): (r: string)
    ensures |r| >= 1
    ensures |r| == 1 <==> n < 10
    ensures forall i :: 0 <= i < |r| ==> IsDigit(r[i])
  {
    if n < 10 then [(n + 48) as char] else Decimal(n / 10) + [(n % 10 + 48) as char]
  }

  predicate IsDigit(c: char)
  {
    '0' <= c <= '9'
  }

  /** The number a string of decimal digits denotes, most significant digit first. */
  function DigitsValue(s: string): int
  {
    if s == [] then 0 else DigitsValue(s[..|s| - 1]) * 10 + (s[|s| - 1] as int - '0' as int)
  }

  /** The decimal form of `n` denotes `n` and has no leading zero: it is what `${n}` writes. */
  lemma {:induction false} DecimalValue(n: nat)
    ensures DigitsValue(Decimal(n)) == n
    ensures Decimal(n)[0] == '0' ==> n == 0
  {
    if n >= 10 {
      DecimalValue(n / 10);
      var d := Decimal(n);
      assert d[..|d| - 1] == Decimal(n / 10);
      assert d[0] == Decimal(n / 10)[0];
    }
  }

  /** The message shown between the two phases. */
  function MultipleMessage(count: nat): string
  {
    Decimal(count) + " imports have multiple matches"
  }

  /** The summary shown at the end: the added, unindexed and cancelled counts, and not the existing one. */
  function SummaryMessage(added: nat, unindexed: nat, cancelled: nat): string
  {
    "Import summary: " + (Decimal(added) + (" added, " + (Decimal(unindexed) + (" unindexed, " + (Decimal(cancelled) + " cancelled")))))
  }

  /** Different numbers have different decimal forms. */
  lemma {:induction false} DecimalInjective(a: nat, b: nat)
    requires Decimal(a) == Decimal(b)
    ensures a == b
  {
    if a >= 10 && b >= 10 {
      var da, db := Decimal(a), Decimal(b);
      assert da[..|da| - 1] == Decimal(a / 10) && db[..|db| - 1] == Decimal(b / 10);
      DecimalInjective(a / 10, b / 10);
      assert da[|da| - 1] == db[|db| - 1];
    }
  }

  /** A digit string followed by text starting with a non-digit: both parts are fixed by the whole. */
  lemma DigitsSplit(x: string, s: string, y: string, t: string)
    requires forall i :: 0 <= i < |x| ==> IsDigit(x[i])
    requires forall i :: 0 <= i < |y| ==> IsDigit(y[i])
    requires s != [] && !IsDigit(s[0]) && t != [] && !IsDigit(t[0])
    requires x + s == y + t
    ensures x == y && s == t
  {
    var k := if |x| <= |y| then |x| else |y|;
    assert (x + s)[k] == (y + t)[k];
    assert |x| == |y|;
    assert x == (x + s)[..|x|] && y == (y + t)[..|y|];
    assert s == (x + s)[|x|..] && t == (y + t)[|y|..];
  }

  /** A common prefix can be dropped. */
  lemma DropPrefix(p: string, s: string, t: string)
    requires p + s == p + t
    ensures s == t
  {
    assert s == (p + s)[|p|..] && t == (p + t)[|p|..];
  }

  /** The summary determines the added, unindexed and cancelled counts, and is the same whatever the existing count. */
  lemma SummaryMessageInjective(a: nat, u: nat, c: nat, a': nat, u': nat, c': nat)
    ensures SummaryMessage(a, u, c) == SummaryMessage(a', u', c') <==> a == a' && u == u' && c == c'
  {
    if SummaryMessage(a, u, c) == SummaryMessage(a', u', c') {
      var tail1 := Decimal(c) + " cancelled";
      var tail1' := Decimal(c') + " cancelled";
      var tail2 := Decimal(u) + (" unindexed, " + tail1);
      var tail2' := Decimal(u') + (" unindexed, " + tail1');
      DropPrefix("Import summary: ", Decimal(a) + (" added, " + tail2), Decimal(a') + (" added, " + tail2'));
      DigitsSplit(Decimal(a), " added, " + tail2, Decimal(a'), " added, " + tail2');
      DecimalInjective(a, a');
      DropPrefix(" added, ", tail2, tail2');
      DigitsSplit(Decimal(u), " unindexed, " + tail1, Decimal(u'), " unindexed, " + tail1');
      DecimalInjective(u, u');
      DropPrefix(" unindexed, ", tail1, tail1');
      DigitsSplit(Decimal(c), " cancelled", Decimal(c'), " cancelled");
      DecimalInjective(c, c');
    }
  }

  // ---------------------------------------------------------------------------
  // addImportsToFiles

  /** What addImportsToFiles does with the batch `fileImports`. */
  function Run(fileImports: Record<seq<ImportInfo>>, index: Index, inserted: nat -> bool,
               pick: (nat, seq<string>) -> Option<string>): Outcome
  {
    var t := PhaseOne(fileImports, index, inserted);
    var c := FirstCancel(t.queue, pick);
    Outcome(t.added + c, t.existing, t.unindexed, |t.queue| - c, t.requests + Picked(t.queue, pick, c),
            OpenedFiles(index, fileImports, fileImports.keys),
            [MultipleMessage(|t.queue|), SummaryMessage(t.added + c, t.unindexed, |t.queue| - c)])
  }

  /** addImportsToFiles: the two phases, and a message after each. */
  method AddImportsToFiles(fileImports: Record<seq<ImportInfo>>, index: Index, inserted: nat -> bool,
                           pick: (nat, seq<string>) -> Option<string>)
    returns (o: Outcome)
    ensures o == Run(fileImports, index, inserted, pick)
  {
    var t, opens := CollectReferences(fileImports, index, inserted);
    var notice := MultipleMessage(|t.queue|);
    var added, cancelled, picked := ResolveQueue(t.queue, pick);
    added := t.added + added;
    var summary := SummaryMessage(added, t.unindexed, cancelled);
    o := Outcome(added, t.existing, t.unindexed, cancelled, t.requests + picked, opens, [notice, summary]);
  }

  // ---------------------------------------------------------------------------
  // What the first phase computes

  /** The references with several candidates, as queued: in the order they are met. */
  function Ambiguous(index: Index, refs: seq<Reference>): seq<MultiselectImport>
  {
    if refs == [] then []
    else
      var r := refs[|refs| - 1];
      var lines := Lookup(index, r.info.keyword);
      Ambiguous(index, refs[..|refs| - 1]) + (if |lines| > 1 then [MultiselectImport(r.info, lines)] else [])
  }

  /** The insertions asked for the references with exactly one candidate: that candidate, in the reference's file. */
  function Singles(index: Index, refs: seq<Reference>): seq<Request>
  {
    if refs == [] then []
    else
      var r := refs[|refs| - 1];
      var lines := Lookup(index, r.info.keyword);
      Singles(index, refs[..|refs| - 1]) + (if |lines| == 1 then [Request(r.path, lines[0])] else [])
  }

  /** The number of references whose keyword has no candidate. */
  function CountUnindexed(index: Index, refs: seq<Reference>): nat
  {
    if refs == [] then 0
    else CountUnindexed(index, refs[..|refs| - 1]) + (if |Lookup(index, refs[|refs| - 1].info.keyword)| == 0 then 1 else 0)
  }

  /** The number of the first `n` insertions that return true. */
  function CountTrue(inserted: nat -> bool, n: nat): nat
  {
    if n == 0 then 0 else CountTrue(inserted, n - 1) + (if inserted(n - 1) then 1 else 0)
  }

  /** The added and existing counters split the first phase's insertions by what they returned. */
  predicate Consistent(inserted: nat -> bool, t: Tally)
  {
    t.added == CountTrue(inserted, |t.requests|) && t.added + t.existing == |t.requests|
  }

  /**
   * The first phase over `refs` queues exactly the references with several
   * candidates, inserts exactly the lone candidates, counts exactly the
   * references without candidates as unindexed, and splits the insertions
   * into added and existing by what they return.
   */
  lemma {:induction false} VisitAllSpec(index: Index, inserted: nat -> bool, t: Tally, refs: seq<Reference>)
    ensures VisitAll(index, inserted, t, refs).queue == t.queue + Ambiguous(index, refs)
    ensures VisitAll(index, inserted, t, refs).requests == t.requests + Singles(index, refs)
    ensures VisitAll(index, inserted, t, refs).unindexed == t.unindexed + CountUnindexed(index, refs)
  {
    if refs != [] {
      var init := refs[..|refs| - 1];
      VisitAllSpec(index, inserted, t, init);
      var lines := Lookup(index, refs[|refs| - 1].info.keyword);
      var u := VisitAll(index, inserted, t, init);
      if |lines| > 1 {
        assert u.queue + [MultiselectImport(refs[|refs| - 1].info, lines)]
            == t.queue + (Ambiguous(index, init) + [MultiselectImport(refs[|refs| - 1].info, lines)]);
      } else if |lines| == 1 {
        assert u.requests + [Request(refs[|refs| - 1].path, lines[0])]
            == t.requests + (Singles(index, init) + [Request(refs[|refs| - 1].path, lines[0])]);
      }
    }
  }

  /** Each queued entry is a reference of `refs` together with all of its (two or more) candidate lines. */
  lemma {:induction false} AmbiguousEntries(index: Index, refs: seq<Reference>)
    ensures forall x :: x in Ambiguous(index, refs) ==>
              && |x.importLines| > 1
              && x.importLines == Lookup(index, x.info.keyword)
              && exists i :: 0 <= i < |refs| && refs[i].info == x.info
  {
    if refs != [] {
      var init := refs[..|refs| - 1];
      AmbiguousEntries(index, init);
      forall x | x in Ambiguous(index, init) ensures exists i :: 0 <= i < |refs| && refs[i].info == x.info {
        var i :| 0 <= i < |init| && init[i].info == x.info;
        assert refs[i] == init[i];
      }
    }
  }

  /** Each insertion of the first phase puts the lone candidate of a reference into the file it is listed under. */
  lemma {:induction false} SinglesEntries(index: Index, refs: seq<Reference>)
    ensures forall q :: q in Singles(index, refs) ==>
              exists i :: 0 <= i < |refs| && Lookup(index, refs[i].info.keyword) == [q.importLine] && refs[i].path == q.filePath
  {
    if refs != [] {
      var init := refs[..|refs| - 1];
      SinglesEntries(index, init);
      forall q | q in Singles(index, init)
        ensures exists i :: 0 <= i < |refs| && Lookup(index, refs[i].info.keyword) == [q.importLine] && refs[i].path == q.filePath
      {
        var i :| 0 <= i < |init| && Lookup(index, init[i].info.keyword) == [q.importLine] && init[i].path == q.filePath;
        assert refs[i] == init[i];
      }
      var r := refs[|refs| - 1];
      var lines := Lookup(index, r.info.keyword);
      if |lines| == 1 {
        assert lines == [lines[0]];
      }
    }
  }

  /** The first phase keeps the added and existing counters in step with the insertions' results. */
  lemma {:induction false} VisitAllConsistent(index: Index, inserted: nat -> bool, t: Tally, refs: seq<Reference>)
    requires Consistent(inserted, t)
    ensures Consistent(inserted, VisitAll(index, inserted, t, refs))
  {
    if refs != [] {
      VisitAllConsistent(index, inserted, t, refs[..|refs| - 1]);
    }
  }

  /** Every reference is unindexed, inserted or queued, and only one of these. */
  lemma {:induction false} Partition(index: Index, refs: seq<Reference>)
    ensures CountUnindexed(index, refs) + |Singles(index, refs)| + |Ambiguous(index, refs)| == |refs|
  {
    if refs != [] {
      Partition(index, refs[..|refs| - 1]);
    }
  }

  /** The queue the first phase builds for the batch. */
  function Queue(fileImports: Record<seq<ImportInfo>>, index: Index): seq<MultiselectImport>
  {
    Ambiguous(index, AllReferences(fileImports))
  }

  /** The counters, queue and insertions of the first phase. */
  function PhaseOne(fileImports: Record<seq<ImportInfo>>, index: Index, inserted: nat -> bool): Tally
  {
    VisitAll(index, inserted, Start, AllReferences(fileImports))
  }

  /** The first phase over the whole batch: what it queues, inserts and counts as unindexed. */
  lemma PhaseOneSpec(fileImports: Record<seq<ImportInfo>>, index: Index, inserted: nat -> bool)
    ensures PhaseOne(fileImports, index, inserted).queue == Queue(fileImports, index)
    ensures PhaseOne(fileImports, index, inserted).requests == Singles(index, AllReferences(fileImports))
    ensures PhaseOne(fileImports, index, inserted).unindexed == CountUnindexed(index, AllReferences(fileImports))
  {
    VisitAllSpec(index, inserted, Start, AllReferences(fileImports));
  }

  /**
   * The first phase over `refs`, from zero: the added and existing counters
   * split its insertions by their results, and unindexed, added, existing
   * and the queue account for every reference once.
   */
  lemma VisitAllCounts(index: Index, inserted: nat -> bool, refs: seq<Reference>)
    ensures var t := VisitAll(index, inserted, Start, refs);
      && t.added == CountTrue(inserted, |Singles(index, refs)|)
      && t.existing == |Singles(index, refs)| - CountTrue(inserted, |Singles(index, refs)|)
      && t.unindexed + t.added + t.existing + |t.queue| == |refs|
  {
    VisitAllSpec(index, inserted, Start, refs);
    Partition(index, refs);
    VisitAllConsistent(index, inserted, Start, refs);
  }

  /** The same counts for the whole batch. */
  lemma PhaseOneCounts(fileImports: Record<seq<ImportInfo>>, index: Index, inserted: nat -> bool)
    ensures PhaseOne(fileImports, index, inserted).added == CountTrue(inserted, |Singles(index, AllReferences(fileImports))|)
    ensures PhaseOne(fileImports, index, inserted).existing
         == |Singles(index, AllReferences(fileImports))| - CountTrue(inserted, |Singles(index, AllReferences(fileImports))|)
    ensures PhaseOne(fileImports, index, inserted).unindexed + PhaseOne(fileImports, index, inserted).added
            + PhaseOne(fileImports, index, inserted).existing + |PhaseOne(fileImports, index, inserted).queue|
         == |AllReferences(fileImports)|
  {
    VisitAllCounts(index, inserted, AllReferences(fileImports));
  }

  /**
   * addImportsToFiles in terms of the batch's references:
   * - unindexed counts the references without a candidate;
   * - the single-candidate references are inserted first, in order, and
   *   count as added or existing by what the insertion returns;
   * - the queued entries up to the first dismissed quick pick are inserted
   *   next and count as added; the rest count as cancelled;
   * - so every reference is counted exactly once.
   */
  lemma RunSpec(fileImports: Record<seq<ImportInfo>>, index: Index, inserted: nat -> bool,
                pick: (nat, seq<string>) -> Option<string>)
    ensures Run(fileImports, index, inserted, pick).unindexed == CountUnindexed(index, AllReferences(fileImports))
    ensures Run(fileImports, index, inserted, pick).requests
         == Singles(index, AllReferences(fileImports))
            + Picked(Queue(fileImports, index), pick, FirstCancel(Queue(fileImports, index), pick))
    ensures Run(fileImports, index, inserted, pick).added
         == CountTrue(inserted, |Singles(index, AllReferences(fileImports))|) + FirstCancel(Queue(fileImports, index), pick)
    ensures Run(fileImports, index, inserted, pick).existing
         == |Singles(index, AllReferences(fileImports))| - CountTrue(inserted, |Singles(index, AllReferences(fileImports))|)
    ensures Run(fileImports, index, inserted, pick).cancelled
         == |Queue(fileImports, index)| - FirstCancel(Queue(fileImports, index), pick)
    ensures Run(fileImports, index, inserted, pick).unindexed + Run(fileImports, index, inserted, pick).added
            + Run(fileImports, index, inserted, pick).existing + Run(fileImports, index, inserted, pick).cancelled
         == |AllReferences(fileImports)|
  {
    PhaseOneSpec(fileImports, index, inserted);
    PhaseOneCounts(fileImports, index, inserted);
  }

  /** A file is opened by the first phase exactly when it is a key of the batch with a single-candidate reference. */
  lemma {:induction false} OpenedFilesMembers(index: Index, fileImports: Record<seq<ImportInfo>>, paths: seq<string>,
                                              p: string)
    ensures p in OpenedFiles(index, fileImports, paths) <==> p in paths && HasSingle(index, ImportsOf(fileImports, p))
  {
    if paths != [] {
      var init := paths[..|paths| - 1];
      OpenedFilesMembers(index, fileImports, init, p);
      assert paths == init + [paths[|paths| - 1]];
    }
  }

  /** With distinct keys, no file is opened twice by the first phase. */
  lemma {:induction false} OpenedFilesDistinct(index: Index, fileImports: Record<seq<ImportInfo>>, paths: seq<string>)
    requires NoDuplicates(paths)
    ensures NoDuplicates(OpenedFiles(index, fileImports, paths))
  {
    if paths != [] {
      var init := paths[..|paths| - 1];
      var last := paths[|paths| - 1];
      OpenedFilesDistinct(index, fileImports, init);
      OpenedFilesMembers(index, fileImports, init, last);
      assert last !in init by {
        forall i | 0 <= i < |init| ensures init[i] != last {
          assert init[i] == paths[i];
        }
      }
    }
  }

  /**
   * The first phase opens each file of the batch at most once, and opens
   * exactly the files with a single-candidate reference.
   */
  lemma OpensOnce(fileImports: Record<seq<ImportInfo>>, index: Index, inserted: nat -> bool,
                  pick: (nat, seq<string>) -> Option<string>, p: string)
    requires fileImports.Valid()
    ensures NoDuplicates(Run(fileImports, index, inserted, pick).files)
    ensures p in Run(fileImports, index, inserted, pick).files
        <==> p in fileImports.keys && HasSingle(index, ImportsOf(fileImports, p))
  {
    OpenedFilesDistinct(index, fileImports, fileImports.keys);
    OpenedFilesMembers(index, fileImports, fileImports.keys, p);
  }

  /** True when each quick pick of the second phase can only return one of the lines it offers. */
  ghost predicate PicksOffered(queue: seq<MultiselectImport>, pick: (nat, seq<string>) -> Option<string>)
  {
    forall j :: 0 <= j < |queue| && Choice(queue, pick, j).Some? ==> Choice(queue, pick, j).value in queue[j].importLines
  }

  /** Each chosen line of the second phase is a candidate of the queued entry it was chosen for, in that entry's file. */
  lemma PickedIndexed(queue: seq<MultiselectImport>, pick: (nat, seq<string>) -> Option<string>, q: Request)
    requires PicksOffered(queue, pick)
    requires q in Picked(queue, pick, FirstCancel(queue, pick))
    ensures exists j :: 0 <= j < |queue| && q.importLine in queue[j].importLines && q.filePath == queue[j].info.filePath
  {
    var r := Picked(queue, pick, FirstCancel(queue, pick));
    var j :| 0 <= j < |r| && r[j] == q;
    assert q.importLine in queue[j].importLines;
  }

  /**
   * When the quick pick only returns offered lines, every insertion a run
   * asks for is a candidate line of some reference's keyword: the lone
   * candidate in the first phase, a chosen one in the second.
   */
  lemma RequestsIndexed(fileImports: Record<seq<ImportInfo>>, index: Index, inserted: nat -> bool,
                        pick: (nat, seq<string>) -> Option<string>, q: Request)
    requires PicksOffered(Queue(fileImports, index), pick)
    requires q in Run(fileImports, index, inserted, pick).requests
    ensures exists i :: 0 <= i < |AllReferences(fileImports)|
                        && q.importLine in Lookup(index, AllReferences(fileImports)[i].info.keyword)
  {
    var refs := AllReferences(fileImports);
    var queue := Queue(fileImports, index);
    RunSpec(fileImports, index, inserted, pick);
    if q in Singles(index, refs) {
      SinglesEntries(index, refs);
      var i :| 0 <= i < |refs| && Lookup(index, refs[i].info.keyword) == [q.importLine] && refs[i].path == q.filePath;
      assert q.importLine in Lookup(index, refs[i].info.keyword);
    } else {
      PickedIndexed(queue, pick, q);
      var j :| 0 <= j < |queue| && q.importLine in queue[j].importLines && q.filePath == queue[j].info.filePath;
      AmbiguousEntries(index, refs);
      assert queue[j] in queue;
      var i :| 0 <= i < |refs| && refs[i].info == queue[j].info;
      assert q.importLine in Lookup(index, refs[i].info.keyword);
    }
  }
}

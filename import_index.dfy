/**
 * src/importIndex.ts: the project-wide import index. Every Kotlin file's
 * header is scanned, in the order the workspace lists the files, into one
 * shared index; the user may cancel after any file; a finished index is
 * kept in the workspace state and reused until a rebuild is asked for.
 *
 * The workspace's file list and each file's lines are inputs here, and so
 * is the cancel button: `isCancelled(i)` is what the cancellation poll
 * answers right after file `i` has been scanned. The keyword function is a
 * parameter because src/extension.ts repeats these operations around its
 * older keyword function.
 */
module ImportIndex {
  import opened Wrappers
  import opened Records
  import opened FileImports

  /** Every file's header import lines, file after file. */
  function AllHeaderImports(files: seq<seq<string>>): seq<string>
  {
    if files == [] then []
    else AllHeaderImports(files[..|files| - 1]) + HeaderImports(files[|files| - 1])
  }

  /** Scanning the files in order into one shared index. */
  function ScanFiles(kw: string -> Option<string>, files: seq<seq<string>>, index: Index, filter: Option<string>): Index
  {
    if files == [] then index
    else Scan(kw, files[|files| - 1], ScanFiles(kw, files[..|files| - 1], index, filter), filter)
  }

  lemma {:induction false} RecordAllAppend(kw: string -> Option<string>, index: Index, a: seq<string>, b: seq<string>,
                                           filter: Option<string>)
    ensures RecordAll(kw, index, a + b, filter) == RecordAll(kw, RecordAll(kw, index, a, filter), b, filter)
    decreases |a|
  {
    if a == [] {
      assert a + b == b;
    } else {
      assert (a + b)[0] == a[0] && (a + b)[1..] == a[1..] + b;
      RecordAllAppend(kw, RecordLine(kw, index, a[0], filter), a[1..], b, filter);
    }
  }

  /** Scanning the files one after another records all their header imports in file order. */
  lemma {:induction false} ScanFilesRecordsAll(kw: string -> Option<string>, files: seq<seq<string>>, index: Index,
                                               filter: Option<string>)
    ensures ScanFiles(kw, files, index, filter) == RecordAll(kw, index, AllHeaderImports(files), filter)
  {
    if files != [] {
      var init := files[..|files| - 1];
      ScanFilesRecordsAll(kw, init, index, filter);
      RecordAllAppend(kw, index, AllHeaderImports(init), HeaderImports(files[|files| - 1]), filter);
    }
  }

  /** A line is among all the header imports exactly when some file's header imports it. */
  lemma {:induction false} AllHeaderImportsMembers(files: seq<seq<string>>, l: string)
    ensures l in AllHeaderImports(files) <==> exists j :: 0 <= j < |files| && l in HeaderImports(files[j])
  {
    if files != [] {
      var init := files[..|files| - 1];
      AllHeaderImportsMembers(init, l);
      if l in AllHeaderImports(init) {
        var j :| 0 <= j < |init| && l in HeaderImports(init[j]);
        assert files[j] == init[j];
      } else if l in HeaderImports(files[|files| - 1]) {
      } else {
        forall j | 0 <= j < |files| ensures l !in HeaderImports(files[j]) {
          if j < |init| {
            assert files[j] == init[j];
          }
        }
      }
    }
  }

  /**
   * The shared index is the union of the files' header imports: each
   * keyword's list is what it held before followed by the new lines in the
   * order they are first met across the files, without duplicates, and a
   * line is in it exactly when it was before or some file's header imports
   * it under that keyword.
   */
  lemma ScanFilesUnion(kw: string -> Option<string>, files: seq<seq<string>>, index: Index, filter: Option<string>,
                       k: string, l: string)
    requires IndexValid(index)
    ensures var r := ScanFiles(kw, files, index, filter);
      && IndexValid(r)
      && Lookup(r, k) == AppendNew(Lookup(index, k), Selected(kw, AllHeaderImports(files), filter, k))
      && (l in Lookup(r, k) <==>
            l in Lookup(index, k)
            || ((exists j :: 0 <= j < |files| && l in HeaderImports(files[j])) && kw(l) == Some(k) && Accepts(filter, k)))
  {
    var all := AllHeaderImports(files);
    ScanFilesRecordsAll(kw, files, index, filter);
    RecordAllValid(kw, index, all, filter);
    RecordAllPerKeyword(kw, index, all, filter, k);
    AppendNewProperties(Lookup(index, k), Selected(kw, all, filter, k));
    SelectedMembers(kw, all, filter, k);
    AllHeaderImportsMembers(files, l);
  }

  /** Scanning one more file continues the shared index. */
  lemma ScanNextFile(kw: string -> Option<string>, files: seq<seq<string>>, i: nat, filter: Option<string>)
    requires i < |files|
    ensures ScanFiles(kw, files[..i + 1], EmptyRecord(), filter)
         == Scan(kw, files[i], ScanFiles(kw, files[..i], EmptyRecord(), filter), filter)
  {
    assert files[..i + 1][..i] == files[..i];
  }

  /** The position of the first file after which the poll answers true, or `n` when none does. */
  function CancelPoint(isCancelled: nat -> bool, i: nat, n: nat): (c: nat)
    requires i <= n
    ensures i <= c <= n
    ensures c < n ==> isCancelled(c)
    ensures forall j :: i <= j < c ==> !isCancelled(j)
    decreases n - i
  {
    if i == n then n else if isCancelled(i) then i else CancelPoint(isCancelled, i + 1, n)
  }

  /** The progress reports `(position, total)` for the files before `count`. */
  function Reports(count: nat, total: nat): (r: seq<(nat, nat)>)
    ensures |r| == count
    ensures forall j :: 0 <= j < count ==> r[j] == (j, total)
  {
    if count == 0 then [] else Reports(count - 1, total) + [(count - 1, total)]
  }

  /**
   * findKotlinKeywordImports: scans the files in order into one index. The
   * poll is asked after each file; the first time it answers true the index
   * built so far is returned at once, without a progress report for that
   * file. `cancelled` is whether that happened (the flag buildIndex's poll
   * sets).
   */
  method FindKotlinKeywordImports(kw: string -> Option<string>, files: seq<seq<string>>, keyword: Option<string>,
                                  isCancelled: nat -> bool)
    returns (imports: Index, progress: seq<(nat, nat)>, cancelled: bool)
    ensures cancelled == (CancelPoint(isCancelled, 0, |files|) < |files|)
    ensures cancelled ==> imports == ScanFiles(kw, files[..CancelPoint(isCancelled, 0, |files|) + 1], EmptyRecord(), keyword)
    ensures !cancelled ==> imports == ScanFiles(kw, files, EmptyRecord(), keyword)
    ensures progress == Reports(CancelPoint(isCancelled, 0, |files|), |files|)
  {
    imports := EmptyRecord();
    progress := [];
    cancelled := false;
    var i := 0;
    while i < |files|
      invariant 0 <= i <= |files|
      invariant i <= CancelPoint(isCancelled, 0, |files|)
      invariant imports == ScanFiles(kw, files[..i], EmptyRecord(), keyword)
      invariant progress == Reports(i, |files|)
    {
      ScanNextFile(kw, files, i, keyword);
      imports := IndexFileImports(kw, files[i], imports, keyword);
      if isCancelled(i) {
        assert CancelPoint(isCancelled, 0, |files|) == i;
        assert imports == ScanFiles(kw, files[..i + 1], EmptyRecord(), keyword);
        cancelled := true;
        return;
      }
      progress := progress + [(i, |files|)];
      i := i + 1;
    }
    assert files[..i] == files;
  }

  /** What buildIndex yields: nothing when cancelled, else the index of every file's header. */
  function BuildResult(kw: string -> Option<string>, files: seq<seq<string>>, isCancelled: nat -> bool): Option<Index>
  {
    if CancelPoint(isCancelled, 0, |files|) < |files| then None
    else Some(ScanFiles(kw, files, EmptyRecord(), None))
  }

  /**
   * A build yields an index exactly when no poll answered true; it then
   * holds, under every keyword, each header import line of every file with
   * that keyword, once, in the order first met.
   */
  lemma BuildResultSpec(kw: string -> Option<string>, files: seq<seq<string>>, isCancelled: nat -> bool, k: string, l: string)
    ensures var r := BuildResult(kw, files, isCancelled);
      && (r.Some? <==> forall j :: 0 <= j < |files| ==> !isCancelled(j))
      && (r.Some? ==> IndexValid(r.value)
                      && Lookup(r.value, k) == AppendNew([], Selected(kw, AllHeaderImports(files), None, k))
                      && (l in Lookup(r.value, k) <==>
                            (exists j :: 0 <= j < |files| && l in HeaderImports(files[j])) && kw(l) == Some(k)))
  {
    ScanFilesUnion(kw, files, EmptyRecord(), None, k, l);
  }

  /**
   * buildIndex: runs findKotlinKeywordImports over all keywords with the
   * cancel button as its poll, and yields nothing when it was cancelled.
   */
  method BuildIndex(kw: string -> Option<string>, files: seq<seq<string>>, isCancelled: nat -> bool)
    returns (index: Option<Index>, progress: seq<(nat, nat)>)
    ensures index == BuildResult(kw, files, isCancelled)
    ensures progress == Reports(CancelPoint(isCancelled, 0, |files|), |files|)
  {
    var imports, cancelled;
    imports, progress, cancelled := FindKotlinKeywordImports(kw, files, None, isCancelled);
    if cancelled {
      return None, progress;
    }
    assert files[..|files|] == files;
    index := Some(imports);
  }

  /** The workspace state of the extension: the index stored under "import-index", if any. */
  class WorkspaceState {
    var stored: Option<Index>

    constructor (stored: Option<Index>)
      ensures this.stored == stored
    {
      this.stored := stored;
    }
  }

  /**
   * getIndex: the stored index, unless a rebuild is asked for or none is
   * stored, in which case the index is built and, when the build finished,
   * stored. A cancelled build leaves the stored value as it was.
   */
  method GetIndex(kw: string -> Option<string>, context: WorkspaceState, rebuild: bool, files: seq<seq<string>>,
                  isCancelled: nat -> bool)
    returns (index: Option<Index>)
    modifies context
    ensures var cached := if rebuild then None else old(context.stored);
      index == if cached.Some? then cached else BuildResult(kw, files, isCancelled)
    ensures context.stored == if index.Some? then index else old(context.stored)
  {
    index := if rebuild then None else context.stored;
    if index.None? {
      var progress;
      index, progress := BuildIndex(kw, files, isCancelled);
      if index.Some? {
        context.stored := index;
      }
    }
  }
}

/** One evaluation sheet in, one synthesis out (the script's `process_file`
    apart from the spreadsheet writing), and the run over a whole input folder
    (`main`). */
module Report {
  import opened Sheets
  import opened Locator
  import opened Scores
  import opened Synthesis

  const IgnoredEntry: string := ".gitignore"
  const OutputExtension: string := ".xlsx"
  /** The participation figures are read from column 1 of rows 0 and 2. */
  const ParticipationRow: nat := 2

  // ----- Output file name -----

  /** Line 74 as written: the prefix, the file name without its last four
      characters (Python's `[:-4]`, empty for a shorter name), then ".xlsx". */
  function OutputNameAsWritten(prefix: string, fileName: string): (r: string)
    ensures |fileName| >= 4 ==> |r| == |prefix| + |fileName| - 4 + |OutputExtension|
    ensures |fileName| < 4 ==> r == prefix + OutputExtension
    ensures r[..|prefix|] == prefix && r[|r| - |OutputExtension|..] == OutputExtension
    ensures |fileName| >= 4 ==> r[|prefix|..|r| - |OutputExtension|] + fileName[|fileName| - 4..] == fileName
  {
    prefix + (if |fileName| >= 4 then fileName[..|fileName| - 4] else "") + OutputExtension
  }

  /** Line 74 drops four characters whatever the extension is: an export saved
      as ".xlsx" comes out with two dots. */
  lemma AsWrittenDoublesDot()
    ensures OutputNameAsWritten("[PROCESSED] ", "Evaluation.xlsx") == "[PROCESSED] Evaluation..xlsx"
  {
    var f := "Evaluation.xlsx";
    assert f[..|f| - 4] == "Evaluation.";
  }

  /** The extension of a file name, dot included: from the last dot on,
      unless that dot is the first character; empty when there is none. */
  function Extension(name: string): (e: string)
    ensures |e| <= |name|
  {
    if |name| <= 1 then []
    else if name[|name| - 1] == '.' then ['.']
    else
      var e := Extension(name[..|name| - 1]);
      if e == [] then [] else e + [name[|name| - 1]]
  }

  lemma {:induction false} ExtensionSpec(name: string)
    ensures var e := Extension(name);
            && (|e| < |name| || e == [])
            && e == name[|name| - |e|..]
            && (e != [] ==> e[0] == '.' && '.' !in e[1..])
            && (e == [] ==> forall j :: 0 < j < |name| ==> name[j] != '.')
  {
    if |name| > 1 && name[|name| - 1] != '.' {
      var p := name[..|name| - 1];
      ExtensionSpec(p);
      assert name == p + [name[|name| - 1]];
    }
  }

  function Stem(name: string): string {
    name[..|name| - |Extension(name)|]
  }

  /** The intended output name: the prefix, the file name without its
      extension, then ".xlsx". */
  function OutputName(prefix: string, fileName: string): string {
    prefix + Stem(fileName) + OutputExtension
  }

  /** A file name made of a non-empty stem and one extension loses exactly
      that extension. */
  lemma OutputNameReplacesExtension(prefix: string, stem: string, ext: string)
    requires |stem| > 0 && |ext| > 0 && ext[0] == '.' && '.' !in ext[1..]
    ensures OutputName(prefix, stem + ext) == prefix + stem + OutputExtension
  {
    var name := stem + ext;
    ExtensionSpec(name);
    var e := Extension(name);
    // A case split for the solver: ExtensionSpec rules out an extension
    // longer, shorter than `ext` or empty, leaving `e == ext`.
    if |e| > |ext| {
    } else if e == [] {
    } else if |e| < |ext| {
    }
    assert name[|name| - |ext|..] == ext;
  }

  /** For three-letter extensions such as ".xls" the two rules agree. */
  lemma AgreeOnThreeLetterExtensions(prefix: string, stem: string, ext: string)
    requires |stem| > 0 && |ext| == 4 && ext[0] == '.' && '.' !in ext[1..]
    ensures OutputNameAsWritten(prefix, stem + ext) == OutputName(prefix, stem + ext)
  {
    OutputNameReplacesExtension(prefix, stem, ext);
    assert (stem + ext)[..|stem + ext| - 4] == stem;
  }

  // ----- One file -----

  datatype Summary = Summary(outputName: string, table: Table)

  /** What `process_file` computes before it saves: the blocks of the closed
      questions, their table, and the name of the output file. After the table
      it reads the participation figures, which fails on a sheet without a
      row 2. */
  function Summarize(prefix: string, fileName: string, sheet: Sheet): Result<Summary> {
    var blocks :- Locate(sheet);
    assert AllTextRows(sheet, blocks);
    var table :- Build(sheet, blocks);
    if |sheet| <= ParticipationRow then Err(MissingParticipation(|sheet|))
    else Ok(Summary(OutputName(prefix, fileName), table))
  }

  /** A file is summarised exactly when its questions can be located and
      scored and the sheet has the participation rows; the first of these
      that fails gives the error. */
  lemma SummarizeOkIff(prefix: string, fileName: string, sheet: Sheet)
    ensures Summarize(prefix, fileName, sheet).Ok? <==>
              && Locate(sheet).Ok?
              && Build(sheet, Locate(sheet).value).Ok?
              && |sheet| > ParticipationRow
    ensures Locate(sheet).Err? ==> Summarize(prefix, fileName, sheet) == Err(Locate(sheet).error)
    ensures Locate(sheet).Ok? && Build(sheet, Locate(sheet).value).Err? ==>
              Summarize(prefix, fileName, sheet) == Err(Build(sheet, Locate(sheet).value).error)
    ensures Locate(sheet).Ok? && Build(sheet, Locate(sheet).value).Ok? && |sheet| <= ParticipationRow ==>
              Summarize(prefix, fileName, sheet) == Err(MissingParticipation(|sheet|))
  {
  }

  /** A two-row sheet with no questions has no row 2 to read the
      participation from, so it is not summarised. */
  lemma ShortSheetFails()
    ensures Summarize("[PROCESSED] ", "a.xls", [Row(Text("x"), Number(1)), Row(Empty, Empty)]) == Err(MissingParticipation(2))
  {
    var sheet := [Row(Text("x"), Number(1)), Row(Empty, Empty)];
    assert !LabelStartsWith(sheet[0].caption, HeaderPrefix) && !LabelStartsWith(sheet[0].caption, MarkerPrefix);
    assert RowsStartingWith(sheet, HeaderPrefix) == [];
    assert RowsStartingWith(sheet, MarkerPrefix) == [];
    assert Locate(sheet) == Ok([]);
  }

  method ProcessFile(prefix: string, fileName: string, sheet: Sheet) returns (r: Result<Summary>)
    ensures r == Summarize(prefix, fileName, sheet)
  {
    var blocks := Locate(sheet);
    if blocks.Err? {
      return Err(blocks.error);
    }
    var table := ComputeScores(sheet, blocks.value);
    if table.Err? {
      return Err(table.error);
    }
    if |sheet| <= ParticipationRow {
      return Err(MissingParticipation(|sheet|));
    }
    r := Ok(Summary(OutputName(prefix, fileName), table.value));
  }

  /** A successful summary holds the table of the located blocks. */
  lemma SummaryTable(prefix: string, fileName: string, sheet: Sheet)
    requires Summarize(prefix, fileName, sheet).Ok?
    ensures Locate(sheet).Ok? && AllTextRows(sheet, Locate(sheet).value)
    ensures Build(sheet, Locate(sheet).value).Ok?
    ensures Summarize(prefix, fileName, sheet).value.table == Build(sheet, Locate(sheet).value).value
  {
  }

  /** A successful table lists exactly the ids of its blocks. */
  lemma TableListsBlockIds(sheet: Sheet, blocks: seq<nat>, id: string)
    requires AllTextRows(sheet, blocks) && Build(sheet, blocks).Ok?
    ensures id in Build(sheet, blocks).value.order <==> exists x :: x in blocks && QuestionId(sheet, x) == id
  {
    TabulateOrder(Scorer(sheet), Namer(sheet), blocks);
    var ids := Ids(Namer(sheet), blocks);
    if id in ids {
      var k :| 0 <= k < |ids| && ids[k] == id;
      assert blocks[k] in blocks;
    }
    if exists x :: x in blocks && QuestionId(sheet, x) == id {
      var x :| x in blocks && QuestionId(sheet, x) == id;
      var k :| 0 <= k < |blocks| && blocks[k] == x;
      assert ids[k] == id;
    }
  }

  /** The synthesis lists exactly the ids of the closed questions: the
      question headers that do not open a free-text question. */
  lemma SummaryListsClosedQuestions(prefix: string, fileName: string, sheet: Sheet, id: string)
    requires Summarize(prefix, fileName, sheet).Ok?
    ensures id in Summarize(prefix, fileName, sheet).value.table.order <==>
              exists x :: IsHeaderRow(sheet, x) && !FreeTextHeader(sheet, x) && QuestionId(sheet, x) == id
  {
    SummaryTable(prefix, fileName, sheet);
    var blocks := Locate(sheet).value;
    LocateKeepsClosedQuestions(sheet);
    TableListsBlockIds(sheet, blocks, id);
    if exists x :: IsHeaderRow(sheet, x) && !FreeTextHeader(sheet, x) && QuestionId(sheet, x) == id {
      var x :| IsHeaderRow(sheet, x) && !FreeTextHeader(sheet, x) && QuestionId(sheet, x) == id;
      assert x in blocks;
    }
  }

  // ----- The input folder -----

  /** The directory entries that `main` hands to `process_file`. */
  function Kept(listing: seq<(string, Sheet)>): seq<(string, Sheet)> {
    if listing == [] then []
    else
      var n := |listing| - 1;
      Kept(listing[..n]) + (if listing[n].0 == IgnoredEntry then [] else [listing[n]])
  }

  /** Every entry but the ignore marker is kept. */
  lemma {:induction false} KeptSpec(listing: seq<(string, Sheet)>)
    ensures forall e :: e in Kept(listing) <==> e in listing && e.0 != IgnoredEntry
  {
    if listing != [] {
      var n := |listing| - 1;
      KeptSpec(listing[..n]);
      assert listing == listing[..n] + [listing[n]];
    }
  }

  /** How a folder run ends: every kept entry processed, or stopped by the
      error of one entry after the outputs of the entries before it were
      written. */
  datatype FolderRun = Finished(summaries: seq<Summary>) | Stopped(written: seq<Summary>, error: Error)

  /** Runs `process` on every kept entry, in listing order, and collects the
      results; the first entry that fails stops the run, and the results
      produced before it stay written. */
  function RunAll(process: (string, Sheet) -> Result<Summary>, listing: seq<(string, Sheet)>): FolderRun {
    if listing == [] then Finished([])
    else
      var n := |listing| - 1;
      match RunAll(process, listing[..n])
      case Stopped(written, e) => Stopped(written, e)
      case Finished(done) =>
        if listing[n].0 == IgnoredEntry then Finished(done)
        else
          match process(listing[n].0, listing[n].1)
          case Err(e) => Stopped(done, e)
          case Ok(s) => Finished(done + [s])
  }

  /** `process` succeeds on every one of `entries`. */
  ghost predicate AllSucceed(process: (string, Sheet) -> Result<Summary>, entries: seq<(string, Sheet)>) {
    forall k :: 0 <= k < |entries| ==> process(entries[k].0, entries[k].1).Ok?
  }

  /** `results` are the results of `process` on `entries`, one for one. */
  ghost predicate ResultsOf(process: (string, Sheet) -> Result<Summary>, entries: seq<(string, Sheet)>, results: seq<Summary>) {
    && |results| == |entries|
    && forall k :: 0 <= k < |entries| ==> process(entries[k].0, entries[k].1) == Ok(results[k])
  }

  /** Entry `k` is the first of `entries` that `process` fails on, with error
      `e`, and `written` are the results of the entries before it. */
  ghost predicate FirstFailure(process: (string, Sheet) -> Result<Summary>, entries: seq<(string, Sheet)>,
                               k: int, written: seq<Summary>, e: Error) {
    && 0 <= k < |entries|
    && process(entries[k].0, entries[k].1) == Err(e)
    && ResultsOf(process, entries[..k], written)
  }

  lemma AllSucceedAppend(process: (string, Sheet) -> Result<Summary>, entries: seq<(string, Sheet)>, e: (string, Sheet))
    ensures AllSucceed(process, entries + [e]) <==> AllSucceed(process, entries) && process(e.0, e.1).Ok?
  {
    var es := entries + [e];
    assert forall k :: 0 <= k < |entries| ==> es[k] == entries[k];
    assert es[|entries|] == e;
  }

  lemma ResultsOfAppend(process: (string, Sheet) -> Result<Summary>, entries: seq<(string, Sheet)>, results: seq<Summary>, e: (string, Sheet), s: Summary)
    requires ResultsOf(process, entries, results)
    requires process(e.0, e.1) == Ok(s)
    ensures ResultsOf(process, entries + [e], results + [s])
  {
    var es, rs := entries + [e], results + [s];
    assert forall k :: 0 <= k < |entries| ==> es[k] == entries[k] && rs[k] == results[k];
  }

  /** A run finishes exactly when every kept entry succeeds, and then yields
      their results in order. */
  lemma {:induction false} RunAllOk(process: (string, Sheet) -> Result<Summary>, listing: seq<(string, Sheet)>)
    ensures RunAll(process, listing).Finished? <==> AllSucceed(process, Kept(listing))
    ensures RunAll(process, listing).Finished? ==> ResultsOf(process, Kept(listing), RunAll(process, listing).summaries)
  {
    if listing != [] {
      var n := |listing| - 1;
      RunAllOk(process, listing[..n]);
      var kept' := Kept(listing[..n]);
      var prev := RunAll(process, listing[..n]);
      if listing[n].0 == IgnoredEntry {
        assert Kept(listing) == kept';
        assert RunAll(process, listing) == prev;
      } else {
        assert Kept(listing) == kept' + [listing[n]];
        AllSucceedAppend(process, kept', listing[n]);
        var last := process(listing[n].0, listing[n].1);
        if prev.Finished? && last.Ok? {
          assert RunAll(process, listing) == Finished(prev.summaries + [last.value]);
          ResultsOfAppend(process, kept', prev.summaries, listing[n], last.value);
        }
      }
    }
  }

  /** A stopped run reports the error of the first kept entry that fails, and
      the outputs written are those of the kept entries before it. */
  lemma {:induction false} RunAllFirstError(process: (string, Sheet) -> Result<Summary>, listing: seq<(string, Sheet)>)
    ensures var r := RunAll(process, listing);
            r.Stopped? ==> exists k :: FirstFailure(process, Kept(listing), k, r.written, r.error)
  {
    if listing != [] {
      var n := |listing| - 1;
      var kept' := Kept(listing[..n]);
      var kept := Kept(listing);
      var prev := RunAll(process, listing[..n]);
      var r := RunAll(process, listing);
      if listing[n].0 == IgnoredEntry {
        assert kept == kept';
      } else {
        assert kept == kept' + [listing[n]];
      }
      if prev.Stopped? {
        RunAllFirstError(process, listing[..n]);
        assert r == prev;
        var k :| FirstFailure(process, kept', k, prev.written, prev.error);
        assert kept[..k] == kept'[..k];
        assert kept[k] == kept'[k];
        assert FirstFailure(process, kept, k, r.written, r.error);
      } else if r.Stopped? {
        RunAllOk(process, listing[..n]);
        assert listing[n].0 != IgnoredEntry;
        assert kept[..|kept'|] == kept';
        assert kept[|kept'|] == listing[n];
        assert FirstFailure(process, kept, |kept'|, r.written, r.error);
      }
    }
  }

  /** Once a prefix of the listing has stopped, the whole run ends the same
      way: fail-fast, with no later entry processed. */
  lemma {:induction false} RunAllFailsAt(process: (string, Sheet) -> Result<Summary>, listing: seq<(string, Sheet)>, i: nat)
    requires i < |listing|
    requires RunAll(process, listing[..i + 1]).Stopped?
    ensures RunAll(process, listing) == RunAll(process, listing[..i + 1])
    decreases |listing|
  {
    var n := |listing| - 1;
    if i < n {
      assert listing[..n][..i + 1] == listing[..i + 1];
      RunAllFailsAt(process, listing[..n], i);
    } else {
      assert listing[..i + 1] == listing;
    }
  }

  /** One more entry of the listing, processed after a run that finished so far. */
  lemma RunAllStep(process: (string, Sheet) -> Result<Summary>, listing: seq<(string, Sheet)>, i: nat, done: seq<Summary>)
    requires i < |listing|
    requires RunAll(process, listing[..i]) == Finished(done)
    ensures RunAll(process, listing[..i + 1]) ==
              if listing[i].0 == IgnoredEntry then Finished(done)
              else match process(listing[i].0, listing[i].1)
                   case Err(e) => Stopped(done, e)
                   case Ok(s) => Finished(done + [s])
  {
    assert listing[..i + 1][..i] == listing[..i];
  }

  /** What `main` computes: the summary of every entry but the ignore marker. */
  function SummarizeAll(prefix: string, listing: seq<(string, Sheet)>): FolderRun {
    RunAll((name, sheet) => Summarize(prefix, name, sheet), listing)
  }

  /** `main`: each entry in listing order, the ignore marker skipped. */
  method ProcessFolder(prefix: string, listing: seq<(string, Sheet)>) returns (r: FolderRun)
    ensures r == SummarizeAll(prefix, listing)
  {
    ghost var process := (name, sheet) => Summarize(prefix, name, sheet);
    var done: seq<Summary> := [];
    for i := 0 to |listing|
      invariant RunAll(process, listing[..i]) == Finished(done)
    {
      RunAllStep(process, listing, i, done);
      var (fileName, sheet) := listing[i];
      if fileName != IgnoredEntry {
        var s := ProcessFile(prefix, fileName, sheet);
        assert process(fileName, sheet) == s;
        if s.Err? {
          RunAllFailsAt(process, listing, i);
          return Stopped(done, s.error);
        }
        done := done + [s.value];
      }
    }
    assert listing[..|listing|] == listing;
    r := Finished(done);
  }
}

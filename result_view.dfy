/**
 * What the handler shows after the archive step: the count text, the
 * download link to the export, and whether the "Results" headline appears.
 * The archive's answer is abstracted to `Some(n)` for a table of `n` rows
 * and `None` for anything that is not a table.
 */
module ResultView {
  import opened Wrappers
  import opened Text

  /** `os.path.join('static', 'downloads')`. */
  const OutputDir: string := "static/downloads"
  const CountSuffix: string := " samples retrieved."

  /** The view of one request. The HTML around the link and the headline is not modelled. */
  datatype View = View(count: string, downloadLink: Option<string>, headline: bool)

  /** `os.path.join(outpath, csv_file_name)`: where the export is written and linked. */
  function DownloadPath(fileName: string): (path: string)
    ensures |path| == |OutputDir| + 1 + |fileName|
    ensures path[..|OutputDir| + 1] == OutputDir + "/" && path[|OutputDir| + 1..] == fileName
  {
    OutputDir + "/" + fileName
  }

  /**
   * A file name without `/` is the last component of its download path: the
   * path splits on `/` into the two directories and the name.
   */
  lemma DownloadPathSplit(fileName: string)
    requires '/' !in fileName
    ensures Split(DownloadPath(fileName), '/') == ["static", "downloads", fileName]
  {
    OutputDirSplit();
    SplitAppend(OutputDir, '/', fileName);
  }

  /** The output directory is the two components `static` and `downloads`. */
  lemma OutputDirSplit()
    ensures Split(OutputDir, '/') == ["static", "downloads"]
  {
    var a, b := "static", "downloads";
    assert '/' !in a by { assert forall i :: 0 <= i < |a| ==> a[i] != '/'; }
    assert '/' !in b by { assert forall i :: 0 <= i < |b| ==> b[i] != '/'; }
    assert OutputDir == a + ['/'] + b;
    SplitAppend(a, '/', b);
    SplitNoSeparator(a, '/');
  }

  /** `f'{len(results)} samples retrieved.'`. */
  function CountText(n: nat): (s: string)
    ensures |s| > |CountSuffix| && s[|s| - |CountSuffix|..] == CountSuffix
  {
    DecimalString(n) + CountSuffix
  }

  /** Reads a count text back: the number before the fixed suffix. */
  function ParseCount(s: string): Option<nat> {
    if |s| > |CountSuffix| && s[|s| - |CountSuffix|..] == CountSuffix && AllDigits(s[..|s| - |CountSuffix|]) then
      Some(ParseDecimal(s[..|s| - |CountSuffix|]))
    else None
  }

  /** The count text states the number of rows, and it can be read back. */
  lemma CountTextRoundTrip(n: nat)
    ensures ParseCount(CountText(n)) == Some(n)
  {
    var s, d := CountText(n), DecimalString(n);
    assert s[..|s| - |CountSuffix|] == d;
    assert s[|s| - |CountSuffix|..] == CountSuffix;
    ParseDecimalString(n);
  }

  /**
   * What the archive step leaves in `results`: nothing when the query text is
   * empty (the archive is not asked), the archive's answer otherwise.
   */
  function Results(query: string, archive: Option<nat>): (results: Option<nat>)
    ensures query == "" ==> results == None
    ensures query != "" ==> results == archive
  {
    if query != "" then archive else None
  }

  /**
   * The closing branches of the handler: a table gives a count text and a
   * link to the export; the headline shows for a table or once search
   * parameters were recorded.
   */
  function Decide(results: Option<nat>, searched: bool, path: string): (v: View)
    ensures v.count != "" <==> results.Some?
    ensures v.downloadLink.Some? <==> results.Some?
    ensures results.Some? ==> v.count == CountText(results.value) && v.downloadLink == Some(path)
    ensures v.headline <==> results.Some? || searched
  {
    var (count, link) := if results.Some? then (CountText(results.value), Some(path)) else ("", None);
    View(count, link, results.Some? || searched)
  }

  /**
   * Search parameters are recorded exactly when the query is non-empty, so the
   * headline shows exactly then, whatever the archive answers.
   */
  lemma HeadlineIffQuery(query: string, archive: Option<nat>, path: string)
    ensures Decide(Results(query, archive), query != "", path).headline <==> query != ""
  {
  }

  /** An empty query shows nothing: no count, no link, no headline. */
  lemma EmptyQueryShowsNothing(archive: Option<nat>, path: string)
    ensures Decide(Results("", archive), false, path) == View("", None, false)
  {
  }
}

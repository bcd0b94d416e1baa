/**
 * The request handler `page()` in the handler's own step-by-step form: read
 * the form, name the export, query the archive when there is a query, then
 * decide the view. The clock and the archive are parameters: `now` is the
 * local time of the request and `archive` what the archive query returns.
 */
module Page {
  import opened Wrappers
  import opened Text
  import opened Timestamp
  import opened FormOptions
  import opened ExportName
  import opened ResultView

  /**
   * The outcome of one request: the export name, the options the archive was
   * queried with (`None`: not queried), the path a table was written to
   * (`None`: nothing written) and the view.
   */
  datatype Response = Response(
    fileName: string,
    archiveCall: Option<QueryOptions>,
    exported: Option<string>,
    view: View)

  /**
   * One of the handler's `if x: x = True else: x = False` blocks, turning a
   * checkbox's raw text into a boolean.
   */
  method AsFlag(raw: string) returns (on: bool)
    ensures on <==> Truthy(raw)
  {
    if raw != "" {
      on := true;
    } else {
      on := false;
    }
  }

  /**
   * The seven `form.get` calls, then the rewrite of a ticked subpages box to
   * the text `'subpages'`.
   */
  method ReadOptions(form: Form) returns (raw: RawForm)
    ensures raw == MarkSubpages(ReadForm(form))
  {
    var query := FormGet(form, "query");
    var includeSubdomains := FormGet(form, "include_subdomains");
    var includeSubpages := FormGet(form, "include_subpages");
    var startDate := FormGet(form, "start_date");
    var endDate := FormGet(form, "end_date");
    var filterRedirects := FormGet(form, "filter_redirects");
    var filterRevisits := FormGet(form, "filter_revisits");

    if includeSubpages != "" {
      includeSubpages := "subpages";
    }
    raw := RawForm(query, includeSubdomains, includeSubpages, startDate, endDate, filterRedirects, filterRevisits);
  }

  /**
   * The archive step: with a query, each checkbox becomes a boolean, the
   * archive is asked and the search is recorded; without one, nothing happens.
   */
  method QueryArchive(raw: RawForm, archive: Option<nat>)
    returns (archiveCall: Option<QueryOptions>, results: Option<nat>, searched: bool)
    ensures archiveCall == Normalize(raw)
    ensures results == Results(raw.query, archive)
    ensures searched <==> raw.query != ""
  {
    searched := false;
    archiveCall := None;
    if raw.query != "" {
      var subpagesOn := AsFlag(raw.includeSubpages);
      var subdomainsOn := AsFlag(raw.includeSubdomains);
      var redirectsOff := AsFlag(raw.filterRedirects);
      var revisitsOff := AsFlag(raw.filterRevisits);
      archiveCall := Some(QueryOptions(raw.query, subpagesOn, subdomainsOn, raw.startDate, raw.endDate, redirectsOff, revisitsOff));
      results := archive;
      searched := true;
    } else {
      results := None;
    }
  }

  /**
   * The closing branches of the handler: a table is written to `path`, counted
   * and linked; the headline shows for a table or once a search was made.
   */
  method ShowResults(results: Option<nat>, searched: bool, path: string) returns (exported: Option<string>, view: View)
    ensures view == Decide(results, searched, path)
    ensures exported == (if results.Some? then Some(path) else None)
  {
    exported := None;
    var resultsView: string;
    var link: Option<string>;
    if results.Some? {
      exported := Some(path);
      resultsView := CountText(results.value);
      link := Some(path);
    } else {
      resultsView := "";
      link := None;
    }

    var resultsHeadline := false;
    if results.Some? || searched {
      resultsHeadline := true;
    }

    view := View(resultsView, link, resultsHeadline);
  }

  method HandlePage(form: Form, now: DateTime, archive: Option<nat>) returns (r: Response)
    requires Valid(now)
    ensures var raw := ReadForm(form);
      r.fileName == FileName(now, raw) &&
      r.archiveCall == Normalize(raw) &&
      r.view == Decide(Results(raw.query, archive), raw.query != "", DownloadPath(r.fileName))
    ensures var raw := ReadForm(form);
      raw.query == "" ==> r.archiveCall == None && r.exported == None && r.view == View("", None, false)
    ensures var raw := ReadForm(form);
      raw.query != "" ==> r.view.headline && r.archiveCall.Some? && r.archiveCall.value.query == raw.query
    ensures var raw := ReadForm(form);
      raw.query != "" && archive.Some? ==>
        r.exported == Some(DownloadPath(r.fileName)) && r.view.downloadLink == r.exported &&
        r.view.count == CountText(archive.value)
    ensures archive.None? ==> r.exported == None && r.view.count == "" && r.view.downloadLink == None
  {
    var raw := ReadOptions(form);
    MarkSubpagesKeepsName(now, ReadForm(form));
    NormalizeMarkSubpages(ReadForm(form));
    var csvFileName := FileName(now, raw);
    var csvDownloadLink := DownloadPath(csvFileName);
    var archiveCall, results, searched := QueryArchive(raw, archive);
    var exported, view := ShowResults(results, searched, csvDownloadLink);
    r := Response(csvFileName, archiveCall, exported, view);
  }


  /**
   * The export is written and linked inside `static/downloads`: its path splits
   * on `/` into the two directories and the export name, whatever the form.
   */
  lemma ExportStaysInOutputDir(now: DateTime, f: RawForm)
    requires Valid(now)
    ensures Split(DownloadPath(FileName(now, f)), '/') == ["static", "downloads", FileName(now, f)]
  {
    FileNameNoSlash(now, f);
    DownloadPathSplit(FileName(now, f));
  }

  /**
   * A query for `example.com` with only the subpages box ticked: the archive
   * is asked with subpages on and every other option off, and the name
   * carries `example_com`, `subpages_included` and five placeholders.
   */
  lemma ExampleRequest()
    ensures var raw := ReadForm(map["query" := "example.com", "include_subpages" := "on"]);
      Normalize(raw) == Some(QueryOptions("example.com", true, false, "", "", false, false)) &&
      Segments(raw) == ["example_com", "subpages_included", "_", "_", "_", "_", "_"]
  {
    SanitizeDotExample();
    assert ReadForm(map["query" := "example.com", "include_subpages" := "on"]) == RawForm("example.com", "", "on", "", "", "", "");
  }
}

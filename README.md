# Web Archive Availabilities: the request handler, modelled in Dafny

The web tool asks a web archive which snapshots of a URL exist and offers the
list as a download. All of its decision logic sits in the Flask handler
`page()` (`flask_app.py`). This project models that handler:

- **Form reading and option normalisation** (`form_options.dfy`, module
  `FormOptions`). The seven form fields default to `''`. A ticked subpages box
  is first rewritten to the text `'subpages'`. Once a query is present, every
  checkbox becomes `True` exactly when its text is non-empty. With an empty
  query the archive is not asked at all.
- **Export file name** (`timestamp.dfy`, `export_name.dfy`, modules `Timestamp`
  and `ExportName`). The name is
  `waa-<YYYYMMDD-HHMMSS>-<query>-<subpages>-<subdomains>-<redirects>-<revisits>-<start>-<end>.csv`.
  Each segment is the text itself, a fixed token, or the placeholder `_`.
  Each segment then passes through `re.sub(r'\W', '_', …)`.
- **Result view** (`result_view.dfy`, module `ResultView`). This part decides
  the count text `'<N> samples retrieved.'`, the download link and the
  "Results" headline.
- **The handler itself** (`page.dfy`, module `Page`). `HandlePage` runs the
  handler's three stages in order, each a method that updates its locals step
  by step as `page()` does: `ReadOptions`, `QueryArchive` and `ShowResults`.
  Each is proved to agree with the
  functions above.

Supporting modules: `Wrappers` (the `Option` type, standing for Python's
`None`) and `Text`. `Text` holds the `\w` character class, decimal rendering
of an integer, and `str.split` on one character.

The clock, the archive and the file system are not modelled. The local time
of the request is the parameter `now`. The archive's answer is the parameter
`archive: Option<nat>`: `Some(n)` for a table (a pandas `DataFrame`) of `n`
rows, and `None` for any answer that is not a table.

Two properties of the code are worth stating up front:

- `re.sub(r'\W', '_', …)` replaces each non-word character by its own
  underscore. Runs are not collapsed, so a segment keeps its length
  (`Sanitize`, `SanitizeAt`).
- The name is not injective in the query: `''` and `_` collide, as do `a.b`
  and `a_b` (`QueryCollisions`).

## Model

| member | source | states |
|---|---|---|
| `FormOptions.Truthy` | flask_app.py:53 | Python truthiness of a string, as tested at lines 53, 75-91 and 123: a string is true exactly when it has at least one character |
| `FormOptions.FormGet` | flask_app.py:44-50 | a field that was not posted reads as `''`; a posted field reads as its text |
| `FormOptions.ReadForm` | flask_app.py:44-50 | each of the seven raw options is the posted text when its form field is present, and non-empty exactly when the field is present and non-empty (so `''` when it is missing) |
| `FormOptions.MarkSubpages` | flask_app.py:53-54 | the rewrite of a ticked subpages box to `'subpages'` keeps whether it is ticked and touches no other field |
| `FormOptions.Normalize` | flask_app.py:75-91 | the archive is queried exactly when the query is non-empty; the query and the dates are passed through unchanged; each of the four flags is true exactly when its raw text is non-empty |
| `FormOptions.NormalizeMarkSubpages` | flask_app.py:53-54 | the early `'subpages'` rewrite does not change the options the archive is queried with |
| `Timestamp.Format` | flask_app.py:58 | `%Y%m%d-%H%M%S` is 15 characters long, has a `-` at index 8 and digits everywhere else |
| `Timestamp.ParseFormat` | flask_app.py:58 | reading the timestamp text back gives the time it was made from |
| `Timestamp.FormatInjective` | flask_app.py:58 | two times give the same timestamp exactly when they are the same time to the second |
| `ExportName.Token` | flask_app.py:60-63 | each flag token is non-empty and differs from the placeholder `_` |
| `ExportName.TokenAllWord` | flask_app.py:60-63 | the four tokens and the placeholder consist of word characters only |
| `Text.IsWordChar` | flask_app.py:59-65 | the `\w` class kept by `re.sub(r'\W', '_', …)`; no word character is a `-`, a `.` or a `/`, the separators of the name and the path |
| `ExportName.Sanitize` | flask_app.py:59-65 | `re.sub(r'\W', '_', s)` keeps the length of `s` |
| `ExportName.SanitizeAt` | flask_app.py:59-65 | at each position, a word character is kept and any other character becomes one `_` |
| `ExportName.SanitizeAllWord` | flask_app.py:59-65 | a sanitised text holds only word characters, so it has no `-` and no `.` |
| `ExportName.SanitizeFixedPoint` | flask_app.py:59-65 | sanitising leaves a text unchanged exactly when the text is all word characters |
| `ExportName.SanitizeAppend` | flask_app.py:59-65 | `re.sub(r'\W', '_', …)` works character by character: sanitising a concatenation is concatenating the sanitised parts |
| `ExportName.SanitizeIdempotent` | flask_app.py:59-65 | sanitising twice gives the same result as sanitising once |
| `ExportName.SanitizeDotExample` | flask_app.py:59 | the query `example.com` becomes the segment `example_com` |
| `ExportName.TextSegment` | flask_app.py:59 | the query and date segments are `_` for an empty text and the sanitised text otherwise |
| `ExportName.TextSegmentWord` | flask_app.py:64-65 | a text segment is non-empty and all word characters; it is as long as its text (or 1); it equals the text exactly when the text was already a non-empty word |
| `ExportName.FlagSegment` | flask_app.py:60-63 | a flag segment is its fixed token when the raw text is non-empty and `_` otherwise; sanitising does not alter either |
| `ExportName.Segments` | flask_app.py:59-65 | the seven option segments `fnp2`…`fnp8`, in their fixed order |
| `ExportName.SegmentAllWord` | flask_app.py:59-65 | every one of the seven segments is non-empty and made of word characters |
| `ExportName.SegmentsNoDash` | flask_app.py:59-65 | no segment holds a `-`, a `.` or a `/` |
| `ExportName.Assemble` | flask_app.py:66 | the f-string is 15 characters longer than its eight parts together: the `waa-` prefix, seven dashes and `.csv` |
| `ExportName.AssembleShape` | flask_app.py:66 | the f-string starts with `waa-` followed by its first part, and ends in `.csv` |
| `ExportName.FileName` | flask_app.py:58-66 | the export name starts with `waa-` followed by the 15-character timestamp of the request and ends in `.csv` |
| `ExportName.AssembleSplit` | flask_app.py:66 | when no part has a `-` (except the one at index 8 of the timestamp), splitting the assembled f-string on `-` gives exactly ten pieces in order: `waa`, date, time, the seven segments, the last one followed by `.csv` |
| `ExportName.TimestampPieces` | flask_app.py:58 | the date and time halves of the timestamp hold no `-`, and the timestamp holds no `.` |
| `ExportName.FileNameSplit` | flask_app.py:58-66 | splitting the export name on `-` gives exactly the ten pieces `Pieces`, in fixed order |
| `ExportName.AssembleOneDot` | flask_app.py:66 | an assembled name ends in `.csv` and holds exactly one `.` when no part holds one |
| `ExportName.FileNameShape` | flask_app.py:58-66 | the export name ends in `.csv` and contains exactly one `.` |
| `ExportName.FileNameNoSlash` | flask_app.py:58-66 | the export name holds no `/`, so it is one path component |
| `ExportName.OtherSegmentsUnchanged` | flask_app.py:59-65 | changing the raw text of one checkbox leaves every other segment unchanged |
| `ExportName.SegmentKept` | flask_app.py:59-65 | changing one checkbox leaves any one segment at a different position unchanged |
| `ExportName.FlagSegmentFlips` | flask_app.py:60-63 | that checkbox's segment changes exactly when the box goes from unticked to ticked or back |
| `ExportName.FlagKeepsOtherPieces` | flask_app.py:58-66 | changing one checkbox changes no piece of the name except that checkbox's |
| `ExportName.PieceKept` | flask_app.py:58-66 | changing one checkbox leaves any one piece of the name at a different position unchanged |
| `ExportName.FlagPieceFlips` | flask_app.py:58-66 | the checkbox's piece of the name changes exactly when the box flips |
| `ExportName.FileNameShowsFlags` | flask_app.py:60-63 | for a submitted query, a flag's piece is its token exactly when the normalised option is on, and `_` exactly when it is off |
| `ExportName.SameTruthinessSameName` | flask_app.py:58-66 | the name depends only on the time, the three texts and whether each box is ticked |
| `ExportName.MarkSubpagesKeepsName` | flask_app.py:53-54 | the `'subpages'` rewrite does not change the export name |
| `ExportName.QueryCollisions` | flask_app.py:59 | the name is not injective in the query: `''` collides with `_`, and `a.b` collides with `a_b` |
| `Text.DecimalString` | flask_app.py:115 | `f'{n}'` is a non-empty string of digits with no leading zero |
| `Text.ParseDecimalString` | flask_app.py:115 | reading the decimal text of `n` back gives `n` |
| `Text.DecimalStringInjective` | flask_app.py:115 | two row counts give the same text exactly when they are equal |
| `ResultView.DownloadPath` | flask_app.py:68-73 | the export path is the `static/downloads` directory, a `/`, then the file name |
| `ResultView.OutputDirSplit` | flask_app.py:68 | the output directory is the two components `static` and `downloads` |
| `ResultView.DownloadPathSplit` | flask_app.py:68-73 | a file name without `/` is the last component of its path: the path splits on `/` into `static`, `downloads` and the name |
| `ResultView.CountText` | flask_app.py:115 | the count text is longer than, and ends in, ` samples retrieved.`; the number in front reads back to the row count (`CountTextRoundTrip`) |
| `ResultView.CountTextRoundTrip` | flask_app.py:115 | the count text `'<N> samples retrieved.'` can be read back to `N` |
| `ResultView.Results` | flask_app.py:75-111 | with an empty query the results are absent; otherwise they are what the archive answered |
| `ResultView.Decide` | flask_app.py:113-124 | there is a count text and a download link exactly when a table came back, and both describe that table; the headline shows exactly when a table came back or search parameters were recorded |
| `ResultView.HeadlineIffQuery` | flask_app.py:100-124 | the headline shows exactly when the query is non-empty, whatever the archive answers |
| `ResultView.EmptyQueryShowsNothing` | flask_app.py:110-124 | an empty query shows no count, no link and no headline |
| `Page.ReadOptions` | flask_app.py:44-54 | the seven `form.get` calls followed by the subpages rewrite give exactly the form's raw options with the rewrite applied |
| `Page.AsFlag` | flask_app.py:75-90 | each `if x: x = True else: x = False` block gives `True` exactly when the raw text is non-empty |
| `Page.QueryArchive` | flask_app.py:74-98 | the archive step asks the archive with exactly the normalised options when the query is non-empty and not at all otherwise; its results are the archive's answer or nothing, and the search is recorded exactly when the query is non-empty |
| `Page.ShowResults` | flask_app.py:113-124 | the closing branches produce the view `Decide` describes, and the table is written to the path exactly when one came back |
| `Page.HandlePage` | flask_app.py:34-124 | the handler agrees with `FileName`, `Normalize` and `Decide`. An empty query means no archive call, no export and an empty view. A non-empty query means the headline is shown and the archive gets the query. A table of `N` rows is written to the download path, linked, and counted as `CountText(N)`. A non-table answer writes nothing and shows no count or link |
| `Page.ExportStaysInOutputDir` | flask_app.py:58-73 | for every time and form, the export path splits on `/` into `static`, `downloads` and the export name: the export is written inside the output directory |
| `Page.ExampleRequest` | flask_app.py:44-91 | a query for `example.com` with only subpages ticked asks the archive with subpages on and every other option off, and is named `example_com`, `subpages_included` and five placeholders |

## Left out

- Flask routing, `render_template`, the tool description and `app.run` (flask_app.py:23, 30-42, 126-135) are presentation and process start-up. The template's echo of the options is also left out, and so are its types: with an empty query the flags stay strings.
- The HTML `Markup` around the search parameters, the download link and the headline (flask_app.py:100-108, 116-117, 124). Only what the code tests is modelled: whether search parameters were recorded, the link's path, and whether the headline is shown.
- `tm.Archive()` and its `query` call (flask_app.py:56, 96-98). The `time_machine` module is not part of this model. Its answer is the parameter `archive`. Exceptions it raises propagate out of the handler and are not modelled.
- `os.path.isdir`/`os.makedirs` and `to_csv` (flask_app.py:70-71, 114) are file-system I/O and a foreign library. `HandlePage` records only the path a table would be written to.
- `datetime.now()` (flask_app.py:58) is the parameter `now`. `%Y` is modelled as four digits, and the time's year is taken to lie between 1000 and 9999; a clock reading before the year 1000 is not modelled.
- `Text.IsWordChar`: `\w` is modelled as the ASCII letters, digits and `_`. Python's `re` on `str` counts as a word character `_` and every character for which `str.isalnum()` holds, including non-ASCII letters and numeric characters such as `½` or `²`. The model turns the non-ASCII ones into `_` where the code keeps them.
- `HandlePage`: computes the name with `FileName` and does not keep the eight `fnp` locals (flask_app.py:58-65). `FileName` builds the same eight segments in the same order.
- `ResultView.DownloadPath`: `os.path.join` uses the host's separator; the model assumes the POSIX separator `/`.
- The unused locals `diversify_intervals` and `diversify_all` (flask_app.py:93-94).

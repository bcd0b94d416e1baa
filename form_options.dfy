/**
 * The handler's option handling: reading the seven raw form values with an
 * empty-string default, and turning them into the options passed to the
 * archive once a query has been submitted.
 */
module FormOptions {
  import opened Wrappers

  /** The posted form: field name to submitted text. */
  type Form = map<string, string>

  /** The raw option strings, `''` when a field was not posted. */
  datatype RawForm = RawForm(
    query: string,
    includeSubdomains: string,
    includeSubpages: string,
    startDate: string,
    endDate: string,
    filterRedirects: string,
    filterRevisits: string)

  /** The options handed to the archive: the text fields verbatim, every checkbox a boolean. */
  datatype QueryOptions = QueryOptions(
    query: string,
    includeSubpages: bool,
    includeSubdomains: bool,
    startDate: string,
    endDate: string,
    filterRedirects: bool,
    filterRevisits: bool)

  /** The four checkboxes of the form. */
  datatype Flag = Subpages | Subdomains | Redirects | Revisits

  /** Python truthiness of a string. */
  predicate Truthy(s: string)
    ensures Truthy(s) <==> 0 < |s|
  {
    s != ""
  }

  /** `form.get(key, '')`. */
  function FormGet(form: Form, key: string): (v: string)
    ensures key in form ==> v == form[key]
    ensures key !in form ==> v == ""
  {
    if key in form then form[key] else ""
  }

  /** The seven `form.get` calls of the handler: a posted field keeps its text, a missing one reads as `''`. */
  function ReadForm(form: Form): (f: RawForm)
    ensures "query" in form ==> f.query == form["query"]
    ensures "query" !in form ==> f.query == ""
    ensures "include_subdomains" in form ==> f.includeSubdomains == form["include_subdomains"]
    ensures "include_subdomains" !in form ==> f.includeSubdomains == ""
    ensures "include_subpages" in form ==> f.includeSubpages == form["include_subpages"]
    ensures "include_subpages" !in form ==> f.includeSubpages == ""
    ensures "start_date" in form ==> f.startDate == form["start_date"]
    ensures "start_date" !in form ==> f.startDate == ""
    ensures "end_date" in form ==> f.endDate == form["end_date"]
    ensures "end_date" !in form ==> f.endDate == ""
    ensures "filter_redirects" in form ==> f.filterRedirects == form["filter_redirects"]
    ensures "filter_redirects" !in form ==> f.filterRedirects == ""
    ensures "filter_revisits" in form ==> f.filterRevisits == form["filter_revisits"]
    ensures "filter_revisits" !in form ==> f.filterRevisits == ""
  {
    RawForm(
      FormGet(form, "query"),
      FormGet(form, "include_subdomains"),
      FormGet(form, "include_subpages"),
      FormGet(form, "start_date"),
      FormGet(form, "end_date"),
      FormGet(form, "filter_redirects"),
      FormGet(form, "filter_revisits"))
  }

  /** The raw text of one checkbox. */
  function FlagValue(f: RawForm, flag: Flag): string {
    match flag
    case Subpages => f.includeSubpages
    case Subdomains => f.includeSubdomains
    case Redirects => f.filterRedirects
    case Revisits => f.filterRevisits
  }

  /** `f` with the raw text of one checkbox replaced by `v`. */
  function SetFlag(f: RawForm, flag: Flag, v: string): (g: RawForm)
    ensures FlagValue(g, flag) == v
    ensures forall other :: other != flag ==> FlagValue(g, other) == FlagValue(f, other)
    ensures g.query == f.query && g.startDate == f.startDate && g.endDate == f.endDate
  {
    match flag
    case Subpages => f.(includeSubpages := v)
    case Subdomains => f.(includeSubdomains := v)
    case Redirects => f.(filterRedirects := v)
    case Revisits => f.(filterRevisits := v)
  }

  /** The early rewrite of a ticked subpages box to the text `'subpages'`. */
  function MarkSubpages(f: RawForm): (g: RawForm)
    ensures Truthy(g.includeSubpages) <==> Truthy(f.includeSubpages)
    ensures g == f.(includeSubpages := g.includeSubpages)
  {
    if Truthy(f.includeSubpages) then f.(includeSubpages := "subpages") else f
  }

  /**
   * The options of the archive query, or `None` when the query text is empty
   * and no query is made.
   */
  function Normalize(f: RawForm): (r: Option<QueryOptions>)
    ensures r.Some? <==> Truthy(f.query)
    ensures r.Some? ==>
      r.value.query == f.query && r.value.startDate == f.startDate && r.value.endDate == f.endDate
    ensures r.Some? ==>
      (r.value.includeSubpages <==> Truthy(f.includeSubpages)) &&
      (r.value.includeSubdomains <==> Truthy(f.includeSubdomains)) &&
      (r.value.filterRedirects <==> Truthy(f.filterRedirects)) &&
      (r.value.filterRevisits <==> Truthy(f.filterRevisits))
  {
    if Truthy(f.query) then
      Some(QueryOptions(f.query, Truthy(f.includeSubpages), Truthy(f.includeSubdomains),
                        f.startDate, f.endDate, Truthy(f.filterRedirects), Truthy(f.filterRevisits)))
    else None
  }

  /** The boolean a normalized option holds for one checkbox. */
  function FlagOption(o: QueryOptions, flag: Flag): bool {
    match flag
    case Subpages => o.includeSubpages
    case Subdomains => o.includeSubdomains
    case Redirects => o.filterRedirects
    case Revisits => o.filterRevisits
  }

  /**
   * Normalization depends only on whether each checkbox was ticked, so the
   * rewrite to `'subpages'` does not change the query that is made.
   */
  lemma NormalizeMarkSubpages(f: RawForm)
    ensures Normalize(MarkSubpages(f)) == Normalize(f)
  {
  }
}

/** The legacy local search box: it loads `/search/index.json` on the first non-empty query, matches
    the whole lowercased query as one substring, and shows at most 15 results through a template.
    The network is the environment: `FetchIndex` reports whether it started a request, and the
    environment later delivers the index with `IndexArrived` (or never, when the request fails). */
module LocalSearch {
  import opened Wrappers
  import opened Seqs
  import opened Strings
  import opened Documents

  /** `results.slice(0, 15)`. */
  const MaxShown := 15

  /** The fields one result row shows (the date, parsed by the host `Date`, is not modelled). */
  datatype Row = Row(title: string, href: string, kind: string, excerpt: string, locked: bool)

  /** `v || fallback` on a string that may be missing: the empty string is falsy too. */
  function OrElse(v: Option<string>, fallback: string): string {
    if v.Some? && v.value != "" then v.value else fallback
  }

  /** The template row filled in for one document. */
  function DisplayRow(d: Doc): Row {
    Row(OrElse(d.title, "(Untitled)"), OrElse(d.url, "#"),
        if d.kind == Some("project") then "Project" else "Post",
        OrElse(d.excerpt, ""), d.encrypted)
  }

  /** A missing or empty title shows as `(Untitled)`, a missing or empty url links to `#`, the type
      shows as `Project` exactly for `project` and as `Post` otherwise, a present excerpt is shown as
      it is and a missing one as nothing, and the lock shows exactly for encrypted documents. */
  lemma DisplayRowSpec(d: Doc)
    ensures var r := DisplayRow(d);
      && (d.title.None? || d.title == Some("") ==> r.title == "(Untitled)")
      && (forall t :: d.title == Some(t) && t != "" ==> r.title == t)
      && (d.url.None? || d.url == Some("") ==> r.href == "#")
      && (forall u :: d.url == Some(u) && u != "" ==> r.href == u)
      && (r.kind == "Project" <==> d.kind == Some("project"))
      && (r.kind == "Project" || r.kind == "Post")
      && (d.excerpt.None? ==> r.excerpt == "")
      && (forall e :: d.excerpt == Some(e) ==> r.excerpt == e)
      && (r.locked <==> d.encrypted)
  {
  }

  /** The rows of `ds`, one per document, in order. */
  function RowsOf(ds: seq<Doc>): (rows: seq<Row>)
    ensures |rows| == |ds|
    ensures forall k :: 0 <= k < |ds| ==> rows[k] == DisplayRow(ds[k])
  {
    if ds == [] then [] else [DisplayRow(ds[0])] + RowsOf(ds[1..])
  }

  /** `haystack.indexOf(query.toLowerCase()) !== -1`: the whole query, not split into tokens. */
  function QueryMatches(query: string): Doc -> bool {
    d => Contains(Haystack(d), Lower(query))
  }

  /** The documents of the index that match the query, in index order. */
  function Matching(docs: seq<Doc>, query: string): seq<Doc> {
    Filter(docs, QueryMatches(query))
  }

  /** The script's state: the index, its two flags, and the rows in the results container. */
  datatype Page = Page(docs: seq<Doc>, indexLoaded: bool, loading: bool, shown: seq<Row>)

  const Start := Page([], false, false, [])

  /** `fetchIndex`: does nothing while the index is loaded or loading; otherwise marks it loading
      and starts the request (the second component says whether it did). */
  function Fetched(p: Page): (Page, bool) {
    if p.indexLoaded || p.loading then (p, false) else (p.(loading := true), true)
  }

  /** `performSearch(query)`: clears the container; an empty query stops there; with the index not
      loaded it fetches the index instead; otherwise it shows the rows of the first 15 matches. */
  function Searched(p: Page, query: string): (Page, bool) {
    var cleared := p.(shown := []);
    if query == "" then (cleared, false)
    else if !p.indexLoaded then Fetched(cleared)
    else (cleared.(shown := RowsOf(Take(Matching(p.docs, query), MaxShown))), false)
  }

  /** The `input` handler, given the input's value: a non-empty trimmed query with the index not
      loaded fetches the index (without clearing); anything else searches for the trimmed query. */
  function Input(p: Page, value: string): (Page, bool) {
    var q := Trim(value);
    if !p.indexLoaded && q != "" then Fetched(p) else Searched(p, q)
  }

  /** The index request resolved with `json`, whose `docs` is `found` (`None` when `json` or its
      `docs` is falsy); `value` is the input's value at that moment. */
  function Loaded(p: Page, found: Option<seq<Doc>>, value: string): Page {
    Searched(p.(docs := found.GetOr([]), indexLoaded := true), Trim(value)).0
  }

  // ---------------------------------------------------------------------------------------------
  // Properties

  /** A match holds the whole lowercased query in its haystack; every document that does is a
      match; the matches keep index order. */
  lemma MatchingSpec(docs: seq<Doc>, query: string)
    ensures var m := Matching(docs, query);
      && IsSubseq(m, docs)
      && (forall k :: 0 <= k < |m| ==> Contains(Haystack(m[k]), Lower(query)))
      && (forall k :: 0 <= k < |docs| ==> (docs[k] in m <==> Contains(Haystack(docs[k]), Lower(query))))
  {
    var m := Matching(docs, query);
    FilterIsSubseq(docs, QueryMatches(query));
    forall k | 0 <= k < |m| ensures Contains(Haystack(m[k]), Lower(query)) {
      assert QueryMatches(query)(m[k]);
    }
    forall k | 0 <= k < |docs| ensures docs[k] in m <==> Contains(Haystack(docs[k]), Lower(query)) {
      if docs[k] in m {
        var j :| 0 <= j < |m| && m[j] == docs[k];
        assert QueryMatches(query)(m[j]);
      }
    }
  }

  /** An empty query clears the results and matches nothing. */
  lemma EmptyQueryClears(p: Page)
    ensures Searched(p, "") == (p.(shown := []), false)
  {
  }

  /** With the index loaded, a non-empty query shows the rows of the first matches in index order:
      all of them when there are at most 15, otherwise exactly the first 15. Nothing is fetched. */
  lemma ShownRows(p: Page, query: string)
    requires p.indexLoaded && query != ""
    ensures var (q, started) := Searched(p, query);
      var m := Matching(p.docs, query);
      && !started && q.docs == p.docs && q.indexLoaded && q.loading == p.loading
      && |q.shown| == (if |m| <= MaxShown then |m| else MaxShown)
      && forall k :: 0 <= k < |q.shown| ==> q.shown[k] == DisplayRow(m[k])
  {
    var m := Matching(p.docs, query);
    var top := Take(m, MaxShown);
    assert forall k :: 0 <= k < |top| ==> top[k] == m[k];
  }

  /** The index is requested exactly when it is neither loaded nor loading, and a request in flight
      is never doubled. */
  lemma FetchGuard(p: Page)
    ensures Fetched(p).1 <==> !p.indexLoaded && !p.loading
    ensures Fetched(p).0 == (if Fetched(p).1 then p.(loading := true) else p)
    ensures Fetched(Fetched(p).0) == (Fetched(p).0, false)
  {
  }

  /** The input handler fetches exactly for a non-empty trimmed query while the index is neither
      loaded nor loading; whenever the index is loaded or the trimmed query is empty it searches. */
  lemma InputBranch(p: Page, value: string)
    ensures Input(p, value).1 <==> !p.indexLoaded && !p.loading && Trim(value) != ""
    ensures p.indexLoaded || Trim(value) == "" ==> Input(p, value) == Searched(p, Trim(value))
    ensures !p.indexLoaded && Trim(value) != "" ==> Input(p, value).0.shown == p.shown
  {
  }

  /** A loaded index stores `json.docs` (or nothing), stays loaded, and shows the results for the
      input's trimmed value at that moment; later input never fetches again. */
  lemma LoadedSpec(p: Page, found: Option<seq<Doc>>, value: string, later: string)
    ensures var q := Loaded(p, found, value);
      && q.indexLoaded && q.docs == found.GetOr([]) && q.loading == p.loading
      && (Trim(value) == "" ==> q.shown == [])
      && (Trim(value) != "" ==> q.shown == RowsOf(Take(Matching(q.docs, Trim(value)), MaxShown)))
      && !Input(q, later).1
      && Input(q, later).0.indexLoaded && Input(q, later).0.docs == q.docs
  {
    var stored := p.(docs := found.GetOr([]), indexLoaded := true);
    assert Loaded(p, found, value) == Searched(stored, Trim(value)).0;
    InputWhenLoaded(Loaded(p, found, value), later);
  }

  /** Once the index is loaded, input only searches: it never fetches and keeps the documents. */
  lemma InputWhenLoaded(q: Page, later: string)
    requires q.indexLoaded
    ensures !Input(q, later).1 && Input(q, later).0.indexLoaded && Input(q, later).0.docs == q.docs
  {
    assert Input(q, later) == Searched(q, Trim(later));
  }

  /** The page after a sequence of `input` events, and whether any of them started a request. */
  function AfterInputs(p: Page, values: seq<string>): Page
    decreases |values|
  {
    if values == [] then p else AfterInputs(Input(p, values[0]).0, values[1..])
  }

  function AnyFetch(p: Page, values: seq<string>): bool
    decreases |values|
  {
    values != [] && (Input(p, values[0]).1 || AnyFetch(Input(p, values[0]).0, values[1..]))
  }

  /** A failed request never resets `loading`: once the index is loading and not loaded (as after a
      failure), no sequence of inputs ever requests it again, and the index stays unloaded and
      empty of new documents. */
  lemma {:induction false} StuckAfterFailure(p: Page, values: seq<string>)
    requires p.loading && !p.indexLoaded
    ensures !AnyFetch(p, values)
    ensures var q := AfterInputs(p, values);
      q.loading && !q.indexLoaded && q.docs == p.docs
    decreases |values|
  {
    if values != [] {
      var next := Input(p, values[0]).0;
      assert next.loading && !next.indexLoaded && next.docs == p.docs;
      StuckAfterFailure(next, values[1..]);
    }
  }

  // ---------------------------------------------------------------------------------------------
  // The script

  /** The module variables of the script and the results container. */
  class LocalSearchPage {
    var docs: seq<Doc>
    var indexLoaded: bool
    var loading: bool
    /** The rows appended to the results container, in order. */
    var shown: seq<Row>

    function State(): Page
      reads this
    {
      Page(docs, indexLoaded, loading, shown)
    }

    constructor ()
      ensures State() == Start
    {
      docs, indexLoaded, loading, shown := [], false, false, [];
    }

    /** `fetchIndex`. */
    method FetchIndex() returns (started: bool)
      modifies this
      ensures (State(), started) == Fetched(old(State()))
    {
      if indexLoaded || loading {
        return false;
      }
      loading := true;
      started := true;
    }

    /** `clearResults`: removes the container's first child while there is one. */
    method ClearResults()
      modifies this
      ensures State() == old(State()).(shown := [])
    {
      while |shown| > 0
        invariant docs == old(docs) && indexLoaded == old(indexLoaded) && loading == old(loading)
        decreases |shown|
      {
        shown := shown[1..];
      }
    }

    /** The `for` loop of `performSearch`: the documents whose haystack contains `q`. */
    static method Collect(docs: seq<Doc>, query: string) returns (results: seq<Doc>)
      ensures results == Matching(docs, query)
    {
      var q := Lower(query);
      results := [];
      for i := 0 to |docs|
        invariant results == Filter(docs[..i], QueryMatches(query))
      {
        var d := docs[i];
        var haystack := Haystack(d);
        FilterAppend(docs[..i], [d], QueryMatches(query));
        TakeSnoc(docs, i);
        if IndexOf(haystack, q).Some? {
          results := results + [d];
        }
      }
      TakeAll(docs);
    }

    /** The `forEach` appending one template row per result. */
    method Display(results: seq<Doc>)
      modifies this
      ensures State() == old(State()).(shown := old(shown) + RowsOf(results))
    {
      ghost var start := shown;
      for k := 0 to |results|
        invariant docs == old(docs) && indexLoaded == old(indexLoaded) && loading == old(loading)
        invariant shown == start + RowsOf(results[..k])
      {
        RowsOfSnoc(results[..k], results[k]);
        TakeSnoc(results, k);
        AppendAssoc(start, RowsOf(results[..k]), [DisplayRow(results[k])]);
        shown := shown + [DisplayRow(results[k])];
      }
      TakeAll(results);
    }

    /** `performSearch(query)`. */
    method PerformSearch(query: string) returns (started: bool)
      modifies this
      ensures (State(), started) == Searched(old(State()), query)
    {
      ghost var before := State();
      ClearResults();
      if query == "" {
        return false;
      }
      if !indexLoaded {
        started := FetchIndex();
        return;
      }
      var results := Collect(docs, query);
      ghost var cleared := State();
      Display(Take(results, MaxShown));
      assert State() == cleared.(shown := RowsOf(Take(Matching(before.docs, query), MaxShown)));
      started := false;
    }

    /** The `input` event handler, given the input's value. */
    method OnInput(value: string) returns (started: bool)
      modifies this
      ensures (State(), started) == Input(old(State()), value)
    {
      var q := Trim(value);
      if !indexLoaded && q != "" {
        started := FetchIndex();
      } else {
        started := PerformSearch(q);
      }
    }

    /** The index request resolved: store the documents, mark the index loaded, and search again
        for the input's current trimmed value. */
    method IndexArrived(found: Option<seq<Doc>>, value: string)
      modifies this
      ensures State() == Loaded(old(State()), found, value)
    {
      docs := found.GetOr([]);
      indexLoaded := true;
      ghost var stored := State();
      assert stored == old(State()).(docs := found.GetOr([]), indexLoaded := true);
      var _ := PerformSearch(Trim(value));
    }
  }

  lemma {:induction false} RowsOfSnoc(ds: seq<Doc>, d: Doc)
    ensures RowsOf(ds + [d]) == RowsOf(ds) + [DisplayRow(d)]
  {
  }
}
